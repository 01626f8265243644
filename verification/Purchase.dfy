/** The purchase chain as a whole: the desk, the approval service with concurrent settlements, the
    rail, and every other party's signatures, interleaved in any order. */
module Purchase {
  import opened Prelude
  import opened Merchant
  import opened Settlement
  import opened MerchantDesk
  import opened ApprovalService

  /** What never changes: the desk's terms, the two keys that sign only through this code, and the keys
      that can get themselves registered under the desk's id. */
  datatype World = World(terms: Terms, deskKey: Key, settlementKey: Key, registrable: Key -> bool)

  /** No key but these two can be registered under the desk's id. */
  ghost predicate Closed(w: World) {
    forall k :: w.registrable(k) ==> k == w.deskKey || k == w.settlementKey
  }

  /** A settlement request: waiting for its thread, about to charge, charged, or over. */
  datatype Phase = Queued(i: nat) | Charging(i: nat) | Charged(i: nat, ref: Ref) | Done

  /** A passkey holder approved these terms in a role. */
  datatype Consent = Consent(role: Role, key: Key, terms: Invoice)

  /** `made` holds every signature anybody has made, `shipped` the nonces in the order shipped. */
  datatype State = State(service: Books, desk: Orders, ledger: seq<Charge>, calls: seq<Phase>, made: set<Signature>,
                         enrolled: set<Credential>, consents: set<Consent>, shipped: seq<Nonce>)

  /** How an attempt on the rail ends: it goes through, goes through with the answer lost, or is declined. */
  datatype Attempt = GoesThrough(ref: Ref) | AnswerLost(ref: Ref) | Declines

  datatype Event =
    | Enrol(id: CredentialId, key: Key, role: Role)
    | Trust(merchantId: MerchantId, key: Key)
    | OthersSign(sig: Signature)
    | Quote(items: seq<Proposed>, deliverTo: Option<Place>, quotedAt: int, checkedAt: int, unused: Nonce)
    | Request(doc: Doc, sig: Signature, now: int)
    | Approve(i: nat, id: CredentialId, sig: Signature)
    | SettleBegins(nonce: Nonce, merchantId: MerchantId, amount: Num)
    | SettleChecks(c: nat)
    | SettleCharges(c: nat, attempt: Attempt)
    | SettleRecords(c: nat)
    | Commit(doc: Doc, sig: Signature, now: int)
    | Fulfil(receipt: Receipt, sig: Signature)

  /** Signatures shown must have been made, and a quote's nonce is new. */
  predicate Enabled(w: World, s: State, e: Event) {
    match e
    case Trust(m, key) => m == w.terms.merchantId ==> w.registrable(key)
    case OthersSign(sig) => sig.key != w.deskKey && sig.key != w.settlementKey
    case Quote(_, _, quotedAt, checkedAt, unused) => unused !in s.desk.issued && quotedAt <= checkedAt
    case Request(_, sig, _) => sig in s.made
    case Approve(_, _, sig) => sig in s.made
    case Commit(_, sig, _) => sig in s.made
    case Fulfil(_, sig) => sig in s.made
    case SettleChecks(c) => c < |s.calls| && s.calls[c].Queued?
    case SettleCharges(c, _) => c < |s.calls| && s.calls[c].Charging?
    case SettleRecords(c) => c < |s.calls| && s.calls[c].Charged?
    case _ => true
  }

  // ---- The steps ----

  function AfterQuote(w: World, s: State, inv: Invoice, checkedAt: int): State {
    match Quoted(w.terms, s.desk, inv, checkedAt)
    case None => s
    case Some(desk) => s.(desk := desk, made := s.made + {Signature(w.deskKey, InvoiceDoc(inv))})
  }

  function AfterApprove(s: State, i: nat, id: CredentialId, sig: Signature): State {
    match AfterApproval(s.service, i, id, sig)
    case None => s
    case Some(service) =>
      var c := s.service.credentials[id];
      s.(service := service, consents := s.consents + {Consent(c.role, c.key, s.service.pending[i].subject)})
  }

  function AfterCheck(s: State, c: nat): State
    requires c < |s.calls| && s.calls[c].Queued?
  {
    var i := s.calls[c].i;
    s.(calls := s.calls[c := if i < |s.service.pending| && Ready(s.service.pending[i]) then Charging(i) else Done])
  }

  function AfterCharge(s: State, c: nat, attempt: Attempt): State
    requires c < |s.calls| && s.calls[c].Charging?
  {
    var i := s.calls[c].i;
    if i >= |s.service.pending| || !Chargeable(s.service.pending[i].subject) then s
    else if attempt.Declines? then s.(calls := s.calls[c := Done], service := AfterDecline(s.service, i))
    else
      var (ledger, reply) := Pay(s.ledger, ChargeFor(s.service.pending[i].subject, attempt.ref));
      if attempt.AnswerLost? then s.(ledger := ledger, calls := s.calls[c := Done])
      else if reply.Paid? then s.(ledger := ledger, calls := s.calls[c := Charged(i, reply.ref)])
      else s.(calls := s.calls[c := Done], service := AfterDecline(s.service, i))
  }

  function AfterRecord(w: World, s: State, c: nat): State
    requires c < |s.calls| && s.calls[c].Charged?
  {
    var i, ref := s.calls[c].i, s.calls[c].ref;
    if i >= |s.service.pending| then s
    else
      var receipt := PaymentReceipt(s.service.pending[i].subject, ref);
      s.(calls := s.calls[c := Done], service := AfterPayment(s.service, i, ref),
         made := s.made + {Signature(w.settlementKey, ReceiptDoc(receipt))})
  }

  function AfterFulfil(w: World, s: State, r: Receipt, sig: Signature): State {
    if !Shippable(s.desk, r, sig, w.settlementKey) then s
    else
      var n := r.nonce.value;
      var commitment := CommitmentTo(w.terms, s.desk.issued[n], n, r.ref);
      s.(desk := s.desk.(fulfilled := s.desk.fulfilled + {n}), shipped := s.shipped + [n],
         made := s.made + {Signature(w.deskKey, CommitmentDoc(commitment))})
  }

  function Step(w: World, s: State, e: Event): State
    requires Enabled(w, s, e)
  {
    match e
    case Enrol(id, key, role) =>
      s.(service := s.service.(credentials := s.service.credentials[id := Credential(key, role)]),
         enrolled := s.enrolled + {Credential(key, role)})
    case Trust(m, key) => s.(service := s.service.(trusted := s.service.trusted[m := key]))
    case OthersSign(sig) => s.(made := s.made + {sig})
    case Quote(items, deliverTo, quotedAt, checkedAt, unused) =>
      AfterQuote(w, s, Draft(w.terms, items, deliverTo, quotedAt, unused), checkedAt)
    case Request(doc, sig, now) =>
      (match Requested(s.service, doc, sig, now) case None => s case Some(b) => s.(service := b))
    case Approve(i, id, sig) => AfterApprove(s, i, id, sig)
    case SettleBegins(nonce, m, amount) =>
      (match Selected(s.service, nonce, m, amount) case None => s case Some(i) => s.(calls := s.calls + [Queued(i)]))
    case SettleChecks(c) => AfterCheck(s, c)
    case SettleCharges(c, attempt) => AfterCharge(s, c, attempt)
    case SettleRecords(c) => AfterRecord(w, s, c)
    case Commit(doc, sig, now) =>
      (match AfterCommitment(s.service, doc, sig, now) case None => s case Some(b) => s.(service := b))
    case Fulfil(r, sig) => AfterFulfil(w, s, r, sig)
  }

  const START := State(Books(map[], map[], []), Orders(map[], {}), [], [], {}, {}, {}, [])

  ghost predicate Run(w: World, s: State, es: seq<Event>, t: State)
    decreases |es|
  {
    if es == [] then s == t else Enabled(w, s, es[0]) && Run(w, Step(w, s, es[0]), es[1..], t)
  }

  ghost predicate Reachable(w: World, t: State) {
    exists es :: Run(w, START, es, t)
  }

  // ---- What stays true of every document ----

  ghost predicate Consented(consents: set<Consent>, role: Role, inv: Invoice) {
    exists k :: Consent(role, k, inv) in consents
  }

  /** Every role the total requires has approved exactly these terms. */
  ghost predicate AllConsented(consents: set<Consent>, inv: Invoice) {
    AmountOf(inv).Some? && forall r :: r in RequiredRoles(AmountOf(inv).value) ==> Consented(consents, r, inv)
  }

  predicate ChargedFor(ledger: seq<Charge>, inv: Invoice, ref: Ref) {
    Chargeable(inv) && ChargeFor(inv, ref) in ledger
  }

  predicate Issued(issued: map<Nonce, Invoice>, inv: Invoice) {
    inv.nonce.Some? && inv.nonce.value in issued && issued[inv.nonce.value] == inv
  }

  /** With registration closed, an invoice in the desk's name is the one the desk issued. */
  ghost predicate Vetted(w: World, issued: map<Nonce, Invoice>, inv: Invoice) {
    Closed(w) && inv.merchantId == w.terms.merchantId ==> Issued(issued, inv)
  }

  /** The four terms a receipt pins. */
  predicate SameTerms(inv: Invoice, order: Invoice) {
    inv.nonce == order.nonce && inv.merchantId == order.merchantId && SameNumber(inv.total, order.total) && inv.currency == order.currency
  }

  ghost predicate Backed(w: World, s: State, r: Receipt, inv: Invoice) {
    && r == PaymentReceipt(inv, r.ref)
    && AllConsented(s.consents, inv) && ChargedFor(s.ledger, inv, r.ref) && Vetted(w, s.desk.issued, inv)
  }

  ghost predicate ReceiptOk(w: World, s: State, r: Receipt) {
    exists inv :: Backed(w, s, r, inv)
  }

  ghost predicate CommitmentOk(w: World, s: State, c: Commitment) {
    && c.nonce in s.desk.fulfilled && c.nonce in s.desk.issued
    && c == CommitmentTo(w.terms, s.desk.issued[c.nonce], c.nonce, c.ref)
    && ChargedFor(s.ledger, s.desk.issued[c.nonce], c.ref)
  }

  ghost predicate SignatureOk(w: World, s: State, sig: Signature) {
    && (sig.key == w.deskKey ==>
          || (sig.doc.InvoiceDoc? && sig.doc.invoice.merchantId == w.terms.merchantId && Issued(s.desk.issued, sig.doc.invoice))
          || (sig.doc.CommitmentDoc? && CommitmentOk(w, s, sig.doc.commitment)))
    && (sig.key == w.settlementKey ==>
          sig.doc.ReceiptDoc? && ReceiptOk(w, s, sig.doc.receipt) && Filed(s.service.pending, sig.doc.receipt.nonce))
  }

  // ---- What stays true of the records, the calls and the orders ----

  ghost predicate RecordOk(w: World, s: State, p: Record) {
    && AmountOf(p.subject).Some? && p.required == RequiredRoles(AmountOf(p.subject).value)
    && Vetted(w, s.desk.issued, p.subject)
    && (forall role :: role in p.approvals ==> Consented(s.consents, role, p.subject))
    && (p.status == Approved || p.status == Settled ==> FullyApproved(p))
  }

  /** No earlier record has this record's nonce. */
  predicate IsFirst(pending: seq<Record>, i: nat) {
    i < |pending| && forall j :: 0 <= j < i ==> pending[j].subject.nonce != pending[i].subject.nonce
  }

  /** Some record for the nonce carries a receipt. */
  ghost predicate Filed(pending: seq<Record>, nonce: Option<Nonce>) {
    exists i :: 0 <= i < |pending| && FiledHere(pending[i], nonce)
  }

  predicate FiledHere(p: Record, nonce: Option<Nonce>) {
    p.receipt.Some? && p.subject.nonce == nonce
  }

  /** A receipt on a record is the service's own signed receipt for it, paid for and fully approved,
      and the record is the first for its nonce. */
  predicate FiledAt(w: World, s: State, i: nat)
    requires i < |s.service.pending|
  {
    var p := s.service.pending[i];
    p.receipt.Some? ==>
      && IsFirst(s.service.pending, i) && FullyApproved(p)
      && p.receipt.value == PaymentReceipt(p.subject, p.receipt.value.ref)
      && ChargedFor(s.ledger, p.subject, p.receipt.value.ref)
      && Signature(w.settlementKey, ReceiptDoc(p.receipt.value)) in s.made
  }

  predicate CallOk(s: State, call: Phase) {
    call.Done? ||
      (IsFirst(s.service.pending, call.i) && s.service.pending[call.i].subject.nonce.Some?
       && (call.Queued? || FullyApproved(s.service.pending[call.i]))
       && (call.Charged? ==> ChargedFor(s.ledger, s.service.pending[call.i].subject, call.ref)))
  }

  ghost predicate OrderOk(w: World, s: State, n: Nonce) {
    && n in s.desk.issued
    && s.desk.issued[n].nonce == Some(n) && s.desk.issued[n].merchantId == w.terms.merchantId
    && Bindable(w.terms.policy, s.desk.issued[n])
  }

  /** These terms, the same four as the order's, were approved by every required role and charged. */
  ghost predicate Delivered(w: World, s: State, n: Nonce, inv: Invoice, ref: Ref) {
    && n in s.desk.issued && SameTerms(inv, s.desk.issued[n])
    && AllConsented(s.consents, inv) && ChargedFor(s.ledger, inv, ref) && Vetted(w, s.desk.issued, inv)
  }

  ghost predicate DeliveryOk(w: World, s: State, n: Nonce) {
    exists inv, ref :: Delivered(w, s, n, inv, ref)
  }

  ghost predicate ConsentOk(s: State, c: Consent) {
    Credential(c.key, c.role) in s.enrolled && Signature(c.key, ConsentDoc(c.terms)) in s.made
  }

  ghost predicate ShippedOnce(shipped: seq<Nonce>, fulfilled: set<Nonce>) {
    && (forall i, j :: 0 <= i < j < |shipped| ==> shipped[i] != shipped[j])
    && (forall n :: n in shipped <==> n in fulfilled)
  }

  ghost predicate Inv(w: World, s: State) {
    && (w.terms.merchantId in s.service.trusted ==> w.registrable(s.service.trusted[w.terms.merchantId]))
    && (forall sig :: sig in s.made ==> SignatureOk(w, s, sig))
    && (forall i :: 0 <= i < |s.service.pending| ==> RecordOk(w, s, s.service.pending[i]))
    && (forall i :: 0 <= i < |s.service.pending| ==> FiledAt(w, s, i))
    && (forall c :: 0 <= c < |s.calls| ==> CallOk(s, s.calls[c]))
    && (forall n :: n in s.desk.issued ==> OrderOk(w, s, n))
    && (forall n :: n in s.desk.fulfilled ==> DeliveryOk(w, s, n))
    && (forall c :: c in s.consents ==> ConsentOk(s, c))
    && (forall id :: id in s.service.credentials ==> s.service.credentials[id] in s.enrolled)
    && OncePerNonce(s.ledger) && ShippedOnce(s.shipped, s.desk.fulfilled)
  }

  // ---- Nothing established is lost ----

  ghost predicate RecordGrows(p: Record, q: Record) {
    && p.subject == q.subject && p.required == q.required
    && (forall r :: r in p.approvals ==> r in q.approvals)
    && (p.receipt.Some? ==> q.receipt.Some?)
  }

  ghost predicate Grows(s: State, t: State) {
    && s.made <= t.made && s.enrolled <= t.enrolled && s.consents <= t.consents && s.ledger <= t.ledger
    && s.desk.fulfilled <= t.desk.fulfilled
    && (forall n :: n in s.desk.issued ==> n in t.desk.issued && t.desk.issued[n] == s.desk.issued[n])
    && |s.service.pending| <= |t.service.pending|
    && forall i :: 0 <= i < |s.service.pending| ==> RecordGrows(s.service.pending[i], t.service.pending[i])
  }

  lemma ConsentsGrow(s: State, t: State, inv: Invoice)
    requires Grows(s, t) && AllConsented(s.consents, inv)
    ensures AllConsented(t.consents, inv)
  {
    forall r | r in RequiredRoles(AmountOf(inv).value)
      ensures Consented(t.consents, r, inv)
    {
      assert Consented(s.consents, r, inv);
    }
  }

  lemma SignatureKept(w: World, s: State, t: State, sig: Signature)
    requires Grows(s, t) && SignatureOk(w, s, sig)
    ensures SignatureOk(w, t, sig)
  {
    hide AllConsented;
    if sig.key == w.settlementKey {
      var inv :| Backed(w, s, sig.doc.receipt, inv);
      ConsentsGrow(s, t, inv);
      assert Backed(w, t, sig.doc.receipt, inv);
      FiledStays(s, t, sig.doc.receipt.nonce);
    }
  }

  lemma RecordKept(w: World, s: State, t: State, p: Record)
    requires Grows(s, t) && RecordOk(w, s, p)
    ensures RecordOk(w, t, p)
  {
    forall role | role in p.approvals
      ensures Consented(t.consents, role, p.subject)
    {
      assert Consented(s.consents, role, p.subject);
    }
  }

  lemma CallKept(s: State, t: State, call: Phase)
    requires Grows(s, t) && CallOk(s, call)
    ensures CallOk(t, call)
  {
    if !call.Done? {
      FirstKept(s, t, call.i);
      assert RecordGrows(s.service.pending[call.i], t.service.pending[call.i]);
    }
  }

  lemma DeliveryKept(w: World, s: State, t: State, n: Nonce)
    requires Grows(s, t) && DeliveryOk(w, s, n)
    ensures DeliveryOk(w, t, n)
  {
    hide AllConsented;
    var inv, ref :| Delivered(w, s, n, inv, ref);
    ConsentsGrow(s, t, inv);
    assert Delivered(w, t, n, inv, ref);
  }

  predicate SameReceipt(s: State, t: State, i: nat)
    requires i < |t.service.pending|
  {
    i < |s.service.pending| && t.service.pending[i].receipt == s.service.pending[i].receipt
  }

  lemma FiledKept(w: World, s: State, t: State, i: nat)
    requires Grows(s, t) && i < |s.service.pending| && FiledAt(w, s, i) && SameReceipt(s, t, i)
    ensures FiledAt(w, t, i)
  {
    if t.service.pending[i].receipt.Some? {
      FirstKept(s, t, i);
      assert RecordGrows(s.service.pending[i], t.service.pending[i]);
    }
  }

  lemma FirstKept(s: State, t: State, i: nat)
    requires Grows(s, t) && IsFirst(s.service.pending, i)
    ensures IsFirst(t.service.pending, i)
  {
    forall j | 0 <= j <= i
      ensures t.service.pending[j].subject == s.service.pending[j].subject
    {
      assert RecordGrows(s.service.pending[j], t.service.pending[j]);
    }
  }

  lemma FiledStays(s: State, t: State, nonce: Option<Nonce>)
    requires Grows(s, t) && Filed(s.service.pending, nonce)
    ensures Filed(t.service.pending, nonce)
  {
    var i :| 0 <= i < |s.service.pending| && FiledHere(s.service.pending[i], nonce);
    assert RecordGrows(s.service.pending[i], t.service.pending[i]);
    assert FiledHere(t.service.pending[i], nonce);
  }

  /** What a step adds or changes is in order. */
  ghost predicate NewsOk(w: World, s: State, t: State) {
    && (w.terms.merchantId in t.service.trusted ==> w.registrable(t.service.trusted[w.terms.merchantId]))
    && (forall sig :: sig in t.made && sig !in s.made ==> SignatureOk(w, t, sig))
    && (forall i :: 0 <= i < |t.service.pending| && !(i < |s.service.pending| && t.service.pending[i] == s.service.pending[i]) ==>
          RecordOk(w, t, t.service.pending[i]))
    && (forall i :: 0 <= i < |t.service.pending| && !SameReceipt(s, t, i) ==> FiledAt(w, t, i))
    && (forall c :: 0 <= c < |t.calls| && !(c < |s.calls| && t.calls[c] == s.calls[c]) ==> CallOk(t, t.calls[c]))
    && (forall n :: n in t.desk.issued && n !in s.desk.issued ==> OrderOk(w, t, n))
    && (forall n :: n in t.desk.fulfilled && n !in s.desk.fulfilled ==> DeliveryOk(w, t, n))
    && (forall c :: c in t.consents && c !in s.consents ==> ConsentOk(t, c))
    && (forall id :: id in t.service.credentials ==> t.service.credentials[id] in t.enrolled)
    && OncePerNonce(t.ledger) && ShippedOnce(t.shipped, t.desk.fulfilled)
  }

  lemma Carried(w: World, s: State, t: State)
    requires Inv(w, s) && Grows(s, t) && NewsOk(w, s, t)
    ensures Inv(w, t)
  {
    SignaturesCarried(w, s, t);
    RecordsCarried(w, s, t);
    hide SignatureOk, RecordOk, FiledAt, CallOk, OrderOk, DeliveryOk, ConsentOk, OncePerNonce, ShippedOnce;
    forall c | 0 <= c < |t.calls|
      ensures CallOk(t, t.calls[c])
    {
      if c < |s.calls| && t.calls[c] == s.calls[c] {
        CallKept(s, t, s.calls[c]);
      }
    }
    forall n | n in t.desk.issued
      ensures OrderOk(w, t, n)
    {
      if n in s.desk.issued {
        OrderKept(w, s, t, n);
      }
    }
    forall n | n in t.desk.fulfilled
      ensures DeliveryOk(w, t, n)
    {
      if n in s.desk.fulfilled {
        DeliveryKept(w, s, t, n);
      }
    }
    forall c | c in t.consents
      ensures ConsentOk(t, c)
    {
      if c in s.consents {
        ConsentKept(s, t, c);
      }
    }
  }

  lemma OrderKept(w: World, s: State, t: State, n: Nonce)
    requires Grows(s, t) && n in s.desk.issued && OrderOk(w, s, n)
    ensures OrderOk(w, t, n)
  {
  }

  lemma ConsentKept(s: State, t: State, c: Consent)
    requires Grows(s, t) && ConsentOk(s, c)
    ensures ConsentOk(t, c)
  {
  }

  lemma SignaturesCarried(w: World, s: State, t: State)
    requires Inv(w, s) && Grows(s, t) && NewsOk(w, s, t)
    ensures forall sig :: sig in t.made ==> SignatureOk(w, t, sig)
  {
    hide SignatureOk, RecordOk, FiledAt, CallOk, OrderOk, DeliveryOk, ConsentOk, OncePerNonce, ShippedOnce;
    forall sig | sig in t.made
      ensures SignatureOk(w, t, sig)
    {
      if sig in s.made {
        SignatureKept(w, s, t, sig);
      }
    }
  }

  lemma RecordsCarried(w: World, s: State, t: State)
    requires Inv(w, s) && Grows(s, t) && NewsOk(w, s, t)
    ensures forall i :: 0 <= i < |t.service.pending| ==> RecordOk(w, t, t.service.pending[i]) && FiledAt(w, t, i)
  {
    hide SignatureOk, RecordOk, FiledAt, CallOk, OrderOk, DeliveryOk, ConsentOk, OncePerNonce, ShippedOnce;
    forall i | 0 <= i < |t.service.pending|
      ensures RecordOk(w, t, t.service.pending[i]) && FiledAt(w, t, i)
    {
      if i < |s.service.pending| && t.service.pending[i] == s.service.pending[i] {
        RecordKept(w, s, t, s.service.pending[i]);
      }
      if SameReceipt(s, t, i) {
        FiledKept(w, s, t, i);
      }
    }
  }

  // ---- Step by step ----

  ghost predicate Keeps(w: World, s: State, e: Event)
    requires Enabled(w, s, e)
  {
    Grows(s, Step(w, s, e)) && Inv(w, Step(w, s, e))
  }

  /** Neither of the two keys this code signs with is the other. */
  predicate Proper(w: World) {
    w.deskKey != w.settlementKey
  }

  /** Enrolment, registration of a merchant, and other parties' signatures. */
  lemma OutsideKeeps(w: World, s: State, e: Event)
    requires Inv(w, s) && (e.Enrol? || e.Trust? || e.OthersSign?) && Enabled(w, s, e)
    ensures Keeps(w, s, e)
  {
    hide AfterQuote, AfterApprove, AfterCheck, AfterCharge, AfterRecord, AfterFulfil, Requested, Selected, AfterCommitment;
    hide FiledAt, RecordOk, CallOk, OrderOk, DeliveryOk, ConsentOk, OncePerNonce, ShippedOnce, CommitmentOk, ReceiptOk;
    Carried(w, s, Step(w, s, e));
  }

  lemma QuoteKeeps(w: World, s: State, e: Event)
    requires Proper(w) && Inv(w, s) && e.Quote? && Enabled(w, s, e)
    ensures Keeps(w, s, e)
  {
    hide AfterApprove, AfterCheck, AfterCharge, AfterRecord, AfterFulfil, Requested, Selected, AfterCommitment;
    hide FiledAt, RecordOk, CallOk, DeliveryOk, ConsentOk, OncePerNonce, ShippedOnce, CommitmentOk, ReceiptOk, Violations, Bindable, FillAll, LooseTotal;
    var inv := Draft(w.terms, e.items, e.deliverTo, e.quotedAt, e.unused);
    CheckedExactly(w.terms.policy, inv, e.checkedAt);
    Carried(w, s, Step(w, s, e));
  }

  /** A verified invoice in the desk's name is one the desk issued. */
  lemma VerifiedIsVetted(w: World, s: State, inv: Invoice, sig: Signature, now: int)
    requires Proper(w) && Inv(w, s) && sig in s.made && Verified(InvoiceDoc(inv), sig, s.service.trusted, now)
    ensures Vetted(w, s.desk.issued, inv)
  {
    hide FiledAt, RecordOk, CallOk, OrderOk, DeliveryOk, ConsentOk, OncePerNonce, ShippedOnce, CommitmentOk, ReceiptOk;
    assert SignatureOk(w, s, sig);
  }

  lemma RequestKeeps(w: World, s: State, e: Event)
    requires Proper(w) && Inv(w, s) && e.Request? && Enabled(w, s, e)
    ensures Keeps(w, s, e)
  {
    hide AfterQuote, AfterApprove, AfterCheck, AfterCharge, AfterRecord, AfterFulfil, Selected, AfterCommitment;
    hide SignatureOk, CallOk, OrderOk, DeliveryOk, ConsentOk, OncePerNonce, ShippedOnce, Vetted, Verified;
    if Requested(s.service, e.doc, e.sig, e.now).Some? {
      VerifiedIsVetted(w, s, e.doc.invoice, e.sig, e.now);
    }
    Carried(w, s, Step(w, s, e));
  }

  /** A step that rewrites one record, ends calls, and adds signatures and consents in order. */
  ghost predicate Rewrites(w: World, s: State, t: State, i: nat) {
    && i < |s.service.pending| && |t.service.pending| == |s.service.pending|
    && t.service == s.service.(pending := s.service.pending[i := t.service.pending[i]])
    && t.desk == s.desk && t.ledger == s.ledger && t.enrolled == s.enrolled && t.shipped == s.shipped
    && RecordGrows(s.service.pending[i], t.service.pending[i]) && RecordOk(w, t, t.service.pending[i])
    && (t.service.pending[i].receipt == s.service.pending[i].receipt || FiledAt(w, t, i))
    && s.made <= t.made && (forall sig :: sig in t.made && sig !in s.made ==> SignatureOk(w, t, sig))
    && s.consents <= t.consents && (forall c :: c in t.consents && c !in s.consents ==> ConsentOk(t, c))
    && |t.calls| == |s.calls| && forall c :: 0 <= c < |s.calls| ==> t.calls[c] == s.calls[c] || t.calls[c].Done?
  }

  lemma RewriteKeeps(w: World, s: State, t: State, i: nat)
    requires Inv(w, s) && Rewrites(w, s, t, i)
    ensures Grows(s, t) && Inv(w, t)
  {
    hide SignatureOk, RecordOk, FiledAt, OrderOk, DeliveryOk, ConsentOk, OncePerNonce, ShippedOnce, RecordGrows;
    forall j | 0 <= j < |s.service.pending|
      ensures RecordGrows(s.service.pending[j], t.service.pending[j])
    {
      RecordGrowsItself(s.service.pending[j]);
    }
    hide CallOk;
    forall c | 0 <= c < |t.calls| && t.calls[c].Done?
      ensures CallOk(t, t.calls[c])
    {
      DoneOk(t);
    }
    Carried(w, s, t);
  }

  lemma RecordGrowsItself(p: Record)
    ensures RecordGrows(p, p)
  {
  }

  lemma ApproveKeeps(w: World, s: State, e: Event)
    requires Inv(w, s) && e.Approve? && Enabled(w, s, e)
    ensures Keeps(w, s, e)
  {
    hide AfterQuote, AfterCheck, AfterCharge, AfterRecord, AfterFulfil, Requested, Selected, AfterCommitment;
    var t := Step(w, s, e);
    if MayApprove(s.service, e.i, e.id, e.sig) {
      var p, c := s.service.pending[e.i], s.service.credentials[e.id];
      ApprovalOk(w, s, t, p, t.service.pending[e.i], c, e.id);
      hide Inv, Grows, SignatureOk, RecordOk, FiledAt;
      RewriteKeeps(w, s, t, e.i);
    } else {
      GrowsItself(s);
    }
  }

  lemma ApprovalOk(w: World, s: State, t: State, p: Record, q: Record, c: Credential, id: CredentialId)
    requires RecordOk(w, s, p) && s.desk == t.desk && q == WithApproval(p, c.role, id)
    requires t.consents == s.consents + {Consent(c.role, c.key, p.subject)}
    ensures RecordOk(w, t, q)
  {
    hide Vetted, AmountOf;
    assert Consented(t.consents, c.role, p.subject);
    forall role | role in p.approvals
      ensures Consented(t.consents, role, p.subject)
    {
      assert Consented(s.consents, role, p.subject);
    }
  }

  lemma SettleBeginsKeeps(w: World, s: State, e: Event)
    requires Inv(w, s) && e.SettleBegins? && Enabled(w, s, e)
    ensures Keeps(w, s, e)
  {
    hide AfterQuote, AfterApprove, AfterCheck, AfterCharge, AfterRecord, AfterFulfil, Requested, AfterCommitment;
    hide FiledAt, SignatureOk, RecordOk, OrderOk, DeliveryOk, ConsentOk, OncePerNonce, ShippedOnce, SameNumber;
    Carried(w, s, Step(w, s, e));
  }

  lemma SettleChecksKeeps(w: World, s: State, e: Event)
    requires Inv(w, s) && e.SettleChecks? && Enabled(w, s, e)
    ensures Keeps(w, s, e)
  {
    hide AfterQuote, AfterApprove, AfterCharge, AfterRecord, AfterFulfil, Requested, Selected, AfterCommitment;
    hide SignatureOk, OrderOk, DeliveryOk, ConsentOk, OncePerNonce, ShippedOnce, Vetted, Consented;
    var i := s.calls[e.c].i;
    assert CallOk(s, s.calls[e.c]) && RecordOk(w, s, s.service.pending[i]);
    hide RecordOk, AmountOf;
    Carried(w, s, Step(w, s, e));
  }

  /** A record stays in order whatever happens to its receipt, marks and status, as long as only a fully
      approved one is approved or settled. */
  lemma MarkedOk(w: World, s: State, t: State, p: Record, q: Record)
    requires RecordOk(w, s, p) && s.desk == t.desk && s.consents == t.consents
    requires q == p.(receipt := q.receipt, declined := q.declined, commitment := q.commitment, status := q.status)
    requires q.status == Fulfilled || q.status == p.status || FullyApproved(p)
    ensures RecordOk(w, t, q)
  {
    hide Vetted, AmountOf, Consented;
  }

  lemma DeclineKeeps(w: World, s: State, t: State, c: nat, i: nat)
    requires Inv(w, s) && c < |s.calls| && i < |s.service.pending|
    requires t == s.(calls := s.calls[c := Done], service := AfterDecline(s.service, i))
    ensures Grows(s, t) && Inv(w, t)
  {
    MarkedOk(w, s, t, s.service.pending[i], t.service.pending[i]);
    hide Inv, Grows, SignatureOk, RecordOk, ConsentOk, FiledAt;
    RewriteKeeps(w, s, t, i);
  }

  lemma DoneOk(s: State)
    ensures CallOk(s, Done)
  {
  }

  lemma PaidKeeps(w: World, s: State, t: State, c: nat, ledger: seq<Charge>, phase: Phase)
    requires Inv(w, s) && c < |s.calls| && t == s.(ledger := ledger, calls := s.calls[c := phase])
    requires s.ledger <= ledger && OncePerNonce(ledger) && CallOk(t, phase)
    ensures Grows(s, t) && Inv(w, t)
  {
    hide FiledAt, SignatureOk, RecordOk, OrderOk, DeliveryOk, ConsentOk, OncePerNonce, ShippedOnce, CallOk;
    Carried(w, s, t);
  }

  lemma SettleChargesKeeps(w: World, s: State, e: Event)
    requires Inv(w, s) && e.SettleCharges? && Enabled(w, s, e)
    ensures Keeps(w, s, e)
  {
    hide AfterQuote, AfterApprove, AfterCheck, AfterRecord, AfterFulfil, Requested, Selected, AfterCommitment;
    hide OrderOk, DeliveryOk, ConsentOk, OncePerNonce, ShippedOnce, SignatureOk, RecordOk, Pay, ChargeFor, FullyApproved, ChargedFor, Chargeable;
    var t, i := Step(w, s, e), s.calls[e.c].i;
    assert CallOk(s, s.calls[e.c]) && OncePerNonce(s.ledger);
    hide Inv, Grows;
    var p := s.service.pending[i];
    if !Chargeable(p.subject) {
      GrowsItself(s);
    } else if e.attempt.Declines? {
      DeclineKeeps(w, s, t, e.c, i);
    } else {
      PayOnce(s.ledger, ChargeFor(p.subject, e.attempt.ref));
      PaidIsCharged(s.ledger, p.subject, e.attempt.ref);
      var (ledger, reply) := Pay(s.ledger, ChargeFor(p.subject, e.attempt.ref));
      if e.attempt.AnswerLost? {
        PaidKeeps(w, s, t, e.c, ledger, Done);
      } else if reply.Paid? {
        PaidKeeps(w, s, t, e.c, ledger, Charged(i, reply.ref));
      } else {
        DeclineKeeps(w, s, t, e.c, i);
      }
    }
  }

  lemma PaidIsCharged(ledger: seq<Charge>, inv: Invoice, ref: Ref)
    requires Chargeable(inv)
    ensures var (after, reply) := Pay(ledger, ChargeFor(inv, ref));
      ledger <= after && (reply.Paid? ==> ChargedFor(after, inv, reply.ref))
  {
  }

  lemma SettleRecordsKeeps(w: World, s: State, e: Event)
    requires Proper(w) && Inv(w, s) && e.SettleRecords? && Enabled(w, s, e)
    ensures Keeps(w, s, e)
  {
    hide AfterQuote, AfterApprove, AfterCheck, AfterCharge, AfterFulfil, Requested, Selected, AfterCommitment;
    var t, i := Step(w, s, e), s.calls[e.c].i;
    assert CallOk(s, s.calls[e.c]);
    var p, receipt := s.service.pending[i], PaymentReceipt(s.service.pending[i].subject, s.calls[e.c].ref);
    ReceiptFromRecord(w, s, p, s.calls[e.c].ref);
    ReceiptKept(w, s, t, receipt);
    MarkedOk(w, s, t, p, t.service.pending[i]);
    PaymentFiled(w, s, t, i, receipt);
    ReceiptSigned(w, t, receipt);
    hide Inv, Grows, SignatureOk, RecordOk, ConsentOk, ChargedFor, FullyApproved, ReceiptOk, FiledAt, Filed;
    RewriteKeeps(w, s, t, i);
  }

  lemma ReceiptSigned(w: World, t: State, r: Receipt)
    requires Proper(w) && ReceiptOk(w, t, r) && Filed(t.service.pending, r.nonce)
    ensures SignatureOk(w, t, Signature(w.settlementKey, ReceiptDoc(r)))
  {
  }

  lemma PaymentFiled(w: World, s: State, t: State, i: nat, r: Receipt)
    requires IsFirst(s.service.pending, i) && FullyApproved(s.service.pending[i]) && s.ledger == t.ledger
    requires ChargedFor(s.ledger, s.service.pending[i].subject, r.ref) && r == PaymentReceipt(s.service.pending[i].subject, r.ref)
    requires t.service.pending == s.service.pending[i := s.service.pending[i].(receipt := Some(r), status := Settled)]
    requires Signature(w.settlementKey, ReceiptDoc(r)) in t.made
    ensures FiledAt(w, t, i) && Filed(t.service.pending, r.nonce)
  {
    hide ChargedFor;
    assert FiledHere(t.service.pending[i], r.nonce);
  }

  /** A fully approved and charged record backs its receipt. */
  lemma ReceiptFromRecord(w: World, s: State, p: Record, ref: Ref)
    requires RecordOk(w, s, p) && FullyApproved(p) && ChargedFor(s.ledger, p.subject, ref)
    ensures ReceiptOk(w, s, PaymentReceipt(p.subject, ref))
  {
    hide Vetted, Consented;
    assert Backed(w, s, PaymentReceipt(p.subject, ref), p.subject);
  }

  lemma ReceiptKept(w: World, s: State, t: State, r: Receipt)
    requires ReceiptOk(w, s, r) && s.consents == t.consents && s.ledger == t.ledger && s.desk == t.desk
    ensures ReceiptOk(w, t, r)
  {
    hide AllConsented, Vetted;
    var inv :| Backed(w, s, r, inv);
    assert Backed(w, t, r, inv);
  }

  lemma CommitKeeps(w: World, s: State, e: Event)
    requires Inv(w, s) && e.Commit? && Enabled(w, s, e)
    ensures Keeps(w, s, e)
  {
    hide AfterQuote, AfterApprove, AfterCheck, AfterCharge, AfterRecord, AfterFulfil, Requested, Selected;
    var t, i := Step(w, s, e), FirstFor(s.service.pending, NonceOf(e.doc));
    if AfterCommitment(s.service, e.doc, e.sig, e.now).Some? {
      MarkedOk(w, s, t, s.service.pending[i], t.service.pending[i]);
      hide Inv, Grows, SignatureOk, RecordOk, ConsentOk, FiledAt, Verified, NonceOf;
      RewriteKeeps(w, s, t, i);
    } else {
      GrowsItself(s);
    }
  }

  /** Two invoices with the same four terms, one of them bindable, cost the same and are charged alike. */
  lemma SameCharge(inv: Invoice, order: Invoice, p: Policy, ref: Ref)
    requires SameTerms(inv, order) && Bindable(p, order)
    ensures AmountOf(inv) == AmountOf(order) == Some(LinesTotal(p, order.items))
    ensures Chargeable(order) && Chargeable(inv) && ChargeFor(inv, ref) == ChargeFor(order, ref)
  {
  }

  /** A receipt the desk ships against is backed by an invoice with the order's four terms. */
  lemma ShippedIsDelivered(w: World, s: State, r: Receipt, sig: Signature)
    requires Inv(w, s) && sig in s.made && Shippable(s.desk, r, sig, w.settlementKey)
    ensures DeliveryOk(w, s, r.nonce.value) && ChargedFor(s.ledger, s.desk.issued[r.nonce.value], r.ref)
  {
    hide RecordOk, FiledAt, CallOk, DeliveryOk, ConsentOk, OncePerNonce, ShippedOnce, CommitmentOk, Bindable, AllConsented,
      SameNumber, Vetted, ChargeFor, Chargeable, Closed, Filed;
    assert SignatureOk(w, s, sig);
    var inv :| Backed(w, s, r, inv);
    var n := r.nonce.value;
    assert OrderOk(w, s, n);
    SameCharge(inv, s.desk.issued[n], w.terms.policy, r.ref);
    Delivers(w, s, n, inv, r.ref);
  }

  lemma Delivers(w: World, s: State, n: Nonce, inv: Invoice, ref: Ref)
    requires Delivered(w, s, n, inv, ref)
    ensures DeliveryOk(w, s, n)
  {
  }

  lemma CommitmentSigned(w: World, s: State, t: State, r: Receipt)
    requires Proper(w) && r.nonce.Some? && r.nonce.value in s.desk.issued && r.nonce.value in t.desk.fulfilled
    requires t.desk.issued == s.desk.issued && t.ledger == s.ledger && ChargedFor(s.ledger, s.desk.issued[r.nonce.value], r.ref)
    ensures var n := r.nonce.value;
      SignatureOk(w, t, Signature(w.deskKey, CommitmentDoc(CommitmentTo(w.terms, s.desk.issued[n], n, r.ref))))
  {
    hide ChargedFor;
  }

  /** Shipping one order, whose delivery and commitment are in order. */
  lemma ShipKeeps(w: World, s: State, t: State, n: Nonce, sig: Signature)
    requires Inv(w, s) && n in s.desk.issued && n !in s.desk.fulfilled
    requires t == s.(desk := s.desk.(fulfilled := s.desk.fulfilled + {n}), shipped := s.shipped + [n], made := s.made + {sig})
    requires DeliveryOk(w, s, n) && SignatureOk(w, t, sig)
    ensures Grows(s, t) && Inv(w, t)
  {
    DeliverySame(w, s, t, n);
    ShipsOnce(s.shipped, s.desk.fulfilled, n);
    hide SignatureOk, RecordOk, FiledAt, CallOk, OrderOk, DeliveryOk, ConsentOk, OncePerNonce, ShippedOnce;
    Carried(w, s, t);
  }

  lemma FulfilKeeps(w: World, s: State, e: Event)
    requires Proper(w) && Inv(w, s) && e.Fulfil? && Enabled(w, s, e)
    ensures Keeps(w, s, e)
  {
    hide AfterQuote, AfterApprove, AfterCheck, AfterCharge, AfterRecord, Requested, Selected, AfterCommitment;
    hide Inv, Grows, SignatureOk, DeliveryOk, ChargedFor, Settles;
    var t, r := Step(w, s, e), e.receipt;
    if Shippable(s.desk, r, e.sig, w.settlementKey) {
      var n := r.nonce.value;
      ShippedIsDelivered(w, s, r, e.sig);
      CommitmentSigned(w, s, t, r);
      ShipKeeps(w, s, t, n, Signature(w.deskKey, CommitmentDoc(CommitmentTo(w.terms, s.desk.issued[n], n, r.ref))));
    } else {
      GrowsItself(s);
    }
  }

  lemma DeliverySame(w: World, s: State, t: State, n: Nonce)
    requires DeliveryOk(w, s, n) && s.desk.issued == t.desk.issued && s.consents == t.consents && s.ledger == t.ledger
    ensures DeliveryOk(w, t, n)
  {
    var inv, ref :| Delivered(w, s, n, inv, ref);
    assert Delivered(w, t, n, inv, ref);
  }

  lemma ShipsOnce(shipped: seq<Nonce>, fulfilled: set<Nonce>, n: Nonce)
    requires ShippedOnce(shipped, fulfilled) && n !in fulfilled
    ensures ShippedOnce(shipped + [n], fulfilled + {n})
  {
  }

  lemma StepKeeps(w: World, s: State, e: Event)
    requires Proper(w) && Inv(w, s) && Enabled(w, s, e)
    ensures Keeps(w, s, e)
  {
    hide *;
    match e
    case Enrol(_, _, _) => OutsideKeeps(w, s, e);
    case Trust(_, _) => OutsideKeeps(w, s, e);
    case OthersSign(_) => OutsideKeeps(w, s, e);
    case Quote(_, _, _, _, _) => QuoteKeeps(w, s, e);
    case Request(_, _, _) => RequestKeeps(w, s, e);
    case Approve(_, _, _) => ApproveKeeps(w, s, e);
    case SettleBegins(_, _, _) => SettleBeginsKeeps(w, s, e);
    case SettleChecks(_) => SettleChecksKeeps(w, s, e);
    case SettleCharges(_, _) => SettleChargesKeeps(w, s, e);
    case SettleRecords(_) => SettleRecordsKeeps(w, s, e);
    case Commit(_, _, _) => CommitKeeps(w, s, e);
    case Fulfil(_, _) => FulfilKeeps(w, s, e);
  }

  lemma StartHolds(w: World)
    ensures Inv(w, START)
  {
  }

  lemma {:induction false} RunKeeps(w: World, s: State, es: seq<Event>, t: State)
    requires Proper(w) && Inv(w, s) && Run(w, s, es, t)
    ensures Inv(w, t) && Grows(s, t)
    decreases |es|
  {
    hide Inv, Enabled, Step, Grows;
    if es != [] {
      StepKeeps(w, s, es[0]);
      RunKeeps(w, Step(w, s, es[0]), es[1..], t);
      GrowsOn(s, Step(w, s, es[0]), t);
    } else {
      GrowsItself(s);
    }
  }

  lemma GrowsItself(s: State)
    ensures Grows(s, s)
  {
  }

  lemma GrowsOn(a: State, b: State, c: State)
    requires Grows(a, b) && Grows(b, c)
    ensures Grows(a, c)
  {
    forall i | 0 <= i < |a.service.pending|
      ensures RecordGrows(a.service.pending[i], c.service.pending[i])
    {
      assert RecordGrows(a.service.pending[i], b.service.pending[i]) && RecordGrows(b.service.pending[i], c.service.pending[i]);
    }
  }

  // ---- What holds in every run ----

  lemma ReachableInv(w: World, s: State)
    requires Proper(w) && Reachable(w, s)
    ensures Inv(w, s)
  {
    hide Inv, Grows;
    var es :| Run(w, START, es, s);
    StartHolds(w);
    RunKeeps(w, START, es, s);
  }

  /** A holder of a passkey enrolled in the role signed exactly these terms. */
  ghost predicate ApprovedIn(s: State, role: Role, inv: Invoice) {
    exists k :: Credential(k, role) in s.enrolled && Signature(k, ConsentDoc(inv)) in s.made
  }

  /** Money moved for these terms exactly once: one charge under the nonce, for the total. */
  ghost predicate ChargedExactlyOnce(ledger: seq<Charge>, n: Nonce, inv: Invoice, total: int) {
    && (exists i :: 0 <= i < |ledger| && ledger[i].nonce == n)
    && (forall i, j :: 0 <= i < j < |ledger| ==> ledger[i].nonce != n || ledger[j].nonce != n)
    && forall i :: 0 <= i < |ledger| && ledger[i].nonce == n ==>
         ledger[i].amount == total && ledger[i].merchantId == inv.merchantId && ledger[i].currency == inv.currency
  }

  ghost predicate ShippedExactlyOnce(shipped: seq<Nonce>, n: Nonce) {
    n in shipped && forall i, j :: 0 <= i < j < |shipped| ==> shipped[i] != n || shipped[j] != n
  }

  /** The child, and over a total of a thousand the parent, approved exactly these terms. */
  ghost predicate ApprovedFor(s: State, inv: Invoice, total: int) {
    ApprovedIn(s, Child, inv) && (total > 1000 ==> ApprovedIn(s, Parent, inv))
  }

  /** Some one invoice with the order's nonce, merchant, total and currency was approved. */
  ghost predicate ApprovedAlike(s: State, order: Invoice, total: int) {
    exists inv :: SameTerms(inv, order) && ApprovedFor(s, inv, total)
  }

  /** Whatever order things happened in and whoever was trusted, an order fulfilled under a nonce was
      issued by the desk on terms its policy allows, charged exactly once for exactly its total, and
      shipped exactly once, and the child and, over a thousand, the parent approved one invoice with
      its nonce, merchant, total and currency; with registration closed, the very invoice. */
  lemma FulfilledMeans(w: World, s: State, n: Nonce)
    requires Proper(w) && Reachable(w, s) && n in s.desk.fulfilled
    ensures n in s.desk.issued
    ensures var order, p := s.desk.issued[n], w.terms.policy;
      && Bindable(p, order) && order.nonce == Some(n) && order.merchantId == w.terms.merchantId
      && var total := LinesTotal(p, order.items);
      && ApprovedAlike(s, order, total)
      && (Closed(w) ==> ApprovedFor(s, order, total))
      && ChargedExactlyOnce(s.ledger, n, order, total)
    ensures ShippedExactlyOnce(s.shipped, n)
  {
    ReachableInv(w, s);
    assert DeliveryOk(w, s, n);
    var inv, ref :| Delivered(w, s, n, inv, ref);
    var order := s.desk.issued[n];
    assert OrderOk(w, s, n);
    hide SignatureOk, RecordOk, FiledAt, CallOk, OrderOk, Bindable, LinesTotal, AmountOf, Run, Chargeable, ChargeFor, SameNumber, Closed, ApprovedIn;
    SameCharge(inv, order, w.terms.policy, ref);
    OneCharge(s.ledger, order, ref);
    forall role | role in RequiredRoles(AmountOf(inv).value)
      ensures ApprovedIn(s, role, inv)
    {
      ConsentedIsApproved(w, s, role, inv);
    }
    assert ApprovedFor(s, inv, AmountOf(inv).value);
  }

  lemma ConsentedIsApproved(w: World, s: State, role: Role, inv: Invoice)
    requires Inv(w, s) && Consented(s.consents, role, inv)
    ensures ApprovedIn(s, role, inv)
  {
    hide SignatureOk, RecordOk, FiledAt, CallOk, OrderOk, DeliveryOk;
    var k :| Consent(role, k, inv) in s.consents;
    assert ConsentOk(s, Consent(role, k, inv));
  }

  lemma TotalIsAmount(p: Policy, inv: Invoice)
    requires Bindable(p, inv)
    ensures AmountOf(inv) == Some(LinesTotal(p, inv.items))
  {
  }

  lemma OneCharge(ledger: seq<Charge>, inv: Invoice, ref: Ref)
    requires OncePerNonce(ledger) && ChargedFor(ledger, inv, ref)
    ensures ChargedExactlyOnce(ledger, inv.nonce.value, inv, AmountOf(inv).value)
  {
    var k :| 0 <= k < |ledger| && ledger[k] == ChargeFor(inv, ref);
  }

  /** Every receipt the service ever signed is for terms approved in every required role and charged
      once for their amount, with the rail's own reference; in the desk's name and with registration
      closed, for the very invoice the desk issued. */
  lemma ReceiptMeans(w: World, s: State, r: Receipt)
    requires Proper(w) && Reachable(w, s) && Signature(w.settlementKey, ReceiptDoc(r)) in s.made
    ensures exists inv ::
      && Backed(w, s, r, inv) && Chargeable(inv)
      && ChargedExactlyOnce(s.ledger, inv.nonce.value, inv, AmountOf(inv).value)
  {
    ReachableInv(w, s);
    hide RecordOk, FiledAt, CallOk, OrderOk, DeliveryOk, ConsentOk, CommitmentOk, AllConsented, Vetted, AmountOf, Run, Filed;
    assert SignatureOk(w, s, Signature(w.settlementKey, ReceiptDoc(r)));
    var inv :| Backed(w, s, r, inv);
    OneCharge(s.ledger, inv, r.ref);
  }

  /** Every commitment the desk ever signed is for an order it shipped, states that order's own items
      and destination, and names the charge that paid for it. */
  lemma CommitmentMeans(w: World, s: State, c: Commitment)
    requires Proper(w) && Reachable(w, s) && Signature(w.deskKey, CommitmentDoc(c)) in s.made
    ensures c.nonce in s.desk.fulfilled && c.nonce in s.desk.issued
    ensures var inv := s.desk.issued[c.nonce];
      c.merchantId == w.terms.merchantId && c.items == inv.items && c.deliverTo == inv.deliverTo && ChargedFor(s.ledger, inv, c.ref)
  {
    ReachableInv(w, s);
    hide RecordOk, CallOk, OrderOk, DeliveryOk, ConsentOk, ReceiptOk, Run;
    assert SignatureOk(w, s, Signature(w.deskKey, CommitmentDoc(c)));
  }

  /** Approving again sets a settled or fulfilled record back to approved, and still never makes it
      ready for another charge. */
  lemma ReapprovalOnlyResets(p: Record, role: Role, id: CredentialId)
    requires FullyApproved(p)
    ensures WithApproval(p, role, id).status == Approved
    ensures Ready(WithApproval(p, role, id)) <==> p.receipt.None?
  {
  }

  /** Marking a record fulfilled leaves its receipt and approvals as they were and makes it unready. */
  lemma MarkChangesNothingElse(b: Books, doc: Doc, sig: Signature, now: int)
    requires AfterCommitment(b, doc, sig, now).Some?
    ensures var i, after := FirstFor(b.pending, NonceOf(doc)), AfterCommitment(b, doc, sig, now).value;
      && i < |b.pending| && after.pending[i].status == Fulfilled
      && after.pending[i].receipt == b.pending[i].receipt && after.pending[i].approvals == b.pending[i].approvals
      && !Ready(after.pending[i])
  {
  }

  /** The service has signed a receipt for the nonce. */
  ghost predicate ReceiptedFor(w: World, s: State, nonce: Option<Nonce>) {
    exists r: Receipt :: r.nonce == nonce && Signature(w.settlementKey, ReceiptDoc(r)) in s.made
  }

  /** In any reachable state a record, whatever its status says, carries a receipt exactly when it is the
      first for its nonce and the service signed a receipt for that nonce; every required role has then
      approved its terms, and they were charged exactly once. So a fulfilled mark means a confirmed
      payment exactly on the records that carry a receipt. */
  lemma ReceiptMeansPaid(w: World, s: State, i: nat)
    requires Proper(w) && Reachable(w, s) && i < |s.service.pending|
    ensures var p := s.service.pending[i];
      p.receipt.Some? <==> IsFirst(s.service.pending, i) && ReceiptedFor(w, s, p.subject.nonce)
    ensures var p := s.service.pending[i];
      p.receipt.Some? ==>
        && p.receipt.value == PaymentReceipt(p.subject, p.receipt.value.ref)
        && AllConsented(s.consents, p.subject) && Chargeable(p.subject)
        && ChargedExactlyOnce(s.ledger, p.subject.nonce.value, p.subject, AmountOf(p.subject).value)
  {
    ReachableInv(w, s);
    hide SignatureOk, CallOk, OrderOk, DeliveryOk, ConsentOk, OncePerNonce, ShippedOnce, Run, ChargedFor, Chargeable;
    var p := s.service.pending[i];
    assert FiledAt(w, s, i) && RecordOk(w, s, p);
    if p.receipt.Some? {
      OneCharge(s.ledger, p.subject, p.receipt.value.ref);
      ApprovedRecord(w, s, p);
      ChargedIsChargeable(s.ledger, p.subject, p.receipt.value.ref);
    }
    if IsFirst(s.service.pending, i) && ReceiptedFor(w, s, p.subject.nonce) {
      var r: Receipt :| r.nonce == p.subject.nonce && Signature(w.settlementKey, ReceiptDoc(r)) in s.made;
      SignedIsFiled(w, s, r);
      FiledIsFirst(w, s, i);
    }
  }

  /** Only the first record for a nonce ever carries its receipt. */
  lemma FiledIsFirst(w: World, s: State, i: nat)
    requires Inv(w, s) && IsFirst(s.service.pending, i) && Filed(s.service.pending, s.service.pending[i].subject.nonce)
    ensures s.service.pending[i].receipt.Some?
  {
    hide SignatureOk, RecordOk, CallOk, OrderOk, DeliveryOk, ConsentOk, OncePerNonce, ShippedOnce, ChargedFor;
    var j :| 0 <= j < |s.service.pending| && FiledHere(s.service.pending[j], s.service.pending[i].subject.nonce);
    assert FiledAt(w, s, j);
  }

  lemma ChargedIsChargeable(ledger: seq<Charge>, inv: Invoice, ref: Ref)
    requires ChargedFor(ledger, inv, ref)
    ensures Chargeable(inv)
  {
  }

  lemma ApprovedRecord(w: World, s: State, p: Record)
    requires RecordOk(w, s, p) && FullyApproved(p)
    ensures AllConsented(s.consents, p.subject)
  {
    hide Consented, Vetted;
  }

  lemma SignedIsFiled(w: World, s: State, r: Receipt)
    requires Inv(w, s) && Signature(w.settlementKey, ReceiptDoc(r)) in s.made
    ensures Filed(s.service.pending, r.nonce)
  {
    hide RecordOk, FiledAt, CallOk, OrderOk, DeliveryOk, ConsentOk, OncePerNonce, ShippedOnce, ReceiptOk, CommitmentOk, Filed;
    assert SignatureOk(w, s, Signature(w.settlementKey, ReceiptDoc(r)));
  }
}
