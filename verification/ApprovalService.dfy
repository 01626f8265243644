/** The approval service: pending invoices, passkey approvals by role, settlement and commitments. */
module ApprovalService {
  import opened Prelude
  import opened Merchant
  import opened Settlement

  type CredentialId(==, !new)

  datatype Role = Child | Parent
  datatype Credential = Credential(key: Key, role: Role)

  const SOLO_LIMIT := 1000

  function RequiredRoles(amount: int): set<Role> {
    if amount <= SOLO_LIMIT then {Child} else {Child, Parent}
  }

  datatype Status = Pending | Approved | Settled | Fulfilled

  datatype Record = Record(subject: Invoice, required: set<Role>, approvals: map<Role, CredentialId>, status: Status,
                           receipt: Option<Receipt>, declined: bool, commitment: Option<Doc>)

  predicate FullyApproved(p: Record) {
    forall r :: r in p.required ==> r in p.approvals
  }

  /** The service's dictionaries; a pending record is known by its position in order of arrival. */
  datatype Books = Books(credentials: map<CredentialId, Credential>, trusted: map<MerchantId, Key>, pending: seq<Record>)

  // ---- The handlers ----

  /** `/request-invoice`: a verified document that carries a usable total becomes a pending record. */
  function Requested(b: Books, doc: Doc, sig: Signature, now: int): Option<Books> {
    if !Verified(doc, sig, b.trusted, now) || !doc.InvoiceDoc? || AmountOf(doc.invoice).None? then None
    else
      var p := Record(doc.invoice, RequiredRoles(AmountOf(doc.invoice).value), map[], Pending, None, false, None);
      Some(b.(pending := b.pending + [p]))
  }

  predicate MayApprove(b: Books, i: nat, id: CredentialId, sig: Signature) {
    && i < |b.pending| && id in b.credentials && b.credentials[id].role in b.pending[i].required
    && sig == Signature(b.credentials[id].key, ConsentDoc(b.pending[i].subject))
  }

  function WithApproval(p: Record, role: Role, id: CredentialId): Record {
    var q := p.(approvals := p.approvals[role := id]);
    if FullyApproved(q) then q.(status := Approved) else q
  }

  /** `/approve`: the status becomes approved whenever the roles are complete, whatever it was. */
  function AfterApproval(b: Books, i: nat, id: CredentialId, sig: Signature): Option<Books> {
    if !MayApprove(b, i, id, sig) then None
    else Some(b.(pending := b.pending[i := WithApproval(b.pending[i], b.credentials[id].role, id)]))
  }

  /** Position of the first record for the nonce, or the number of records. */
  function FirstFor(pending: seq<Record>, nonce: Option<Nonce>): (i: nat)
    ensures i <= |pending|
    ensures i < |pending| ==> pending[i].subject.nonce == nonce
    ensures forall j :: 0 <= j < i ==> pending[j].subject.nonce != nonce
  {
    if pending == [] || pending[0].subject.nonce == nonce then 0 else 1 + FirstFor(pending[1..], nonce)
  }

  /** `/settle` up to the rail: the record the nonce selects, cross-checked and approved. */
  function Selected(b: Books, nonce: Nonce, merchantId: MerchantId, amount: Num): Option<nat> {
    var i := FirstFor(b.pending, Some(nonce));
    if i == |b.pending| then None
    else if b.pending[i].subject.merchantId != merchantId || !SameNumber(b.pending[i].subject.total, amount) then None
    else if b.pending[i].status != Approved && b.pending[i].status != Settled then None
    else Some(i)
  }

  /** The record settled for a nonce is the first one that carries it; a later one for the same nonce
      is never selected, whatever its own state. */
  lemma SelectedExactly(b: Books, nonce: Nonce, merchantId: MerchantId, amount: Num, i: nat)
    ensures Selected(b, nonce, merchantId, amount) == Some(i) <==>
      && i < |b.pending| && b.pending[i].subject.nonce == Some(nonce)
      && (forall j :: 0 <= j < i ==> b.pending[j].subject.nonce != Some(nonce))
      && b.pending[i].subject.merchantId == merchantId && SameNumber(b.pending[i].subject.total, amount)
      && (b.pending[i].status == Approved || b.pending[i].status == Settled)
  {
    if i < |b.pending| && b.pending[i].subject.nonce == Some(nonce)
       && forall j :: 0 <= j < i ==> b.pending[j].subject.nonce != Some(nonce) {
      FirstIs(b.pending, Some(nonce), i);
    }
  }

  predicate Ready(p: Record) {
    p.status == Approved && p.receipt.None?
  }

  function AfterPayment(b: Books, i: nat, ref: Ref): Books
    requires i < |b.pending|
  {
    var p := b.pending[i];
    b.(pending := b.pending[i := p.(receipt := Some(PaymentReceipt(p.subject, ref)), status := Settled)])
  }

  function AfterDecline(b: Books, i: nat): Books
    requires i < |b.pending|
  {
    b.(pending := b.pending[i := b.pending[i].(declined := true)])
  }

  /** `/commitment`: any document a trusted merchant signed, matched by nonce. */
  function AfterCommitment(b: Books, doc: Doc, sig: Signature, now: int): Option<Books> {
    var i := FirstFor(b.pending, NonceOf(doc));
    if i == |b.pending| || !Verified(doc, sig, b.trusted, now) then None
    else Some(b.(pending := b.pending[i := b.pending[i].(commitment := Some(doc), status := Fulfilled)]))
  }

  // ---- The service ----

  class Service {
    var credentials: map<CredentialId, Credential>
    var trusted: map<MerchantId, Key>
    var pending: seq<Record>

    constructor ()
      ensures State() == Books(map[], map[], [])
    {
      credentials, trusted, pending := map[], map[], [];
    }

    ghost function State(): Books
      reads this
    {
      Books(credentials, trusted, pending)
    }

    method Register(id: CredentialId, key: Key, role: Role)
      modifies this`credentials
      ensures State() == old(State()).(credentials := old(credentials)[id := Credential(key, role)])
    {
      credentials := credentials[id := Credential(key, role)];
    }

    method TrustMerchant(merchantId: MerchantId, key: Key)
      modifies this`trusted
      ensures State() == old(State()).(trusted := old(trusted)[merchantId := key])
    {
      trusted := trusted[merchantId := key];
    }

    method RequestInvoice(doc: Doc, sig: Signature, now: int) returns (ok: bool)
      modifies this`pending
      ensures match Requested(old(State()), doc, sig, now)
              case None => !ok && State() == old(State())
              case Some(after) => ok && State() == after
    {
      if !Verified(doc, sig, trusted, now) || !doc.InvoiceDoc? {
        return false;
      }
      var amount := AmountOf(doc.invoice);
      if amount.None? {
        return false;
      }
      pending := pending + [Record(doc.invoice, RequiredRoles(amount.value), map[], Pending, None, false, None)];
      return true;
    }

    method Approve(i: nat, id: CredentialId, sig: Signature) returns (ok: bool)
      modifies this`pending
      ensures match AfterApproval(old(State()), i, id, sig)
              case None => !ok && State() == old(State())
              case Some(after) => ok && State() == after
    {
      if i >= |pending| || id !in credentials {
        return false;
      }
      var p, role := pending[i], credentials[id].role;
      if role !in p.required || sig != Signature(credentials[id].key, ConsentDoc(p.subject)) {
        return false;
      }
      p := p.(approvals := p.approvals[role := id]);
      if FullyApproved(p) {
        p := p.(status := Approved);
      }
      pending := pending[i := p];
      return true;
    }

    /** `next(v for v in _pending.values() if ...)`. */
    method Find(nonce: Option<Nonce>) returns (i: nat)
      ensures i == FirstFor(pending, nonce)
    {
      i := 0;
      while i < |pending| && pending[i].subject.nonce != nonce
        invariant i <= |pending|
        invariant forall j :: 0 <= j < i ==> pending[j].subject.nonce != nonce
      {
        i := i + 1;
      }
      FirstIs(pending, nonce, i);
    }

    method Select(nonce: Nonce, merchantId: MerchantId, amount: Num) returns (r: Option<nat>)
      ensures r == Selected(State(), nonce, merchantId, amount)
    {
      var i := Find(Some(nonce));
      if i == |pending| {
        return None;
      }
      var p := pending[i];
      if p.subject.merchantId != merchantId || !SameNumber(p.subject.total, amount) {
        return None;
      }
      if p.status != Approved && p.status != Settled {
        return None;
      }
      return Some(i);
    }

    /** `_settle_if_ready`, given the rail's answer for the record. */
    method SettleIfReady(i: nat, answer: RailReply)
      requires i < |pending|
      modifies this`pending
      ensures State() ==
        if !Ready(old(pending)[i]) then old(State())
        else if answer.Paid? then AfterPayment(old(State()), i, answer.ref)
        else AfterDecline(old(State()), i)
    {
      var p := pending[i];
      if p.status != Approved || p.receipt.Some? {
        return;
      }
      if answer.NotPaid? {
        pending := pending[i := p.(declined := true)];
      } else {
        pending := pending[i := p.(receipt := Some(PaymentReceipt(p.subject, answer.ref)), status := Settled)];
      }
    }

    method RecordCommitment(doc: Doc, sig: Signature, now: int) returns (ok: bool)
      modifies this`pending
      ensures match AfterCommitment(old(State()), doc, sig, now)
              case None => !ok && State() == old(State())
              case Some(after) => ok && State() == after
    {
      var i := Find(NonceOf(doc));
      if i == |pending| || !Verified(doc, sig, trusted, now) {
        return false;
      }
      pending := pending[i := pending[i].(commitment := Some(doc), status := Fulfilled)];
      return true;
    }
  }

  lemma {:induction false} FirstIs(pending: seq<Record>, nonce: Option<Nonce>, i: nat)
    requires i <= |pending| && (forall j :: 0 <= j < i ==> pending[j].subject.nonce != nonce)
    requires i < |pending| ==> pending[i].subject.nonce == nonce
    ensures FirstFor(pending, nonce) == i
  {
    if i > 0 {
      assert pending[0].subject.nonce != nonce;
      FirstIs(pending[1..], nonce, i - 1);
    }
  }

  /** A request is taken exactly when it is an unexpired invoice with a number for a total, signed by the key
      trusted for its merchant; the new record waits for the child, and above a thousand for the parent too. */
  lemma RequestedExactly(b: Books, doc: Doc, sig: Signature, now: int)
    ensures Requested(b, doc, sig, now).Some? <==>
      && doc.InvoiceDoc? && doc.invoice.merchantId in b.trusted && sig == Signature(b.trusted[doc.invoice.merchantId], doc)
      && Ahead(doc.invoice.exp, now) && NumberOf(doc.invoice.total).Some?
    ensures Requested(b, doc, sig, now).Some? ==>
      var after := Requested(b, doc, sig, now).value;
      && after == b.(pending := after.pending) && |after.pending| == |b.pending| + 1 && b.pending <= after.pending
      && var p := after.pending[|b.pending|];
      && p.subject == doc.invoice && p.approvals == map[] && p.status == Pending && p.receipt.None?
      && p.required == if NumberOf(doc.invoice.total).value < 1001.0 then {Child} else {Child, Parent}
  {
    VerifiedExactly(doc, sig, b.trusted, now);
    if doc.InvoiceDoc? && AmountOf(doc.invoice).Some? {
      AmountExactly(doc.invoice, AmountOf(doc.invoice).value);
    }
  }

  /** A posted document is taken exactly when it is verified and some record has its nonce, whatever kind of
      document it is; it is kept on the first such record, which counts as fulfilled, and changes no other. */
  lemma CommittedExactly(b: Books, doc: Doc, sig: Signature, now: int, i: nat)
    ensures var nonce := match doc { case InvoiceDoc(inv) => inv.nonce case CommitmentDoc(c) => Some(c.nonce)
                                     case ReceiptDoc(r) => r.nonce case ConsentDoc(_) => None };
      AfterCommitment(b, doc, sig, now).Some? <==>
        Verified(doc, sig, b.trusted, now) && exists j :: 0 <= j < |b.pending| && b.pending[j].subject.nonce == nonce
    ensures AfterCommitment(b, doc, sig, now).Some? && i < |b.pending| ==>
      var after := AfterCommitment(b, doc, sig, now).value;
      && after == b.(pending := after.pending) && |after.pending| == |b.pending|
      && after.pending[i] == if FirstWith(b.pending, NonceOf(doc), i)
                             then b.pending[i].(commitment := Some(doc), status := Fulfilled) else b.pending[i]
  {
    hide Verified;
    if i < |b.pending| && FirstWith(b.pending, NonceOf(doc), i) {
      FirstIs(b.pending, NonceOf(doc), i);
    }
  }

  predicate FirstWith(pending: seq<Record>, nonce: Option<Nonce>, i: nat)
    requires i < |pending|
  {
    pending[i].subject.nonce == nonce && forall j :: 0 <= j < i ==> pending[j].subject.nonce != nonce
  }
}
