/** Runs of the purchase chain: every order the merchant's policy signs can be shipped, and what can go
    wrong when another key is registered under the desk's id. */
module PurchaseProgress {
  import opened Prelude
  import opened Merchant
  import opened Settlement
  import opened MerchantDesk
  import opened ApprovalService
  import opened Purchase

  /** A child with a passkey, perhaps a parent with another, and the reference the rail will give. */
  datatype Buyers = Buyers(childId: CredentialId, childKey: Key, parent: Option<(CredentialId, Key)>, ref: Ref)

  predicate Independent(w: World, b: Buyers) {
    && b.childKey != w.deskKey && b.childKey != w.settlementKey
    && (b.parent.Some? ==>
          b.parent.value.0 != b.childId && b.parent.value.1 != w.deskKey && b.parent.value.1 != w.settlementKey)
  }

  /** The people whose consent the order's total takes are there. */
  predicate Enough(b: Buyers, order: Invoice) {
    order.total.Whole? && (b.parent.Some? || order.total.n <= 1000)
  }

  lemma {:induction false} RunSnoc(w: World, s: State, es: seq<Event>, t: State, e: Event)
    requires Run(w, s, es, t) && Enabled(w, t, e)
    ensures Run(w, s, es + [e], Step(w, t, e))
    decreases |es|
  {
    hide Enabled, Step;
    if es == [] {
      assert [e][1..] == [];
      assert [] + [e] == [e];
    } else {
      RunSnoc(w, Step(w, s, es[0]), es[1..], t, e);
      assert (es + [e])[1..] == es[1..] + [e];
    }
  }

  lemma Next(w: World, s: State, e: Event)
    requires Reachable(w, s) && Enabled(w, s, e)
    ensures Reachable(w, Step(w, s, e))
  {
    hide Enabled, Step, Run;
    var es :| Run(w, START, es, s);
    RunSnoc(w, START, es, s, e);
  }

  /** The people are enrolled and k is trusted under the desk's id. */
  ghost predicate Prepared(w: World, b: Buyers, s: State, k: Key) {
    && Reachable(w, s) && s.made == {} && s.calls == [] && s.ledger == [] && s.shipped == [] && s.desk == Orders(map[], {})
    && w.terms.merchantId in s.service.trusted && s.service.trusted[w.terms.merchantId] == k && s.service.pending == []
    && Enrolled(b, s)
  }

  ghost predicate Enrolled(b: Buyers, s: State) {
    && b.childId in s.service.credentials && s.service.credentials[b.childId] == Credential(b.childKey, Child)
    && (b.parent.Some? ==>
          b.parent.value.0 in s.service.credentials && s.service.credentials[b.parent.value.0] == Credential(b.parent.value.1, Parent))
    && (b.parent.None? ==> OnlyChildren(s))
  }

  predicate OnlyChildren(s: State) {
    forall c :: c in s.enrolled ==> c.role == Child
  }

  lemma SetUp(w: World, b: Buyers, k: Key) returns (s: State)
    requires Independent(w, b) && w.registrable(k)
    ensures Prepared(w, b, s, k)
  {
    hide Run, Reachable;
    Begins(w);
    var trust := Trust(w.terms.merchantId, k);
    Next(w, START, trust);
    var s1 := Step(w, START, trust);
    var child := Enrol(b.childId, b.childKey, Child);
    Next(w, s1, child);
    s := Step(w, s1, child);
    if b.parent.Some? {
      var parent := Enrol(b.parent.value.0, b.parent.value.1, Parent);
      Next(w, s, parent);
      s := Step(w, s, parent);
    }
  }

  lemma Begins(w: World)
    ensures Reachable(w, START)
  {
    assert Run(w, START, [], START);
  }

  /** The order stands issued, and an invoice with its four terms is signed with k. */
  ghost predicate Offered(w: World, b: Buyers, s: State, k: Key, order: Invoice, subject: Invoice) {
    && Reachable(w, s) && s.calls == [] && s.ledger == [] && s.shipped == [] && s.service.pending == []
    && order.nonce.Some? && s.desk == Orders(map[order.nonce.value := order], {})
    && order.merchantId == w.terms.merchantId && order.total.Whole? && subject == order.(items := subject.items)
    && w.terms.merchantId in s.service.trusted && s.service.trusted[w.terms.merchantId] == k
    && Signature(k, InvoiceDoc(subject)) in s.made && ConsentsOnlyTo(s, subject)
    && Enrolled(b, s)
  }

  /** Every consent anybody signed is to these terms. */
  ghost predicate ConsentsOnlyTo(s: State, subject: Invoice) {
    forall sig :: sig in s.made && sig.doc.ConsentDoc? ==> sig.doc.terms == subject
  }

  lemma Offer(w: World, b: Buyers, s: State, k: Key, items: seq<Proposed>, deliverTo: Option<Place>, quotedAt: int,
              checkedAt: int, nonce: Nonce, subject: Invoice) returns (t: State)
    requires Prepared(w, b, s, k) && quotedAt <= checkedAt
    requires var order := Draft(w.terms, items, deliverTo, quotedAt, nonce);
      && Violations(w.terms.policy, order, checkedAt) == []
      && (if k == w.deskKey then subject == order else k != w.settlementKey && subject == order.(items := subject.items))
    ensures Offered(w, b, t, k, Draft(w.terms, items, deliverTo, quotedAt, nonce), subject)
  {
    var order := Draft(w.terms, items, deliverTo, quotedAt, nonce);
    hide Run, Reachable, Violations, FillAll, LooseTotal;
    var quote := Quote(items, deliverTo, quotedAt, checkedAt, nonce);
    Next(w, s, quote);
    var s1 := Step(w, s, quote);
    assert s1 == s.(desk := Orders(map[nonce := order], {}), made := {Signature(w.deskKey, InvoiceDoc(order))});
    if k == w.deskKey {
      t := s1;
    } else {
      var forge := OthersSign(Signature(k, InvoiceDoc(subject)));
      Next(w, s1, forge);
      t := Step(w, s1, forge);
    }
  }

  /** The invoice stands in one pending record. */
  ghost predicate Asked(w: World, b: Buyers, s: State, order: Invoice, subject: Invoice) {
    && Reachable(w, s) && s.calls == [] && s.ledger == [] && s.shipped == []
    && order.nonce.Some? && s.desk == Orders(map[order.nonce.value := order], {})
    && order.merchantId == w.terms.merchantId && order.total.Whole? && subject == order.(items := subject.items)
    && s.service.pending == [Record(subject, RequiredRoles(subject.total.n), map[], Pending, None, false, None)]
    && ConsentsOnlyTo(s, subject) && Enrolled(b, s)
  }

  lemma Ask(w: World, b: Buyers, s: State, k: Key, order: Invoice, subject: Invoice, now: int) returns (t: State)
    requires Offered(w, b, s, k, order, subject) && Unexpired(InvoiceDoc(order), now)
    ensures Asked(w, b, t, order, subject) && t.made == s.made && t.service.trusted == s.service.trusted
  {
    hide Run, Reachable;
    var request := Request(InvoiceDoc(subject), Signature(k, InvoiceDoc(subject)), now);
    Next(w, s, request);
    t := Step(w, s, request);
  }

  /** The record is approved and nothing has been charged. */
  ghost predicate Agreed(w: World, s: State, order: Invoice, subject: Invoice) {
    && Reachable(w, s) && s.calls == [] && s.ledger == []
    && order.nonce.Some? && s.desk == Orders(map[order.nonce.value := order], {})
    && order.merchantId == w.terms.merchantId && order.total.Whole? && subject == order.(items := subject.items)
    && |s.service.pending| == 1 && s.service.pending[0].subject == subject
    && s.service.pending[0].status == Approved && s.service.pending[0].receipt.None?
    && ConsentsOnlyTo(s, subject)
  }

  lemma Agree(w: World, b: Buyers, s: State, order: Invoice, subject: Invoice) returns (t: State)
    requires Independent(w, b) && Asked(w, b, s, order, subject) && (b.parent.Some? || subject.total.n <= 1000)
    ensures Agreed(w, t, order, subject) && t.enrolled == s.enrolled
  {
    hide Run, Reachable;
    var childSig := Signature(b.childKey, ConsentDoc(subject));
    Next(w, s, OthersSign(childSig));
    var s1 := Step(w, s, OthersSign(childSig));
    var p := s1.service.pending[0];
    Next(w, s1, Approve(0, b.childId, childSig));
    var s2 := Step(w, s1, Approve(0, b.childId, childSig));
    assert s2.service.pending == [WithApproval(p, Child, b.childId)];
    if subject.total.n <= 1000 {
      t := s2;
    } else {
      var (parentId, parentKey) := b.parent.value;
      var parentSig := Signature(parentKey, ConsentDoc(subject));
      Next(w, s2, OthersSign(parentSig));
      var s3 := Step(w, s2, OthersSign(parentSig));
      Next(w, s3, Approve(0, parentId, parentSig));
      t := Step(w, s3, Approve(0, parentId, parentSig));
      assert t.service.pending == [WithApproval(WithApproval(p, Child, b.childId), Parent, parentId)];
    }
  }

  lemma Pay(w: World, s: State, order: Invoice, subject: Invoice, ref: Ref) returns (t: State)
    requires Agreed(w, s, order, subject)
    ensures Reachable(w, t) && t.desk == s.desk && ConsentsOnlyTo(t, subject) && t.enrolled == s.enrolled
    ensures Signature(w.settlementKey, ReceiptDoc(PaymentReceipt(subject, ref))) in t.made
  {
    hide Run, Reachable;
    var begins := SettleBegins(order.nonce.value, subject.merchantId, subject.total);
    Next(w, s, begins);
    var s1 := Step(w, s, begins);
    assert s1 == s.(calls := [Queued(0)]);
    Next(w, s1, SettleChecks(0));
    var s2 := Step(w, s1, SettleChecks(0));
    assert s2 == s.(calls := [Charging(0)]);
    Next(w, s2, SettleCharges(0, GoesThrough(ref)));
    var s3 := Step(w, s2, SettleCharges(0, GoesThrough(ref)));
    assert s3 == s.(calls := [Charged(0, ref)], ledger := [ChargeFor(subject, ref)]);
    Next(w, s3, SettleRecords(0));
    t := Step(w, s3, SettleRecords(0));
  }

  lemma Ship(w: World, s: State, order: Invoice, subject: Invoice, ref: Ref) returns (t: State)
    requires Reachable(w, s) && order.nonce.Some? && s.desk == Orders(map[order.nonce.value := order], {})
    requires order.total.Whole? && subject == order.(items := subject.items) && ConsentsOnlyTo(s, subject)
    requires Signature(w.settlementKey, ReceiptDoc(PaymentReceipt(subject, ref))) in s.made
    ensures Reachable(w, t) && order.nonce.value in t.desk.fulfilled
    ensures t.desk.issued == s.desk.issued && ConsentsOnlyTo(t, subject) && t.enrolled == s.enrolled
  {
    hide Run, Reachable;
    var receipt := PaymentReceipt(subject, ref);
    var fulfil := Fulfil(receipt, Signature(w.settlementKey, ReceiptDoc(receipt)));
    Next(w, s, fulfil);
    t := Step(w, s, fulfil);
  }

  /** From a trusted key to a shipment, on any items the key signs for under the order's other terms. */
  lemma Carry(w: World, b: Buyers, k: Key, items: seq<Proposed>, deliverTo: Option<Place>, quotedAt: int, checkedAt: int,
              nonce: Nonce, subject: Invoice) returns (s: State)
    requires Independent(w, b) && w.registrable(k) && quotedAt <= checkedAt
    requires var order := Draft(w.terms, items, deliverTo, quotedAt, nonce);
      && Violations(w.terms.policy, order, checkedAt) == []
      && Enough(b, order)
      && (if k == w.deskKey then subject == order else k != w.settlementKey && subject == order.(items := subject.items))
    ensures Reachable(w, s) && nonce in s.desk.fulfilled && ConsentsOnlyTo(s, subject)
    ensures b.parent.None? ==> OnlyChildren(s)
    ensures s.desk.issued == map[nonce := Draft(w.terms, items, deliverTo, quotedAt, nonce)]
  {
    var order := Draft(w.terms, items, deliverTo, quotedAt, nonce);
    CheckedExactly(w.terms.policy, order, checkedAt);
    assert Unexpired(InvoiceDoc(order), checkedAt);
    hide Reachable, Violations, FillAll, LooseTotal, Bindable, Unexpired, ExpiryInBounds;
    var s0 := SetUp(w, b, k);
    var s1 := Offer(w, b, s0, k, items, deliverTo, quotedAt, checkedAt, nonce, subject);
    var s2 := Ask(w, b, s1, k, order, subject, checkedAt);
    var s3 := Agree(w, b, s2, order, subject);
    var s4 := Pay(w, s3, order, subject, b.ref);
    s := Ship(w, s4, order, subject, b.ref);
  }

  /** Every order the policy finds nothing against can be bought, once the desk's own key is trusted:
      some run quotes it, has it approved, charges it and ships it. */
  lemma EverySignedOrderCanShip(w: World, b: Buyers, items: seq<Proposed>, deliverTo: Option<Place>, quotedAt: int,
                                checkedAt: int, nonce: Nonce) returns (s: State)
    requires Independent(w, b) && w.registrable(w.deskKey) && quotedAt <= checkedAt
    requires Violations(w.terms.policy, Draft(w.terms, items, deliverTo, quotedAt, nonce), checkedAt) == []
    requires Enough(b, Draft(w.terms, items, deliverTo, quotedAt, nonce))
    ensures Reachable(w, s) && nonce in s.desk.fulfilled && (b.parent.None? ==> OnlyChildren(s))
    ensures s.desk.issued == map[nonce := Draft(w.terms, items, deliverTo, quotedAt, nonce)]
  {
    s := Carry(w, b, w.deskKey, items, deliverTo, quotedAt, checkedAt, nonce, Draft(w.terms, items, deliverTo, quotedAt, nonce));
  }

  /** Some run ships the order with nobody but children enrolled. */
  ghost predicate ChildAloneShips(w: World, order: Invoice) {
    exists s :: Reachable(w, s) && OnlyChildren(s) && order.nonce.Some? && order.nonce.value in s.desk.fulfilled
                && order.nonce.value in s.desk.issued && s.desk.issued[order.nonce.value] == order
  }

  /** A child alone can have an order shipped exactly when its total is at most a thousand. */
  lemma ChildAloneExactly(w: World, b: Buyers, items: seq<Proposed>, deliverTo: Option<Place>, quotedAt: int, checkedAt: int, nonce: Nonce)
    requires Proper(w) && Independent(w, b) && w.registrable(w.deskKey) && quotedAt <= checkedAt
    requires Violations(w.terms.policy, Draft(w.terms, items, deliverTo, quotedAt, nonce), checkedAt) == []
    ensures var order := Draft(w.terms, items, deliverTo, quotedAt, nonce);
      ChildAloneShips(w, order) <==> order.total.n <= 1000
  {
    var order := Draft(w.terms, items, deliverTo, quotedAt, nonce);
    hide Reachable, Violations, FillAll, LooseTotal, LinesTotal;
    if order.total.n <= 1000 {
      var s := EverySignedOrderCanShip(w, b.(parent := None), items, deliverTo, quotedAt, checkedAt, nonce);
      assert s.desk.issued[nonce] == order;
    }
    if s :| Reachable(w, s) && OnlyChildren(s) && nonce in s.desk.fulfilled && nonce in s.desk.issued && s.desk.issued[nonce] == order {
      AboveLimitNeedsParent(w, s, nonce, order.total.n);
    }
  }

  lemma AboveLimitNeedsParent(w: World, s: State, n: Nonce, total: int)
    requires Proper(w) && Reachable(w, s) && OnlyChildren(s) && n in s.desk.fulfilled
    requires n in s.desk.issued && s.desk.issued[n].total == Whole(total)
    ensures total <= 1000
  {
    hide Reachable, LinesTotal, ChargedExactlyOnce, ShippedExactlyOnce;
    FulfilledMeans(w, s, n);
    TotalIsAmount(w.terms.policy, s.desk.issued[n]);
    if inv :| SameTerms(inv, s.desk.issued[n]) && ApprovedFor(s, inv, total) {
      assert total > 1000 ==> ApprovedIn(s, Parent, inv);
    }
  }

  // ---- When another key is registered under the desk's id ----

  lemma SignedHasItems(p: Policy, order: Invoice, now: int)
    requires Violations(p, order, now) == []
    ensures order.items != []
  {
    CheckedExactly(p, order, now);
  }

  /** A key of somebody else's, registered under the desk's id, has the same nonce and total approved for
      other items: the desk then ships an order that nobody approved. */
  lemma ForeignKeyShipsUnapproved(w: World, b: Buyers, k: Key, items: seq<Proposed>, deliverTo: Option<Place>, quotedAt: int,
                                  checkedAt: int, nonce: Nonce) returns (s: State)
    requires Independent(w, b) && w.registrable(k) && k != w.deskKey && k != w.settlementKey && quotedAt <= checkedAt
    requires Violations(w.terms.policy, Draft(w.terms, items, deliverTo, quotedAt, nonce), checkedAt) == []
    requires Enough(b, Draft(w.terms, items, deliverTo, quotedAt, nonce))
    ensures Reachable(w, s) && nonce in s.desk.fulfilled && nonce in s.desk.issued
    ensures forall role :: !ApprovedIn(s, role, s.desk.issued[nonce])
  {
    var order := Draft(w.terms, items, deliverTo, quotedAt, nonce);
    hide Violations, FillAll, LooseTotal, Reachable;
    SignedHasItems(w.terms.policy, order, checkedAt);
    s := Carry(w, b, k, items, deliverTo, quotedAt, checkedAt, nonce, order.(items := []));
  }

  /** The order was approved, by every role its total requires, on exactly the terms that shipped. */
  ghost predicate ApprovedAsShipped(s: State, n: Nonce) {
    && n in s.desk.issued && AmountOf(s.desk.issued[n]).Some?
    && ApprovedFor(s, s.desk.issued[n], AmountOf(s.desk.issued[n]).value)
  }

  /** Exactly when approvals are for what ships: given one order the policy would sign and people to buy
      it, every shipped order is approved on its exact terms, in every run, if and only if no key but
      the desk's and the settlement's can be registered under the desk's id. */
  lemma ApprovedTermsExactly(w: World, b: Buyers, items: seq<Proposed>, deliverTo: Option<Place>, quotedAt: int,
                             checkedAt: int, nonce: Nonce)
    requires Proper(w) && Independent(w, b) && quotedAt <= checkedAt
    requires Violations(w.terms.policy, Draft(w.terms, items, deliverTo, quotedAt, nonce), checkedAt) == []
    requires Enough(b, Draft(w.terms, items, deliverTo, quotedAt, nonce))
    ensures (forall s, n :: Reachable(w, s) && n in s.desk.fulfilled ==> ApprovedAsShipped(s, n)) <==> Closed(w)
  {
    hide Reachable, Violations, ApprovedIn;
    if Closed(w) {
      forall s, n | Reachable(w, s) && n in s.desk.fulfilled
        ensures ApprovedAsShipped(s, n)
      {
        FulfilledMeans(w, s, n);
        TotalIsAmount(w.terms.policy, s.desk.issued[n]);
      }
    } else {
      var k :| w.registrable(k) && k != w.deskKey && k != w.settlementKey;
      var s := ForeignKeyShipsUnapproved(w, b, k, items, deliverTo, quotedAt, checkedAt, nonce);
      assert !ApprovedIn(s, Child, s.desk.issued[nonce]);
      assert !ApprovedAsShipped(s, nonce);
    }
  }

  // ---- A fulfilled mark without payment ----

  /** The desk's own signed invoice, posted as its commitment right after it was requested, marks the
      record fulfilled: nobody approved it, nothing was charged and nothing shipped. */
  lemma FulfilledMarkIsNotPayment(w: World, b: Buyers, items: seq<Proposed>, deliverTo: Option<Place>, quotedAt: int,
                                  checkedAt: int, nonce: Nonce) returns (s: State)
    requires Independent(w, b) && w.registrable(w.deskKey) && quotedAt <= checkedAt
    requires Violations(w.terms.policy, Draft(w.terms, items, deliverTo, quotedAt, nonce), checkedAt) == []
    ensures Reachable(w, s) && |s.service.pending| == 1
    ensures var p := s.service.pending[0];
      p.subject.nonce == Some(nonce) && p.status == Fulfilled && p.receipt.None? && p.approvals == map[]
    ensures s.ledger == [] && s.shipped == []
  {
    var order := Draft(w.terms, items, deliverTo, quotedAt, nonce);
    CheckedExactly(w.terms.policy, order, checkedAt);
    assert Unexpired(InvoiceDoc(order), checkedAt);
    hide Reachable, Violations, FillAll, LooseTotal, Bindable, Unexpired, ExpiryInBounds;
    var s0 := SetUp(w, b, w.deskKey);
    var s1 := Offer(w, b, s0, w.deskKey, items, deliverTo, quotedAt, checkedAt, nonce, order);
    var s2 := Ask(w, b, s1, w.deskKey, order, order, checkedAt);
    hide AfterQuote, AfterApprove, AfterCheck, AfterCharge, AfterRecord, AfterFulfil, Requested, Selected;
    assert Unexpired(InvoiceDoc(order), checkedAt);
    var commit := Commit(InvoiceDoc(order), Signature(w.deskKey, InvoiceDoc(order)), checkedAt);
    Next(w, s2, commit);
    s := Step(w, s2, commit);
  }
}
