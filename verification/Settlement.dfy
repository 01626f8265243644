/** Signed documents, payment receipts and the rail that charges for them. Signatures and hashes are
    ideal: a signature is the pair of a key and what it signs. */
module Settlement {
  import opened Prelude
  import opened Merchant

  type Key(==, !new)
  /** A payment reference. */
  type Ref(==, !new)

  // ---- Receipts ----

  datatype Receipt = Receipt(nonce: Option<Nonce>, merchantId: MerchantId, amount: Num, currency: Currency, ref: Ref, succeeded: bool)

  function PaymentReceipt(inv: Invoice, ref: Ref): Receipt {
    Receipt(inv.nonce, inv.merchantId, inv.total, inv.currency, ref, true)
  }

  predicate SameNumber(x: Num, y: Num) {
    if IsInt(y) then Equals(x, IntValue(y)) else if IsInt(x) then Equals(y, IntValue(x)) else x == y
  }

  /** The terms half of `verify_receipt`. */
  predicate Settles(r: Receipt, inv: Invoice) {
    r.succeeded && r.nonce == inv.nonce && r.merchantId == inv.merchantId && SameNumber(r.amount, inv.total) && r.currency == inv.currency
  }

  /** A receipt settles an invoice exactly when the invoice it was written for has the same four
      terms; items and destination are not among them. */
  lemma ReceiptPinsTerms(inv: Invoice, other: Invoice, ref: Ref)
    ensures Settles(PaymentReceipt(other, ref), inv) <==>
      other.nonce == inv.nonce && other.merchantId == inv.merchantId && SameNumber(other.total, inv.total)
      && other.currency == inv.currency
    ensures forall items, place ::
      Settles(PaymentReceipt(other.(items := items, deliverTo := place), ref), inv) <==> Settles(PaymentReceipt(other, ref), inv)
  {
  }

  // ---- Documents and signatures ----

  datatype Commitment = Commitment(merchantId: MerchantId, nonce: Nonce, items: seq<Line>, ref: Ref, deliverTo: Option<Place>)

  /** What keys sign; a consent is the challenge of an invoice, which determines the invoice. */
  datatype Doc = InvoiceDoc(invoice: Invoice) | CommitmentDoc(commitment: Commitment) | ReceiptDoc(receipt: Receipt) | ConsentDoc(terms: Invoice)

  datatype Signature = Signature(key: Key, doc: Doc)

  function MerchantOf(doc: Doc): Option<MerchantId> {
    match doc
    case InvoiceDoc(inv) => Some(inv.merchantId)
    case CommitmentDoc(c) => Some(c.merchantId)
    case ReceiptDoc(r) => Some(r.merchantId)
    case ConsentDoc(_) => None
  }

  function NonceOf(doc: Doc): Option<Nonce> {
    match doc
    case InvoiceDoc(inv) => inv.nonce
    case CommitmentDoc(c) => Some(c.nonce)
    case ReceiptDoc(r) => r.nonce
    case ConsentDoc(_) => None
  }

  /** No expiry, or one still ahead; a value that cannot be compared raises. */
  predicate Unexpired(doc: Doc, now: int) {
    doc.InvoiceDoc? ==>
      match doc.invoice.exp
      case Absent => true
      case Fraction(r) => now as real < r
      case Other => false
      case exp => now < IntValue(exp)
  }

  /** `verify_invoice`: signed by the key trusted for the merchant it names, and unexpired. */
  predicate Verified(doc: Doc, sig: Signature, trusted: map<MerchantId, Key>, now: int) {
    && MerchantOf(doc).Some? && MerchantOf(doc).value in trusted
    && sig == Signature(trusted[MerchantOf(doc).value], doc)
    && Unexpired(doc, now)
  }

  // ---- The rail ----

  datatype Charge = Charge(nonce: Nonce, merchantId: MerchantId, amount: int, currency: Currency, ref: Ref)

  /** `int(totalCents)`, where it is a number. */
  function AmountOf(inv: Invoice): Option<int> {
    match inv.total
    case Fraction(r) => Some(Truncate(r))
    case Absent => None
    case Other => None
    case total => Some(IntValue(total))
  }

  predicate Chargeable(inv: Invoice) {
    inv.nonce.Some? && AmountOf(inv).Some?
  }

  function ChargeFor(inv: Invoice, ref: Ref): Charge
    requires Chargeable(inv)
  {
    Charge(inv.nonce.value, inv.merchantId, AmountOf(inv).value, inv.currency, ref)
  }

  function Lookup(ledger: seq<Charge>, nonce: Nonce): (r: Option<Charge>)
    ensures r.Some? ==> r.value in ledger && r.value.nonce == nonce
    ensures r.None? ==> forall c :: c in ledger ==> c.nonce != nonce
  {
    if ledger == [] then None else if ledger[0].nonce == nonce then Some(ledger[0]) else Lookup(ledger[1..], nonce)
  }

  datatype RailReply = Paid(ref: Ref) | NotPaid

  /** The nonce is the idempotency key: a retry with the same parameters is answered with the first
      charge, one with other parameters is refused, and only a new nonce moves money. */
  function Pay(ledger: seq<Charge>, c: Charge): (r: (seq<Charge>, RailReply))
    ensures ledger <= r.0
    ensures r.1.Paid? ==> c.(ref := r.1.ref) in r.0
  {
    match Lookup(ledger, c.nonce)
    case None => assert c in ledger + [c]; assert c == c.(ref := c.ref); (ledger + [c], Paid(c.ref))
    case Some(first) =>
      if c.(ref := first.ref) == first then (ledger, Paid(first.ref)) else (ledger, NotPaid)
  }

  predicate OncePerNonce(ledger: seq<Charge>) {
    forall i, j :: 0 <= i < j < |ledger| ==> ledger[i].nonce != ledger[j].nonce
  }

  lemma PayOnce(ledger: seq<Charge>, c: Charge)
    requires OncePerNonce(ledger)
    ensures OncePerNonce(Pay(ledger, c).0)
  {
    if Lookup(ledger, c.nonce).None? {
      forall i | 0 <= i < |ledger|
        ensures ledger[i].nonce != c.nonce
      {
        assert ledger[i] in ledger;
      }
    }
  }

  // ---- What the checks accept, in plain terms ----

  /** The number a value stands for. */
  function NumberOf(x: Num): Option<real> {
    match x
    case Whole(n) => Some(n as real)
    case Flag(b) => Some(if b then 1.0 else 0.0)
    case Fraction(r) => Some(r)
    case _ => None
  }

  lemma SameNumberIs(x: Num, y: Num)
    ensures SameNumber(x, y) <==> if NumberOf(x).Some? || NumberOf(y).Some? then NumberOf(x) == NumberOf(y) else x == y
  {
  }

  /** A receipt settles an order exactly when it says it succeeded and has the order's nonce, merchant, amount
      and currency. */
  lemma SettlesExactly(r: Receipt, order: Invoice, total: int)
    requires order.total == Whole(total)
    ensures Settles(r, order) <==>
      && r.succeeded && r.nonce == order.nonce && r.merchantId == order.merchantId && r.currency == order.currency
      && NumberOf(r.amount) == Some(total as real)
  {
    SameNumberIs(r.amount, order.total);
  }

  /** No expiry, or a number of seconds still ahead. */
  predicate Ahead(exp: Num, now: int) {
    exp == Absent || (NumberOf(exp).Some? && now as real < NumberOf(exp).value)
  }

  /** A document is verified exactly when the key trusted for the merchant it names signed that document, and,
      if it is an invoice, it has not expired. */
  lemma VerifiedExactly(doc: Doc, sig: Signature, trusted: map<MerchantId, Key>, now: int)
    ensures Verified(doc, sig, trusted, now) <==>
      match doc
      case InvoiceDoc(inv) => inv.merchantId in trusted && sig == Signature(trusted[inv.merchantId], doc) && Ahead(inv.exp, now)
      case CommitmentDoc(c) => c.merchantId in trusted && sig == Signature(trusted[c.merchantId], doc)
      case ReceiptDoc(r) => r.merchantId in trusted && sig == Signature(trusted[r.merchantId], doc)
      case ConsentDoc(_) => false
  {
  }

  /** `n` is `r` cut toward zero to a whole number. */
  predicate Cut(r: real, n: int) {
    if r >= 0.0 then n as real <= r < (n + 1) as real else (n - 1) as real < r <= n as real
  }

  /** The amount charged is the total, cut toward zero to a whole number. */
  lemma AmountExactly(inv: Invoice, n: int)
    ensures AmountOf(inv) == Some(n) <==> NumberOf(inv.total).Some? && Cut(NumberOf(inv.total).value, n)
  {
    hide Truncate, Cut;
    match inv.total
    case Fraction(r) => CutExactly(r, n);
    case Whole(m) => WholeUncut(m, n);
    case Flag(b) => WholeUncut(if b then 1 else 0, n);
    case _ =>
  }

  lemma WholeUncut(m: int, n: int)
    ensures Cut(m as real, n) <==> m == n
  {
  }

  lemma CutExactly(r: real, n: int)
    ensures Truncate(r) == n <==> Cut(r, n)
  {
    if r < 0.0 {
      FloorExactly(-r, -n);
    } else {
      FloorExactly(r, n);
    }
  }

  lemma FloorExactly(r: real, n: int)
    ensures r.Floor == n <==> n as real <= r < (n + 1) as real
  {
  }

  lemma {:induction false} LookupFinds(ledger: seq<Charge>, first: Charge)
    requires OncePerNonce(ledger) && first in ledger
    ensures Lookup(ledger, first.nonce) == Some(first)
  {
    if ledger[0] != first {
      assert first in ledger[1..];
      var k :| 0 <= k < |ledger[1..]| && ledger[1..][k] == first;
      assert ledger[k + 1] == first;
      LookupFinds(ledger[1..], first);
    }
  }

  /** A retry is answered from the first charge: with the same terms it is paid under the first reference,
      with other terms it is not paid, and either way no money moves. */
  lemma RetryAnswered(ledger: seq<Charge>, first: Charge, again: Charge)
    requires OncePerNonce(ledger) && first in ledger && again.nonce == first.nonce
    ensures Pay(ledger, again).0 == ledger
    ensures Pay(ledger, again).1 ==
      if again.merchantId == first.merchantId && again.amount == first.amount && again.currency == first.currency
      then Paid(first.ref) else NotPaid
  {
    LookupFinds(ledger, first);
  }

  /** A charge under a new nonce goes through under its own reference. */
  lemma NewNonceIsCharged(ledger: seq<Charge>, c: Charge)
    requires forall d :: d in ledger ==> d.nonce != c.nonce
    ensures Pay(ledger, c) == (ledger + [c], Paid(c.ref))
  {
  }
}
