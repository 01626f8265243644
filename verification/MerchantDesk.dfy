/** The merchant's desk: gated signing, and shipping once against a signed receipt. */
module MerchantDesk {
  import opened Prelude
  import opened Merchant
  import opened Settlement

  datatype Orders = Orders(issued: map<Nonce, Invoice>, fulfilled: set<Nonce>)

  /** Quoting: the draft is recorded and signed only if the policy finds nothing against it. */
  function Quoted(t: Terms, o: Orders, inv: Invoice, checkedAt: int): Option<Orders> {
    if Violations(t.policy, inv, checkedAt) == [] && inv.nonce.Some? then Some(o.(issued := o.issued[inv.nonce.value := inv]))
    else None
  }

  predicate Shippable(o: Orders, r: Receipt, sig: Signature, settlementKey: Key) {
    && r.nonce.Some? && r.nonce.value in o.issued && r.nonce.value !in o.fulfilled
    && sig == Signature(settlementKey, ReceiptDoc(r)) && Settles(r, o.issued[r.nonce.value])
  }

  function CommitmentTo(t: Terms, inv: Invoice, nonce: Nonce, ref: Ref): Commitment {
    Commitment(t.merchantId, nonce, inv.items, ref, inv.deliverTo)
  }

  datatype Refusal = NotIssued | AlreadyFulfilled | ReceiptRejected
  datatype Reply = Committed(sig: Signature) | Refused(why: Refusal)

  class Desk {
    const terms: Terms
    const key: Key
    var issued: map<Nonce, Invoice>
    var fulfilled: set<Nonce>

    constructor (terms: Terms, key: Key)
      ensures this.terms == terms && this.key == key && Books() == Orders(map[], {})
    {
      this.terms, this.key := terms, key;
      issued, fulfilled := map[], {};
    }

    ghost function Books(): Orders
      reads this
    {
      Orders(issued, fulfilled)
    }

    /** `MerchantDesk.invoice`: the clock is read once for the expiry and again by the policy. */
    method Quote(items: seq<Proposed>, deliverTo: Option<Place>, quotedAt: int, checkedAt: int, nonce: Nonce)
      returns (sig: Option<Signature>)
      requires quotedAt <= checkedAt
      modifies this`issued
      ensures var inv := Draft(terms, items, deliverTo, quotedAt, nonce);
        match Quoted(terms, old(Books()), inv, checkedAt)
        case None => sig.None? && Books() == old(Books())
        case Some(after) => sig == Some(Signature(key, InvoiceDoc(inv))) && Books() == after
    {
      var inv := Draft(terms, items, deliverTo, quotedAt, nonce);
      var violations := CheckInvoice(terms.policy, inv, checkedAt);
      if violations != [] {
        return None;
      }
      issued := issued[nonce := inv];
      return Some(Signature(key, InvoiceDoc(inv)));
    }

    /** `fulfill`: the order of the refusals is the order of the checks. */
    method Fulfill(r: Receipt, sig: Signature, settlementKey: Key) returns (reply: Reply)
      modifies this`fulfilled
      ensures reply.Committed? <==> Shippable(old(Books()), r, sig, settlementKey)
      ensures reply.Committed? ==>
        && Books() == old(Books()).(fulfilled := old(fulfilled) + {r.nonce.value})
        && reply.sig == Signature(key, CommitmentDoc(CommitmentTo(terms, issued[r.nonce.value], r.nonce.value, r.ref)))
      ensures reply.Refused? ==>
        && Books() == old(Books())
        && (reply.why == NotIssued <==> r.nonce.None? || r.nonce.value !in issued)
        && (reply.why == AlreadyFulfilled <==> r.nonce.Some? && r.nonce.value in issued && r.nonce.value in fulfilled)
    {
      if r.nonce.None? || r.nonce.value !in issued {
        return Refused(NotIssued);
      }
      var nonce := r.nonce.value;
      var inv := issued[nonce];
      if nonce in fulfilled {
        return Refused(AlreadyFulfilled);
      }
      if sig != Signature(settlementKey, ReceiptDoc(r)) || !Settles(r, inv) {
        return Refused(ReceiptRejected);
      }
      fulfilled := fulfilled + {nonce};
      return Committed(Signature(key, CommitmentDoc(CommitmentTo(terms, inv, nonce, r.ref))));
    }
  }
}
