/** The merchant's policy gate: what the desk may sign, for any proposed order. */
module Merchant {
  import opened Prelude

  type Name(==, !new)
  type Nonce(==, !new)
  type MerchantId(==, !new)
  type Place(==, !new)

  /** A JSON value where the desk expects a number. A boolean passes for an integer. */
  datatype Num = Whole(n: int) | Flag(b: bool) | Fraction(r: real) | Absent | Other

  predicate IsInt(x: Num) {
    x.Whole? || x.Flag?
  }

  function IntValue(x: Num): int
    requires IsInt(x)
  {
    if x.Whole? then x.n else if x.b then 1 else 0
  }

  predicate Equals(x: Num, n: int) {
    if x.Fraction? then x.r == n as real else IsInt(x) && IntValue(x) == n
  }

  function Truncate(r: real): int {
    if r >= 0.0 then r.Floor else -((-r).Floor)
  }

  function Ceiling(r: real): int {
    -((-r).Floor)
  }

  datatype Currency = Usd | Foreign

  datatype Line = Line(name: Name, qty: Num, price: Num)

  datatype Invoice = Invoice(merchantId: MerchantId, items: seq<Line>, total: Num, currency: Currency, exp: Num,
                             nonce: Option<Nonce>, deliverTo: Option<Place>)

  datatype Policy = Policy(menu: map<Name, int>, floorRatio: real, maxQty: int, maxTotal: int, quoteTtl: int)

  datatype Violation = EmptyOrder | NotOnMenu(name: Name) | BadQuantity(name: Name) | BelowFloor(name: Name)
                     | AboveList(name: Name) | WrongTotal | OverLimit | BadCurrency | BadExpiry | NoNonce

  function FloorPrice(p: Policy, name: Name): int
    requires name in p.menu
  {
    Ceiling(p.menu[name] as real * p.floorRatio)
  }

  // ---- The check ----

  function Amount(l: Line): int
    requires IsInt(l.price) && IsInt(l.qty)
  {
    IntValue(l.price) * IntValue(l.qty)
  }

  function LineViolation(p: Policy, l: Line): Option<Violation> {
    if l.name !in p.menu then Some(NotOnMenu(l.name))
    else if !IsInt(l.qty) || !(1 <= IntValue(l.qty) <= p.maxQty) then Some(BadQuantity(l.name))
    else if !IsInt(l.price) || IntValue(l.price) < FloorPrice(p, l.name) then Some(BelowFloor(l.name))
    else if IntValue(l.price) > p.menu[l.name] then Some(AboveList(l.name))
    else None
  }

  function LineErrors(p: Policy, items: seq<Line>): seq<Violation> {
    if items == [] then []
    else
      var v := LineViolation(p, items[|items| - 1]);
      LineErrors(p, items[..|items| - 1]) + if v.Some? then [v.value] else []
  }

  /** The sum over the lines without a violation. */
  function CleanTotal(p: Policy, items: seq<Line>): int {
    if items == [] then 0
    else
      var l := items[|items| - 1];
      CleanTotal(p, items[..|items| - 1])
      + if LineViolation(p, l).None? then Amount(l) else 0
  }

  function When(b: bool, v: Violation): seq<Violation> {
    if b then [v] else []
  }

  predicate ExpiryInBounds(p: Policy, exp: Num, now: int) {
    IsInt(exp) && now < IntValue(exp) <= now + p.quoteTtl + 60
  }

  function Violations(p: Policy, inv: Invoice, now: int): seq<Violation> {
    var lines := When(inv.items == [], EmptyOrder) + LineErrors(p, inv.items);
    var total := CleanTotal(p, inv.items);
    lines
    + When(lines == [] && !Equals(inv.total, total), WrongTotal)
    + When(total > p.maxTotal, OverLimit)
    + When(inv.currency != Usd, BadCurrency)
    + When(!ExpiryInBounds(p, inv.exp, now), BadExpiry)
    + When(inv.nonce.None?, NoNonce)
  }

  /** `check_invoice`. */
  method CheckInvoice(p: Policy, inv: Invoice, now: int) returns (errors: seq<Violation>)
    ensures errors == Violations(p, inv, now)
  {
    hide LineViolation, ExpiryInBounds, Equals, FloorPrice, Amount, LineErrors, CleanTotal;
    NoLines(p, inv.items);
    errors := [];
    if inv.items == [] {
      errors := errors + [EmptyOrder];
    }
    var total := 0;
    for i := 0 to |inv.items|
      invariant errors == When(inv.items == [], EmptyOrder) + LineErrors(p, inv.items[..i])
      invariant total == CleanTotal(p, inv.items[..i])
    {
      var l := inv.items[i];
      OneMoreLine(p, inv.items, i);
      Judged(p, l);
      if l.name !in p.menu {
        errors := errors + [NotOnMenu(l.name)];
        continue;
      }
      if !IsInt(l.qty) || !(1 <= IntValue(l.qty) <= p.maxQty) {
        errors := errors + [BadQuantity(l.name)];
        continue;
      }
      var floor := FloorPrice(p, l.name);
      if !IsInt(l.price) || IntValue(l.price) < floor {
        errors := errors + [BelowFloor(l.name)];
        continue;
      }
      if IntValue(l.price) > p.menu[l.name] {
        errors := errors + [AboveList(l.name)];
        continue;
      }
      total := total + Amount(l);
    }
    hide When;
    Noted();
    ghost var lines := errors;
    if errors == [] && !Equals(inv.total, total) {
      errors := errors + [WrongTotal];
    }
    ghost var summed := lines + When(lines == [] && !Equals(inv.total, total), WrongTotal);
    assert errors == summed;
    if total > p.maxTotal {
      errors := errors + [OverLimit];
    }
    ghost var limited := summed + When(total > p.maxTotal, OverLimit);
    assert errors == limited;
    if inv.currency != Usd {
      errors := errors + [BadCurrency];
    }
    ghost var priced := limited + When(inv.currency != Usd, BadCurrency);
    assert errors == priced;
    if !ExpiryInBounds(p, inv.exp, now) {
      errors := errors + [BadExpiry];
    }
    ghost var dated := priced + When(!ExpiryInBounds(p, inv.exp, now), BadExpiry);
    assert errors == dated;
    if inv.nonce.None? {
      errors := errors + [NoNonce];
    }
  }

  lemma Noted()
    ensures forall v :: When(true, v) == [v] && When(false, v) == []
  {
  }

  lemma NoLines(p: Policy, items: seq<Line>)
    ensures LineErrors(p, items[..0]) == [] && CleanTotal(p, items[..0]) == 0
    ensures items[..|items|] == items
  {
  }

  lemma OneMoreLine(p: Policy, items: seq<Line>, i: nat)
    requires i < |items|
    ensures var before, after, l := items[..i], items[..i + 1], items[i];
      && LineErrors(p, after) == LineErrors(p, before)
           + (if LineViolation(p, l).Some? then [LineViolation(p, l).value] else [])
      && CleanTotal(p, after) == CleanTotal(p, before) + (if LineViolation(p, l).None? then Amount(l) else 0)
  {
    assert items[..i + 1][..i] == items[..i];
  }

  lemma Judged(p: Policy, l: Line)
    ensures l.name !in p.menu ==> LineViolation(p, l) == Some(NotOnMenu(l.name))
    ensures l.name in p.menu && (!IsInt(l.qty) || !(1 <= IntValue(l.qty) <= p.maxQty)) ==>
      LineViolation(p, l) == Some(BadQuantity(l.name))
    ensures l.name in p.menu && IsInt(l.qty) && 1 <= IntValue(l.qty) <= p.maxQty ==>
      LineViolation(p, l) ==
      if !IsInt(l.price) || IntValue(l.price) < FloorPrice(p, l.name) then Some(BelowFloor(l.name))
      else if IntValue(l.price) > p.menu[l.name] then Some(AboveList(l.name)) else None
  {
  }

  // ---- What passing it means ----

  /** A known item, a quantity within the limit, and a price between the discount floor, unrounded, and
      the list price. */
  predicate InBounds(p: Policy, l: Line) {
    && l.name in p.menu
    && IsInt(l.qty) && 1 <= IntValue(l.qty) <= p.maxQty
    && IsInt(l.price) && p.menu[l.name] as real * p.floorRatio <= IntValue(l.price) as real && IntValue(l.price) <= p.menu[l.name]
  }

  lemma CeilingExactly(r: real, n: int)
    ensures Ceiling(r) <= n <==> r <= n as real
  {
  }

  /** What counts as a whole number: an integer itself, or a boolean as one or zero. */
  predicate Counts(x: Num, n: int) {
    x == Whole(n) || (x == Flag(true) && n == 1) || (x == Flag(false) && n == 0)
  }

  lemma CountsIs(x: Num, n: int)
    ensures Counts(x, n) <==> IsInt(x) && IntValue(x) == n
  {
  }

  /** A line passes exactly when its item is on the menu, its quantity is a whole number within the limit,
      and its price a whole number no less than the ratio of the list price and no more than that price. */
  lemma LineExactly(p: Policy, l: Line)
    ensures LineViolation(p, l).None? <==>
      && l.name in p.menu
      && (exists q :: Counts(l.qty, q) && 1 <= q <= p.maxQty)
      && (exists n :: Counts(l.price, n) && p.menu[l.name] as real * p.floorRatio <= n as real && n <= p.menu[l.name])
    ensures LineViolation(p, l).None? <==> InBounds(p, l)
  {
    if IsInt(l.qty) {
      CountsIs(l.qty, IntValue(l.qty));
    }
    if IsInt(l.price) {
      CountsIs(l.price, IntValue(l.price));
    }
    if l.name in p.menu && IsInt(l.price) {
      CeilingExactly(p.menu[l.name] as real * p.floorRatio, IntValue(l.price));
    }
  }

  predicate AllInBounds(p: Policy, items: seq<Line>) {
    forall i :: 0 <= i < |items| ==> InBounds(p, items[i])
  }

  /** Price times quantity over all lines. */
  function LinesTotal(p: Policy, items: seq<Line>): int
    requires AllInBounds(p, items)
  {
    if items == [] then 0 else Amount(items[0]) + LinesTotal(p, items[1..])
  }

  function FloorsTotal(p: Policy, items: seq<Line>): int
    requires AllInBounds(p, items)
  {
    if items == [] then 0 else FloorPrice(p, items[0].name) * IntValue(items[0].qty) + FloorsTotal(p, items[1..])
  }

  function ListTotal(p: Policy, items: seq<Line>): int
    requires AllInBounds(p, items)
  {
    if items == [] then 0 else p.menu[items[0].name] * IntValue(items[0].qty) + ListTotal(p, items[1..])
  }

  /** The terms the policy lets the desk bind the merchant to. */
  predicate Bindable(p: Policy, inv: Invoice) {
    && inv.items != [] && AllInBounds(p, inv.items)
    && Equals(inv.total, LinesTotal(p, inv.items))
    && FloorsTotal(p, inv.items) <= LinesTotal(p, inv.items) <= ListTotal(p, inv.items)
    && LinesTotal(p, inv.items) <= p.maxTotal
    && inv.currency == Usd && inv.nonce.Some?
  }

  lemma OneLine(price: int, floor: int, list: int, qty: int)
    requires floor <= price <= list && qty >= 1
    ensures floor * qty <= price * qty <= list * qty
  {
  }

  /** The total lies between the floors and the list prices of what is ordered. */
  lemma {:induction false} BetweenFloorsAndList(p: Policy, items: seq<Line>)
    requires AllInBounds(p, items)
    ensures FloorsTotal(p, items) <= LinesTotal(p, items) <= ListTotal(p, items)
  {
    if items != [] {
      var l := items[0];
      assert InBounds(p, l);
      CeilingExactly(p.menu[l.name] as real * p.floorRatio, IntValue(l.price));
      assert FloorPrice(p, l.name) <= IntValue(l.price);
      OneLine(IntValue(l.price), FloorPrice(p, l.name), p.menu[l.name], IntValue(l.qty));
      BetweenFloorsAndList(p, items[1..]);
    }
  }

  lemma {:induction false} LinesTotalSnoc(p: Policy, items: seq<Line>, l: Line)
    requires AllInBounds(p, items) && InBounds(p, l)
    ensures AllInBounds(p, items + [l])
    ensures LinesTotal(p, items + [l]) == LinesTotal(p, items) + Amount(l)
  {
    hide InBounds;
    var all := items + [l];
    forall i | 0 <= i < |all|
      ensures InBounds(p, all[i])
    {
    }
    if items == [] {
      assert all[1..] == [];
      SingleLine(p, l, all);
    } else {
      assert all[1..] == items[1..] + [l];
      LinesTotalSnoc(p, items[1..], l);
    }
  }

  lemma SingleLine(p: Policy, l: Line, all: seq<Line>)
    requires all == [l] && InBounds(p, l)
    ensures AllInBounds(p, all) && LinesTotal(p, all) == Amount(l)
  {
  }

  /** No line error means every line is in bounds, and then the checked total is the total of all lines. */
  lemma {:induction false} NoLineErrors(p: Policy, items: seq<Line>)
    ensures LineErrors(p, items) == [] <==> AllInBounds(p, items)
    ensures AllInBounds(p, items) ==> CleanTotal(p, items) == LinesTotal(p, items)
  {
    hide FloorPrice;
    if items != [] {
      var init, last := items[..|items| - 1], items[|items| - 1];
      assert items == init + [last];
      NoLineErrors(p, init);
      LineExactly(p, last);
      hide InBounds, LineViolation;
      assert AllInBounds(p, items) <==> AllInBounds(p, init) && InBounds(p, last);
      if AllInBounds(p, items) {
        LinesTotalSnoc(p, init, last);
      }
    }
  }

  lemma ExpiryExactly(p: Policy, exp: Num, now: int)
    ensures ExpiryInBounds(p, exp, now) <==> exists t :: Counts(exp, t) && now < t <= now + p.quoteTtl + 60
  {
    if IsInt(exp) {
      CountsIs(exp, IntValue(exp));
    }
  }

  /** The gate, exactly: it raises no violation when, and only when, the terms are bindable and the
      expiry is in the quoting window. */
  lemma CheckedExactly(p: Policy, inv: Invoice, now: int)
    ensures Violations(p, inv, now) == [] <==>
      Bindable(p, inv) && exists t :: Counts(inv.exp, t) && now < t <= now + p.quoteTtl + 60
  {
    ExpiryExactly(p, inv.exp, now);
    hide LineErrors, CleanTotal, LinesTotal, FloorsTotal, ListTotal, AllInBounds, ExpiryInBounds, Equals;
    NoLineErrors(p, inv.items);
    if AllInBounds(p, inv.items) {
      BetweenFloorsAndList(p, inv.items);
    }
  }

  // ---- The draft the desk writes from a proposal ----

  /** A proposed item: a missing quantity counts as one, a missing price as the list price. */
  datatype Proposed = Proposed(name: Name, qty: Option<Num>, price: Option<Num>)

  function Fill(p: Policy, item: Proposed): Line {
    var qty := if item.qty.None? then Whole(1) else item.qty.value;
    var price := if item.price.Some? then item.price.value
                 else if item.name in p.menu then Whole(p.menu[item.name]) else Absent;
    Line(item.name, if qty.Fraction? then Whole(Truncate(qty.r)) else qty, price)
  }

  function FillAll(p: Policy, items: seq<Proposed>): (lines: seq<Line>)
    ensures |lines| == |items| && forall i :: 0 <= i < |items| ==> lines[i] == Fill(p, items[i])
  {
    seq(|items|, i requires 0 <= i < |items| => Fill(p, items[i]))
  }

  /** The sum over the lines whose price and quantity are both integers. */
  function LooseTotal(lines: seq<Line>): int {
    if lines == [] then 0
    else
      (if IsInt(lines[0].price) && IsInt(lines[0].qty) then Amount(lines[0]) else 0)
      + LooseTotal(lines[1..])
  }

  datatype Terms = Terms(merchantId: MerchantId, policy: Policy)

  function Draft(t: Terms, items: seq<Proposed>, deliverTo: Option<Place>, quotedAt: int, nonce: Nonce): Invoice {
    var lines := FillAll(t.policy, items);
    Invoice(t.merchantId, lines, Whole(LooseTotal(lines)), Usd, Whole(quotedAt + t.policy.quoteTtl), Some(nonce), deliverTo)
  }

  lemma {:induction false} LooseIsTotal(p: Policy, lines: seq<Line>)
    requires AllInBounds(p, lines)
    ensures LooseTotal(lines) == LinesTotal(p, lines)
  {
    if lines != [] {
      LooseIsTotal(p, lines[1..]);
      assert InBounds(p, lines[0]);
    }
  }

  /** Whatever is proposed, the desk signs exactly when every filled-in line is in bounds, there is
      one, the sum is within the limit and the quote has not lapsed by the time it is checked. */
  lemma SignedExactly(t: Terms, items: seq<Proposed>, deliverTo: Option<Place>, quotedAt: int, checkedAt: int, nonce: Nonce)
    requires quotedAt <= checkedAt
    ensures var p, lines := t.policy, FillAll(t.policy, items);
      Violations(p, Draft(t, items, deliverTo, quotedAt, nonce), checkedAt) == [] <==>
        lines != [] && AllInBounds(p, lines) && LinesTotal(p, lines) <= p.maxTotal && checkedAt < quotedAt + p.quoteTtl
  {
    var p, lines := t.policy, FillAll(t.policy, items);
    var inv := Draft(t, items, deliverTo, quotedAt, nonce);
    CheckedExactly(p, inv, checkedAt);
    ExpiryExactly(p, inv.exp, checkedAt);
    hide Violations, AllInBounds, LinesTotal, FloorsTotal, ListTotal, LooseTotal, Counts;
    if AllInBounds(p, lines) {
      LooseIsTotal(p, lines);
      BetweenFloorsAndList(p, lines);
    }
  }

  lemma OneFloor(list: int, ratio: real, price: int, qty: int)
    requires list as real * ratio <= price as real && qty >= 0
    ensures ratio * (list * qty) as real <= (price * qty) as real
  {
    assert (list * qty) as real == list as real * qty as real;
    assert (price * qty) as real == price as real * qty as real;
    ScaledFloor(list as real * ratio, price as real, qty as real);
    assert ratio * (list as real * qty as real) == list as real * ratio * qty as real;
  }

  lemma ScaledFloor(a: real, b: real, q: real)
    requires a <= b && q >= 0.0
    ensures a * q <= b * q
  {
  }

  lemma AddFloors(r: real, a: int, b: int, x: int, y: int)
    requires r * a as real <= x as real && r * b as real <= y as real
    ensures r * (a + b) as real <= (x + y) as real
  {
    assert r * (a + b) as real == r * a as real + r * b as real;
  }

  lemma FirstFloor(p: Policy, items: seq<Line>) returns (list: int, price: int)
    requires AllInBounds(p, items) && items != []
    ensures LinesTotal(p, items) == price + LinesTotal(p, items[1..]) && ListTotal(p, items) == list + ListTotal(p, items[1..])
    ensures p.floorRatio * list as real <= price as real
  {
    var l := items[0];
    assert InBounds(p, l);
    list, price := p.menu[l.name] * IntValue(l.qty), Amount(l);
    OneFloor(p.menu[l.name], p.floorRatio, IntValue(l.price), IntValue(l.qty));
  }

  /** The total of lines in bounds is at least the discount ratio of what they list for. */
  lemma {:induction false} AboveDiscount(p: Policy, items: seq<Line>)
    requires AllInBounds(p, items)
    ensures p.floorRatio * ListTotal(p, items) as real <= LinesTotal(p, items) as real
  {
    if items == [] {
      assert ListTotal(p, items) == 0;
    } else {
      hide LinesTotal, ListTotal, InBounds;
      var list, price := FirstFloor(p, items);
      AboveDiscount(p, items[1..]);
      AddFloors(p.floorRatio, list, ListTotal(p, items[1..]), price, LinesTotal(p, items[1..]));
    }
  }

  /** What the desk signs, from what was proposed: each line has the proposed item, the proposed quantity
      cut to a whole number or else one, and the proposed price or else the list price; the total is the
      sum over the lines, between the discount ratio and the whole of what they list for. */
  lemma SignedTerms(t: Terms, items: seq<Proposed>, deliverTo: Option<Place>, quotedAt: int, checkedAt: int, nonce: Nonce)
    requires Violations(t.policy, Draft(t, items, deliverTo, quotedAt, nonce), checkedAt) == []
    ensures var p, inv := t.policy, Draft(t, items, deliverTo, quotedAt, nonce);
      && inv.merchantId == t.merchantId && inv.currency == Usd && inv.nonce == Some(nonce) && inv.deliverTo == deliverTo
      && inv.exp == Whole(quotedAt + p.quoteTtl) && AllInBounds(p, inv.items)
      && inv.total == Whole(LinesTotal(p, inv.items))
      && p.floorRatio * ListTotal(p, inv.items) as real <= LinesTotal(p, inv.items) as real <= ListTotal(p, inv.items) as real
      && |inv.items| == |items| && forall i :: 0 <= i < |items| ==> SignedLine(p, items[i], inv.items[i])
  {
    var p, inv := t.policy, Draft(t, items, deliverTo, quotedAt, nonce);
    hide Violations, LinesTotal, ListTotal, FloorsTotal, LooseTotal, Counts, SignedLine, AllInBounds;
    CheckedExactly(p, inv, checkedAt);
    LooseIsTotal(p, inv.items);
    AboveDiscount(p, inv.items);
    LinesSigned(p, items);
  }

  lemma LinesSigned(p: Policy, items: seq<Proposed>)
    requires AllInBounds(p, FillAll(p, items))
    ensures forall i :: 0 <= i < |items| ==> SignedLine(p, items[i], FillAll(p, items)[i])
  {
    hide Fill, InBounds, SignedLine;
    forall i | 0 <= i < |items|
      ensures SignedLine(p, items[i], FillAll(p, items)[i])
    {
      FilledIsSigned(p, items[i]);
    }
  }

  lemma FilledIsSigned(p: Policy, item: Proposed)
    requires InBounds(p, Fill(p, item))
    ensures SignedLine(p, item, Fill(p, item))
  {
  }

  predicate SignedLine(p: Policy, item: Proposed, l: Line) {
    && l.name == item.name && l.name in p.menu
    && (match item.qty
        case None => l.qty == Whole(1)
        case Some(Fraction(r)) => l.qty.Whole? && l.qty.n as real <= r < (l.qty.n + 1) as real
        case Some(q) => l.qty == q)
    && (match item.price
        case None => l.price == Whole(p.menu[item.name])
        case Some(x) => l.price == x)
  }
}
