/** Positional numerals, big-endian, in any base: the integers behind the codecs. */
module Numerals {

  type Byte = b: nat | b < 256

  predicate DigitsBelow(ds: seq<nat>, base: nat) {
    forall i :: 0 <= i < |ds| ==> ds[i] < base
  }

  function AsBytes(ds: seq<nat>): (bs: seq<Byte>)
    requires DigitsBelow(ds, 256)
    ensures bs == ds
  {
    seq(|ds|, i requires 0 <= i < |ds| => ds[i] as Byte)
  }

  function Value(ds: seq<nat>, base: nat): nat {
    if ds == [] then 0 else Value(ds[..|ds| - 1], base) * base + ds[|ds| - 1]
  }

  /** The digits of n with no leading zero; zero has none. */
  function Digits(n: nat, base: nat): (ds: seq<nat>)
    requires base >= 2
    ensures DigitsBelow(ds, base) && (ds != [] ==> ds[0] != 0)
    ensures n == 0 <==> ds == []
  {
    if n == 0 then [] else
      QuotientShrinks(n, base);
      Digits(n / base, base) + [n % base]
  }

  lemma QuotientShrinks(n: nat, base: nat)
    requires n > 0 && base >= 2
    ensures n / base < n
  {
  }

  lemma DivMod(n: nat, base: nat)
    requires base > 0
    ensures (n / base) * base + n % base == n
  {
  }

  lemma AtLeastOne(a: nat, base: nat)
    requires a > 0
    ensures a * base >= base
  {
  }

  lemma SplitBack(q: nat, r: nat, base: nat)
    requires r < base
    ensures (q * base + r) / base == q && (q * base + r) % base == r
  {
    var n := q * base + r;
    var d, m := n / base, n % base;
    DivMod(n, base);
    if d > q {
      AtLeastOne(d - q, base);
    } else if d < q {
      AtLeastOne(q - d, base);
    }
  }

  lemma {:induction false} ValueOfDigits(n: nat, base: nat)
    requires base >= 2
    ensures Value(Digits(n, base), base) == n
  {
    if n > 0 {
      QuotientShrinks(n, base);
      var q, r := n / base, n % base;
      ValueOfDigits(q, base);
      ValueOfSnoc(Digits(q, base), r, base);
      DivMod(n, base);
    }
  }

  lemma ValueOfSnoc(ds: seq<nat>, d: nat, base: nat)
    ensures Value(ds + [d], base) == Value(ds, base) * base + d
  {
    assert (ds + [d])[..|ds|] == ds;
  }

  lemma DigitsSnoc(q: nat, r: nat, base: nat)
    requires base >= 2 && r < base && (q > 0 || r > 0)
    ensures Digits(q * base + r, base) == Digits(q, base) + [r]
  {
    if q > 0 {
      AtLeastOne(q, base);
    }
    SplitBack(q, r, base);
  }

  lemma {:induction false} DigitsOfValue(ds: seq<nat>, base: nat)
    requires base >= 2 && DigitsBelow(ds, base) && (ds != [] ==> ds[0] != 0)
    ensures Digits(Value(ds, base), base) == ds
  {
    hide Digits;
    if ds == [] {
      NoDigits(base);
    } else {
      var init, last := ds[..|ds| - 1], ds[|ds| - 1];
      DigitsOfValue(init, base);
      DigitsSnoc(Value(init, base), last, base);
      assert ds == init + [last];
    }
  }

  lemma NoDigits(base: nat)
    requires base >= 2
    ensures Digits(0, base) == []
  {
  }

  // ---- Leading zeros ----

  function Zeros(k: nat): (z: seq<nat>)
    ensures |z| == k && forall i :: 0 <= i < k ==> z[i] == 0
  {
    seq(k, i => 0)
  }

  function Leading(ds: seq<nat>): (k: nat)
    ensures k <= |ds|
    ensures forall i :: 0 <= i < k ==> ds[i] == 0
    ensures k < |ds| ==> ds[k] != 0
  {
    if ds == [] || ds[0] != 0 then 0 else 1 + Leading(ds[1..])
  }

  lemma LeadingIs(ds: seq<nat>, k: nat)
    requires k <= |ds| && (forall i :: 0 <= i < k ==> ds[i] == 0) && (k < |ds| ==> ds[k] != 0)
    ensures Leading(ds) == k
  {
  }

  lemma {:induction false} ZerosAddNothing(k: nat, ds: seq<nat>, base: nat)
    ensures Value(Zeros(k) + ds, base) == Value(ds, base)
  {
    var all := Zeros(k) + ds;
    if ds != [] {
      ZerosAddNothing(k, ds[..|ds| - 1], base);
      assert all[..|all| - 1] == Zeros(k) + ds[..|ds| - 1];
    } else if k > 0 {
      ZerosAddNothing(k - 1, [], base);
      assert all[..|all| - 1] == Zeros(k - 1) + [];
      assert Value(all[..|all| - 1], base) == 0;
    } else {
      assert all == ds;
    }
  }

  /** The same integer written in another base, each leading zero kept as one leading zero. */
  function Rebase(ds: seq<nat>, from: nat, to: nat): (r: seq<nat>)
    requires to >= 2
    ensures DigitsBelow(r, to)
    ensures |r| >= Leading(ds)
  {
    Zeros(Leading(ds)) + Digits(Value(ds, from), to)
  }

  /** Changing base and back changes nothing, leading zeros included. */
  lemma RebaseInverse(ds: seq<nat>, from: nat, to: nat)
    requires from >= 2 && to >= 2 && DigitsBelow(ds, from)
    ensures Rebase(Rebase(ds, from, to), to, from) == ds
  {
    var k, r := Leading(ds), Rebase(ds, from, to);
    var n, tail := Value(ds, from), ds[k..];
    assert ds == Zeros(k) + tail;
    ZerosAddNothing(k, tail, from);
    DigitsOfValue(tail, from);
    assert Digits(n, from) == tail;
    ZerosAddNothing(k, Digits(n, to), to);
    ValueOfDigits(n, to);
    LeadingIs(r, k);
  }

  // ---- Fixed-width integers ----

  function BitLength(n: nat): nat {
    if n == 0 then 0 else 1 + BitLength(n / 2)
  }

  function Power(base: nat, e: nat): nat {
    if e == 0 then 1 else Power(base, e - 1) * base
  }

  /** `int.to_bytes(width, "big")` for an integer that fits. */
  function ToFixed(n: nat, width: nat, base: nat): (ds: seq<nat>)
    requires base >= 2
    ensures |ds| == width && DigitsBelow(ds, base)
  {
    if width == 0 then [] else ToFixed(n / base, width - 1, base) + [n % base]
  }

  lemma NoLess(a: nat, b: nat, base: nat)
    requires a >= b
    ensures a * base >= b * base
  {
  }

  lemma QuotientFits(n: nat, base: nat, p: nat)
    requires base > 0 && n < p * base
    ensures n / base < p
  {
    DivMod(n, base);
    if n / base >= p {
      NoLess(n / base, p, base);
    }
  }

  lemma FixedUnfold(n: nat, width: nat, base: nat) returns (q: nat, r: nat)
    requires base >= 2 && width > 0 && n < Power(base, width)
    ensures ToFixed(n, width, base) == ToFixed(q, width - 1, base) + [r]
    ensures q < Power(base, width - 1) && q * base + r == n
  {
    q, r := n / base, n % base;
    QuotientFits(n, base, Power(base, width - 1));
    DivMod(n, base);
  }

  lemma NoWidth(n: nat, base: nat)
    requires base >= 2
    ensures n < Power(base, 0) ==> Value(ToFixed(n, 0, base), base) == n
  {
  }

  lemma {:induction false} ValueOfFixed(n: nat, width: nat, base: nat)
    requires base >= 2 && n < Power(base, width)
    ensures Value(ToFixed(n, width, base), base) == n
  {
    hide Value, ToFixed, Power;
    if width == 0 {
      NoWidth(n, base);
    } else {
      var q, r := FixedUnfold(n, width, base);
      ValueOfFixed(q, width - 1, base);
      ValueOfSnoc(ToFixed(q, width - 1, base), r, base);
    }
  }

  lemma {:induction false} FixedIsDigits(n: nat, base: nat)
    requires base >= 2
    ensures ToFixed(n, |Digits(n, base)|, base) == Digits(n, base)
  {
    if n > 0 {
      QuotientShrinks(n, base);
      FixedIsDigits(n / base, base);
    }
  }

  lemma TwoBits(n: nat)
    ensures n >= 4 ==> BitLength(n) == 2 + BitLength(n / 4)
    ensures 0 < n < 4 ==> 1 <= BitLength(n) <= 2
  {
    assert n / 2 / 2 == n / 4;
  }

  lemma FourBits(n: nat)
    ensures n >= 16 ==> BitLength(n) == 4 + BitLength(n / 16)
    ensures 0 < n < 16 ==> 1 <= BitLength(n) <= 4
  {
    hide BitLength;
    TwoBits(n);
    TwoBits(n / 4);
    assert n / 4 / 4 == n / 16;
  }

  lemma EightBits(n: nat)
    ensures n >= 256 ==> BitLength(n) == 8 + BitLength(n / 256)
    ensures 0 < n < 256 ==> 1 <= BitLength(n) <= 8
  {
    hide BitLength;
    FourBits(n);
    FourBits(n / 16);
    assert n / 16 / 16 == n / 256;
  }

  /** The byte width both decoders compute from the bit length is the number of base-256 digits. */
  lemma {:induction false} ByteWidth(n: nat)
    ensures (BitLength(n) + 7) / 8 == |Digits(n, 256)|
  {
    if n > 0 {
      EightBits(n);
      ByteWidth(n / 256);
    }
  }

  // ---- Leading digits ----

  lemma {:induction false} PowerAdd(base: nat, a: nat, b: nat)
    ensures Power(base, a + b) == Power(base, a) * Power(base, b)
  {
    if b > 0 {
      PowerAdd(base, a, b - 1);
      Regroup(Power(base, a), Power(base, b - 1), base);
    }
  }

  lemma Regroup(x: nat, y: nat, z: nat)
    ensures (x * y) * z == x * (y * z)
  {
  }

  lemma QuotientBetween(n: nat, lo: nat, hi: nat, base: nat)
    requires base > 0 && lo * base <= n < hi * base
    ensures lo <= n / base < hi
  {
    DivMod(n, base);
    if n / base < lo {
      NoLess(lo, n / base + 1, base);
    }
    if n / base >= hi {
      NoLess(n / base, hi, base);
    }
  }

  lemma PowerNext(base: nat, k: nat)
    requires k > 0
    ensures Power(base, k) == Power(base, k - 1) * base
  {
  }

  lemma DigitsNext(n: nat, base: nat)
    requires base >= 2 && n > 0
    ensures Digits(n, base) == Digits(n / base, base) + [n % base]
  {
  }

  /** A number between a and a + 1 with k digits more starts with a's digits. */
  lemma {:induction false} LeadingDigits(n: nat, a: nat, k: nat, base: nat)
    requires base >= 2 && a > 0 && a * Power(base, k) <= n < (a + 1) * Power(base, k)
    ensures |Digits(n, base)| == |Digits(a, base)| + k && Digits(a, base) <= Digits(n, base)
  {
    hide Power, Digits;
    if k == 0 {
      assert Power(base, 0) == 1 by { NoPower(base); }
      assert n == a;
    } else {
      QuotientLeads(n, a, k, base);
      LeadingDigits(n / base, a, k - 1, base);
      DigitsNext(n, base);
    }
  }

  lemma NoPower(base: nat)
    ensures Power(base, 0) == 1
  {
  }

  lemma QuotientLeads(n: nat, a: nat, k: nat, base: nat)
    requires k > 0 && base >= 2 && a > 0 && a * Power(base, k) <= n < (a + 1) * Power(base, k)
    ensures n > 0 && a * Power(base, k - 1) <= n / base < (a + 1) * Power(base, k - 1)
  {
    var p := Power(base, k - 1);
    PowerNext(base, k);
    hide Power;
    Regroup(a, p, base);
    Regroup(a + 1, p, base);
    QuotientBetween(n, a * p, (a + 1) * p, base);
    NotZero(n, a, p, base);
  }

  lemma NotZero(n: nat, a: nat, p: nat, base: nat)
    requires a > 0 && base >= 2 && a * p <= n / base < (a + 1) * p
    ensures n > 0
  {
    if n == 0 {
      assert p > 0;
      AtLeastOne(a, p);
    }
  }

  lemma AppendStep(t: nat, a: nat, p: nat, q: nat, b: nat, base: nat, d: nat)
    requires t == a * p + b && q == p * base
    ensures t * base + d == a * q + (b * base + d)
  {
    Regroup(a, p, base);
    Spread(a * p, b, base);
  }

  lemma Spread(x: nat, y: nat, z: nat)
    ensures (x + y) * z == x * z + y * z
  {
  }

  lemma NothingAppended(a: seq<nat>, base: nat)
    ensures Value(a + [], base) == Value(a, base) * Power(base, 0) + Value([], base)
  {
    assert a + [] == a;
  }

  lemma {:induction false} ValueAppend(a: seq<nat>, b: seq<nat>, base: nat)
    ensures Value(a + b, base) == Value(a, base) * Power(base, |b|) + Value(b, base)
    decreases |b|
  {
    hide Value, Power;
    if b == [] {
      NothingAppended(a, base);
    } else {
      var init, last := b[..|b| - 1], b[|b| - 1];
      ValueAppend(a, init, base);
      assert a + b == (a + init) + [last] && b == init + [last];
      ValueOfSnoc(a + init, last, base);
      ValueOfSnoc(init, last, base);
      PowerNext(base, |b|);
      AppendStep(Value(a + init, base), Value(a, base), Power(base, |init|), Power(base, |b|), Value(init, base), base, last);
    }
  }

  lemma {:induction false} ValueBelow(ds: seq<nat>, base: nat)
    requires DigitsBelow(ds, base)
    ensures Value(ds, base) < Power(base, |ds|)
  {
    if ds != [] {
      ValueBelow(ds[..|ds| - 1], base);
      NoLess(Power(base, |ds| - 1), Value(ds[..|ds| - 1], base) + 1, base);
    }
  }
}
