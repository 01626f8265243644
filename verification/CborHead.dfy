/** The heads of CBOR items, of section 3 of RFC 8949: a major type and an argument, read from a buffer
    whose slices are clamped, and written in the shortest form. */
module CborHead {
  import opened Numerals

  datatype Fault = OutOfBytes | Unsupported | BadText | Unhashable
  datatype Outcome<+T> = Ok(value: T, end: nat) | Raises(why: Fault)

  // ---- Reading ----

  /** `data[from:to]`, which Python clamps to the buffer. */
  function Slice(data: seq<Byte>, from: nat, to: nat): seq<Byte>
    requires from <= to
  {
    if to <= |data| then data[from..to] else if from <= |data| then data[from..] else []
  }

  function Argument(data: seq<Byte>, ai: nat, off: nat): (r: Outcome<nat>)
    ensures r.Ok? ==> r.end >= off
  {
    if ai < 24 then Ok(ai, off)
    else if ai == 24 then if off < |data| then Ok(data[off], off + 1) else Raises(OutOfBytes)
    else if ai == 25 then Ok(Value(Slice(data, off, off + 2), 256), off + 2)
    else if ai == 26 then Ok(Value(Slice(data, off, off + 4), 256), off + 4)
    else if ai == 27 then Ok(Value(Slice(data, off, off + 8), 256), off + 8)
    else Raises(Unsupported)
  }

  // ---- Writing ----

  const LIMIT := 0x1_0000_0000_0000_0000

  /** The additional information of a head: a small argument itself, or how wide it is. */
  function Info(n: nat): (ai: nat)
    ensures ai <= 27
  {
    if n < 24 then n else if n < 0x100 then 24 else if n < 0x1_0000 then 25 else if n < 0x1_0000_0000 then 26 else 27
  }

  function Width(ai: nat): nat {
    if ai < 24 then 0 else if ai == 24 then 1 else if ai == 25 then 2 else if ai == 26 then 4 else 8
  }

  /** The head of an item in the shortest form of section 3 of RFC 8949. */
  function Head(major: nat, n: nat): seq<Byte>
    requires major <= 5 && n < LIMIT
  {
    [major * 32 + Info(n)] + AsBytes(ToFixed(n, Width(Info(n)), 256))
  }

  // ---- Reading what was written ----

  /** The bytes stand in the buffer at the offset, whatever is around them. */
  predicate Holds(data: seq<Byte>, off: nat, bytes: seq<Byte>) {
    off + |bytes| <= |data| && data[off..off + |bytes|] == bytes
  }

  lemma HoldsParts(data: seq<Byte>, off: nat, a: seq<Byte>, b: seq<Byte>)
    requires Holds(data, off, a + b)
    ensures Holds(data, off, a) && Holds(data, off + |a|, b)
  {
    var all := data[off..off + |a + b|];
    assert all[..|a|] == a && all[|a|..] == b;
  }

  lemma Widths()
    ensures Power(256, 1) == 0x100 && Power(256, 2) == 0x1_0000
    ensures Power(256, 4) == 0x1_0000_0000 && Power(256, 8) == LIMIT
  {
    assert Power(256, 3) == 0x100_0000;
    assert Power(256, 4) == 0x1_0000_0000;
    assert Power(256, 5) == 0x100_0000_0000;
    assert Power(256, 6) == 0x1_0000_0000_0000;
    assert Power(256, 7) == 0x100_0000_0000_0000;
  }

  lemma FixedArgument(data: seq<Byte>, off: nat, n: nat, w: nat)
    requires n < Power(256, w) && Holds(data, off, AsBytes(ToFixed(n, w, 256)))
    ensures Value(Slice(data, off, off + w), 256) == n
  {
    ValueOfFixed(n, w, 256);
  }

  /** Reading a head gives back its type and argument. */
  lemma HeadRoundTrip(data: seq<Byte>, off: nat, major: nat, n: nat)
    requires major <= 5 && n < LIMIT && Holds(data, off, Head(major, n))
    ensures data[off] / 32 == major
    ensures Argument(data, data[off] % 32, off + 1) == Ok(n, off + |Head(major, n)|)
  {
    var ai := Info(n);
    var bytes := AsBytes(ToFixed(n, Width(ai), 256));
    HoldsParts(data, off, [major * 32 + ai], bytes);
    assert data[off] == data[off..off + 1][0] == major * 32 + ai;
    Widths();
    hide Holds, Power, Value, Slice, ToFixed;
    if 24 <= n {
      FixedArgument(data, off + 1, n, Width(ai));
      OneByte(data, off + 1);
    }
  }

  lemma OneByte(data: seq<Byte>, off: nat)
    requires off < |data|
    ensures Value(Slice(data, off, off + 1), 256) == data[off]
  {
    var one := Slice(data, off, off + 1);
    assert one[..0] == [] && one[0] == data[off];
  }

  lemma SliceHolds(data: seq<Byte>, off: nat, b: seq<Byte>)
    requires Holds(data, off, b)
    ensures Slice(data, off, off + |b|) == b
  {
  }

  lemma HeadThen(data: seq<Byte>, off: nat, major: nat, n: nat, rest: seq<Byte>)
    requires major <= 5 && n < LIMIT && Holds(data, off, Head(major, n) + rest)
    ensures off < |data| && data[off] / 32 == major
    ensures Argument(data, data[off] % 32, off + 1) == Ok(n, off + |Head(major, n)|)
    ensures Holds(data, off + |Head(major, n)|, rest)
  {
    HoldsParts(data, off, Head(major, n), rest);
    HeadRoundTrip(data, off, major, n);
  }
}
