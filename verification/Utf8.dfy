/** Well-formed UTF-8, as section 4 of RFC 3629 gives it, and that it is exactly what encoding scalar values
    yields. */
module Utf8 {
  import opened Numerals

  predicate Follows(b: Byte) {
    0x80 <= b < 0xC0
  }

  /** Length of the well-formed sequence text starts with, or 0. */
  function FirstLength(u: seq<Byte>): (n: nat)
    ensures n <= |u|
  {
    if |u| >= 1 && u[0] < 0x80 then 1
    else if |u| >= 2 && 0xC2 <= u[0] < 0xE0 && Follows(u[1]) then 2
    else if |u| >= 3 && 0xE0 <= u[0] < 0xF0 && Follows(u[1]) && Follows(u[2])
            && (u[0] == 0xE0 ==> u[1] >= 0xA0) && (u[0] == 0xED ==> u[1] < 0xA0) then 3
    else if |u| >= 4 && 0xF0 <= u[0] < 0xF5 && Follows(u[1]) && Follows(u[2]) && Follows(u[3])
            && (u[0] == 0xF0 ==> u[1] >= 0x90) && (u[0] == 0xF4 ==> u[1] < 0x90) then 4
    else 0
  }

  predicate IsUtf8(u: seq<Byte>) {
    u == [] || (FirstLength(u) > 0 && IsUtf8(u[FirstLength(u)..]))
  }

  // ---- Encoding ----

  /** A scalar value: a code point that is no surrogate. */
  type Scalar = n: nat | n < 0xD800 || 0xE000 <= n < 0x11_0000

  function Last(n: nat): Byte {
    0x80 + n % 0x40
  }

  function EncodeScalar(n: Scalar): seq<Byte> {
    if n < 0x80 then [n]
    else if n < 0x800 then [0xC0 + n / 0x40, Last(n)]
    else if n < 0x1_0000 then [0xE0 + n / 0x1000, Last(n / 0x40), Last(n)]
    else [0xF0 + n / 0x4_0000, Last(n / 0x1000), Last(n / 0x40), Last(n)]
  }

  function EncodeText(text: seq<Scalar>): seq<Byte> {
    if text == [] then [] else EncodeScalar(text[0]) + EncodeText(text[1..])
  }

  /** The first scalar of a text is found whatever follows it. */
  lemma ScalarFirst(n: Scalar, rest: seq<Byte>)
    ensures FirstLength(EncodeScalar(n) + rest) == |EncodeScalar(n)| > 0
  {
    var u := EncodeScalar(n) + rest;
    assert forall i :: 0 <= i < |EncodeScalar(n)| ==> u[i] == EncodeScalar(n)[i];
  }

  lemma TwoBytes(n: Scalar, a: nat, b: nat)
    requires 0x80 <= n < 0x800 && b < 0x40 && n == a * 0x40 + b
    ensures EncodeScalar(n) == [0xC0 + a, 0x80 + b]
  {
  }

  lemma ThreeBytes(n: Scalar, a: nat, b: nat, c: nat)
    requires 0x800 <= n < 0x1_0000 && b < 0x40 && c < 0x40 && n == (a * 0x40 + b) * 0x40 + c
    ensures EncodeScalar(n) == [0xE0 + a, 0x80 + b, 0x80 + c]
  {
    assert n / 0x40 == a * 0x40 + b;
  }

  lemma FourBytes(n: Scalar, a: nat, b: nat, c: nat, d: nat)
    requires 0x1_0000 <= n && b < 0x40 && c < 0x40 && d < 0x40 && n == ((a * 0x40 + b) * 0x40 + c) * 0x40 + d
    ensures EncodeScalar(n) == [0xF0 + a, 0x80 + b, 0x80 + c, 0x80 + d]
  {
    assert n / 0x40 == (a * 0x40 + b) * 0x40 + c;
    assert n / 0x1000 == a * 0x40 + b;
  }

  /** A well-formed start is the encoding of a scalar. */
  lemma ScalarOf(u: seq<Byte>) returns (n: Scalar)
    requires FirstLength(u) > 0
    ensures u[..FirstLength(u)] == EncodeScalar(n)
  {
    hide EncodeScalar;
    var k := FirstLength(u);
    var a: nat, b: nat := u[0], if k > 1 then u[1] - 0x80 else 0;
    var c: nat, d: nat := if k > 2 then u[2] - 0x80 else 0, if k > 3 then u[3] - 0x80 else 0;
    if k == 1 {
      n := a;
      OneByte(n);
    } else if k == 2 {
      n := (a - 0xC0) * 0x40 + b;
      TwoBytes(n, a - 0xC0, b);
    } else if k == 3 {
      n := ((a - 0xE0) * 0x40 + b) * 0x40 + c;
      ThreeBytes(n, a - 0xE0, b, c);
    } else {
      n := (((a - 0xF0) * 0x40 + b) * 0x40 + c) * 0x40 + d;
      FourBytes(n, a - 0xF0, b, c, d);
    }
  }

  lemma OneByte(n: Scalar)
    requires n < 0x80
    ensures EncodeScalar(n) == [n]
  {
  }

  lemma {:induction false} EncodedIsUtf8(text: seq<Scalar>)
    ensures IsUtf8(EncodeText(text))
  {
    if text != [] {
      var u, rest := EncodeText(text), EncodeText(text[1..]);
      ScalarFirst(text[0], rest);
      EncodedIsUtf8(text[1..]);
      assert u[|EncodeScalar(text[0])|..] == rest;
    }
  }

  lemma {:induction false} Utf8IsEncoded(u: seq<Byte>) returns (text: seq<Scalar>)
    requires IsUtf8(u)
    ensures EncodeText(text) == u
    decreases |u|
  {
    if u == [] {
      text := [];
    } else {
      var n := ScalarOf(u);
      var rest := Utf8IsEncoded(u[FirstLength(u)..]);
      text := [n] + rest;
      assert text[1..] == rest;
      assert u == u[..FirstLength(u)] + u[FirstLength(u)..];
    }
  }

  /** Bytes are well-formed text exactly when they encode scalar values one after another. */
  lemma Utf8Exactly(u: seq<Byte>)
    ensures IsUtf8(u) <==> exists text: seq<Scalar> :: EncodeText(text) == u
  {
    if IsUtf8(u) {
      var text := Utf8IsEncoded(u);
    }
    if text: seq<Scalar> :| EncodeText(text) == u {
      EncodedIsUtf8(text);
    }
  }
}
