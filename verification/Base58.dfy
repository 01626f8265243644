/** Base58 text and did:key names: one encoder and two independent decoders. */
module Base58 {
  import opened Prelude
  import opened Numerals

  const FIGURES := "123456789"
  const CAPITALS := "ABCDEFGHJKLMNPQRSTUVWXYZ"
  const SMALL := "abcdefghijkmnopqrstuvwxyz"

  /** The Bitcoin alphabet. */
  const ALPHABET := FIGURES + CAPITALS + SMALL

  /** `alphabet.find(ch)`, with the length for -1. */
  function IndexOf(s: string, ch: char): (k: nat)
    ensures k <= |s|
    ensures forall i :: 0 <= i < k ==> s[i] != ch
    ensures k < |s| ==> s[k] == ch
  {
    if s == [] || s[0] == ch then 0 else 1 + IndexOf(s[1..], ch)
  }

  // ---- The alphabet by runs ----

  /** The character of a digit: the alphabet is six runs, without 0, I, O and l. */
  function Glyph(d: nat): char
    requires d < 58
  {
    if d < 9 then ('1' as int + d) as char
    else if d < 17 then ('A' as int + (d - 9)) as char
    else if d < 22 then ('J' as int + (d - 17)) as char
    else if d < 33 then ('P' as int + (d - 22)) as char
    else if d < 44 then ('a' as int + (d - 33)) as char
    else ('m' as int + (d - 44)) as char
  }

  /** The digit of a character, or 58. */
  function DigitOf(ch: char): nat {
    if '1' <= ch <= '9' then ch as int - '1' as int
    else if 'A' <= ch <= 'H' then 9 + ch as int - 'A' as int
    else if 'J' <= ch <= 'N' then 17 + ch as int - 'J' as int
    else if 'P' <= ch <= 'Z' then 22 + ch as int - 'P' as int
    else if 'a' <= ch <= 'k' then 33 + ch as int - 'a' as int
    else if 'm' <= ch <= 'z' then 44 + ch as int - 'm' as int
    else 58
  }

  lemma FigureGlyph(i: nat)
    requires i < 9
    ensures |FIGURES| == 9 && FIGURES[i] == Glyph(i)
  {
  }

  lemma CapitalGlyph(i: nat)
    requires i < 24
    ensures |CAPITALS| == 24 && CAPITALS[i] == Glyph(9 + i)
  {
  }

  lemma SmallGlyph(i: nat)
    requires i < 25
    ensures |SMALL| == 25 && SMALL[i] == Glyph(33 + i)
  {
  }

  /** The runs are the alphabet. */
  lemma AlphabetGlyphs(d: nat)
    requires d < 58
    ensures |ALPHABET| == 58 && ALPHABET[d] == Glyph(d)
  {
    hide FIGURES, CAPITALS, SMALL, Glyph;
    FigureGlyph(if d < 9 then d else 0);
    CapitalGlyph(if 9 <= d < 33 then d - 9 else 0);
    SmallGlyph(if 33 <= d then d - 33 else 0);
  }

  /** Looking a character up in the alphabet finds its digit, or nothing exactly when it has none. */
  lemma FindIsDigit(ch: char)
    ensures |ALPHABET| == 58 && IndexOf(ALPHABET, ch) == DigitOf(ch)
  {
    hide ALPHABET, FIGURES, CAPITALS, SMALL, IndexOf;
    AlphabetGlyphs(0);
    var k, d := IndexOf(ALPHABET, ch), DigitOf(ch);
    if k < 58 {
      AlphabetGlyphs(k);
    }
    if d < 58 {
      AlphabetGlyphs(d);
    }
  }

  // ---- Encoding and decoding ----

  predicate Written(s: string) {
    forall i :: 0 <= i < |s| ==> DigitOf(s[i]) < 58
  }

  function Glyphs(ds: seq<nat>): (s: string)
    requires DigitsBelow(ds, 58)
    ensures |s| == |ds| && forall i :: 0 <= i < |s| ==> s[i] == Glyph(ds[i])
  {
    seq(|ds|, i requires 0 <= i < |ds| => Glyph(ds[i]))
  }

  function Indices(s: string): (ds: seq<nat>)
    requires Written(s)
    ensures |ds| == |s| && DigitsBelow(ds, 58)
    ensures forall i :: 0 <= i < |s| ==> ds[i] == DigitOf(s[i])
  {
    seq(|s|, i requires 0 <= i < |s| => DigitOf(s[i]))
  }

  function Encode(data: seq<Byte>): string {
    Glyphs(Rebase(data, 256, 58))
  }

  function Decode(s: string): Option<seq<Byte>> {
    if Written(s) then Some(AsBytes(Rebase(Indices(s), 58, 256))) else None
  }

  // ---- The bijection ----

  lemma IndicesOfGlyphs(ds: seq<nat>)
    requires DigitsBelow(ds, 58)
    ensures Written(Glyphs(ds)) && Indices(Glyphs(ds)) == ds
  {
  }

  lemma GlyphsOfIndices(s: string)
    requires Written(s)
    ensures Glyphs(Indices(s)) == s
  {
  }

  /** Every byte string survives encoding and decoding, leading zero bytes included. */
  lemma DecodeInvertsEncode(data: seq<Byte>)
    ensures Decode(Encode(data)) == Some(data)
  {
    hide Glyph, DigitOf;
    IndicesOfGlyphs(Rebase(data, 256, 58));
    RebaseInverse(data, 256, 58);
  }

  /** Every base58 string is the encoding of its decoding, and nothing else decodes: together with
      `DecodeInvertsEncode`, a bijection. */
  lemma EncodeInvertsDecode(s: string)
    ensures Decode(s).Some? <==> Written(s)
    ensures Decode(s).Some? ==> Encode(Decode(s).value) == s
  {
    hide Glyph, DigitOf;
    if Written(s) {
      RebaseInverse(Indices(s), 58, 256);
      GlyphsOfIndices(s);
    }
  }

  // ---- The loops of the source ----

  function Reverse(s: string): (r: string)
    ensures |r| == |s| && forall i :: 0 <= i < |s| ==> r[i] == s[|s| - 1 - i]
  {
    seq(|s|, i requires 0 <= i < |s| => s[|s| - 1 - i])
  }

  /** `s.lstrip(ch)`. */
  function StripLeft(s: string, ch: char): string {
    if s == [] || s[0] != ch then s else StripLeft(s[1..], ch)
  }

  lemma {:induction false} StrippedIsLeading(s: string)
    requires Written(s)
    ensures |s| - |StripLeft(s, '1')| == Leading(Indices(s))
  {
    if s != [] {
      if s[0] == '1' {
        StrippedIsLeading(s[1..]);
        assert Indices(s)[1..] == Indices(s[1..]);
      }
    }
  }

  /** The identity library's encoder: digits least significant first, then one '1' per leading
      zero byte, then reversed. */
  method EncodeBytes(data: seq<Byte>) returns (s: string)
    ensures s == Encode(data)
  {
    hide Glyph, DigitOf;
    AlphabetGlyphs(0);
    var n := Value(data, 256);
    ghost var ds := Digits(n, 58);
    var out: string := [];
    while n > 0
      invariant |out| + |Digits(n, 58)| == |ds| && Digits(n, 58) == ds[..|ds| - |out|]
      invariant forall i :: 0 <= i < |out| ==> out[i] == Glyph(ds[|ds| - 1 - i])
    {
      assert ds[|ds| - 1 - |out|] == n % 58;
      QuotientShrinks(n, 58);
      AlphabetGlyphs(n % 58);
      out := out + [ALPHABET[n % 58]];
      n := n / 58;
    }
    var i := 0;
    while i < |data| && data[i] == 0
      invariant i <= |data| && |out| == |ds| + i
      invariant forall j :: 0 <= j < i ==> data[j] == 0
      invariant forall j :: 0 <= j < |ds| ==> out[j] == Glyph(ds[|ds| - 1 - j])
      invariant forall j :: |ds| <= j < |out| ==> out[j] == Glyph(0)
    {
      out := out + [ALPHABET[0]];
      i := i + 1;
    }
    LeadingIs(data, i);
    s := Reverse(out);
    assert s == Glyphs(Zeros(i) + ds);
  }

  lemma OneMore(s: string, i: nat)
    requires i < |s| && Written(s[..i]) && DigitOf(s[i]) < 58
    ensures Written(s[..i + 1])
    ensures Value(Indices(s[..i + 1]), 58) == Value(Indices(s[..i]), 58) * 58 + DigitOf(s[i])
  {
    hide Glyph, DigitOf;
    assert s[..i + 1] == s[..i] + [s[i]];
    assert Indices(s[..i + 1]) == Indices(s[..i]) + [DigitOf(s[i])];
    ValueOfSnoc(Indices(s[..i]), DigitOf(s[i]), 58);
  }

  lemma NoDigits()
    ensures Value([], 58) == 0 && Digits(0, 256) == []
  {
  }

  /** The identity library's decoder. */
  method DecodeText(s: string) returns (r: Option<seq<Byte>>)
    ensures r == Decode(s)
  {
    hide ALPHABET, Glyph, DigitOf, ToFixed, BitLength, Digits, StripLeft, Value;
    NoDigits();
    var n := 0;
    for i := 0 to |s|
      invariant Written(s[..i]) && n == Value(Indices(s[..i]), 58)
    {
      FindIsDigit(s[i]);
      var idx := IndexOf(ALPHABET, s[i]);
      if idx == |ALPHABET| {
        return None;
      }
      OneMore(s, i);
      n := n * 58 + idx;
    }
    assert s[..|s|] == s;
    var out := ToFixed(n, (BitLength(n) + 7) / 8, 256);
    ByteWidth(n);
    FixedIsDigits(n, 256);
    StrippedIsLeading(s);
    r := Some(AsBytes(Zeros(|s| - |StripLeft(s, '1')|) + out));
  }

  /** The policy host's decoder, written apart from it. */
  method DecodeTextForPolicy(s: string) returns (r: Option<seq<Byte>>)
    ensures r == Decode(s)
  {
    hide ALPHABET, Glyph, DigitOf, ToFixed, BitLength, Digits, StripLeft, Value;
    NoDigits();
    var num := 0;
    for i := 0 to |s|
      invariant Written(s[..i]) && num == Value(Indices(s[..i]), 58)
    {
      FindIsDigit(s[i]);
      if IndexOf(ALPHABET, s[i]) == |ALPHABET| {
        return None;
      }
      OneMore(s, i);
      num := num * 58 + IndexOf(ALPHABET, s[i]);
    }
    assert s[..|s|] == s;
    var body := if num != 0 then ToFixed(num, (BitLength(num) + 7) / 8, 256) else [];
    ByteWidth(num);
    FixedIsDigits(num, 256);
    StrippedIsLeading(s);
    var pad := |s| - |StripLeft(s, '1')|;
    r := Some(AsBytes(Zeros(pad) + body));
  }
}
