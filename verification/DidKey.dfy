/** did:key names for Ed25519 public keys, in the identity library and in the policy host. */
module DidKey {
  import opened Prelude
  import opened Base58
  import opened Numerals

  const METHOD := "did:key:z"
  const MULTICODEC: seq<Byte> := [0xED, 0x01]
  const KEY_BYTES := 32

  datatype Refusal = NotBase58DidKey | BadCharacter | WrongMulticodec | WrongLength
  datatype Result = Key(pub: seq<Byte>) | Refused(why: Refusal)

  function Name(pub: seq<Byte>): string {
    METHOD + Encode(MULTICODEC + pub)
  }

  /** `did_key_to_public_bytes`. */
  function PublicBytes(did: string): Result {
    if !(METHOD <= did) then Refused(NotBase58DidKey)
    else
      match Decode(did[|METHOD|..])
      case None => Refused(BadCharacter)
      case Some(payload) =>
        if !(MULTICODEC <= payload) then Refused(WrongMulticodec)
        else if |payload[2..]| != KEY_BYTES then Refused(WrongLength)
        else Key(payload[2..])
  }

  /** `_key_from_did_key`: the raw key of the JWK, or None for anything it cannot use. */
  function KeyForPolicy(did: string): Option<seq<Byte>> {
    if !(METHOD <= did) then None
    else
      match Decode(did[|METHOD|..])
      case None => None
      case Some(raw) =>
        if (if |raw| < 2 then raw else raw[..2]) != MULTICODEC || |raw| != 2 + KEY_BYTES then None else Some(raw[2..])
  }

  /** A name is accepted for a key exactly when it is the name of that 32-byte key: every key comes
      back from its name, and no key has a second name. */
  lemma AcceptedExactly(did: string, pub: seq<Byte>)
    ensures PublicBytes(did) == Key(pub) <==> |pub| == 32 && did == Name(pub)
  {
    hide Encode, Decode;
    if PublicBytes(did) == Key(pub) {
      var text := did[|METHOD|..];
      assert did == METHOD + text;
      EncodeInvertsDecode(text);
      assert Decode(text).value == MULTICODEC + pub;
    } else if |pub| == 32 {
      NameAccepted(pub);
    }
  }

  lemma NameAccepted(pub: seq<Byte>)
    requires |pub| == KEY_BYTES
    ensures PublicBytes(Name(pub)) == Key(pub)
  {
    hide Encode, Decode;
    var text := Encode(MULTICODEC + pub);
    DecodeInvertsEncode(MULTICODEC + pub);
    assert Name(pub)[|METHOD|..] == text;
    assert (MULTICODEC + pub)[2..] == pub;
  }

  /** The policy host reads the same key from every name, and refuses exactly what the identity
      library refuses. */
  lemma DecodersAgree(did: string)
    ensures KeyForPolicy(did) == match PublicBytes(did) { case Key(pub) => Some(pub) case Refused(_) => None }
  {
    hide Decode;
    if METHOD <= did && Decode(did[|METHOD|..]).Some? {
      var raw := Decode(did[|METHOD|..]).value;
      assert MULTICODEC <= raw <==> |raw| >= 2 && raw[..2] == MULTICODEC;
    }
  }

  // ---- The prefix every name has ----

  lemma PowersOf58()
    ensures Power(58, 44) == 389790918707373377135528568990913592653094657612049369038476873218241589149696
  {
    hide Power;
    SmallPower();
    PowerAdd(58, 4, 4);
    PowerAdd(58, 8, 8);
    PowerAdd(58, 16, 16);
    PowerAdd(58, 8, 4);
    PowerAdd(58, 32, 12);
  }

  lemma SmallPower()
    ensures Power(58, 4) == 11316496
  {
    assert Power(58, 2) == 3364;
  }

  lemma PowersOf256()
    ensures Power(256, 32) == 0x1_0000000000000000_0000000000000000_0000000000000000_0000000000000000
  {
    Power256();
    hide Power;
    PowerAdd(256, 4, 4);
    PowerAdd(256, 8, 8);
    PowerAdd(256, 16, 16);
  }

  lemma Power256()
    ensures Power(256, 4) == 0x1_0000_0000
  {
    assert Power(256, 2) == 0x1_0000;
  }

  /** Every key's name starts alike: the multicodec bytes fix the first characters. */
  lemma NamePrefix(pub: seq<Byte>)
    requires |pub| == 32
    ensures "did:key:z6Mk" <= Name(pub) && |Name(pub)| == 56
  {
    var payload := MULTICODEC + pub;
    hide Value, Digits;
    Leads(pub);
    PrefixDigits();
    assert payload[0] == 0xED;
    PlainEncoding(payload);
    var ds := Digits(Value(payload, 256), 58);
    assert ds[0] == [5, 20, 43][0] && ds[1] == [5, 20, 43][1] && ds[2] == [5, 20, 43][2];
    StartsWith(Encode(payload));
  }

  /** Bytes that do not start with a zero are encoded as the digits of their number. */
  lemma PlainEncoding(payload: seq<Byte>)
    requires payload != [] && payload[0] != 0
    ensures Encode(payload) == Glyphs(Digits(Value(payload, 256), 58))
  {
    hide Value, Digits, Glyphs;
    assert Rebase(payload, 256, 58) == Digits(Value(payload, 256), 58);
  }

  lemma StartsWith(text: string)
    requires |text| >= 3 && text[0] == '6' && text[1] == 'M' && text[2] == 'k'
    ensures "did:key:z6Mk" <= METHOD + text && |METHOD + text| == 9 + |text|
  {
  }

  lemma Leads(pub: seq<Byte>)
    requires |pub| == 32
    ensures var ds := Digits(Value(MULTICODEC + pub, 256), 58);
      |ds| == 47 && Digits(18023, 58) <= ds
  {
    hide Value, Digits, Power;
    ValueAppend(MULTICODEC, pub, 256);
    ValueBelow(pub, 256);
    CodecValue();
    PowersOf58();
    PowersOf256();
    PrefixDigits();
    LeadingDigits(Value(MULTICODEC + pub, 256), 18023, 44, 58);
  }

  lemma CodecValue()
    ensures Value(MULTICODEC, 256) == 0xED01
  {
    assert MULTICODEC[..1][..0] == [];
    assert Value(MULTICODEC[..1], 256) == 0xED;
  }

  lemma PrefixDigits()
    ensures Digits(18023, 58) == [5, 20, 43]
  {
    assert Digits(5, 58) == [5];
    assert Digits(310, 58) == [5, 20];
  }
}
