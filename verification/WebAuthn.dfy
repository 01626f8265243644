/** Passkey registration: the COSE key and the authenticator data it stands in. */
module WebAuthn {
  import opened Prelude
  import opened Numerals
  import opened Cbor
  import opened CborHead

  datatype PublicKey = PublicKey(x: nat, y: nat)

  datatype Refusal = BadCbor(why: Fault) | NotAMap | NotEc2 | NotEs256 | NotP256 | NoCoordinates | NotOnCurve
                   | TooShort | NoAttestedData | NoAuthData

  datatype Result<+T> = Accepted(value: T) | Refused(why: Refusal)

  /** Which coordinates the curve accepts: the cryptographic library decides. */
  type Curve = (nat, nat) -> bool

  function EntriesKey(entries: seq<Entry>, curve: Curve): Result<PublicKey> {
    var x, y := Get(entries, Int(-2)), Get(entries, Int(-3));
    if Get(entries, Int(1)) != Some(Int(2)) then Refused(NotEc2)
    else if Get(entries, Int(3)) != Some(Int(-7)) then Refused(NotEs256)
    else if Get(entries, Int(-1)) != Some(Int(1)) then Refused(NotP256)
    else if !(x.Some? && x.value.Bytes? && y.Some? && y.value.Bytes?) then Refused(NoCoordinates)
    else if !curve(Value(x.value.b, 256), Value(y.value.b, 256)) then Refused(NotOnCurve)
    else Accepted(PublicKey(Value(x.value.b, 256), Value(y.value.b, 256)))
  }

  /** `cose_ec2_to_public_key`. */
  function CoseKey(data: seq<Byte>, curve: Curve): Result<PublicKey> {
    match Decode(data, 0)
    case Raises(why) => Refused(BadCbor(why))
    case Ok(Map(entries), _) => EntriesKey(entries, curve)
    case Ok(_, _) => Refused(NotAMap)
  }

  datatype Credential = Credential(id: seq<Byte>, key: PublicKey)

  /** `parse_authenticator_data`. */
  function Parse(a: seq<Byte>, curve: Curve): Result<Credential> {
    if |a| < 37 then Refused(TooShort)
    else if (a[32] / 0x40) % 2 == 0 then Refused(NoAttestedData)
    else
      var n := Value(Slice(a, 53, 55), 256);
      var end := 55 + n;
      match CoseKey(if end <= |a| then a[end..] else [], curve)
      case Refused(why) => Refused(why)
      case Accepted(key) => Accepted(Credential(Slice(a, 55, end), key))
  }

  // ---- A registration as section 6.1 of the Web Authentication recommendation lays it out ----

  datatype Registration = Registration(rpIdHash: seq<Byte>, flags: Byte, signCount: seq<Byte>, aaguid: seq<Byte>,
                                       id: seq<Byte>, key: seq<Entry>, extensions: seq<Byte>)

  predicate WellFormed(r: Registration) {
    && |r.rpIdHash| == 32 && (r.flags / 0x40) % 2 == 1 && |r.signCount| == 4 && |r.aaguid| == 16
    && |r.id| < 0x1_0000 && Encodable(Map(r.key))
  }

  function Prefix(r: Registration): (p: seq<Byte>)
    requires WellFormed(r)
    ensures |p| == 53 && p[32] == r.flags
  {
    r.rpIdHash + [r.flags] + r.signCount + r.aaguid
  }

  function Layout(r: Registration): seq<Byte>
    requires WellFormed(r)
  {
    Prefix(r) + AsBytes(ToFixed(|r.id|, 2, 256)) + r.id + (Encode(Map(r.key)) + r.extensions)
  }

  /** A map with distinct keys holds an entry exactly when looking its key up gives its value. */
  lemma {:induction false} GetFinds(entries: seq<Entry>, k: Item, v: Item)
    requires DistinctKeys(entries)
    ensures Get(entries, k) == Some(v) <==> Entry(k, v) in entries
  {
    if entries != [] {
      DistinctTail(entries);
      GetFinds(entries[1..], k, v);
    }
  }

  /** A COSE map names a key exactly when it holds the three ES256 parameters and two byte strings as
      coordinates that the curve accepts, in any order and among any other entries. */
  lemma KeyNamed(entries: seq<Entry>, curve: Curve, key: PublicKey)
    requires DistinctKeys(entries)
    ensures EntriesKey(entries, curve) == Accepted(key) <==>
      && Entry(Int(1), Int(2)) in entries && Entry(Int(3), Int(-7)) in entries && Entry(Int(-1), Int(1)) in entries
      && exists x: seq<Byte>, y: seq<Byte> :: Coordinates(entries, x, y) && key == PublicKey(Value(x, 256), Value(y, 256)) && curve(key.x, key.y)
  {
    hide Get, Value, DistinctKeys;
    GetFinds(entries, Int(1), Int(2));
    GetFinds(entries, Int(3), Int(-7));
    GetFinds(entries, Int(-1), Int(1));
    var x, y := Get(entries, Int(-2)), Get(entries, Int(-3));
    if EntriesKey(entries, curve) == Accepted(key) {
      GetFinds(entries, Int(-2), x.value);
      GetFinds(entries, Int(-3), y.value);
      assert Coordinates(entries, x.value.b, y.value.b);
    }
    if x: seq<Byte>, y: seq<Byte> :| Coordinates(entries, x, y) && key == PublicKey(Value(x, 256), Value(y, 256)) && curve(key.x, key.y) {
      GetFinds(entries, Int(-2), Bytes(x));
      GetFinds(entries, Int(-3), Bytes(y));
    }
  }

  /** The refusals of a COSE map, each with its own condition, in the order the parameters are looked at. */
  lemma KeyRefused(entries: seq<Entry>, curve: Curve)
    requires DistinctKeys(entries)
    ensures EntriesKey(entries, curve) == Refused(NotEc2) <==> Entry(Int(1), Int(2)) !in entries
    ensures EntriesKey(entries, curve) == Refused(NotEs256) <==>
      Entry(Int(1), Int(2)) in entries && Entry(Int(3), Int(-7)) !in entries
    ensures EntriesKey(entries, curve) == Refused(NotP256) <==>
      Entry(Int(1), Int(2)) in entries && Entry(Int(3), Int(-7)) in entries && Entry(Int(-1), Int(1)) !in entries
  {
    hide Get, Value, DistinctKeys;
    GetFinds(entries, Int(1), Int(2));
    GetFinds(entries, Int(3), Int(-7));
    GetFinds(entries, Int(-1), Int(1));
  }

  predicate Coordinates(entries: seq<Entry>, x: seq<Byte>, y: seq<Byte>) {
    Entry(Int(-2), Bytes(x)) in entries && Entry(Int(-3), Bytes(y)) in entries
  }

  /** Whatever extensions follow it, a COSE map is read as the map it is. */
  lemma CoseKeyOf(entries: seq<Entry>, rest: seq<Byte>, curve: Curve)
    requires Encodable(Map(entries))
    ensures CoseKey(Encode(Map(entries)) + rest, curve) == EntriesKey(entries, curve)
  {
    hide Encode, Encodable, EntriesKey;
    var data := Encode(Map(entries)) + rest;
    assert data[0..0 + |Encode(Map(entries))|] == Encode(Map(entries));
    RoundTrip(Map(entries), data, 0);
  }

  /** Parsing a registration gives back its credential id and the key its COSE map names, with the
      map's own refusal when it names none. */
  lemma ParseLayout(r: Registration, curve: Curve)
    requires WellFormed(r)
    ensures Parse(Layout(r), curve) == match EntriesKey(r.key, curve)
                                       case Refused(why) => Refused(why)
                                       case Accepted(key) => Accepted(Credential(r.id, key))
  {
    hide Encode, Encodable, EntriesKey, CoseKey, ToFixed, Value, Prefix;
    var a, n := Layout(r), |r.id|;
    var size, tail := AsBytes(ToFixed(n, 2, 256)), Encode(Map(r.key)) + r.extensions;
    var p := Prefix(r);
    assert a == p + size + r.id + tail;
    assert a[32] == p[32];
    assert Slice(a, 53, 55) == size;
    Widths();
    ValueOfFixed(n, 2, 256);
    assert Slice(a, 55, 55 + n) == r.id;
    assert a[55 + n..] == tail;
    CoseKeyOf(r.key, r.extensions, curve);
  }

  /** Acceptance, exactly: attested data flagged, a credential id wholly inside the data, and after
      it bytes that start with an acceptable key. */
  lemma AcceptedExactly(a: seq<Byte>, curve: Curve, c: Credential)
    ensures Parse(a, curve) == Accepted(c) <==>
      && 55 + |c.id| < |a| && (a[32] / 0x40) % 2 == 1
      && Value(a[53..55], 256) == |c.id| && a[55..55 + |c.id|] == c.id
      && CoseKey(a[55 + |c.id|..], curve) == Accepted(c.key)
  {
    hide Decode, EntriesKey, Value;
    if Parse(a, curve) == Accepted(c) {
      var end := 55 + Value(Slice(a, 53, 55), 256);
      if end >= |a| {
        NothingToDecode(curve);
      }
    }
  }

  /** Data that stops before its fixed part is refused as too short, data without the flag as without
      attested data, before anything in it is decoded; nothing else is refused so. */
  lemma RefusedEarly(a: seq<Byte>, curve: Curve)
    ensures Parse(a, curve) == Refused(TooShort) <==> |a| < 37
    ensures Parse(a, curve) == Refused(NoAttestedData) <==> |a| >= 37 && (a[32] / 0x40) % 2 == 0
  {
    hide Decode, Value;
  }

  lemma NothingToDecode(curve: Curve)
    ensures CoseKey([], curve) == Refused(BadCbor(OutOfBytes))
  {
  }

  // ---- The attestation object around it ----

  /** The text "authData". */
  const AUTH_DATA: seq<Byte> := [0x61, 0x75, 0x74, 0x68, 0x44, 0x61, 0x74, 0x61]

  /** `parse_registration`. */
  function ParseRegistration(data: seq<Byte>, curve: Curve): Result<Credential> {
    match Decode(data, 0)
    case Raises(why) => Refused(BadCbor(why))
    case Ok(Map(entries), _) =>
      var a := Get(entries, Text(AUTH_DATA));
      if a.Some? && a.value.Bytes? then Parse(a.value.b, curve) else Refused(NoAuthData)
    case Ok(_, _) => Refused(NoAuthData)
  }

  /** A registration put in any attestation object, whatever the attestation statement, comes back
      with its credential id and the key its COSE map names. */
  lemma RegistrationRoundTrip(r: Registration, entries: seq<Entry>, curve: Curve)
    requires WellFormed(r) && Encodable(Map(entries)) && Entry(Text(AUTH_DATA), Bytes(Layout(r))) in entries
    ensures ParseRegistration(Encode(Map(entries)), curve) == match EntriesKey(r.key, curve)
                                                              case Refused(why) => Refused(why)
                                                              case Accepted(key) => Accepted(Credential(r.id, key))
  {
    ParseLayout(r, curve);
    assert DistinctKeys(entries);
    hide Encode, Encodable, EntriesKey, Parse, Layout, WellFormed, DistinctKeys;
    var data := Encode(Map(entries));
    assert data[0..0 + |data|] == data;
    RoundTrip(Map(entries), data, 0);
    GetFinds(entries, Text(AUTH_DATA), Bytes(Layout(r)));
  }

  lemma AuthDataText()
    ensures |AUTH_DATA| == 8 && forall i :: 0 <= i < 8 ==> AUTH_DATA[i] == "authData"[i] as nat
  {
  }

  /** What is refused before there is a key to look at: data that does not decode, with the decoder's own
      fault, data that is no map, and an attestation object without bytes under "authData". */
  lemma RefusedExactly(data: seq<Byte>, curve: Curve, why: Fault)
    ensures CoseKey(data, curve) == Refused(BadCbor(why)) <==> Decode(data, 0) == Raises(why)
    ensures CoseKey(data, curve) == Refused(NotAMap) <==> Decode(data, 0).Ok? && !Decode(data, 0).value.Map?
    ensures Decode(data, 0) == Raises(why) ==> ParseRegistration(data, curve) == Refused(BadCbor(why))
    ensures ParseRegistration(data, curve) == Refused(NoAuthData) <==>
      Decode(data, 0).Ok? &&
      !(Decode(data, 0).value.Map? && exists b :: Entry(Text(AUTH_DATA), Bytes(b)) in Decode(data, 0).value.entries)
  {
    if Decode(data, 0).Ok? && Decode(data, 0).value.Map? {
      MapKeys(data, 0);
      var entries := Decode(data, 0).value.entries;
      var a := Get(entries, Text(AUTH_DATA));
      hide Decode, Value, Get, DistinctKeys, PlainKeys, AUTH_DATA;
      if a.Some? {
        GetFinds(entries, Text(AUTH_DATA), a.value);
      }
      forall b
        ensures Entry(Text(AUTH_DATA), Bytes(b)) in entries <==> a == Some(Bytes(b))
      {
        GetFinds(entries, Text(AUTH_DATA), Bytes(b));
      }
    }
  }
}
