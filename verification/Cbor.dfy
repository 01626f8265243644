/** The CBOR subset of sections 3 and 3.1 of RFC 8949 that passkey registration uses: the decoder
    as the program runs it, with clamped slices, and an encoder to hold it against. */
module Cbor {
  import opened Prelude
  import opened CborHead
  import opened Numerals
  import opened Utf8

  /** A decoded item. Text is kept as its UTF-8 bytes; a map lists its entries in insertion order. */
  datatype Item = Int(n: int) | Bytes(b: seq<Byte>) | Text(u: seq<Byte>) | Arr(items: seq<Item>) | Map(entries: seq<Entry>)
  datatype Entry = Entry(key: Item, value: Item)

  // ---- Dictionaries ----

  predicate Hashable(k: Item) {
    !k.Arr? && !k.Map?
  }

  /** `out[k] = v`: a key already there keeps its place and its first spelling. */
  function Put(entries: seq<Entry>, k: Item, v: Item): seq<Entry> {
    if entries == [] then [Entry(k, v)]
    else if entries[0].key == k then [Entry(k, v)] + entries[1..]
    else [entries[0]] + Put(entries[1..], k, v)
  }

  /** `out.get(k)`. */
  function Get(entries: seq<Entry>, k: Item): Option<Item> {
    if entries == [] then None
    else if entries[0].key == k then Some(entries[0].value)
    else Get(entries[1..], k)
  }

  predicate DistinctKeys(entries: seq<Entry>) {
    forall i, j :: 0 <= i < j < |entries| ==> entries[i].key != entries[j].key
  }

  // ---- Decoding ----

  function Left(data: seq<Byte>, off: nat): nat {
    if off <= |data| then |data| - off else 0
  }

  function Decode(data: seq<Byte>, off: nat): (r: Outcome<Item>)
    ensures r.Ok? ==> off < |data| && r.end > off
    decreases Left(data, off), 0
  {
    if off >= |data| then Raises(OutOfBytes)
    else if data[off] / 32 > 5 then Raises(Unsupported)
    else
      match Argument(data, data[off] % 32, off + 1)
      case Raises(why) => Raises(why)
      case Ok(n, at) => Payload(data, data[off] / 32, n, at)
  }

  /** What follows the head of an item. */
  function Payload(data: seq<Byte>, major: nat, n: nat, at: nat): (r: Outcome<Item>)
    requires at > 0
    ensures r.Ok? ==> r.end >= at
    decreases Left(data, at), n + 2
  {
    if major == 0 then Ok(Int(n), at)
    else if major == 1 then Ok(Int(-1 - n), at)
    else if major == 2 then Ok(Bytes(Slice(data, at, at + n)), at + n)
    else if major == 3 then
      if IsUtf8(Slice(data, at, at + n)) then Ok(Text(Slice(data, at, at + n)), at + n) else Raises(BadText)
    else if major == 4 then
      match DecodeItems(data, at, n, [])
      case Raises(why) => Raises(why)
      case Ok(items, end) => Ok(Arr(items), end)
    else
      match DecodeEntries(data, at, n, [])
      case Raises(why) => Raises(why)
      case Ok(entries, end) => Ok(Map(entries), end)
  }

  /** n more items after those already read. */
  function DecodeItems(data: seq<Byte>, off: nat, n: nat, read: seq<Item>): (r: Outcome<seq<Item>>)
    ensures r.Ok? ==> r.end >= off
    decreases Left(data, off), n + 1
  {
    if n == 0 then Ok(read, off)
    else
      match Decode(data, off)
      case Raises(why) => Raises(why)
      case Ok(item, at) => DecodeItems(data, at, n - 1, read + [item])
  }

  /** A key and its value; the key must be hashable, which is found out only when it is stored. */
  function DecodePair(data: seq<Byte>, off: nat): (r: Outcome<Entry>)
    ensures r.Ok? ==> r.end > off
    decreases Left(data, off), 1
  {
    match Decode(data, off)
    case Raises(why) => Raises(why)
    case Ok(k, mid) =>
      match Decode(data, mid)
      case Raises(why) => Raises(why)
      case Ok(v, at) => if Hashable(k) then Ok(Entry(k, v), at) else Raises(Unhashable)
  }

  function DecodeEntries(data: seq<Byte>, off: nat, n: nat, read: seq<Entry>): (r: Outcome<seq<Entry>>)
    ensures r.Ok? ==> r.end >= off
    decreases Left(data, off), n + 1
  {
    if n == 0 then Ok(read, off)
    else
      match DecodePair(data, off)
      case Raises(why) => Raises(why)
      case Ok(e, at) => DecodeEntries(data, at, n - 1, Put(read, e.key, e.value))
  }

  // ---- Only the consumed bytes matter ----

  /** The n bytes at two places are the same. */
  predicate Same(data: seq<Byte>, off: nat, other: seq<Byte>, at: nat, n: int) {
    n >= 0 && off + n <= |data| && at + n <= |other| && data[off..off + n] == other[at..at + n]
  }

  lemma SubSlice(data: seq<Byte>, off: nat, n: nat, skip: nat, m: nat)
    requires off + n <= |data| && skip + m <= n
    ensures data[off..off + n][skip..skip + m] == data[off + skip..off + skip + m]
  {
    var part := data[off..off + n];
    assert forall j :: skip <= j < skip + m ==> part[j] == data[off + j];
  }

  lemma Within(data: seq<Byte>, off: nat, other: seq<Byte>, at: nat, n: int, skip: nat, m: int)
    requires Same(data, off, other, at, n) && skip + m <= n && m >= 0
    ensures Same(data, off + skip, other, at + skip, m)
  {
    SubSlice(data, off, n, skip, m);
    SubSlice(other, at, n, skip, m);
  }

  lemma SameSlice(data: seq<Byte>, off: nat, other: seq<Byte>, at: nat, n: nat)
    requires Same(data, off, other, at, n)
    ensures Slice(data, off, off + n) == Slice(other, at, at + n)
  {
  }

  lemma SameByte(data: seq<Byte>, off: nat, other: seq<Byte>, at: nat, n: nat)
    requires Same(data, off, other, at, n) && n > 0
    ensures data[off] == other[at]
  {
    assert data[off] == data[off..off + n][0];
    assert other[at] == other[at..at + n][0];
  }

  lemma ArgumentLocal(data: seq<Byte>, ai: nat, off: nat, other: seq<Byte>, at: nat)
    requires var r := Argument(data, ai, off); r.Ok? && Same(data, off, other, at, r.end - off)
    ensures var r := Argument(data, ai, off); Argument(other, ai, at) == Ok(r.value, at + (r.end - off))
  {
    if ai == 24 {
      SameByte(data, off, other, at, 1);
    } else if ai > 24 {
      SameSlice(data, off, other, at, Argument(data, ai, off).end - off);
    }
  }

  /** A decode that ends inside the buffer reads only the bytes up to its end: any buffer with those
      bytes, at any offset, gives the same item and the same length. */
  lemma {:induction false} DecodeLocal(data: seq<Byte>, off: nat, other: seq<Byte>, at: nat)
    requires var r := Decode(data, off); r.Ok? && Same(data, off, other, at, r.end - off)
    ensures var r := Decode(data, off); Decode(other, at) == Ok(r.value, at + (r.end - off))
    decreases Left(data, off), 0
  {
    hide Argument, Payload, Same;
    var end := Decode(data, off).end;
    SameByte(data, off, other, at, end - off);
    var ai, major := data[off] % 32, data[off] / 32;
    var arg := Argument(data, ai, off + 1);
    Within(data, off, other, at, end - off, 1, arg.end - off - 1);
    ArgumentLocal(data, ai, off + 1, other, at + 1);
    Within(data, off, other, at, end - off, arg.end - off, end - arg.end);
    PayloadLocal(data, major, arg.value, arg.end, other, at + (arg.end - off));
  }

  lemma {:induction false} PayloadLocal(data: seq<Byte>, major: nat, n: nat, off: nat, other: seq<Byte>, at: nat)
    requires off > 0 && at > 0
    requires var r := Payload(data, major, n, off); r.Ok? && Same(data, off, other, at, r.end - off)
    ensures var r := Payload(data, major, n, off); Payload(other, major, n, at) == Ok(r.value, at + (r.end - off))
    decreases Left(data, off), n + 2
  {
    hide IsUtf8, Slice;
    if 2 <= major <= 3 {
      SameSlice(data, off, other, at, n);
    } else if major == 4 {
      ItemsLocal(data, off, n, [], other, at);
    } else if major > 4 {
      EntriesLocal(data, off, n, [], other, at);
    }
  }

  lemma ItemsUnfold(data: seq<Byte>, off: nat, n: nat, read: seq<Item>)
    ensures DecodeItems(data, off, n, read) ==
      if n == 0 then Ok(read, off)
      else
        match Decode(data, off)
        case Raises(why) => Raises(why)
        case Ok(item, at) => DecodeItems(data, at, n - 1, read + [item])
  {
  }

  lemma EntriesUnfold(data: seq<Byte>, off: nat, n: nat, read: seq<Entry>)
    ensures DecodeEntries(data, off, n, read) ==
      if n == 0 then Ok(read, off)
      else
        match DecodePair(data, off)
        case Raises(why) => Raises(why)
        case Ok(e, at) => DecodeEntries(data, at, n - 1, Put(read, e.key, e.value))
  {
  }

  lemma {:induction false} ItemsLocal(data: seq<Byte>, off: nat, n: nat, read: seq<Item>, other: seq<Byte>, at: nat)
    requires var r := DecodeItems(data, off, n, read); r.Ok? && Same(data, off, other, at, r.end - off)
    ensures var r := DecodeItems(data, off, n, read); DecodeItems(other, at, n, read) == Ok(r.value, at + (r.end - off))
    decreases Left(data, off), n + 1
  {
    hide DecodeItems, Decode, Same;
    ItemsUnfold(data, off, n, read);
    ItemsUnfold(other, at, n, read);
    if n > 0 {
      var end := DecodeItems(data, off, n, read).end;
      var first := Decode(data, off);
      Within(data, off, other, at, end - off, 0, first.end - off);
      DecodeLocal(data, off, other, at);
      Within(data, off, other, at, end - off, first.end - off, end - first.end);
      var there, more := at + (first.end - off), read + [first.value];
      ItemsLocal(data, first.end, n - 1, more, other, there);
    }
  }

  lemma {:induction false} PairLocal(data: seq<Byte>, off: nat, other: seq<Byte>, at: nat)
    requires var r := DecodePair(data, off); r.Ok? && Same(data, off, other, at, r.end - off)
    ensures var r := DecodePair(data, off); DecodePair(other, at) == Ok(r.value, at + (r.end - off))
    decreases Left(data, off), 1
  {
    hide Decode, Same;
    var k := Decode(data, off);
    var v := Decode(data, k.end);
    Within(data, off, other, at, v.end - off, 0, k.end - off);
    DecodeLocal(data, off, other, at);
    Within(data, off, other, at, v.end - off, k.end - off, v.end - k.end);
    DecodeLocal(data, k.end, other, at + (k.end - off));
  }

  lemma {:induction false} EntriesLocal(data: seq<Byte>, off: nat, n: nat, read: seq<Entry>, other: seq<Byte>, at: nat)
    requires var r := DecodeEntries(data, off, n, read); r.Ok? && Same(data, off, other, at, r.end - off)
    ensures var r := DecodeEntries(data, off, n, read); DecodeEntries(other, at, n, read) == Ok(r.value, at + (r.end - off))
    decreases Left(data, off), n + 1
  {
    hide DecodeEntries, DecodePair, Same, Put;
    EntriesUnfold(data, off, n, read);
    EntriesUnfold(other, at, n, read);
    if n > 0 {
      var end := DecodeEntries(data, off, n, read).end;
      var e := DecodePair(data, off);
      Within(data, off, other, at, end - off, 0, e.end - off);
      PairLocal(data, off, other, at);
      Within(data, off, other, at, end - off, e.end - off, end - e.end);
      var there, more := at + (e.end - off), Put(read, e.value.key, e.value.value);
      EntriesLocal(data, e.end, n - 1, more, other, there);
    }
  }

  // ---- Encoding ----

  predicate Encodable(v: Item) {
    match v
    case Int(n) => -LIMIT <= n < LIMIT
    case Bytes(b) => |b| < LIMIT
    case Text(u) => |u| < LIMIT && IsUtf8(u)
    case Arr(items) => |items| < LIMIT && forall i :: 0 <= i < |items| ==> Encodable(items[i])
    case Map(entries) => |entries| < LIMIT && DistinctKeys(entries) && forall i :: 0 <= i < |entries| ==> EncodablePair(entries[i])
  }

  predicate EncodablePair(e: Entry) {
    Hashable(e.key) && Encodable(e.key) && Encodable(e.value)
  }

  function Major(v: Item): (m: nat)
    ensures m <= 5
  {
    match v
    case Int(n) => if n >= 0 then 0 else 1
    case Bytes(_) => 2
    case Text(_) => 3
    case Arr(_) => 4
    case Map(_) => 5
  }

  function Count(v: Item): nat {
    match v
    case Int(n) => if n >= 0 then n else -1 - n
    case Bytes(b) => |b|
    case Text(u) => |u|
    case Arr(items) => |items|
    case Map(entries) => |entries|
  }

  function Encode(v: Item): seq<Byte>
    requires Encodable(v)
    decreases v, 1
  {
    Head(Major(v), Count(v)) + Body(v)
  }

  function Body(v: Item): seq<Byte>
    requires Encodable(v)
    decreases v, 0
  {
    match v
    case Int(_) => []
    case Bytes(b) => b
    case Text(u) => u
    case Arr(items) => EncodeItems(items)
    case Map(entries) => EncodeEntries(entries)
  }

  function EncodeItems(items: seq<Item>): seq<Byte>
    requires forall i :: 0 <= i < |items| ==> Encodable(items[i])
    decreases items
  {
    if items == [] then [] else Encode(items[0]) + EncodeItems(items[1..])
  }

  function EncodePair(e: Entry): seq<Byte>
    requires EncodablePair(e)
    decreases e
  {
    Encode(e.key) + Encode(e.value)
  }

  function EncodeEntries(entries: seq<Entry>): seq<Byte>
    requires forall i :: 0 <= i < |entries| ==> EncodablePair(entries[i])
    decreases entries
  {
    if entries == [] then [] else EncodePair(entries[0]) + EncodeEntries(entries[1..])
  }

  // ---- Round trip ----

  /** Decoding an encoding, wherever it stands and whatever follows it, gives the item back and
      stops exactly at its end. */
  lemma {:induction false} RoundTrip(v: Item, data: seq<Byte>, off: nat)
    requires Encodable(v) && Holds(data, off, Encode(v))
    ensures Decode(data, off) == Ok(v, off + |Encode(v)|)
    decreases v, 1
  {
    hide Payload, Argument, Head, Body;
    HeadThen(data, off, Major(v), Count(v), Body(v));
    BodyRoundTrip(v, data, off + |Head(Major(v), Count(v))|);
  }

  /** No encoding is a prefix of another item's: the first item of a buffer is determined. */
  lemma PrefixFree(v: Item, w: Item, data: seq<Byte>)
    requires Encodable(v) && Encodable(w) && Encode(v) <= data && Encode(w) <= data
    ensures v == w
  {
    hide Encode, Encodable;
    assert data[0..|Encode(v)|] == Encode(v) && data[0..|Encode(w)|] == Encode(w);
    RoundTrip(v, data, 0);
    RoundTrip(w, data, 0);
  }

  /** A byte string cut off by the end of the buffer is returned short, not refused: whatever part
      of it is left decodes to that part, and the end reported is where the whole one would end. */
  lemma CutStringReadsShort(data: seq<Byte>, off: nat, b: seq<Byte>, keep: nat)
    requires keep <= |b| < LIMIT
    requires Holds(data, off, Head(2, |b|) + b[..keep]) && off + |Head(2, |b|)| + keep == |data|
    ensures Decode(data, off) == Ok(Bytes(b[..keep]), off + |Encode(Bytes(b))|)
  {
    hide Argument, Head;
    HeadThen(data, off, 2, |b|, b[..keep]);
    var at := off + |Head(2, |b|)|;
    assert Slice(data, at, at + |b|) == data[at..at + keep];
  }

  // ---- The recursive decoder with its loops ----

  /** `_cbor_decode`. */
  method DecodeItem(data: seq<Byte>, from: nat) returns (r: Outcome<Item>)
    ensures r == Decode(data, from)
    decreases Left(data, from)
  {
    hide IsUtf8, Put, Value, Slice;
    if from >= |data| {
      return Raises(OutOfBytes);
    }
    var major, ai := data[from] / 32, data[from] % 32;
    if major > 5 {
      return Raises(Unsupported);
    }
    var arg := Argument(data, ai, from + 1);
    if arg.Raises? {
      return Raises(arg.why);
    }
    var n, off := arg.value, arg.end;
    match major {
      case 0 => return Ok(Int(n), off);
      case 1 => return Ok(Int(-1 - n), off);
      case 2 => return Ok(Bytes(Slice(data, off, off + n)), off + n);
      case 3 =>
        if !IsUtf8(Slice(data, off, off + n)) {
          return Raises(BadText);
        }
        return Ok(Text(Slice(data, off, off + n)), off + n);
      case 4 =>
        var arr: seq<Item> := [];
        for i := 0 to n
          invariant off > from
          invariant DecodeItems(data, arg.end, n, []) == DecodeItems(data, off, n - i, arr)
        {
          var item := DecodeItem(data, off);
          if item.Raises? {
            return Raises(item.why);
          }
          arr, off := arr + [item.value], item.end;
        }
        return Ok(Arr(arr), off);
      case _ =>
        var out: seq<Entry> := [];
        for i := 0 to n
          invariant off > from
          invariant DecodeEntries(data, arg.end, n, []) == DecodeEntries(data, off, n - i, out)
        {
          var k := DecodeItem(data, off);
          if k.Raises? {
            return Raises(k.why);
          }
          var v := DecodeItem(data, k.end);
          if v.Raises? {
            return Raises(v.why);
          }
          if !Hashable(k.value) {
            return Raises(Unhashable);
          }
          out, off := Put(out, k.value, v.value), v.end;
        }
        return Ok(Map(out), off);
    }
  }

  // ---- The round trip, piece by piece ----

  lemma {:induction false} BodyRoundTrip(v: Item, data: seq<Byte>, at: nat)
    requires at > 0 && Encodable(v) && Holds(data, at, Body(v))
    ensures Payload(data, Major(v), Count(v), at) == Ok(v, at + |Body(v)|)
    decreases v, 0
  {
    hide Holds, IsUtf8, DistinctKeys, EncodeItems, EncodeEntries, DecodeItems, DecodeEntries, Slice, Encode;
    match v
    case Int(_) =>
    case Bytes(b) => SliceHolds(data, at, b);
    case Text(u) => SliceHolds(data, at, u);
    case Arr(items) =>
      assert [] + items == items;
      ItemsRoundTrip(items, data, at, []);
    case Map(entries) =>
      assert [] + entries == entries;
      EntriesRead(entries, data, at, []);
      PutAllFresh([], entries);
  }

  lemma {:induction false} ItemsRoundTrip(items: seq<Item>, data: seq<Byte>, off: nat, read: seq<Item>)
    requires forall i :: 0 <= i < |items| ==> Encodable(items[i])
    requires Holds(data, off, EncodeItems(items))
    ensures DecodeItems(data, off, |items|, read) == Ok(read + items, off + |EncodeItems(items)|)
    decreases items
  {
    hide Holds, Encode, Decode, Encodable;
    if items == [] {
      assert read + items == read;
    } else {
      HoldsParts(data, off, Encode(items[0]), EncodeItems(items[1..]));
      RoundTrip(items[0], data, off);
      ItemsRoundTrip(items[1..], data, off + |Encode(items[0])|, read + [items[0]]);
      assert read + [items[0]] + items[1..] == read + items;
    }
  }

  lemma {:induction false} PutFresh(entries: seq<Entry>, e: Entry)
    requires DistinctKeys(entries + [e])
    ensures Put(entries, e.key, e.value) == entries + [e]
  {
    if entries != [] {
      var all := entries + [e];
      assert all[0].key != all[|entries|].key;
      DistinctTail(all);
      assert all[1..] == entries[1..] + [e];
      PutFresh(entries[1..], e);
    }
  }

  lemma DistinctTail(entries: seq<Entry>)
    requires DistinctKeys(entries) && entries != []
    ensures DistinctKeys(entries[1..])
  {
  }

  lemma DistinctPrefix(entries: seq<Entry>, more: seq<Entry>)
    requires DistinctKeys(entries + more)
    ensures DistinctKeys(entries)
  {
    var all := entries + more;
    forall i, j | 0 <= i < j < |entries|
      ensures entries[i].key != entries[j].key
    {
      assert all[i].key != all[j].key;
    }
  }

  lemma {:induction false} PairRoundTrip(e: Entry, data: seq<Byte>, off: nat)
    requires EncodablePair(e) && Holds(data, off, EncodePair(e))
    ensures DecodePair(data, off) == Ok(e, off + |EncodePair(e)|)
    decreases e
  {
    hide Holds, Encode, Decode, Encodable;
    HoldsParts(data, off, Encode(e.key), Encode(e.value));
    RoundTrip(e.key, data, off);
    RoundTrip(e.value, data, off + |Encode(e.key)|);
  }

  /** Entries stored one after another. */
  function PutAll(read: seq<Entry>, entries: seq<Entry>): seq<Entry>
    decreases entries
  {
    if entries == [] then read else PutAll(Put(read, entries[0].key, entries[0].value), entries[1..])
  }

  lemma {:induction false} EntriesRead(entries: seq<Entry>, data: seq<Byte>, off: nat, read: seq<Entry>)
    requires forall i :: 0 <= i < |entries| ==> EncodablePair(entries[i])
    requires Holds(data, off, EncodeEntries(entries))
    ensures DecodeEntries(data, off, |entries|, read) == Ok(PutAll(read, entries), off + |EncodeEntries(entries)|)
    decreases entries
  {
    hide Holds, EncodePair, DecodePair, EncodablePair, Put;
    if entries != [] {
      var e, rest := entries[0], entries[1..];
      HoldsParts(data, off, EncodePair(e), EncodeEntries(rest));
      PairRoundTrip(e, data, off);
      EntriesRead(rest, data, off + |EncodePair(e)|, Put(read, e.key, e.value));
    }
  }

  lemma {:induction false} PutAllFresh(read: seq<Entry>, entries: seq<Entry>)
    requires DistinctKeys(read + entries)
    ensures PutAll(read, entries) == read + entries
    decreases entries
  {
    hide DistinctKeys, Put;
    if entries == [] {
      assert read + entries == read;
    } else {
      assert read + [entries[0]] + entries[1..] == read + entries;
      DistinctPrefix(read + [entries[0]], entries[1..]);
      PutFresh(read, entries[0]);
      PutAllFresh(read + [entries[0]], entries[1..]);
    }
  }

  // ---- Maps with a key twice ----

  /** Storing an entry changes what that key looks up and nothing else. */
  lemma {:induction false} PutMeans(entries: seq<Entry>, k: Item, v: Item, q: Item)
    ensures Get(Put(entries, k, v), q) == if q == k then Some(v) else Get(entries, q)
  {
    if entries != [] && entries[0].key != k {
      PutMeans(entries[1..], k, v, q);
    }
  }

  lemma {:induction false} GetNone(entries: seq<Entry>, q: Item)
    ensures Get(entries, q).None? <==> forall i :: 0 <= i < |entries| ==> entries[i].key != q
  {
    if entries != [] {
      GetNone(entries[1..], q);
      assert forall i :: 0 < i < |entries| ==> entries[i] == entries[1..][i - 1];
    }
  }

  lemma DistinctHead(entries: seq<Entry>)
    requires entries != []
    ensures DistinctKeys(entries) <==> DistinctKeys(entries[1..]) && Get(entries[1..], entries[0].key).None?
  {
    var rest := entries[1..];
    GetNone(rest, entries[0].key);
    assert forall i :: 0 <= i < |rest| ==> rest[i] == entries[i + 1];
    if DistinctKeys(rest) && Get(rest, entries[0].key).None? {
      forall i, j | 0 <= i < j < |entries|
        ensures entries[i].key != entries[j].key
      {
        assert entries[j] == rest[j - 1];
        assert i > 0 ==> entries[i] == rest[i - 1];
      }
    }
  }

  lemma {:induction false} PutDistinct(entries: seq<Entry>, k: Item, v: Item)
    requires DistinctKeys(entries)
    ensures DistinctKeys(Put(entries, k, v))
  {
    hide DistinctKeys;
    if entries == [] {
      DistinctOne(k, v);
    } else {
      var after := Put(entries, k, v);
      DistinctHead(entries);
      DistinctHead(after);
      if entries[0].key != k {
        PutDistinct(entries[1..], k, v);
        PutMeans(entries[1..], k, v, entries[0].key);
        assert after[1..] == Put(entries[1..], k, v);
      } else {
        assert after[1..] == entries[1..];
      }
    }
  }

  lemma DistinctOne(k: Item, v: Item)
    ensures DistinctKeys([Entry(k, v)])
  {
  }

  lemma {:induction false} PutAllDistinct(read: seq<Entry>, entries: seq<Entry>)
    requires DistinctKeys(read)
    ensures DistinctKeys(PutAll(read, entries))
    decreases entries
  {
    hide DistinctKeys, Put;
    if entries != [] {
      PutDistinct(read, entries[0].key, entries[0].value);
      PutAllDistinct(Put(read, entries[0].key, entries[0].value), entries[1..]);
    }
  }

  /** The last entry with that key. */
  ghost predicate LastWith(entries: seq<Entry>, q: Item, i: int) {
    0 <= i < |entries| && entries[i].key == q && forall j :: i < j < |entries| ==> entries[j].key != q
  }

  lemma LastNext(entries: seq<Entry>, q: Item, i: int)
    requires entries != []
    ensures i > 0 ==> (LastWith(entries, q, i) <==> LastWith(entries[1..], q, i - 1))
    ensures LastWith(entries, q, 0) <==> entries[0].key == q && forall j :: 0 <= j < |entries[1..]| ==> entries[1..][j].key != q
  {
    var rest := entries[1..];
    assert forall j :: 0 <= j < |rest| ==> rest[j] == entries[j + 1];
    assert forall j :: 0 < j < |entries| ==> entries[j] == rest[j - 1];
  }

  lemma {:induction false} PutAllMeans(read: seq<Entry>, entries: seq<Entry>, q: Item, i: int)
    ensures LastWith(entries, q, i) ==> Get(PutAll(read, entries), q) == Some(entries[i].value)
    ensures (forall j :: 0 <= j < |entries| ==> entries[j].key != q) ==> Get(PutAll(read, entries), q) == Get(read, q)
    decreases entries
  {
    if entries != [] {
      var rest := entries[1..];
      PutMeans(read, entries[0].key, entries[0].value, q);
      LastNext(entries, q, i);
      hide Put, Get, LastWith;
      PutAllMeans(Put(read, entries[0].key, entries[0].value), rest, q, i - 1);
      assert forall j :: 0 <= j < |rest| ==> rest[j] == entries[j + 1];
      if LastWith(entries, q, i) {
        LastIsThere(entries, q, i);
      }
    }
  }

  lemma LastIsThere(entries: seq<Entry>, q: Item, i: int)
    requires LastWith(entries, q, i)
    ensures 0 <= i < |entries|
  {
  }

  /** A map that spells a key twice reads as a map of distinct keys in which the later value stands, as a
      dictionary filled in that order has it. */
  lemma LastEntryWins(entries: seq<Entry>, data: seq<Byte>, off: nat, q: Item, i: int) returns (m: seq<Entry>)
    requires |entries| < LIMIT && forall i :: 0 <= i < |entries| ==> EncodablePair(entries[i])
    requires Holds(data, off, Head(5, |entries|) + EncodeEntries(entries))
    ensures Decode(data, off) == Ok(Map(m), off + |Head(5, |entries|)| + |EncodeEntries(entries)|)
    ensures DistinctKeys(m)
    ensures LastWith(entries, q, i) ==> Get(m, q) == Some(entries[i].value)
    ensures (forall j :: 0 <= j < |entries| ==> entries[j].key != q) ==> Get(m, q) == None
  {
    m := PutAll([], entries);
    PutAllMeans([], entries, q, i);
    PutAllDistinct([], entries);
    hide Argument, Head, Holds, EncodeEntries, PutAll, DecodeEntries, EncodablePair;
    HeadThen(data, off, 5, |entries|, EncodeEntries(entries));
    EntriesRead(entries, data, off + |Head(5, |entries|)|, []);
  }

  // ---- Heads that are refused, and heads that are cut off ----

  /** Major types above five and indefinite or reserved lengths are refused; an item that starts at the end of
      the buffer, or whose one-byte argument would, is out of bytes. */
  lemma HeadRefused(data: seq<Byte>, off: nat)
    ensures off >= |data| ==> Decode(data, off) == Raises(OutOfBytes)
    ensures off < |data| && (data[off] >= 0xC0 || data[off] % 0x20 >= 28) ==> Decode(data, off) == Raises(Unsupported)
    ensures off + 1 == |data| && data[off] < 0xC0 && data[off] % 0x20 == 24 ==> Decode(data, off) == Raises(OutOfBytes)
  {
  }

  /** A wider argument that the buffer cuts off is read from the bytes that are left. */
  lemma CutArgumentReadsShort(data: seq<Byte>, ai: nat, off: nat)
    requires 25 <= ai <= 27 && off <= |data| < off + Width(ai)
    ensures Argument(data, ai, off) == Ok(Value(data[off..], 256), off + Width(ai))
  {
  }

  // ---- Keys of maps ----

  /** A key and a value are stored unless the key is itself a list or a map, which no dictionary takes. */
  lemma PairExactly(data: seq<Byte>, off: nat, k: Item, mid: nat, v: Item, at: nat)
    requires Decode(data, off) == Ok(k, mid) && Decode(data, mid) == Ok(v, at)
    ensures DecodePair(data, off) == if k.Arr? || k.Map? then Raises(Unhashable) else Ok(Entry(k, v), at)
  {
  }

  predicate PlainKeys(entries: seq<Entry>) {
    forall i :: 0 <= i < |entries| ==> entries[i].key.Int? || entries[i].key.Bytes? || entries[i].key.Text?
  }

  lemma {:induction false} PutPlain(entries: seq<Entry>, k: Item, v: Item)
    requires PlainKeys(entries) && (k.Int? || k.Bytes? || k.Text?)
    ensures PlainKeys(Put(entries, k, v))
  {
    if entries != [] && entries[0].key != k {
      PutPlain(entries[1..], k, v);
    }
  }

  lemma {:induction false} ReadPlain(data: seq<Byte>, off: nat, n: nat, read: seq<Entry>)
    requires PlainKeys(read) && DistinctKeys(read)
    ensures DecodeEntries(data, off, n, read).Ok? ==>
      PlainKeys(DecodeEntries(data, off, n, read).value) && DistinctKeys(DecodeEntries(data, off, n, read).value)
    decreases n
  {
    hide DecodeEntries, Decode, Put, PlainKeys, DistinctKeys;
    EntriesUnfold(data, off, n, read);
    if n > 0 && DecodePair(data, off).Ok? {
      var e := DecodePair(data, off);
      PutPlain(read, e.value.key, e.value.value);
      PutDistinct(read, e.value.key, e.value.value);
      ReadPlain(data, e.end, n - 1, Put(read, e.value.key, e.value.value));
    }
  }

  /** Every map that is read has distinct keys, each an integer, bytes or text. */
  lemma MapKeys(data: seq<Byte>, off: nat)
    requires Decode(data, off).Ok? && Decode(data, off).value.Map?
    ensures PlainKeys(Decode(data, off).value.entries) && DistinctKeys(Decode(data, off).value.entries)
  {
    hide Argument, DecodeEntries, PlainKeys, DistinctKeys;
    var arg := Argument(data, data[off] % 32, off + 1);
    NoKeys();
    ReadPlain(data, arg.end, arg.value, []);
  }

  lemma NoKeys()
    ensures PlainKeys([]) && DistinctKeys([])
  {
  }
}
