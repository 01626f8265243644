/** Where a CBOR decode ends and what it depends on: it is independent of what follows its buffer
    exactly when it ends inside it. */
module CborExtent {
  import opened Numerals
  import opened Cbor
  import opened Utf8
  import opened CborHead

  lemma Appended(data: seq<Byte>, ext: seq<Byte>, off: nat, n: nat)
    requires off + n <= |data|
    ensures Same(data, off, data + ext, off, n)
  {
  }

  /** A decode that ends inside the buffer is the same however the buffer goes on. */
  lemma DecodeAppended(data: seq<Byte>, off: nat, ext: seq<Byte>)
    requires Decode(data, off).Ok? && Decode(data, off).end <= |data|
    ensures Decode(data + ext, off) == Decode(data, off)
  {
    Appended(data, ext, off, Decode(data, off).end - off);
    DecodeLocal(data, off, data + ext, off);
  }

  function Ones(k: nat): (ext: seq<Byte>)
    ensures |ext| == k
  {
    seq(k, i => 255)
  }

  lemma {:induction false} OnesGrow(s: seq<Byte>, k: nat)
    requires k > 0
    ensures Value(s + Ones(k), 256) > Value(s, 256)
  {
    var all := s + Ones(k);
    assert all[..|all| - 1] == s + Ones(k - 1);
    if k == 1 {
      assert s + Ones(0) == s;
    } else {
      OnesGrow(s, k - 1);
    }
  }

  /** A length or value cut off by the end of the buffer grows when the buffer goes on. */
  lemma CutArgument(data: seq<Byte>, ai: nat, off: nat)
    requires off <= |data|
    requires Argument(data, ai, off).Ok? && Argument(data, ai, off).end > |data|
    ensures var r, r' := Argument(data, ai, off), Argument(data + Ones(8), ai, off);
      r'.Ok? && r'.end == r.end && r'.value > r.value
  {
    var w := Argument(data, ai, off).end - off;
    var ext := Ones(8);
    var cut := data[off..];
    assert Slice(data, off, off + w) == cut;
    assert Slice(data + ext, off, off + w) == cut + Ones(w - |cut|);
    OnesGrow(cut, w - |cut|);
  }

  lemma {:induction false} ItemCount(data: seq<Byte>, off: nat, n: nat, read: seq<Item>)
    requires DecodeItems(data, off, n, read).Ok?
    ensures |DecodeItems(data, off, n, read).value| == |read| + n
    ensures off >= |data| ==> n == 0
    decreases Left(data, off), n + 1
  {
    hide Decode;
    if n > 0 {
      StartsInside(data, off);
      var first := Decode(data, off);
      ItemCount(data, first.end, n - 1, read + [first.value]);
    }
  }

  lemma StartsInside(data: seq<Byte>, off: nat)
    ensures Decode(data, off).Ok? ==> off < |data| && Decode(data, off).end > off
  {
  }

  lemma {:induction false} EntryCount(data: seq<Byte>, off: nat, n: nat, read: seq<Entry>)
    requires DecodeEntries(data, off, n, read).Ok?
    ensures n > 0 || read != [] ==> DecodeEntries(data, off, n, read).value != []
    ensures off >= |data| ==> n == 0
    decreases Left(data, off), n + 1
  {
    hide Decode, Hashable;
    if n > 0 {
      StartsInside(data, off);
      var e := DecodePair(data, off);
      EntryCount(data, e.end, n - 1, Put(read, e.value.key, e.value.value));
    }
  }

  /** Two counts never read the same where the first starts past the end of its buffer. */
  lemma OtherCount(data: seq<Byte>, more: seq<Byte>, major: nat, n: nat, m: nat, at: nat)
    requires at > |data| && n < m && Payload(data, major, n, at).Ok?
    ensures Payload(more, major, m, at) != Payload(data, major, n, at)
  {
    hide DecodeItems, DecodeEntries, Slice, IsUtf8;
    if major == 4 {
      ItemCount(data, at, n, []);
      if DecodeItems(more, at, m, []).Ok? {
        ItemCount(more, at, m, []);
      }
    } else if major > 4 {
      EntryCount(data, at, n, []);
      NoMoreEntries(data, at);
      if DecodeEntries(more, at, m, []).Ok? {
        EntryCount(more, at, m, []);
      }
    }
  }

  lemma NoMoreEntries(data: seq<Byte>, at: nat)
    ensures DecodeEntries(data, at, 0, []) == Ok([], at)
  {
  }

  /** A decode that ends past the buffer is changed by some continuation of the buffer. */
  lemma {:induction false} OverrunDecode(data: seq<Byte>, off: nat) returns (ext: seq<Byte>)
    requires Decode(data, off).Ok? && Decode(data, off).end > |data|
    ensures Decode(data + ext, off) != Decode(data, off)
    decreases Left(data, off), 0
  {
    hide Argument, Payload;
    var major, ai := data[off] / 32, data[off] % 32;
    var arg := Argument(data, ai, off + 1);
    if arg.end > |data| {
      ext := Ones(8);
      CutArgument(data, ai, off + 1);
      assert (data + ext)[off] == data[off];
      OtherCount(data, data + ext, major, arg.value, Argument(data + ext, ai, off + 1).value, arg.end);
    } else {
      ext := OverrunPayload(data, major, arg.value, arg.end);
      assert (data + ext)[off] == data[off];
      Appended(data, ext, off + 1, arg.end - off - 1);
      ArgumentLocal(data, ai, off + 1, data + ext, off + 1);
    }
  }

  lemma {:induction false} OverrunPayload(data: seq<Byte>, major: nat, n: nat, at: nat) returns (ext: seq<Byte>)
    requires 0 < at <= |data| && Payload(data, major, n, at).Ok? && Payload(data, major, n, at).end > |data|
    ensures Payload(data + ext, major, n, at) != Payload(data, major, n, at)
    decreases Left(data, at), n + 2
  {
    hide IsUtf8;
    if major <= 3 {
      ext := [0];
      assert |Slice(data + ext, at, at + n)| == |Slice(data, at, at + n)| + 1;
    } else if major == 4 {
      ext := OverrunItems(data, at, n, []);
    } else {
      ext := OverrunEntries(data, at, n, []);
    }
  }

  lemma {:induction false} OverrunItems(data: seq<Byte>, off: nat, n: nat, read: seq<Item>) returns (ext: seq<Byte>)
    requires off <= |data| && DecodeItems(data, off, n, read).Ok? && DecodeItems(data, off, n, read).end > |data|
    ensures DecodeItems(data + ext, off, n, read) != DecodeItems(data, off, n, read)
    decreases Left(data, off), n + 1
  {
    hide DecodeItems, Decode;
    ItemsUnfold(data, off, n, read);
    StartsInside(data, off);
    var first := Decode(data, off);
    var more := read + [first.value];
    if first.end <= |data| {
      ext := OverrunItems(data, first.end, n - 1, more);
      DecodeAppended(data, off, ext);
      ItemsUnfold(data + ext, off, n, read);
    } else {
      ext := OverrunDecode(data, off);
      ItemCount(data, first.end, n - 1, more);
      ItemsUnfold(data, first.end, 0, more);
      ItemsUnfold(data + ext, off, n, read);
      var other := Decode(data + ext, off);
      if other.Ok? {
        ItemsUnfold(data + ext, other.end, 0, read + [other.value]);
        assert more[|read|] == first.value && (read + [other.value])[|read|] == other.value;
      }
    }
  }

  lemma {:induction false} OverrunPair(data: seq<Byte>, off: nat) returns (ext: seq<Byte>)
    requires DecodePair(data, off).Ok? && DecodePair(data, off).end > |data|
    ensures var r, r' := DecodePair(data, off), DecodePair(data + ext, off);
      r' != r && (r'.Ok? ==> r'.value.key == r.value.key)
    decreases Left(data, off), 1
  {
    hide Decode;
    StartsInside(data, off);
    var k := Decode(data, off);
    StartsInside(data, k.end);
    ext := OverrunDecode(data, k.end);
    DecodeAppended(data, off, ext);
  }

  lemma {:induction false} PutHolds(entries: seq<Entry>, k: Item, v: Item, w: Item)
    requires v != w
    ensures Put(entries, k, v) != Put(entries, k, w)
  {
    if entries != [] && entries[0].key != k {
      PutHolds(entries[1..], k, v, w);
      assert Put(entries, k, v)[1..] == Put(entries[1..], k, v) && Put(entries, k, w)[1..] == Put(entries[1..], k, w);
    } else {
      assert Put(entries, k, v)[0].value == v && Put(entries, k, w)[0].value == w;
    }
  }

  lemma {:induction false} OverrunEntries(data: seq<Byte>, off: nat, n: nat, read: seq<Entry>) returns (ext: seq<Byte>)
    requires off <= |data| && DecodeEntries(data, off, n, read).Ok? && DecodeEntries(data, off, n, read).end > |data|
    ensures DecodeEntries(data + ext, off, n, read) != DecodeEntries(data, off, n, read)
    decreases Left(data, off), n + 1
  {
    hide DecodeEntries, DecodePair, Put;
    EntriesUnfold(data, off, n, read);
    PairStartsInside(data, off);
    var e := DecodePair(data, off);
    var more := Put(read, e.value.key, e.value.value);
    if e.end <= |data| {
      ext := OverrunEntries(data, e.end, n - 1, more);
      Appended(data, ext, off, e.end - off);
      PairLocal(data, off, data + ext, off);
      EntriesUnfold(data + ext, off, n, read);
    } else {
      ext := OverrunPair(data, off);
      EntryCount(data, e.end, n - 1, more);
      EntriesUnfold(data, e.end, 0, more);
      EntriesUnfold(data + ext, off, n, read);
      var other := DecodePair(data + ext, off);
      if other.Ok? {
        EntriesUnfold(data + ext, other.end, 0, Put(read, other.value.key, other.value.value));
        if other.value.value != e.value.value {
          PutHolds(read, e.value.key, e.value.value, other.value.value);
        }
      }
    }
  }

  lemma PairStartsInside(data: seq<Byte>, off: nat)
    ensures DecodePair(data, off).Ok? ==> off < |data| && DecodePair(data, off).end > off
  {
  }

  /** A decode is independent of what follows its buffer exactly when it ends inside it. */
  lemma EndsInsideExactly(data: seq<Byte>, off: nat)
    requires Decode(data, off).Ok?
    ensures Decode(data, off).end <= |data| <==> forall ext :: Decode(data + ext, off) == Decode(data, off)
  {
    if Decode(data, off).end <= |data| {
      forall ext: seq<Byte>
        ensures Decode(data + ext, off) == Decode(data, off)
      {
        DecodeAppended(data, off, ext);
      }
    } else {
      var ext := OverrunDecode(data, off);
    }
  }
}
