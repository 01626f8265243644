/** What a dotted path names: the value its keys lead to. */
module JsonPaths {
  import opened Prelude
  import opened Json

  predicate DotFree(key: string) {
    '.' !in key
  }

  predicate IsPath(keys: seq<string>) {
    keys != [] && forall i :: 0 <= i < |keys| ==> DotFree(keys[i])
  }

  function Join(keys: seq<string>): string
    requires keys != []
  {
    if |keys| == 1 then keys[0] else keys[0] + "." + Join(keys[1..])
  }

  /** `v` is the value of the first field named `key` of the object `j`. */
  ghost predicate IsField(j: Json, key: string, v: Json) {
    j.Obj? && exists i :: 0 <= i < |j.fields| && j.fields[i] == Field(key, v) && forall k :: 0 <= k < i ==> j.fields[k].key != key
  }

  /** The values met along the path: each is the next key's field of the one before. */
  ghost predicate Descends(vs: seq<Json>, keys: seq<string>) {
    |vs| == |keys| + 1 && forall i :: 0 <= i < |keys| ==> IsField(vs[i], keys[i], vs[i + 1])
  }

  /** The keys lead from `cur` down to `v`. */
  ghost predicate Leads(cur: Json, keys: seq<string>, v: Json) {
    exists vs :: Descends(vs, keys) && vs[0] == cur && vs[|keys|] == v
  }

  /** From a document: the first key is one of its fields, and the others lead on from there. */
  ghost predicate LeadsDoc(doc: Doc, keys: seq<string>, v: Json)
    requires keys != []
  {
    keys[0] in doc && Leads(doc[keys[0]], keys[1..], v)
  }

  lemma {:induction false} FindFirst(fields: seq<Field>, key: string)
    ensures forall k :: 0 <= k < Find(fields, key) ==> fields[k].key != key
    ensures Has(fields, key) <==> exists i :: 0 <= i < |fields| && fields[i].key == key
  {
    if fields != [] {
      FindFirst(fields[1..], key);
    }
  }

  lemma FieldIs(j: Json, key: string, v: Json)
    ensures IsField(j, key, v) <==> j.Obj? && Has(j.fields, key) && Get(j.fields, key) == v
  {
    if j.Obj? {
      FindFirst(j.fields, key);
      if Has(j.fields, key) && Get(j.fields, key) == v {
        assert j.fields[Find(j.fields, key)] == Field(key, v);
      }
    }
  }

  lemma LeadsNowhere(cur: Json, v: Json)
    ensures Leads(cur, [], v) <==> v == cur
  {
    assert Descends([cur], []);
  }

  /** One step, and the rest of the way. */
  lemma LeadsNext(cur: Json, keys: seq<string>, next: Json, v: Json)
    requires keys != [] && IsField(cur, keys[0], next)
    ensures Leads(cur, keys, v) <==> Leads(next, keys[1..], v)
  {
    hide IsField, Leads;
    if Leads(next, keys[1..], v) {
      LeadsInto(cur, keys, next, v);
    }
    if Leads(cur, keys, v) {
      LeadsOn(cur, keys, next, v);
    }
  }

  lemma LeadsInto(cur: Json, keys: seq<string>, next: Json, v: Json)
    requires keys != [] && IsField(cur, keys[0], next) && Leads(next, keys[1..], v)
    ensures Leads(cur, keys, v)
  {
    hide IsField;
    var vs :| Descends(vs, keys[1..]) && vs[0] == next && vs[|keys| - 1] == v;
    DescendsInto(cur, vs, keys);
  }

  lemma LeadsOn(cur: Json, keys: seq<string>, next: Json, v: Json)
    requires keys != [] && IsField(cur, keys[0], next) && Leads(cur, keys, v)
    ensures Leads(next, keys[1..], v)
  {
    hide IsField;
    var vs :| Descends(vs, keys) && vs[0] == cur && vs[|keys|] == v;
    DescendsRest(vs, keys, next);
  }

  lemma DescendsInto(cur: Json, vs: seq<Json>, keys: seq<string>)
    requires keys != [] && Descends(vs, keys[1..]) && IsField(cur, keys[0], vs[0])
    ensures Descends([cur] + vs, keys)
  {
    hide IsField;
    forall i | 0 <= i < |keys|
      ensures IsField(([cur] + vs)[i], keys[i], ([cur] + vs)[i + 1])
    {
      if i > 0 {
        assert IsField(vs[i - 1], keys[1..][i - 1], vs[i - 1 + 1]);
      }
    }
  }

  lemma DescendsRest(vs: seq<Json>, keys: seq<string>, next: Json)
    requires keys != [] && Descends(vs, keys) && IsField(vs[0], keys[0], next)
    ensures vs[1] == next && Descends(vs[1..], keys[1..])
  {
    FieldIs(vs[0], keys[0], next);
    FieldIs(vs[0], keys[0], vs[1]);
    hide IsField;
    var rest := vs[1..];
    forall i | 0 <= i < |keys| - 1
      ensures IsField(rest[i], keys[1..][i], rest[i + 1])
    {
      assert IsField(vs[i + 1], keys[i + 1], vs[i + 1 + 1]);
    }
  }

  lemma {:induction false} DotOf(key: string, rest: string)
    requires DotFree(key)
    ensures Dot(key) == |key| && Dot(key + "." + rest) == |key|
    decreases |key|
  {
    var path := key + "." + rest;
    if key != "" {
      assert path[0] == key[0] && path[1..] == key[1..] + "." + rest;
      DotOf(key[1..], rest);
    }
  }

  lemma JoinSplits(keys: seq<string>)
    requires IsPath(keys)
    ensures Head(Join(keys)) == keys[0] && (IsLast(Join(keys)) <==> |keys| == 1)
    ensures |keys| > 1 ==> Tail(Join(keys)) == Join(keys[1..])
  {
    if |keys| == 1 {
      DotOf(keys[0], "");
    } else {
      DotOf(keys[0], Join(keys[1..]));
      assert DotFree(keys[0]);
    }
  }

  /** Navigation follows the whole path: it gives a value exactly when the path's keys lead there. */
  lemma {:induction false} NavigateLeads(cur: Json, keys: seq<string>, v: Json)
    requires IsPath(keys)
    ensures Navigate(cur, Join(keys)) == Some(v) <==> Leads(cur, keys, v)
    decreases |keys|
  {
    JoinSplits(keys);
    hide Join, Head, Tail, Dot, IsField, Leads;
    if cur.Obj? && Has(cur.fields, keys[0]) {
      var next := Get(cur.fields, keys[0]);
      FieldIs(cur, keys[0], next);
      LeadsNext(cur, keys, next, v);
      if |keys| == 1 {
        LeadsNowhere(next, v);
      } else {
        NavigateLeads(next, keys[1..], v);
      }
    } else {
      NoFirstStep(cur, keys, v);
    }
  }

  lemma NoFirstStep(cur: Json, keys: seq<string>, v: Json)
    requires keys != [] && !(cur.Obj? && Has(cur.fields, keys[0]))
    ensures !Leads(cur, keys, v)
  {
    hide IsField;
    if vs :| Descends(vs, keys) && vs[0] == cur && vs[|keys|] == v {
      FieldIs(cur, keys[0], vs[1]);
    }
  }

  lemma NavigateDocLeads(doc: Doc, keys: seq<string>, v: Json)
    requires IsPath(keys)
    ensures NavigateDoc(doc, Join(keys)) == Some(v) <==> LeadsDoc(doc, keys, v)
  {
    JoinSplits(keys);
    hide Join, Head, Tail, Dot, Leads, Navigate;
    if keys[0] in doc {
      if |keys| == 1 {
        LeadsNowhere(doc[keys[0]], v);
      } else {
        NavigateLeads(doc[keys[0]], keys[1..], v);
      }
    }
  }

  /** Every path is made of keys without dots, so these lemmas cover them all. */
  lemma {:induction false} PathKeys(path: string) returns (keys: seq<string>)
    ensures IsPath(keys) && Join(keys) == path
    decreases |path|
  {
    HeadDotFree(path);
    if IsLast(path) {
      keys := [path];
    } else {
      DotAt(path);
      var rest := PathKeys(Tail(path));
      keys := [Head(path)] + rest;
      assert keys[1..] == rest;
      assert path == Head(path) + "." + Tail(path);
    }
  }

  lemma {:induction false} HeadDotFree(path: string)
    ensures DotFree(Head(path))
  {
    if path != "" && path[0] != '.' {
      HeadDotFree(path[1..]);
      assert Head(path) == [path[0]] + Head(path[1..]);
    }
  }

  lemma {:induction false} DotAt(path: string)
    requires !IsLast(path)
    ensures path[Dot(path)] == '.'
  {
    if path[0] != '.' {
      DotAt(path[1..]);
    }
  }
}
