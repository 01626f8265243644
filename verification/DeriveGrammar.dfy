/** The derive language as a grammar, and the load-time check as a reader of it: what is accepted is
    exactly what some well-formed term spells. */
module DeriveGrammar {
  import opened Prelude
  import opened Json
  import opened JsonPaths
  import opened DerivePlan
  import opened DeriveSoundness

  // ---- Arguments ----

  datatype Term =
    | Constant(value: Json)
    | InputAt(path: string)
    | ItemAt(path: string)
    | ListOf(elements: seq<Term>)
    | Application(fn: string, args: seq<Term>)

  /** No application anywhere in it. */
  predicate Flat(t: Term)
    decreases t
  {
    match t
    case ListOf(elements) => forall i :: 0 <= i < |elements| ==> Flat(elements[i])
    case Application(_, _) => false
    case _ => true
  }

  /** No key of the object starts with the sign of a marker. */
  predicate Unsigned(fields: seq<Field>) {
    forall i :: 0 <= i < |fields| ==> fields[i].key == "" || fields[i].key[0] != '$'
  }

  /** `concat` takes a delimiter that is no list and no literal object, and a list; `format_int` a
      literal base. */
  predicate Signature(fn: string, args: seq<Term>) {
    && (fn == "concat" ==>
          |args| == 2 && !args[0].ListOf? && !(args[0].Constant? && args[0].value.Obj?) && args[1].ListOf?)
    && (fn == "format_int" ==>
          |args| == 2 && args[1].Constant? && args[1].value in {Int(2), Int(8), Int(10), Int(16)})
  }

  /** `$item` only in a fold, and one level of applications, of declared primitives that consume no key. */
  predicate WellFormed(t: Term, declared: set<string>, folded: bool)
    decreases t
  {
    match t
    case Constant(v) => !v.Arr? && (v.Obj? ==> Unsigned(v.fields))
    case InputAt(path) => path != ""
    case ItemAt(_) => folded
    case ListOf(elements) => forall i :: 0 <= i < |elements| ==> WellFormed(elements[i], declared, folded)
    case Application(fn, args) =>
      && fn != "" && fn in declared && fn !in KEY_CONSUMING && Signature(fn, args)
      && forall i :: 0 <= i < |args| ==> Flat(args[i]) && WellFormed(args[i], declared, folded)
  }

  ghost predicate NoField(fields: seq<Field>, key: string) {
    forall i :: 0 <= i < |fields| ==> fields[i].key != key
  }

  /** How a term is spelled: an application may name its arguments before its primitive, and may leave
      them out when there are none. */
  ghost predicate Spells(arg: Json, t: Term)
    decreases t, 0
  {
    match t
    case Constant(v) => arg == v
    case InputAt(path) => arg == Obj([Field("$input", Str(path))])
    case ItemAt(path) => arg == Obj([Field("$item", Str(path))])
    case ListOf(elements) => arg.Arr? && SpellsAll(arg.items, elements)
    case Application(fn, args) =>
      && arg.Obj? && |arg.fields| == 1 && arg.fields[0].key == "$apply" && arg.fields[0].value.Obj?
      && var inner := arg.fields[0].value;
      && (forall i :: 0 <= i < |inner.fields| ==> inner.fields[i].key in {"fn", "args"})
      && IsField(inner, "fn", Str(fn))
      && ((args == [] && NoField(inner.fields, "args"))
          || exists items :: IsField(inner, "args", Arr(items)) && SpellsAll(items, args))
  }

  ghost predicate SpellsAll(items: seq<Json>, terms: seq<Term>)
    decreases terms, 1
  {
    |items| == |terms| && forall i :: 0 <= i < |items| ==> Spells(items[i], terms[i])
  }

  lemma NoFieldIs(fields: seq<Field>, key: string)
    ensures NoField(fields, key) <==> !Has(fields, key)
  {
    FindFirst(fields, key);
  }

  lemma UnsignedIs(fields: seq<Field>)
    ensures Unsigned(fields) <==> !HasMarker(fields)
  {
  }

  /** Literals are the arguments that are no list and carry no marker. */
  lemma SpelledKind(arg: Json, t: Term, declared: set<string>, folded: bool)
    requires Spells(arg, t) && WellFormed(t, declared, folded)
    ensures arg.Arr? <==> t.ListOf?
    ensures t.Constant? <==> !arg.Arr? && (arg.Obj? ==> !HasMarker(arg.fields))
    ensures t.Constant? ==> t.value == arg
  {
    if arg.Obj? {
      UnsignedIs(arg.fields);
      MarkersDiffer();
      assert t.InputAt? || t.ItemAt? || t.Application? ==> IsMarker(arg.fields[0].key);
    }
  }

  lemma SignatureIs(fn: string, items: seq<Json>, args: seq<Term>, declared: set<string>, folded: bool)
    requires SpellsAll(items, args) && forall i :: 0 <= i < |args| ==> WellFormed(args[i], declared, folded)
    ensures ValidPrimitiveShape(fn, items) <==> Signature(fn, args)
  {
    hide Spells, WellFormed;
    if |args| == 2 {
      SpelledKind(items[0], args[0], declared, folded);
      SpelledKind(items[1], args[1], declared, folded);
    }
  }

  // ---- What is spelled is accepted ----

  lemma {:induction false} SpelledAccepted(arg: Json, t: Term, declared: set<string>, folded: bool, nested: bool)
    requires Spells(arg, t) && WellFormed(t, declared, folded) && (nested ==> Flat(t))
    ensures ValidArg(arg, declared, folded, nested)
    decreases t
  {
    match t
    case Constant(v) =>
      if v.Obj? {
        UnsignedIs(v.fields);
      }
    case InputAt(_) => MarkersDiffer(); assert IsMarker(arg.fields[0].key);
    case ItemAt(_) => MarkersDiffer(); assert IsMarker(arg.fields[0].key);
    case ListOf(elements) =>
      forall i | 0 <= i < |elements|
        ensures ValidArg(arg.items[i], declared, folded, nested)
      {
        SpelledAccepted(arg.items[i], elements[i], declared, folded, nested);
      }
    case Application(fn, args) =>
      MarkersDiffer();
      assert IsMarker(arg.fields[0].key);
      ApplicationAccepted(arg.fields[0].value, fn, args, declared, folded);
  }

  lemma {:induction false} ApplicationAccepted(inner: Json, fn: string, args: seq<Term>, declared: set<string>, folded: bool)
    requires Spells(Obj([Field("$apply", inner)]), Application(fn, args)) && WellFormed(Application(fn, args), declared, folded)
    ensures ValidApply(inner, declared, folded)
    decreases args
  {
    hide WellFormed, ValidArg, Has, Get, IsField, Spells;
    var items := ApplicationParts(inner, fn, args, declared, folded);
    SignatureIs(fn, items, args, declared, folded);
    forall i | 0 <= i < |items|
      ensures ValidArg(items[i], declared, folded, true)
    {
      SpelledAccepted(items[i], args[i], declared, folded, true);
    }
  }

  /** The parts of a spelled application, as the check looks them up. */
  lemma ApplicationParts(inner: Json, fn: string, args: seq<Term>, declared: set<string>, folded: bool) returns (items: seq<Json>)
    requires Spells(Obj([Field("$apply", inner)]), Application(fn, args)) && WellFormed(Application(fn, args), declared, folded)
    ensures inner.Obj? && OnlyKeys(inner.fields, APPLY_KEYS)
    ensures Has(inner.fields, "fn") && Get(inner.fields, "fn") == Str(fn)
    ensures ArgsOf(inner.fields) == Arr(items) && SpellsAll(items, args)
    ensures fn != "" && fn in declared && fn !in KEY_CONSUMING && Signature(fn, args)
    ensures forall i :: 0 <= i < |args| ==> Flat(args[i]) && WellFormed(args[i], declared, folded)
  {
    FieldIs(inner, "fn", Str(fn));
    NoFieldIs(inner.fields, "args");
    if args == [] && NoField(inner.fields, "args") {
      items := [];
    } else {
      items :| IsField(inner, "args", Arr(items)) && SpellsAll(items, args);
      FieldIs(inner, "args", Arr(items));
    }
  }

  // ---- What is accepted is spelled ----

  lemma {:induction false} ReadBack(arg: Json, declared: set<string>, folded: bool, nested: bool) returns (t: Term)
    requires ValidArg(arg, declared, folded, nested)
    ensures Spells(arg, t) && WellFormed(t, declared, folded) && (nested ==> Flat(t))
    decreases arg
  {
    match arg
    case Arr(items) =>
      var terms := ReadBackAll(items, declared, folded, nested);
      t := ListOf(terms);
    case Obj(fields) =>
      UnsignedIs(fields);
      MarkersDiffer();
      if !HasMarker(fields) {
        t := Constant(arg);
      } else if fields[0].key == INPUT {
        t := InputAt(fields[0].value.s);
        assert fields == [Field("$input", Str(fields[0].value.s))];
      } else if fields[0].key == ITEM {
        t := ItemAt(fields[0].value.s);
        assert fields == [Field("$item", Str(fields[0].value.s))];
      } else {
        t := ReadApplication(fields[0].value, declared, folded);
        assert fields == [Field("$apply", fields[0].value)];
      }
    case _ => t := Constant(arg);
  }

  lemma {:induction false} ReadBackAll(items: seq<Json>, declared: set<string>, folded: bool, nested: bool) returns (terms: seq<Term>)
    requires forall i :: 0 <= i < |items| ==> ValidArg(items[i], declared, folded, nested)
    ensures SpellsAll(items, terms)
    ensures forall i :: 0 <= i < |terms| ==> WellFormed(terms[i], declared, folded) && (nested ==> Flat(terms[i]))
    decreases items
  {
    hide Spells, WellFormed, ValidArg;
    if items == [] {
      terms := [];
    } else {
      var first := ReadBack(items[0], declared, folded, nested);
      var rest := ReadBackAll(items[1..], declared, folded, nested);
      terms := [first] + rest;
      forall i | 0 < i < |items|
        ensures Spells(items[i], terms[i]) && WellFormed(terms[i], declared, folded) && (nested ==> Flat(terms[i]))
      {
        assert Spells(items[1..][i - 1], rest[i - 1]) && WellFormed(rest[i - 1], declared, folded);
      }
    }
  }

  lemma {:induction false} ReadApplication(inner: Json, declared: set<string>, folded: bool) returns (t: Term)
    requires ValidApply(inner, declared, folded)
    ensures t.Application? && Spells(Obj([Field("$apply", inner)]), t) && WellFormed(t, declared, folded)
    decreases inner
  {
    hide WellFormed, ValidArg, IsField, Spells;
    var fn, items := Get(inner.fields, "fn").s, ArgsOf(inner.fields).items;
    FieldIs(inner, "fn", Str(fn));
    NoFieldIs(inner.fields, "args");
    var args: seq<Term> := [];
    if Has(inner.fields, "args") {
      args := ReadBackAll(items, declared, folded, true);
      FieldIs(inner, "args", Arr(items));
    }
    SignatureIs(fn, items, args, declared, folded);
    t := Application(fn, args);
    SpellApplication(inner, fn, items, args);
    FormApplication(fn, args, declared, folded);
  }

  lemma SpellApplication(inner: Json, fn: string, items: seq<Json>, args: seq<Term>)
    requires inner.Obj? && OnlyKeys(inner.fields, APPLY_KEYS) && IsField(inner, "fn", Str(fn)) && SpellsAll(items, args)
    requires IsField(inner, "args", Arr(items)) || (args == [] && NoField(inner.fields, "args"))
    ensures Spells(Obj([Field("$apply", inner)]), Application(fn, args))
  {
    hide IsField;
  }

  lemma FormApplication(fn: string, args: seq<Term>, declared: set<string>, folded: bool)
    requires fn != "" && fn in declared && fn !in KEY_CONSUMING && Signature(fn, args)
    requires forall i :: 0 <= i < |args| ==> Flat(args[i]) && WellFormed(args[i], declared, folded)
    ensures WellFormed(Application(fn, args), declared, folded)
  {
  }

  /** An argument is accepted exactly when it spells a well-formed term. */
  lemma ArgumentAcceptedExactly(arg: Json, declared: set<string>, folded: bool)
    ensures ValidArg(arg, declared, folded, false) <==> exists t :: Spells(arg, t) && WellFormed(t, declared, folded)
  {
    hide Spells, WellFormed, ValidArg;
    if ValidArg(arg, declared, folded, false) {
      var t := ReadBack(arg, declared, folded, false);
    }
    if t :| Spells(arg, t) && WellFormed(t, declared, folded) {
      SpelledAccepted(arg, t, declared, folded, false);
      assert exists t :: Spells(arg, t) && WellFormed(t, declared, folded);
    }
  }

  // ---- Every term has a spelling ----

  function Written(t: Term): Json
    decreases t, 0
  {
    match t
    case Constant(v) => v
    case InputAt(path) => Obj([Field("$input", Str(path))])
    case ItemAt(path) => Obj([Field("$item", Str(path))])
    case ListOf(elements) => Arr(WrittenAll(elements))
    case Application(fn, args) => Obj([Field("$apply", Obj([Field("fn", Str(fn)), Field("args", Arr(WrittenAll(args)))]))])
  }

  function WrittenAll(terms: seq<Term>): (items: seq<Json>)
    ensures |items| == |terms| && forall i :: 0 <= i < |items| ==> items[i] == Written(terms[i])
    decreases terms, 1
  {
    seq(|terms|, i requires 0 <= i < |terms| => Written(terms[i]))
  }

  lemma {:induction false} WrittenSpells(t: Term)
    ensures Spells(Written(t), t)
    decreases t
  {
    match t
    case ListOf(elements) => WrittenSpellAll(elements);
    case Application(fn, args) =>
      WrittenSpellAll(args);
      var items := WrittenAll(args);
      var inner := Obj([Field("fn", Str(fn)), Field("args", Arr(items))]);
      assert inner.fields[0] == Field("fn", Str(fn)) && inner.fields[1] == Field("args", Arr(items));
      assert IsField(inner, "fn", Str(fn)) && IsField(inner, "args", Arr(items));
    case _ =>
  }

  lemma {:induction false} WrittenSpellAll(terms: seq<Term>)
    ensures SpellsAll(WrittenAll(terms), terms)
    decreases terms
  {
    hide Spells;
    forall i | 0 <= i < |terms|
      ensures Spells(WrittenAll(terms)[i], terms[i])
    {
      WrittenSpells(terms[i]);
    }
  }

  /** Each well-formed term is accepted as it is written out. */
  lemma WrittenAccepted(t: Term, declared: set<string>, folded: bool)
    requires WellFormed(t, declared, folded)
    ensures ValidArg(Written(t), declared, folded, false)
  {
    WrittenSpells(t);
    SpelledAccepted(Written(t), t, declared, folded, false);
  }

  // ---- Literal candidates ----

  /** An `over` element: a scalar, an input path, or a list or an object of such. */
  datatype Candidate = Scalar(value: Json) | InputHere(path: string) | Elements(elements: seq<Candidate>) | Record(parts: seq<Part>)
  datatype Part = Part(key: string, candidate: Candidate)

  predicate WellFormedCandidate(c: Candidate)
    decreases c
  {
    match c
    case Scalar(v) => !v.Arr? && !v.Obj?
    case InputHere(path) => path != ""
    case Elements(elements) => forall i :: 0 <= i < |elements| ==> WellFormedCandidate(elements[i])
    case Record(parts) =>
      forall i :: 0 <= i < |parts| ==> (parts[i].key == "" || parts[i].key[0] != '$') && WellFormedCandidate(parts[i].candidate)
  }

  function WrittenCandidate(c: Candidate): Json
    decreases c
  {
    match c
    case Scalar(v) => v
    case InputHere(path) => Obj([Field("$input", Str(path))])
    case Elements(elements) => Arr(seq(|elements|, i requires 0 <= i < |elements| => WrittenCandidate(elements[i])))
    case Record(parts) =>
      Obj(seq(|parts|, i requires 0 <= i < |parts| => Field(parts[i].key, WrittenCandidate(parts[i].candidate))))
  }

  lemma {:induction false} CandidateAccepted(c: Candidate)
    requires WellFormedCandidate(c)
    ensures ValidCandidate(WrittenCandidate(c))
    decreases c
  {
    match c
    case Scalar(_) =>
    case InputHere(_) => MarkersDiffer();
    case Elements(elements) =>
      forall i | 0 <= i < |elements|
        ensures ValidCandidate(WrittenCandidate(elements[i]))
      {
        CandidateAccepted(elements[i]);
      }
    case Record(parts) =>
      UnsignedIs(WrittenCandidate(c).fields);
      forall i | 0 <= i < |parts|
        ensures ValidCandidate(WrittenCandidate(parts[i].candidate))
      {
        CandidateAccepted(parts[i].candidate);
      }
  }

  lemma {:induction false} CandidateReadBack(node: Json) returns (c: Candidate)
    requires ValidCandidate(node)
    ensures WellFormedCandidate(c) && WrittenCandidate(c) == node
    decreases node
  {
    match node
    case Arr(items) =>
      var cs := CandidatesReadBack(items);
      c := Elements(cs);
      assert WrittenCandidate(c).items == items;
    case Obj(fields) =>
      UnsignedIs(fields);
      if HasMarker(fields) {
        c := InputHere(fields[0].value.s);
        assert WrittenCandidate(c).fields == fields;
      } else {
        var cs := RecordReadBack(fields);
        c := Record(seq(|fields|, i requires 0 <= i < |fields| => Part(fields[i].key, cs[i])));
        assert WrittenCandidate(c).fields == fields;
      }
    case _ => c := Scalar(node);
  }

  lemma {:induction false} CandidatesReadBack(nodes: seq<Json>) returns (cs: seq<Candidate>)
    requires forall i :: 0 <= i < |nodes| ==> ValidCandidate(nodes[i])
    ensures |cs| == |nodes| && forall i :: 0 <= i < |cs| ==> WellFormedCandidate(cs[i]) && WrittenCandidate(cs[i]) == nodes[i]
    decreases nodes
  {
    hide ValidCandidate, WellFormedCandidate, WrittenCandidate;
    if nodes == [] {
      cs := [];
    } else {
      var first := CandidateReadBack(nodes[0]);
      var rest := CandidatesReadBack(nodes[1..]);
      cs := [first] + rest;
    }
  }

  lemma {:induction false} RecordReadBack(fields: seq<Field>) returns (cs: seq<Candidate>)
    requires forall i :: 0 <= i < |fields| ==> ValidCandidate(fields[i].value)
    ensures |cs| == |fields| && forall i :: 0 <= i < |cs| ==> WellFormedCandidate(cs[i]) && WrittenCandidate(cs[i]) == fields[i].value
    decreases fields
  {
    hide ValidCandidate, WellFormedCandidate, WrittenCandidate;
    if fields == [] {
      cs := [];
    } else {
      var first := CandidateReadBack(fields[0].value);
      var rest := RecordReadBack(fields[1..]);
      cs := [first] + rest;
    }
  }

  /** A literal candidate is accepted exactly when it is a well-formed candidate written out. */
  lemma CandidateAcceptedExactly(node: Json)
    ensures ValidCandidate(node) <==> exists c :: WellFormedCandidate(c) && WrittenCandidate(c) == node
  {
    hide ValidCandidate, WellFormedCandidate, WrittenCandidate;
    if ValidCandidate(node) {
      var c := CandidateReadBack(node);
    }
    if c :| WellFormedCandidate(c) && WrittenCandidate(c) == node {
      CandidateAccepted(c);
    }
  }

  // ---- Whole derive entries ----

  /** A fold's candidates: a reference, whose path the check does not look at, or a literal list. */
  datatype Over = Referred(path: Json) | Listed(candidates: seq<Candidate>)

  datatype Folding = Folding(over: Over, project: string)

  datatype Derivation = Derivation(fn: string, args: seq<Term>, folding: Option<Folding>)

  predicate WellFormedDerivation(s: Derivation, declared: set<string>) {
    && s.fn != "" && s.fn in declared && s.fn !in KEY_PRODUCING && (s.fn in KEY_CONSUMING ==> s.folding.Some?)
    && Signature(s.fn, s.args)
    && (forall i :: 0 <= i < |s.args| ==> WellFormed(s.args[i], declared, s.folding.Some?))
    && (s.folding.Some? ==>
          && s.folding.value.project != ""
          && (s.folding.value.over.Listed? ==>
                forall i :: 0 <= i < |s.folding.value.over.candidates| ==> WellFormedCandidate(s.folding.value.over.candidates[i])))
  }

  predicate SpellsOver(j: Json, over: Over) {
    match over
    case Referred(path) => j == Obj([Field("$input", path)])
    case Listed(cs) => j.Arr? && |j.items| == |cs| && forall i :: 0 <= i < |cs| ==> j.items[i] == WrittenCandidate(cs[i])
  }

  /** A derive entry spells a source: its keys in any order, the arguments left out when there are none. */
  ghost predicate SpellsDerivation(keys: seq<Field>, s: Derivation) {
    && (forall i :: 0 <= i < |keys| ==> keys[i].key in {"fn", "args", "over", "project"})
    && IsField(Obj(keys), "fn", Str(s.fn))
    && ((s.args == [] && NoField(keys, "args")) || exists items :: IsField(Obj(keys), "args", Arr(items)) && SpellsAll(items, s.args))
    && match s.folding
       case None => NoField(keys, "over") && NoField(keys, "project")
       case Some(f) =>
         IsField(Obj(keys), "project", Str(f.project)) && exists over :: IsField(Obj(keys), "over", over) && SpellsOver(over, f.over)
  }

  lemma OverAccepted(j: Json, over: Over)
    requires SpellsOver(j, over)
    requires over.Listed? ==> forall i :: 0 <= i < |over.candidates| ==> WellFormedCandidate(over.candidates[i])
    ensures ValidOver(j)
  {
    if over.Listed? {
      forall i | 0 <= i < |j.items|
        ensures ValidCandidate(j.items[i])
      {
        CandidateAccepted(over.candidates[i]);
      }
    }
  }

  lemma OverReadBack(j: Json) returns (over: Over)
    requires ValidOver(j)
    ensures SpellsOver(j, over)
    ensures over.Listed? ==> forall i :: 0 <= i < |over.candidates| ==> WellFormedCandidate(over.candidates[i])
  {
    if j.Arr? {
      var cs := CandidatesReadBack(j.items);
      over := Listed(cs);
    } else {
      over := Referred(j.fields[0].value);
      assert j.fields == [Field("$input", j.fields[0].value)];
    }
  }

  /** The parts of a spelled source, as the check looks them up. */
  lemma DerivationParts(keys: seq<Field>, s: Derivation) returns (items: seq<Json>, over: Json)
    requires SpellsDerivation(keys, s)
    ensures OnlyKeys(keys, SOURCE_KEYS)
    ensures Has(keys, "fn") && Get(keys, "fn") == Str(s.fn)
    ensures ArgsOf(keys) == Arr(items) && SpellsAll(items, s.args)
    ensures Has(keys, "over") == Has(keys, "project") == s.folding.Some?
    ensures s.folding.Some? ==>
      Get(keys, "project") == Str(s.folding.value.project) && Get(keys, "over") == over && SpellsOver(over, s.folding.value.over)
  {
    hide Spells, IsField, WrittenCandidate;
    FieldIs(Obj(keys), "fn", Str(s.fn));
    NoFieldIs(keys, "args");
    NoFieldIs(keys, "over");
    NoFieldIs(keys, "project");
    if s.args == [] && NoField(keys, "args") {
      items := [];
    } else {
      items :| IsField(Obj(keys), "args", Arr(items)) && SpellsAll(items, s.args);
      FieldIs(Obj(keys), "args", Arr(items));
    }
    over := Null;
    if s.folding.Some? {
      over :| IsField(Obj(keys), "over", over) && SpellsOver(over, s.folding.value.over);
      FieldIs(Obj(keys), "over", over);
      FieldIs(Obj(keys), "project", Str(s.folding.value.project));
    }
  }

  lemma DerivationAccepted(keys: seq<Field>, s: Derivation, declared: set<string>)
    requires SpellsDerivation(keys, s) && WellFormedDerivation(s, declared)
    ensures ValidDerive(keys, declared)
  {
    var items, over := DerivationParts(keys, s);
    hide Spells, WellFormed, ValidArg, SpellsDerivation, IsField, Signature, ValidPrimitiveShape, ValidOver, SpellsOver, WellFormedCandidate, Has, Get, OnlyKeys;
    SignatureIs(s.fn, items, s.args, declared, s.folding.Some?);
    forall i | 0 <= i < |items|
      ensures ValidArg(items[i], declared, s.folding.Some?, false)
    {
      SpelledAccepted(items[i], s.args[i], declared, s.folding.Some?, false);
    }
    if s.folding.Some? {
      OverAccepted(over, s.folding.value.over);
    }
  }

  lemma DerivationReadBack(keys: seq<Field>, declared: set<string>) returns (s: Derivation)
    requires ValidDerive(keys, declared)
    ensures SpellsDerivation(keys, s) && WellFormedDerivation(s, declared)
  {
    hide Spells, WellFormed, ValidArg, IsField, Signature, ValidPrimitiveShape, ValidOver, SpellsOver, WellFormedCandidate;
    var fn, items, folded := Get(keys, "fn").s, ArgsOf(keys).items, Has(keys, "over");
    FieldIs(Obj(keys), "fn", Str(fn));
    NoFieldIs(keys, "args");
    NoFieldIs(keys, "over");
    NoFieldIs(keys, "project");
    var args := ReadBackAll(items, declared, folded, false);
    SignatureIs(fn, items, args, declared, folded);
    if Has(keys, "args") {
      FieldIs(Obj(keys), "args", Arr(items));
    }
    var folding := None;
    if folded {
      var over := OverReadBack(Get(keys, "over"));
      FieldIs(Obj(keys), "over", Get(keys, "over"));
      FieldIs(Obj(keys), "project", Get(keys, "project"));
      folding := Some(Folding(over, Get(keys, "project").s));
    }
    s := Derivation(fn, args, folding);
  }

  /** A derive entry is accepted exactly when it spells a well-formed source. */
  lemma DerivationAcceptedExactly(keys: seq<Field>, declared: set<string>)
    ensures ValidDerive(keys, declared) <==> exists s :: SpellsDerivation(keys, s) && WellFormedDerivation(s, declared)
  {
    hide ValidDerive, SpellsDerivation, WellFormedDerivation;
    if ValidDerive(keys, declared) {
      var s := DerivationReadBack(keys, declared);
    }
    if s :| SpellsDerivation(keys, s) && WellFormedDerivation(s, declared) {
      DerivationAccepted(keys, s, declared);
    }
  }

  /** Which primitives may stand where: a verifier only over candidates, a key only inside an application. */
  lemma PlacesExactly(fn: string, folded: bool)
    requires fn != "concat" && fn != "format_int"
    ensures WellFormedDerivation(Derivation(fn, [], None), {fn}) <==>
      fn !in {"", "verify_eddsa", "verify_es256", "verify_rs256", "verify_ed25519_raw", "verify_webauthn", "key_from_did_key"}
    ensures WellFormedDerivation(Derivation(fn, [], Some(Folding(Listed([]), "k"))), {fn}) <==> fn !in {"", "key_from_did_key"}
    ensures WellFormed(Application(fn, []), {fn}, folded) <==>
      fn !in {"", "verify_eddsa", "verify_es256", "verify_rs256", "verify_ed25519_raw", "verify_webauthn"}
  {
  }

  // ---- Whole plans ----

  /** The primitives a term applies. */
  function Applied(t: Term): set<string>
    decreases t, 0
  {
    match t
    case ListOf(elements) => AppliedAll(elements)
    case Application(fn, args) => {fn} + AppliedAll(args)
    case _ => {}
  }

  function AppliedAll(terms: seq<Term>): (r: set<string>)
    ensures forall n :: n in r <==> exists i :: 0 <= i < |terms| && n in Applied(terms[i])
    decreases terms, 1
  {
    set i, n | 0 <= i < |terms| && n in Applied(terms[i]) :: n
  }

  lemma {:induction false} AppliedIs(arg: Json, t: Term, declared: set<string>, folded: bool)
    requires Spells(arg, t) && WellFormed(t, declared, folded)
    ensures AppliedIn(arg) == Applied(t)
    decreases t
  {
    SpelledKind(arg, t, declared, folded);
    match t
    case Constant(v) =>
      if v.Obj? {
        MarkersDiffer();
        Unmarked(v.fields, APPLY);
      }
    case InputAt(_) => MarkersDiffer(); OnlyKey(arg.fields, APPLY);
    case ItemAt(_) => MarkersDiffer(); OnlyKey(arg.fields, APPLY);
    case ListOf(elements) => AppliedAllIs(arg.items, elements, declared, folded);
    case Application(fn, args) =>
      OnlyKey(arg.fields, APPLY);
      var items := ApplicationParts(arg.fields[0].value, fn, args, declared, folded);
      AppliedAllIs(items, args, declared, folded);
  }

  lemma {:induction false} AppliedAllIs(items: seq<Json>, terms: seq<Term>, declared: set<string>, folded: bool)
    requires SpellsAll(items, terms) && forall i :: 0 <= i < |terms| ==> WellFormed(terms[i], declared, folded)
    ensures AppliedInList(items) == AppliedAll(terms)
    decreases terms
  {
    hide Spells, WellFormed, AppliedIn, Applied;
    if terms != [] {
      AppliedIs(items[0], terms[0], declared, folded);
      AppliedAllIs(items[1..], terms[1..], declared, folded);
      AppliedSplits(terms);
    }
  }

  lemma AppliedSplits(terms: seq<Term>)
    requires terms != []
    ensures AppliedAll(terms) == Applied(terms[0]) + AppliedAll(terms[1..])
  {
    hide Applied;
    var rest := terms[1..];
    forall n
      ensures n in AppliedAll(terms) <==> n in Applied(terms[0]) || n in AppliedAll(rest)
    {
      if i :| 0 <= i < |terms| && n in Applied(terms[i]) {
        assert i > 0 ==> terms[i] == rest[i - 1];
      }
      if i :| 0 <= i < |rest| && n in Applied(rest[i]) {
        assert terms[i + 1] == rest[i];
      }
    }
  }

  /** The primitives looked up for an entry are the one it names and those its arguments apply. */
  lemma ReferencedIs(keys: seq<Field>, s: Derivation, declared: set<string>)
    requires SpellsDerivation(keys, s) && WellFormedDerivation(s, declared)
    ensures ReferencedBy(Derive(keys)) == {s.fn} + AppliedAll(s.args)
  {
    var items, over := DerivationParts(keys, s);
    hide Spells, WellFormed, SpellsDerivation, IsField, Signature, Find, OnlyKeys;
    AppliedAllIs(items, s.args, declared, s.folding.Some?);
    if !Has(keys, "args") {
      assert items == [];
    }
  }

  /** The declaration block of a plan, and the names it declares. */
  ghost predicate Declares(block: Option<Json>, declared: set<string>) {
    && (block.None? || block.value.Null? || block.value.Obj? || (block.value.Arr? && forall j :: j in block.value.items ==> j.Str?))
    && forall n :: n in declared <==>
         || (block.Some? && block.value.Arr? && Str(n) in block.value.items)
         || (block.Some? && block.value.Obj? && exists i :: 0 <= i < |block.value.fields| && block.value.fields[i].key == n)
  }

  lemma DeclaredIs(block: Option<Json>, declared: set<string>)
    ensures Declared(block) == Some(declared) <==> Declares(block, declared)
  {
    if block.Some? && block.value.Arr? && forall j :: j in block.value.items ==> j.Str? {
      var items := block.value.items;
      var names := Declared(block).value;
      forall n
        ensures n in names <==> Str(n) in items
      {
        if Str(n) in items {
          assert Str(n).Str? && Str(n).s == n;
        }
      }
      assert Declares(block, declared) ==> declared == names;
    } else if block.Some? && block.value.Obj? {
      var names := Declared(block).value;
      assert forall n :: n in names <==> exists i :: 0 <= i < |block.value.fields| && block.value.fields[i].key == n;
      assert Declares(block, declared) ==> declared == names;
    } else if Declares(block, declared) {
      assert declared == {};
    }
  }

  /** The entry is not derived, or spells a well-formed source over available primitives. */
  ghost predicate GoodEntry(e: Entry, declared: set<string>, available: set<string>) {
    e.source.Derive? ==>
      exists s :: SpellsDerivation(e.source.keys, s) && WellFormedDerivation(s, declared) && {s.fn} + AppliedAll(s.args) <= available
  }

  /** The load-time check, exactly: no field twice, a readable declaration block, and every derive entry
      spells a well-formed source whose primitives are all available. */
  lemma PlanAcceptedExactly(plan: Plan, available: set<string>)
    ensures Accepts(plan, available) <==>
      && (forall i, j :: 0 <= i < j < |plan.entries| ==> plan.entries[i].field != plan.entries[j].field)
      && exists declared :: Declares(plan.primitives, declared)
           && forall i :: 0 <= i < |plan.entries| ==> GoodEntry(plan.entries[i], declared, available)
  {
    hide ValidDerive, Declares, ReferencedBy, GoodEntry;
    if Declared(plan.primitives).Some? {
      var declared := Declared(plan.primitives).value;
      DeclaredIs(plan.primitives, declared);
      EntriesGood(plan.entries, declared, available);
    }
    if declared :| Declares(plan.primitives, declared)
                   && forall i :: 0 <= i < |plan.entries| ==> GoodEntry(plan.entries[i], declared, available) {
      DeclaredIs(plan.primitives, declared);
    }
  }

  lemma EntriesGood(entries: seq<Entry>, declared: set<string>, available: set<string>)
    ensures (forall i :: 0 <= i < |entries| ==> GoodEntry(entries[i], declared, available)) <==>
      && (forall e :: e in entries && e.source.Derive? ==> ValidDerive(e.source.keys, declared))
      && Referenced(entries) <= available
  {
    hide ValidDerive, ReferencedBy, GoodEntry;
    ReferencedAll(entries);
    NothingFetched(entries);
    forall i | 0 <= i < |entries|
      ensures GoodEntry(entries[i], declared, available) <==>
        (entries[i].source.Derive? ==> ValidDerive(entries[i].source.keys, declared) && ReferencedBy(entries[i].source) <= available)
    {
      GoodIs(entries[i], declared, available);
    }
  }

  lemma NothingFetched(entries: seq<Entry>)
    ensures forall i :: 0 <= i < |entries| && entries[i].source.Fetch? ==> ReferencedBy(entries[i].source) == {}
  {
  }

  lemma GoodIs(e: Entry, declared: set<string>, available: set<string>)
    ensures GoodEntry(e, declared, available) <==>
      (e.source.Derive? ==> ValidDerive(e.source.keys, declared) && ReferencedBy(e.source) <= available)
  {
    if e.source.Derive? {
      var keys := e.source.keys;
      assert e.source == Derive(keys);
      hide SpellsDerivation, WellFormedDerivation, ValidDerive, ReferencedBy, AppliedAll;
      if ValidDerive(keys, declared) {
        var s := DerivationReadBack(keys, declared);
        ReferencedIs(keys, s, declared);
      }
      if s :| SpellsDerivation(keys, s) && WellFormedDerivation(s, declared) && {s.fn} + AppliedAll(s.args) <= available {
        DerivationAccepted(keys, s, declared);
        ReferencedIs(keys, s, declared);
      }
    }
  }

  lemma {:induction false} ReferencedAll(entries: seq<Entry>)
    ensures forall n :: n in Referenced(entries) <==> exists i :: 0 <= i < |entries| && n in ReferencedBy(entries[i].source)
  {
    hide ReferencedBy;
    if entries != [] {
      var rest := entries[1..];
      ReferencedAll(rest);
      forall n
        ensures n in Referenced(entries) <==> exists i :: 0 <= i < |entries| && n in ReferencedBy(entries[i].source)
      {
        if i :| 0 <= i < |rest| && n in ReferencedBy(rest[i].source) {
          assert entries[i + 1] == rest[i];
        }
        if i :| 0 <= i < |entries| && n in ReferencedBy(entries[i].source) {
          assert i > 0 ==> rest[i - 1] == entries[i];
        }
      }
    }
  }
}
