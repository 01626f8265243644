/** What a derive entry means, term by term, and that the two phases of the code, resolving references
    first and evaluating afterwards, compute just that. */
module DeriveMeaning {
  import opened Prelude
  import opened Json
  import opened JsonPaths
  import opened DerivePlan
  import opened DeriveEval
  import opened DeriveGrammar
  import DeriveSoundness

  // ---- Terms ----

  /** Some input path of the term leads nowhere yet. */
  predicate Waits(t: Term, doc: Doc)
    decreases t
  {
    match t
    case InputAt(path) => NavigateDoc(doc, path).None?
    case ListOf(elements) => exists i :: 0 <= i < |elements| && Waits(elements[i], doc)
    case Application(_, args) => exists i :: 0 <= i < |args| && Waits(args[i], doc)
    case _ => false
  }

  predicate AnyWaits(terms: seq<Term>, doc: Doc) {
    exists i :: 0 <= i < |terms| && Waits(terms[i], doc)
  }

  /** What a primitive's answer is worth as a value: None reads as undefined. */
  function AnswerOf(voc: Vocabulary, fn: string, vs: seq<Json>): Res<Json> {
    match voc.call(fn, vs)
    case Raised => Fails(PrimitiveRaised)
    case Returned(Null) => Undefined
    case Returned(v) => Ok(v)
  }

  /** What a term that waits for nothing is worth for a candidate. */
  ghost function Meaning(voc: Vocabulary, t: Term, doc: Doc, item: Json): Res<Json>
    decreases t, 0
  {
    match t
    case Constant(v) => Ok(v)
    case InputAt(path) => if NavigateDoc(doc, path).Some? then Ok(NavigateDoc(doc, path).value) else Undefined
    case ItemAt(path) =>
      if item.Null? then Fails(BadShape(ItemOutsideFold))
      else if path == "" then Ok(item)
      else if Navigate(item, path).Some? then Ok(Navigate(item, path).value)
      else Fails(CandidateField)
    case ListOf(elements) =>
      var vs :- Meanings(voc, elements, doc, item);
      Ok(Arr(vs))
    case Application(fn, args) =>
      if fn !in voc.names then Fails(BadShape(UnknownPrimitive))
      else
        var vs :- Meanings(voc, args, doc, item);
        AnswerOf(voc, fn, vs)
  }

  /** Term n has no value, and every term before it has one. */
  ghost predicate FirstWithout(voc: Vocabulary, terms: seq<Term>, doc: Doc, item: Json, n: int)
    decreases terms, 1
  {
    0 <= n < |terms| && !Meaning(voc, terms[n], doc, item).Ok? && forall i :: 0 <= i < n ==> Meaning(voc, terms[i], doc, item).Ok?
  }

  /** The value of each term at its own place, or what the first one without a value comes to. */
  ghost function Meanings(voc: Vocabulary, terms: seq<Term>, doc: Doc, item: Json): (r: Res<seq<Json>>)
    ensures r.Ok? ==> |r.value| == |terms| && forall i :: 0 <= i < |terms| ==> Meaning(voc, terms[i], doc, item) == Ok(r.value[i])
    decreases terms, 3
  {
    if n :| FirstWithout(voc, terms, doc, item, n) then Meaning(voc, terms[n], doc, item).PropagateFailure()
    else
      AllHaveValues(voc, terms, doc, item, |terms|);
      Ok(seq(|terms|, i requires 0 <= i < |terms| && Meaning(voc, terms[i], doc, item).Ok? => Meaning(voc, terms[i], doc, item).value))
  }

  lemma {:induction false} AllHaveValues(voc: Vocabulary, terms: seq<Term>, doc: Doc, item: Json, n: nat)
    requires n <= |terms| && !exists i :: FirstWithout(voc, terms, doc, item, i)
    ensures forall i :: 0 <= i < n ==> Meaning(voc, terms[i], doc, item).Ok?
    decreases terms, 2, n
  {
    if n > 0 {
      AllHaveValues(voc, terms, doc, item, n - 1);
      assert !FirstWithout(voc, terms, doc, item, n - 1);
    }
  }

  // ---- The two phases ----

  /** Resolved and evaluated, the spelled term is worth what it means, for every candidate. */
  ghost predicate Worth(r: Ready<Spec>, t: Term, doc: Doc) {
    && (r.NotYet? <==> Waits(t, doc)) && !r.Bad?
    && (r.Resolved? ==> forall voc, item :: EvalArg(voc, r.value, item) == Meaning(voc, t, doc, item))
  }

  ghost predicate WorthAll(r: Ready<seq<Spec>>, terms: seq<Term>, doc: Doc) {
    && (r.NotYet? <==> AnyWaits(terms, doc)) && !r.Bad?
    && (r.Resolved? ==> |r.value| == |terms| && forall voc, item :: EvalArgs(voc, r.value, item) == Meanings(voc, terms, doc, item))
  }

  lemma {:induction false} TermWorth(arg: Json, t: Term, declared: set<string>, folded: bool, doc: Doc)
    requires Spells(arg, t) && WellFormed(t, declared, folded)
    ensures Worth(ResolveArg(arg, doc), t, doc)
    decreases t
  {
    DeriveSoundness.MarkersDiffer();
    match t
    case Constant(v) =>
      if v.Obj? {
        UnsignedIs(v.fields);
        DeriveSoundness.Unmarked(v.fields, INPUT);
        DeriveSoundness.Unmarked(v.fields, ITEM);
        DeriveSoundness.Unmarked(v.fields, APPLY);
      }
    case InputAt(path) => DeriveSoundness.OnlyKey(arg.fields, INPUT);
    case ItemAt(path) =>
      DeriveSoundness.OnlyKey(arg.fields, INPUT);
      DeriveSoundness.OnlyKey(arg.fields, ITEM);
    case ListOf(elements) => TermsWorth(arg.items, elements, declared, folded, doc);
    case Application(fn, args) =>
      DeriveSoundness.OnlyKey(arg.fields, INPUT);
      DeriveSoundness.OnlyKey(arg.fields, ITEM);
      DeriveSoundness.OnlyKey(arg.fields, APPLY);
      var inner := arg.fields[0].value;
      var items := ApplicationParts(inner, fn, args, declared, folded);
      TermsWorth(items, args, declared, folded, doc);
      ApplicationWorth(inner, fn, items, args, doc);
  }

  lemma ApplicationWorth(inner: Json, fn: string, items: seq<Json>, args: seq<Term>, doc: Doc)
    requires inner.Obj? && Has(inner.fields, "fn") && Get(inner.fields, "fn") == Str(fn) && ArgsOf(inner.fields) == Arr(items)
    requires fn !in KEY_CONSUMING && WorthAll(ResolveArgs(items, doc), args, doc)
    ensures Worth(ResolveApply(inner, doc), Application(fn, args), doc)
  {
    hide Has, Get, Meanings;
    assert Waits(Application(fn, args), doc) <==> AnyWaits(args, doc);
    var r := ResolveArgs(items, doc);
    if !Has(inner.fields, "args") {
      assert r == Resolved([]);
    }
    if r.Resolved? {
      assert ResolveApply(inner, doc) == Resolved(Apply(fn, r.value));
      forall voc, item
        ensures EvalArg(voc, Apply(fn, r.value), item) == Meaning(voc, Application(fn, args), doc, item)
      {
        assert EvalArgs(voc, r.value, item) == Meanings(voc, args, doc, item);
      }
    }
  }

  lemma {:induction false} TermsWorth(items: seq<Json>, terms: seq<Term>, declared: set<string>, folded: bool, doc: Doc)
    requires SpellsAll(items, terms) && forall i :: 0 <= i < |terms| ==> WellFormed(terms[i], declared, folded)
    ensures WorthAll(ResolveArgs(items, doc), terms, doc)
    decreases terms
  {
    hide Spells, WellFormed, Waits, ResolveArg, EvalArg, Meaning;
    hide Meanings;
    if terms == [] {
      forall voc, item
        ensures EvalArgs(voc, [], item) == Meanings(voc, terms, doc, item)
      {
        NoMeanings(voc, doc, item);
      }
    } else {
      TermWorth(items[0], terms[0], declared, folded, doc);
      TermsWorth(items[1..], terms[1..], declared, folded, doc);
      WaitsSplits(terms, doc);
      FirstWorth(ResolveArg(items[0], doc), ResolveArgs(items[1..], doc), terms, doc);
    }
  }

  lemma FirstWorth(r: Ready<Spec>, rest: Ready<seq<Spec>>, terms: seq<Term>, doc: Doc)
    requires terms != [] && Worth(r, terms[0], doc) && WorthAll(rest, terms[1..], doc)
    ensures r.Resolved? && rest.Resolved? ==>
      |rest.value| == |terms| - 1 && forall voc, item :: EvalArgs(voc, [r.value] + rest.value, item) == Meanings(voc, terms, doc, item)
  {
    hide Waits, EvalArg, Meaning, Meanings;
    if r.Resolved? && rest.Resolved? {
      var specs := [r.value] + rest.value;
      assert specs[1..] == rest.value;
      forall voc, item
        ensures EvalArgs(voc, specs, item) == Meanings(voc, terms, doc, item)
      {
        MeaningsSplit(voc, terms, doc, item);
      }
    }
  }

  lemma WaitsSplits(terms: seq<Term>, doc: Doc)
    requires terms != []
    ensures AnyWaits(terms, doc) <==> Waits(terms[0], doc) || AnyWaits(terms[1..], doc)
  {
    hide Waits;
    var rest := terms[1..];
    if i :| 0 <= i < |terms| && Waits(terms[i], doc) {
      assert i > 0 ==> rest[i - 1] == terms[i];
    }
    if i :| 0 <= i < |rest| && Waits(rest[i], doc) {
      assert terms[i + 1] == rest[i];
    }
  }

  lemma MeaningsFail(voc: Vocabulary, terms: seq<Term>, doc: Doc, item: Json, n: int)
    requires FirstWithout(voc, terms, doc, item, n)
    ensures Meanings(voc, terms, doc, item) == Meaning(voc, terms[n], doc, item).PropagateFailure()
  {
    hide Meaning;
    forall m | FirstWithout(voc, terms, doc, item, m)
      ensures m == n
    {
    }
  }

  lemma MeaningsHold(voc: Vocabulary, terms: seq<Term>, doc: Doc, item: Json)
    requires !exists n :: FirstWithout(voc, terms, doc, item, n)
    ensures Meanings(voc, terms, doc, item).Ok?
  {
    hide Meaning;
  }

  /** The values of a list, term by term. */
  lemma MeaningsSplit(voc: Vocabulary, terms: seq<Term>, doc: Doc, item: Json)
    requires terms != []
    ensures Meanings(voc, terms, doc, item) ==
      var first := Meaning(voc, terms[0], doc, item);
      var rest := Meanings(voc, terms[1..], doc, item);
      if !first.Ok? then first.PropagateFailure()
      else if !rest.Ok? then rest.PropagateFailure()
      else Ok([first.value] + rest.value)
  {
    hide Meaning, Meanings, FirstWithout;
    var rest := terms[1..];
    if !Meaning(voc, terms[0], doc, item).Ok? {
      FailsFirst(voc, terms, doc, item);
    } else if n :| FirstWithout(voc, rest, doc, item, n) {
      FailsLater(voc, terms, doc, item, n);
    } else {
      NoneFails(voc, terms, doc, item);
    }
  }

  lemma FailsFirst(voc: Vocabulary, terms: seq<Term>, doc: Doc, item: Json)
    requires terms != [] && !Meaning(voc, terms[0], doc, item).Ok?
    ensures Meanings(voc, terms, doc, item) == Meaning(voc, terms[0], doc, item).PropagateFailure()
  {
    hide Meaning, Meanings;
    assert FirstWithout(voc, terms, doc, item, 0);
    MeaningsFail(voc, terms, doc, item, 0);
  }

  lemma FailsLater(voc: Vocabulary, terms: seq<Term>, doc: Doc, item: Json, n: int)
    requires terms != [] && Meaning(voc, terms[0], doc, item).Ok? && FirstWithout(voc, terms[1..], doc, item, n)
    ensures !Meanings(voc, terms[1..], doc, item).Ok?
    ensures Meanings(voc, terms, doc, item) == Meanings(voc, terms[1..], doc, item).PropagateFailure()
  {
    hide Meaning, Meanings;
    assert terms[1..][n] == terms[n + 1];
    forall i | 0 < i <= n
      ensures Meaning(voc, terms[i], doc, item).Ok?
    {
      assert terms[1..][i - 1] == terms[i];
    }
    assert FirstWithout(voc, terms, doc, item, n + 1);
    MeaningsFail(voc, terms[1..], doc, item, n);
    MeaningsFail(voc, terms, doc, item, n + 1);
  }

  lemma NoneFails(voc: Vocabulary, terms: seq<Term>, doc: Doc, item: Json)
    requires terms != [] && Meaning(voc, terms[0], doc, item).Ok? && !exists n :: FirstWithout(voc, terms[1..], doc, item, n)
    ensures Meanings(voc, terms[1..], doc, item).Ok?
    ensures Meanings(voc, terms, doc, item) == Ok([Meaning(voc, terms[0], doc, item).value] + Meanings(voc, terms[1..], doc, item).value)
  {
    hide Meaning, Meanings;
    var rest := terms[1..];
    MeaningsHold(voc, rest, doc, item);
    var values := Meanings(voc, rest, doc, item).value;
    forall i | 0 <= i < |terms|
      ensures Meaning(voc, terms[i], doc, item) == Ok(([Meaning(voc, terms[0], doc, item).value] + values)[i])
    {
      if i > 0 {
        assert terms[i] == rest[i - 1];
      }
    }
    forall n
      ensures !FirstWithout(voc, terms, doc, item, n)
    {
    }
    MeaningsHold(voc, terms, doc, item);
    assert Meanings(voc, terms, doc, item).value == [Meaning(voc, terms[0], doc, item).value] + values;
  }

  lemma NoMeanings(voc: Vocabulary, doc: Doc, item: Json)
    ensures Meanings(voc, [], doc, item) == Ok([])
  {
    MeaningsHold(voc, [], doc, item);
  }

  // ---- Literal candidates ----

  predicate CandidateWaits(c: Candidate, doc: Doc)
    decreases c
  {
    match c
    case Scalar(_) => false
    case InputHere(path) => NavigateDoc(doc, path).None?
    case Elements(elements) => exists i :: 0 <= i < |elements| && CandidateWaits(elements[i], doc)
    case Record(parts) => exists i :: 0 <= i < |parts| && CandidateWaits(parts[i].candidate, doc)
  }

  /** The candidate with each input path replaced by what it names. */
  function Filled(c: Candidate, doc: Doc): Json
    requires !CandidateWaits(c, doc)
    decreases c
  {
    match c
    case Scalar(v) => v
    case InputHere(path) => NavigateDoc(doc, path).value
    case Elements(elements) =>
      Arr(seq(|elements|, i requires 0 <= i < |elements| && !CandidateWaits(elements[i], doc) => Filled(elements[i], doc)))
    case Record(parts) =>
      Obj(seq(|parts|, i requires 0 <= i < |parts| && !CandidateWaits(parts[i].candidate, doc) =>
                Field(parts[i].key, Filled(parts[i].candidate, doc))))
  }

  ghost predicate FilledIn(r: Ready<Json>, c: Candidate, doc: Doc) {
    if CandidateWaits(c, doc) then r == NotYet else r == Resolved(Filled(c, doc))
  }

  lemma {:induction false} CandidateFilled(c: Candidate, doc: Doc)
    requires WellFormedCandidate(c)
    ensures FilledIn(ResolveCandidate(WrittenCandidate(c), doc), c, doc)
    decreases c
  {
    match c
    case Scalar(_) =>
    case InputHere(path) => DeriveSoundness.OnlyKey([Field(INPUT, Str(path))], INPUT);
    case Elements(elements) =>
      var nodes := WrittenCandidate(c).items;
      forall i | 0 <= i < |elements|
        ensures FilledIn(ResolveCandidate(nodes[i], doc), elements[i], doc)
      {
        CandidateFilled(elements[i], doc);
      }
      ElementsFilled(nodes, elements, doc);
      if !CandidateWaits(c, doc) {
        assert ResolveCandidates(nodes, doc).value == Filled(c, doc).items;
      }
    case Record(parts) =>
      var written := WrittenCandidate(c).fields;
      UnsignedIs(written);
      DeriveSoundness.MarkersDiffer();
      DeriveSoundness.Unmarked(written, INPUT);
      forall i | 0 <= i < |parts|
        ensures FilledIn(ResolveCandidate(written[i].value, doc), parts[i].candidate, doc)
      {
        CandidateFilled(parts[i].candidate, doc);
      }
      PartsFilled(written, parts, doc);
      if !CandidateWaits(c, doc) {
        assert ResolveFields(written, doc).value == Filled(c, doc).fields;
      }
  }

  ghost predicate AllFilled(r: Ready<seq<Json>>, cs: seq<Candidate>, doc: Doc) {
    if exists i :: 0 <= i < |cs| && CandidateWaits(cs[i], doc) then r == NotYet
    else r.Resolved? && |r.value| == |cs| && forall i :: 0 <= i < |cs| ==> r.value[i] == Filled(cs[i], doc)
  }

  lemma {:induction false} ElementsFilled(nodes: seq<Json>, cs: seq<Candidate>, doc: Doc)
    requires |nodes| == |cs| && forall i :: 0 <= i < |cs| ==> FilledIn(ResolveCandidate(nodes[i], doc), cs[i], doc)
    ensures AllFilled(ResolveCandidates(nodes, doc), cs, doc)
    decreases cs
  {
    hide FilledIn, ResolveCandidate, AllFilled;
    if cs == [] {
      FilledNone(doc);
    } else {
      ElementsFilled(nodes[1..], cs[1..], doc);
      FilledNext(ResolveCandidate(nodes[0], doc), ResolveCandidates(nodes[1..], doc), cs, doc);
    }
  }

  lemma FilledNone(doc: Doc)
    ensures AllFilled(Resolved([]), [], doc)
  {
  }

  lemma FilledNext(r: Ready<Json>, rest: Ready<seq<Json>>, cs: seq<Candidate>, doc: Doc)
    requires cs != [] && FilledIn(r, cs[0], doc) && AllFilled(rest, cs[1..], doc)
    ensures AllFilled(if !r.Resolved? then NotYet else if !rest.Resolved? then NotYet else Resolved([r.value] + rest.value), cs, doc)
    ensures !r.Bad? && !rest.Bad?
  {
    hide CandidateWaits, Filled;
    var tail := cs[1..];
    assert forall i :: 0 <= i < |tail| ==> tail[i] == cs[i + 1];
    if i :| 0 <= i < |cs| && CandidateWaits(cs[i], doc) {
      assert i > 0 ==> tail[i - 1] == cs[i];
    }
  }

  function Candidates(parts: seq<Part>): (cs: seq<Candidate>)
    ensures |cs| == |parts| && forall i :: 0 <= i < |parts| ==> cs[i] == parts[i].candidate
  {
    seq(|parts|, i requires 0 <= i < |parts| => parts[i].candidate)
  }

  function Values(fields: seq<Field>): (vs: seq<Json>)
    ensures |vs| == |fields| && forall i :: 0 <= i < |fields| ==> vs[i] == fields[i].value
  {
    seq(|fields|, i requires 0 <= i < |fields| => fields[i].value)
  }

  /** The fields resolve as their values do, each under its own key. */
  ghost predicate AsValues(r: Ready<seq<Field>>, fields: seq<Field>, vs: Ready<seq<Json>>) {
    if vs.Resolved? then
      && r.Resolved? && |r.value| == |fields| == |vs.value|
      && forall i :: 0 <= i < |fields| ==> r.value[i] == Field(fields[i].key, vs.value[i])
    else r == vs.PropagateFailure()
  }

  lemma {:induction false} FieldsAsValues(fields: seq<Field>, doc: Doc)
    ensures AsValues(ResolveFields(fields, doc), fields, ResolveCandidates(Values(fields), doc))
    decreases fields
  {
    hide ResolveCandidate, AsValues;
    if fields == [] {
      NoneAsValues();
    } else {
      FieldsAsValues(fields[1..], doc);
      assert Values(fields)[0] == fields[0].value && Values(fields)[1..] == Values(fields[1..]);
      NextAsValues(ResolveCandidate(fields[0].value, doc), ResolveFields(fields[1..], doc), fields, ResolveCandidates(Values(fields[1..]), doc));
    }
  }

  lemma NoneAsValues()
    ensures AsValues(Resolved([]), [], Resolved([]))
  {
  }

  lemma NextAsValues(r: Ready<Json>, rest: Ready<seq<Field>>, fields: seq<Field>, vs: Ready<seq<Json>>)
    requires fields != [] && AsValues(rest, fields[1..], vs)
    ensures AsValues(if !r.Resolved? then r.PropagateFailure() else if !rest.Resolved? then rest.PropagateFailure()
                     else Resolved([Field(fields[0].key, r.value)] + rest.value),
                     fields,
                     if !r.Resolved? then r.PropagateFailure() else if !vs.Resolved? then vs.PropagateFailure()
                     else Resolved([r.value] + vs.value))
  {
    var tail := fields[1..];
    if r.Resolved? && vs.Resolved? {
      var fs, ws := [Field(fields[0].key, r.value)] + rest.value, [r.value] + vs.value;
      forall i | 0 <= i < |fields|
        ensures fs[i] == Field(fields[i].key, ws[i])
      {
        if i > 0 {
          assert fields[i] == tail[i - 1] && fs[i] == rest.value[i - 1] && ws[i] == vs.value[i - 1];
        }
      }
    }
  }

  lemma PartsFilled(written: seq<Field>, parts: seq<Part>, doc: Doc)
    requires |written| == |parts| && forall i :: 0 <= i < |parts| ==>
      written[i].key == parts[i].key && FilledIn(ResolveCandidate(written[i].value, doc), parts[i].candidate, doc)
    ensures var r := ResolveFields(written, doc);
      if exists i :: 0 <= i < |parts| && CandidateWaits(parts[i].candidate, doc) then r == NotYet
      else r.Resolved? && |r.value| == |parts| && forall i :: 0 <= i < |parts| ==> r.value[i] == Field(parts[i].key, Filled(parts[i].candidate, doc))
  {
    hide FilledIn, ResolveCandidate, CandidateWaits, Filled;
    var cs := Candidates(parts);
    FieldsAsValues(written, doc);
    ElementsFilled(Values(written), cs, doc);
    assert forall i :: 0 <= i < |parts| ==> cs[i] == parts[i].candidate;
  }

  // ---- Folds ----

  /** What one candidate contributes: nothing if its arguments are undefined or the primitive does not
      answer True, else the field it is projected on. */
  ghost function Contribution(voc: Vocabulary, fn: string, args: seq<Term>, project: string, doc: Doc, item: Json): Res<Option<Json>> {
    match Meanings(voc, args, doc, item)
    case Undefined => Ok(None)
    case Fails(f) => Fails(f)
    case Ok(vs) =>
      match voc.call(fn, vs)
      case Raised => Fails(PrimitiveRaised)
      case Returned(Bool(true)) =>
        if project == "" then Ok(Some(item))
        else if Navigate(item, project).Some? then Ok(Some(Navigate(item, project).value))
        else Fails(CandidateField)
      case Returned(_) => Ok(None)
  }

  function Somes(xs: seq<Option<Json>>): seq<Json> {
    if xs == [] then []
    else
      var last := xs[|xs| - 1];
      Somes(xs[..|xs| - 1]) + if last.Some? then [last.value] else []
  }

  lemma SomesSnoc(xs: seq<Option<Json>>, x: Option<Json>)
    ensures Somes(xs + [x]) == Somes(xs) + if x.Some? then [x.value] else []
  {
    assert (xs + [x])[..|xs|] == xs;
  }

  /** The fold over these contributions: all there are, in order, or the first fault. */
  ghost predicate Gathers(r: Res<seq<Json>>, cs: seq<Res<Option<Json>>>) {
    match r
    case Ok(ws) =>
      && (forall i :: 0 <= i < |cs| ==> cs[i].Ok?)
      && ws == Somes(seq(|cs|, i requires 0 <= i < |cs| && cs[i].Ok? => cs[i].value))
    case Undefined => false
    case Fails(f) => exists n :: 0 <= n < |cs| && cs[n] == Fails(f) && forall i :: 0 <= i < n ==> cs[i].Ok?
  }

  ghost function Contributions(voc: Vocabulary, fn: string, args: seq<Term>, project: string, doc: Doc, items: seq<Json>): (r: seq<Res<Option<Json>>>)
    ensures |r| == |items| && forall i :: 0 <= i < |items| ==> r[i] == Contribution(voc, fn, args, project, doc, items[i])
  {
    seq(|items|, i requires 0 <= i < |items| => Contribution(voc, fn, args, project, doc, items[i]))
  }

  lemma WitnessMeans(voc: Vocabulary, fn: string, specs: seq<Spec>, args: seq<Term>, project: string, doc: Doc, item: Json)
    requires WorthAll(Resolved(specs), args, doc)
    ensures Witness(voc, fn, specs, project, item) == Contribution(voc, fn, args, project, doc, item)
    ensures !Contribution(voc, fn, args, project, doc, item).Undefined?
  {
    hide Meanings;
    assert EvalArgs(voc, specs, item) == Meanings(voc, args, doc, item);
  }

  lemma GathersNext(r: Res<seq<Json>>, cs: seq<Res<Option<Json>>>, c: Res<Option<Json>>)
    requires Gathers(r, cs) && !c.Undefined?
    ensures Gathers(if r.Fails? then r else if c.Fails? then Fails(c.fault)
                    else Ok(if c.value.Some? then r.value + [c.value.value] else r.value), cs + [c])
  {
    var all := cs + [c];
    if r.Ok? && c.Ok? {
      var before := seq(|cs|, i requires 0 <= i < |cs| && cs[i].Ok? => cs[i].value);
      var after := seq(|all|, i requires 0 <= i < |all| && all[i].Ok? => all[i].value);
      assert after == before + [c.value];
      SomesSnoc(before, c.value);
    } else if r.Ok? {
      assert all[|cs|] == c;
    } else {
      var n :| 0 <= n < |cs| && cs[n] == Fails(r.fault) && forall i :: 0 <= i < n ==> cs[i].Ok?;
      assert all[n] == cs[n];
    }
  }

  lemma {:induction false} FoldGathers(voc: Vocabulary, fn: string, specs: seq<Spec>, args: seq<Term>, project: string, doc: Doc, items: seq<Json>)
    requires WorthAll(Resolved(specs), args, doc)
    ensures Gathers(FoldOver(voc, fn, specs, project, items), Contributions(voc, fn, args, project, doc, items))
    decreases |items|
  {
    hide WorthAll, Contribution, Witness;
    if items == [] {
      assert Contributions(voc, fn, args, project, doc, items) == [];
    } else {
      hide Gathers;
      var init, last := items[..|items| - 1], items[|items| - 1];
      FoldGathers(voc, fn, specs, args, project, doc, init);
      WitnessMeans(voc, fn, specs, args, project, doc, last);
      var cs, c := Contributions(voc, fn, args, project, doc, init), Contribution(voc, fn, args, project, doc, last);
      NeverUndefined(FoldOver(voc, fn, specs, project, init), cs);
      GathersNext(FoldOver(voc, fn, specs, project, init), cs, c);
      assert Contributions(voc, fn, args, project, doc, items) == cs + [c];
    }
  }

  lemma NeverUndefined(r: Res<seq<Json>>, cs: seq<Res<Option<Json>>>)
    requires Gathers(r, cs)
    ensures !r.Undefined?
  {
  }

  // ---- Derive entries ----

  /** The candidate list, or a path in it, is not there yet. */
  predicate OverWaits(over: Over, doc: Doc) {
    match over
    case Referred(path) => path.Str? && NavigateDoc(doc, path.s).None?
    case Listed(cs) => exists i :: 0 <= i < |cs| && CandidateWaits(cs[i], doc)
  }

  predicate Stray(s: Derivation) {
    s.folding.Some? && s.folding.value.over.Referred? && !s.folding.value.over.path.Str?
  }

  function OverValue(over: Over, doc: Doc): Json
    requires !OverWaits(over, doc) && (over.Referred? ==> over.path.Str?)
  {
    match over
    case Referred(path) => NavigateDoc(doc, path.s).value
    case Listed(cs) => Arr(seq(|cs|, i requires 0 <= i < |cs| && !CandidateWaits(cs[i], doc) => Filled(cs[i], doc)))
  }

  /** The result of a source that waits for nothing: one application, or a fold of it. */
  ghost predicate Computes(voc: Vocabulary, s: Derivation, doc: Doc, r: Res<Json>)
    requires !Stray(s) && (s.folding.Some? ==> !OverWaits(s.folding.value.over, doc))
  {
    if s.fn !in voc.names then r == Fails(BadShape(UnknownPrimitive))
    else
      match s.folding
      case None =>
        (match Meanings(voc, s.args, doc, Null)
         case Ok(vs) => r == AnswerOf(voc, s.fn, vs)
         case Undefined => r == Undefined
         case Fails(f) => r == Fails(f))
      case Some(folding) =>
        var over := OverValue(folding.over, doc);
        if !over.Arr? then r == Fails(OverNotAList)
        else
          var cs := Contributions(voc, s.fn, s.args, folding.project, doc, over.items);
          match r
          case Ok(v) => v.Arr? && Gathers(Ok(v.items), cs)
          case Undefined => false
          case Fails(f) => Gathers(Fails(f), cs)
  }

  /** What a derive entry does: it is left out while something it reads is not there, or where its result
      is undefined, or where it is optional and faults; otherwise it puts its result or aborts. */
  ghost predicate Does(voc: Vocabulary, s: Derivation, optional: bool, doc: Doc, effect: Effect) {
    if AnyWaits(s.args, doc) then effect == Omit
    else if Stray(s) then effect == Abort(BadShape(Malformed))
    else if s.folding.Some? && OverWaits(s.folding.value.over, doc) then effect == Omit
    else
      exists r :: Computes(voc, s, doc, r) && effect ==
        match r
        case Ok(v) => Put(v)
        case Undefined => Omit
        case Fails(f) => if optional then Omit else Abort(f)
  }

  lemma OverWorth(j: Json, over: Over, doc: Doc)
    requires SpellsOver(j, over)
    requires over.Listed? ==> forall i :: 0 <= i < |over.candidates| ==> WellFormedCandidate(over.candidates[i])
    ensures ResolveOver(j, doc) ==
      if over.Referred? && !over.path.Str? then Bad(Malformed)
      else if OverWaits(over, doc) then NotYet
      else Resolved(OverValue(over, doc))
  {
    match over
    case Referred(path) => DeriveSoundness.OnlyKey(j.fields, INPUT);
    case Listed(cs) =>
      hide WellFormedCandidate, WrittenCandidate, FilledIn, CandidateWaits, Filled;
      forall i | 0 <= i < |cs|
        ensures FilledIn(ResolveCandidate(j.items[i], doc), cs[i], doc)
      {
        CandidateFilled(cs[i], doc);
      }
      ElementsFilled(j.items, cs, doc);
      if !OverWaits(over, doc) {
        assert ResolveCandidates(j.items, doc).value == OverValue(over, doc).items;
      }
  }

  /** How a spelled source resolves. */
  lemma DerivationWorth(keys: seq<Field>, s: Derivation, declared: set<string>, doc: Doc)
    requires SpellsDerivation(keys, s) && WellFormedDerivation(s, declared)
    ensures var r := ResolveDerive(keys, doc);
      if AnyWaits(s.args, doc) then r == NotYet
      else if Stray(s) then r == Bad(Malformed)
      else if s.folding.Some? && OverWaits(s.folding.value.over, doc) then r == NotYet
      else
        && r.Resolved? && r.value.fn == s.fn && WorthAll(Resolved(r.value.args), s.args, doc)
        && r.value.fold == match s.folding { case None => None case Some(f) => Some(Fold(OverValue(f.over, doc), f.project)) }
  {
    var items, over := DerivationParts(keys, s);
    hide SpellsDerivation, Spells, WellFormed, WellFormedCandidate, Signature, SpellsOver, WorthAll, AnyWaits, OverWaits, OverValue, Has, Get, ResolveOver;
    TermsWorth(items, s.args, declared, s.folding.Some?, doc);
    ArgsReady(ResolveArgs(items, doc), s.args, doc);
    if s.folding.Some? {
      OverWorth(over, s.folding.value.over, doc);
    }
  }

  lemma ArgsReady(r: Ready<seq<Spec>>, args: seq<Term>, doc: Doc)
    requires WorthAll(r, args, doc)
    ensures if AnyWaits(args, doc) then r == NotYet else r.Resolved? && WorthAll(Resolved(r.value), args, doc)
  {
  }

  lemma CallComputes(voc: Vocabulary, s: Derivation, declared: set<string>, doc: Doc, call: Call)
    requires WellFormedDerivation(s, declared) && !Stray(s) && (s.folding.Some? ==> !OverWaits(s.folding.value.over, doc))
    requires call.fn == s.fn && WorthAll(Resolved(call.args), s.args, doc)
    requires call.fold == match s.folding { case None => None case Some(f) => Some(Fold(OverValue(f.over, doc), f.project)) }
    ensures Computes(voc, s, doc, EvalCall(voc, call))
  {
    hide WellFormed, WellFormedCandidate, Signature, OverWaits, OverValue, Contributions, Gathers, Meanings;
    match s.folding
    case None => assert EvalArgs(voc, call.args, Null) == Meanings(voc, s.args, doc, Null);
    case Some(f) =>
      hide WorthAll;
      var over := OverValue(f.over, doc);
      if over.Arr? {
        FoldGathers(voc, s.fn, call.args, s.args, f.project, doc, over.items);
        var r := FoldOver(voc, s.fn, call.args, f.project, over.items);
        NeverUndefined(r, Contributions(voc, s.fn, s.args, f.project, doc, over.items));
      }
  }

  /** The two phases of the code, over the entry as it is spelled, do what the entry means. */
  lemma EntryMeans(voc: Vocabulary, ctx: Context, field: string, keys: seq<Field>, optional: bool, s: Derivation, declared: set<string>, doc: Doc)
    requires SpellsDerivation(keys, s) && WellFormedDerivation(s, declared)
    ensures Does(voc, s, optional, doc, EntryEffect(voc, ctx, Entry(field, Derive(keys), optional), doc))
  {
    DerivationWorth(keys, s, declared, doc);
    hide SpellsDerivation, WellFormedDerivation, WorthAll, AnyWaits, OverWaits, OverValue, Computes, ResolveDerive, EvalCall;
    var r := ResolveDerive(keys, doc);
    if r.Resolved? {
      CallComputes(voc, s, declared, doc, r.value);
    }
  }

  // ---- Fetched entries ----

  /** The last parameter named `key`. */
  ghost predicate LastParam(params: seq<(string, Param)>, key: string, i: int) {
    0 <= i < |params| && params[i].0 == key && forall j :: i < j < |params| ==> params[j].0 != key
  }

  predicate ParamWaits(params: seq<(string, Param)>, doc: Doc) {
    exists i :: 0 <= i < |params| && params[i].1.Input? && NavigateDoc(doc, params[i].1.path).None?
  }

  predicate ParamGives(param: Param, doc: Doc, v: Json) {
    match param
    case Literal(w) => v == w
    case Input(path) => NavigateDoc(doc, path) == Some(v)
  }

  /** Parameters resolve when none of their paths waits, each to its literal or to what its path names. */
  lemma {:induction false} ParamsMean(params: seq<(string, Param)>, doc: Doc)
    ensures var r := ResolveParams(params, doc);
      && r == (if ParamWaits(params, doc) then NotYet else Resolved(if r.Resolved? then r.value else map[]))
      && (r.Resolved? ==> forall k :: k in r.value <==> exists i :: LastParam(params, k, i))
      && (r.Resolved? ==> forall k, i :: LastParam(params, k, i) ==> ParamGives(params[i].1, doc, r.value[k]))
    decreases |params|
  {
    if params != [] {
      var n := |params| - 1;
      var init := params[..n];
      ParamsMean(init, doc);
      if i :| 0 <= i < |params| && params[i].1.Input? && NavigateDoc(doc, params[i].1.path).None? {
        assert i < n ==> init[i] == params[i];
      }
      if i :| 0 <= i < |init| && init[i].1.Input? && NavigateDoc(doc, init[i].1.path).None? {
        assert params[i] == init[i];
      }
      assert LastParam(params, params[n].0, n);
      forall k, i | k != params[n].0
        ensures LastParam(params, k, i) <==> LastParam(init, k, i)
      {
      }
    }
  }

  /** What each kind of source gives: the call's own argument, the deployment's configuration, the clock, or
      the wallet's answer for the subject; without one the field is left out if it is optional. */
  lemma FetchMeans(voc: Vocabulary, ctx: Context, field: string, kind: Kind, params: seq<(string, Param)>, optional: bool, doc: Doc)
    ensures var effect := EntryEffect(voc, ctx, Entry(field, Fetch(kind, params), optional), doc);
      var missing := if optional then Omit else Abort(Unavailable);
      if kind.UnknownKind? then effect == Abort(NoResolver)
      else if ParamWaits(params, doc) then effect == Omit
      else
        match kind
        case CallKind => effect == if field in ctx.envelope then Put(ctx.envelope[field]) else missing
        case ConfigKind => effect == if field in ctx.config then Put(ctx.config[field]) else missing
        case ClockKind => effect == Put(Int(ctx.now))
        case WalletKind =>
          ResolveParams(params, doc).Resolved? &&
          var m := ResolveParams(params, doc).value;
          effect == if "subject" in m && m["subject"] != Null && ctx.wallet.Some? && ctx.wallet.value(m["subject"]) != Null
                    then Put(ctx.wallet.value(m["subject"])) else missing
        case UnknownKind(_) => true
  {
    ParamsMean(params, doc);
  }

  // ---- Paths in arguments ----

  /** An input argument, with its path's keys: it is worth exactly the value they lead to, and waits exactly
      while they lead to none. */
  lemma InputMeans(keys: seq<string>, doc: Doc, v: Json)
    requires IsPath(keys) && Join(keys) != ""
    ensures ResolveArg(Obj([Field("$input", Str(Join(keys)))]), doc) == Resolved(Value(v)) <==> LeadsDoc(doc, keys, v)
    ensures ResolveArg(Obj([Field("$input", Str(Join(keys)))]), doc) == NotYet <==> forall w :: !LeadsDoc(doc, keys, w)
    ensures ResolveCandidate(Obj([Field("$input", Str(Join(keys)))]), doc) == Resolved(v) <==> LeadsDoc(doc, keys, v)
  {
    var path := Join(keys);
    DeriveSoundness.OnlyKey([Field("$input", Str(path))], INPUT);
    NavigateDocLeads(doc, keys, v);
    hide Join, LeadsDoc;
    if NavigateDoc(doc, path).Some? {
      NavigateDocLeads(doc, keys, NavigateDoc(doc, path).value);
    } else {
      forall w
        ensures !LeadsDoc(doc, keys, w)
      {
        NavigateDocLeads(doc, keys, w);
      }
    }
  }

  /** An item argument, or a fold's projection, with its path's keys. */
  lemma ItemMeans(voc: Vocabulary, keys: seq<string>, item: Json, v: Json)
    requires IsPath(keys) && Join(keys) != "" && item != Null
    ensures EvalArg(voc, Item(Join(keys)), item) == Ok(v) <==> Leads(item, keys, v)
    ensures EvalArg(voc, Item(Join(keys)), item) == Fails(CandidateField) <==> forall w :: !Leads(item, keys, w)
  {
    var path := Join(keys);
    NavigateLeads(item, keys, v);
    hide Join, Leads;
    if Navigate(item, path).Some? {
      NavigateLeads(item, keys, Navigate(item, path).value);
    } else {
      forall w
        ensures !Leads(item, keys, w)
      {
        NavigateLeads(item, keys, w);
      }
    }
  }

  // ---- Plans the check never saw ----

  /** Were a plan to come past the check, a verifier or a key primitive applied bare would still fault, and so
      would a verifier inside an application. */
  lemma UncheckedFaults(voc: Vocabulary, fn: string, args: seq<Spec>, item: Json)
    requires fn in voc.names
    requires fn in {"verify_eddsa", "verify_es256", "verify_rs256", "verify_ed25519_raw", "verify_webauthn", "key_from_did_key"}
    ensures EvalCall(voc, Call(fn, args, None)) == Fails(BadShape(BareKey))
    ensures fn != "key_from_did_key" ==> EvalArg(voc, Apply(fn, args), item) == Fails(BadShape(NestedKey))
  {
  }

  /** An `over` that is neither a reference nor a list leaves the field out, optional or not. */
  lemma OddOverOmitted(voc: Vocabulary, ctx: Context, field: string, keys: seq<Field>, optional: bool, doc: Doc)
    requires Has(keys, "fn") && Get(keys, "fn").Str? && ArgsOf(keys).Arr? && ResolveArgs(ArgsOf(keys).items, doc).Resolved?
    requires Has(keys, "over") && !Get(keys, "over").Arr?
    requires ResolveArg(Get(keys, "over"), doc).Resolved? && !ResolveArg(Get(keys, "over"), doc).value.Value?
    ensures EntryEffect(voc, ctx, Entry(field, Derive(keys), optional), doc) == Omit
  {
  }
}
