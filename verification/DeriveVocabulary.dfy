/** The primitives the check looks up are exactly the ones an assembly depends on. */
module DeriveVocabulary {
  import opened Json
  import opened DerivePlan
  import opened DeriveEval
  import opened DeriveSoundness
  import DeriveRelations

  // ---- Nothing else matters ----

  /** Two vocabularies that cannot be told apart by the primitives `names`. */
  ghost predicate SameOn(v: Vocabulary, w: Vocabulary, names: set<string>) {
    && (forall fn :: fn in names ==> (fn in v.names <==> fn in w.names))
    && (forall fn, args :: fn in names ==> v.call(fn, args) == w.call(fn, args))
  }

  lemma {:induction false} ArgUsesNames(v: Vocabulary, w: Vocabulary, spec: Spec, item: Json)
    requires SameOn(v, w, Names(spec))
    ensures EvalArg(v, spec, item) == EvalArg(w, spec, item)
    decreases spec
  {
    match spec
    case Value(_) =>
    case Item(_) =>
    case List(elements) => ArgsUseNames(v, w, elements, item);
    case Apply(_, args) => ArgsUseNames(v, w, args, item);
  }

  lemma {:induction false} ArgsUseNames(v: Vocabulary, w: Vocabulary, specs: seq<Spec>, item: Json)
    requires SameOn(v, w, NamesIn(specs))
    ensures EvalArgs(v, specs, item) == EvalArgs(w, specs, item)
    decreases specs
  {
    if specs != [] {
      ArgUsesNames(v, w, specs[0], item);
      ArgsUseNames(v, w, specs[1..], item);
    }
  }

  lemma {:induction false} FoldUsesNames(v: Vocabulary, w: Vocabulary, fn: string, args: seq<Spec>, project: string, items: seq<Json>)
    requires SameOn(v, w, {fn} + NamesIn(args))
    ensures FoldOver(v, fn, args, project, items) == FoldOver(w, fn, args, project, items)
    decreases |items|
  {
    if items != [] {
      FoldUsesNames(v, w, fn, args, project, items[..|items| - 1]);
      ArgsUseNames(v, w, args, items[|items| - 1]);
      assert fn in {fn} + NamesIn(args);
    }
  }

  lemma CallUsesNames(v: Vocabulary, w: Vocabulary, call: Call)
    requires SameOn(v, w, {call.fn} + NamesIn(call.args))
    ensures EvalCall(v, call) == EvalCall(w, call)
  {
    assert call.fn in {call.fn} + NamesIn(call.args);
    if call.fold.Some? && call.fold.value.over.Arr? {
      FoldUsesNames(v, w, call.fn, call.args, call.fold.value.project, call.fold.value.over.items);
    } else {
      ArgsUseNames(v, w, call.args, Null);
    }
  }

  /** Nothing but the referenced primitives can matter: vocabularies that agree on them assemble
      an accepted plan alike. */
  lemma {:induction false} WalkUsesReferenced(plan: Plan, available: set<string>, v: Vocabulary, w: Vocabulary, ctx: Context, entries: seq<Entry>, doc: Doc)
    requires Accepts(plan, available) && SameOn(v, w, Referenced(plan.entries))
    requires forall e :: e in entries ==> e in plan.entries
    ensures AssembleFrom(v, ctx, entries, doc) == AssembleFrom(w, ctx, entries, doc)
    decreases |entries|
  {
    if entries != [] {
      var e := entries[0];
      assert EntryEffect(v, ctx, e, doc) == EntryEffect(w, ctx, e, doc) by {
        if e.source.Derive? && ResolveDerive(e.source.keys, doc).Resolved? {
          DeriveFaithful(e.source.keys, Declared(plan.primitives).value, doc);
          assert ReferencedBy(e.source) <= Referenced(plan.entries);
          CallUsesNames(v, w, ResolveDerive(e.source.keys, doc).value);
        }
      }
      match EntryEffect(v, ctx, e, doc)
      case Put(x) => WalkUsesReferenced(plan, available, v, w, ctx, entries[1..], doc[e.field := x]);
      case Omit => WalkUsesReferenced(plan, available, v, w, ctx, entries[1..], doc);
      case Abort(_) =>
    }
  }

  // ---- Each of them matters ----

  /** The vocabulary with one primitive missing. */
  function Lacking(voc: Vocabulary, n: string): Vocabulary {
    voc.(names := voc.names - {n})
  }

  /** The result is the same, or the missing primitive was looked up. */
  predicate SameOrCaught<T(==)>(r: Res<T>, r': Res<T>) {
    r' == r || r' == Fails(BadShape(UnknownPrimitive))
  }

  lemma {:induction false} ArgLacking(voc: Vocabulary, spec: Spec, item: Json, n: string)
    ensures SameOrCaught(EvalArg(voc, spec, item), EvalArg(Lacking(voc, n), spec, item))
    ensures EvalArg(voc, spec, item).Ok? && n in Names(spec) ==>
      EvalArg(Lacking(voc, n), spec, item) == Fails(BadShape(UnknownPrimitive))
    decreases spec
  {
    match spec
    case Value(_) =>
    case Item(_) =>
    case List(elements) => ArgsLacking(voc, elements, item, n);
    case Apply(fn, args) => ArgsLacking(voc, args, item, n);
  }

  lemma {:induction false} ArgsLacking(voc: Vocabulary, specs: seq<Spec>, item: Json, n: string)
    ensures SameOrCaught(EvalArgs(voc, specs, item), EvalArgs(Lacking(voc, n), specs, item))
    ensures EvalArgs(voc, specs, item).Ok? && n in NamesIn(specs) ==>
      EvalArgs(Lacking(voc, n), specs, item) == Fails(BadShape(UnknownPrimitive))
    decreases specs
  {
    if specs != [] {
      ArgLacking(voc, specs[0], item, n);
      ArgsLacking(voc, specs[1..], item, n);
    }
  }

  /** Some candidate has arguments that evaluate. */
  ghost predicate SettledAmong(voc: Vocabulary, args: seq<Spec>, items: seq<Json>) {
    exists i :: 0 <= i < |items| && EvalArgs(voc, args, items[i]).Ok?
  }

  lemma {:induction false} FoldLacking(voc: Vocabulary, fn: string, args: seq<Spec>, project: string, items: seq<Json>, n: string)
    requires FoldOver(voc, fn, args, project, items).Ok?
    ensures SameOrCaught(FoldOver(voc, fn, args, project, items), FoldOver(Lacking(voc, n), fn, args, project, items))
    ensures SettledAmong(voc, args, items) && n in NamesIn(args) ==>
      FoldOver(Lacking(voc, n), fn, args, project, items) == Fails(BadShape(UnknownPrimitive))
    decreases |items|
  {
    if items != [] {
      var last := |items| - 1;
      FoldLacking(voc, fn, args, project, items[..last], n);
      ArgsLacking(voc, args, items[last], n);
      if SettledAmong(voc, args, items) {
        var i :| 0 <= i < |items| && EvalArgs(voc, args, items[i]).Ok?;
        assert i < last ==> items[..last][i] == items[i];
      }
    }
  }

  /** The call evaluates, and a fold settles the arguments of some candidate. */
  ghost predicate Exercised(voc: Vocabulary, call: Call) {
    && EvalCall(voc, call).Ok?
    && (call.fold.Some? ==> call.fold.value.over.Arr? && SettledAmong(voc, call.args, call.fold.value.over.items))
  }

  /** A call that is exercised is caught out by a missing primitive exactly when it names it. */
  lemma CallNeedsName(voc: Vocabulary, call: Call, n: string)
    requires Exercised(voc, call)
    ensures n in {call.fn} + NamesIn(call.args) ==> EvalCall(Lacking(voc, n), call) == Fails(BadShape(UnknownPrimitive))
    ensures n !in {call.fn} + NamesIn(call.args) ==> EvalCall(Lacking(voc, n), call) == EvalCall(voc, call)
  {
    if n !in {call.fn} + NamesIn(call.args) {
      CallUsesNames(voc, Lacking(voc, n), call);
    } else if call.fold.Some? {
      FoldLacking(voc, call.fn, call.args, call.fold.value.project, call.fold.value.over.items, n);
    } else {
      ArgsLacking(voc, call.args, Null, n);
    }
  }

  /** Each derive entry the walk meets resolves to a call that is exercised. */
  ghost predicate AllExercised(voc: Vocabulary, ctx: Context, entries: seq<Entry>, doc: Doc)
    decreases |entries|
  {
    entries == [] ||
    (EntryExercised(voc, entries[0], doc) &&
     match EntryEffect(voc, ctx, entries[0], doc)
     case Put(v) => AllExercised(voc, ctx, entries[1..], doc[entries[0].field := v])
     case Omit => AllExercised(voc, ctx, entries[1..], doc)
     case Abort(_) => false)
  }

  ghost predicate EntryExercised(voc: Vocabulary, e: Entry, doc: Doc) {
    e.source.Derive? ==>
      ResolveDerive(e.source.keys, doc).Resolved? && Exercised(voc, ResolveDerive(e.source.keys, doc).value)
  }

  /** An exercised entry puts a value; without a primitive it does the same or puts none, by whether
      it references it. */
  lemma EntryNeedsName(plan: Plan, available: set<string>, voc: Vocabulary, ctx: Context, e: Entry, doc: Doc, n: string)
    requires Accepts(plan, available) && e in plan.entries && EntryExercised(voc, e, doc)
    ensures n !in ReferencedBy(e.source) ==> EntryEffect(Lacking(voc, n), ctx, e, doc) == EntryEffect(voc, ctx, e, doc)
    ensures n in ReferencedBy(e.source) ==>
      EntryEffect(voc, ctx, e, doc).Put? && !EntryEffect(Lacking(voc, n), ctx, e, doc).Put?
  {
    if e.source.Derive? {
      DeriveFaithful(e.source.keys, Declared(plan.primitives).value, doc);
      hide ResolveDerive, ReferencedBy, Accepts, EvalCall, Exercised, WellCall;
      var call := ResolveDerive(e.source.keys, doc).value;
      CallNeedsName(voc, call, n);
      ExercisedIsOk(voc, call);
    }
  }

  lemma ExercisedIsOk(voc: Vocabulary, call: Call)
    requires Exercised(voc, call)
    ensures EvalCall(voc, call).Ok?
  {
  }

  /** A walk over exercised entries ends alike without a primitive just when none references it. */
  lemma {:induction false} WalkNeedsName(plan: Plan, available: set<string>, voc: Vocabulary, ctx: Context, entries: seq<Entry>, doc: Doc, n: string)
    requires Accepts(plan, available) && AllExercised(voc, ctx, entries, doc)
    requires forall e :: e in entries ==> e in plan.entries
    requires UniqueFields(entries) && DeriveRelations.Fresh(entries, doc)
    ensures AssembleFrom(Lacking(voc, n), ctx, entries, doc) == AssembleFrom(voc, ctx, entries, doc)
      <==> n !in Referenced(entries)
    decreases |entries|
  {
    if entries != [] {
      var e, rest := entries[0], entries[1..];
      EntryNeedsName(plan, available, voc, ctx, e, doc, n);
      hide EntryEffect, EntryExercised, Accepts, ReferencedBy;
      var effect := EntryEffect(voc, ctx, e, doc);
      var next := if effect.Put? then doc[e.field := effect.value] else doc;
      RestFresh(entries, doc, next);
      if n !in ReferencedBy(e.source) {
        WalkNeedsName(plan, available, voc, ctx, rest, next, n);
      } else {
        PutStays(voc, ctx, rest, next, e.field);
        NeverPut(Lacking(voc, n), ctx, rest, doc, e.field);
      }
    }
  }

  lemma RestFresh(entries: seq<Entry>, doc: Doc, next: Doc)
    requires entries != [] && UniqueFields(entries) && DeriveRelations.Fresh(entries, doc)
    requires forall k :: k in next ==> k in doc || k == entries[0].field
    ensures UniqueFields(entries[1..]) && DeriveRelations.Fresh(entries[1..], next)
    ensures DeriveRelations.Fresh(entries[1..], doc)
    ensures forall e :: e in entries[1..] ==> e.field != entries[0].field
  {
  }

  lemma {:induction false} PutStays(voc: Vocabulary, ctx: Context, entries: seq<Entry>, doc: Doc, f: string)
    requires AllExercised(voc, ctx, entries, doc) && f in doc
    ensures AssembleFrom(voc, ctx, entries, doc).Assembled? && f in AssembleFrom(voc, ctx, entries, doc).doc
    decreases |entries|
  {
    hide EntryEffect, EntryExercised;
    if entries != [] {
      match EntryEffect(voc, ctx, entries[0], doc)
      case Put(v) => PutStays(voc, ctx, entries[1..], doc[entries[0].field := v], f);
      case Omit => PutStays(voc, ctx, entries[1..], doc, f);
      case Abort(_) =>
    }
  }

  lemma {:induction false} NeverPut(voc: Vocabulary, ctx: Context, entries: seq<Entry>, doc: Doc, f: string)
    requires f !in doc && forall e :: e in entries ==> e.field != f
    ensures var r := AssembleFrom(voc, ctx, entries, doc); r.Assembled? ==> f !in r.doc
    decreases |entries|
  {
    hide EntryEffect;
    if entries != [] {
      match EntryEffect(voc, ctx, entries[0], doc)
      case Put(v) => NeverPut(voc, ctx, entries[1..], doc[entries[0].field := v], f);
      case Omit => NeverPut(voc, ctx, entries[1..], doc, f);
      case Abort(_) =>
    }
  }

  /** What the check looks up is what matters, exactly: an accepted plan whose entries are exercised
      assembles alike without a primitive just when the plan does not reference it. */
  lemma ReferencedExactly(plan: Plan, available: set<string>, voc: Vocabulary, ctx: Context, n: string)
    requires Accepts(plan, available) && AllExercised(voc, ctx, plan.entries, map[])
    ensures Assemble(Lacking(voc, n), ctx, plan.entries) == Assemble(voc, ctx, plan.entries) <==> n !in Referenced(plan.entries)
  {
    WalkNeedsName(plan, available, voc, ctx, plan.entries, map[], n);
  }
}
