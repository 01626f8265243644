/** What the load-time check buys at run time: the shapes it rules out are never reached, and the
    primitives it looked up are exactly the ones evaluation can invoke. */
module DeriveSoundness {
  import opened Prelude
  import opened Json
  import opened DerivePlan
  import opened DeriveEval

  // ---- Typing of resolved arguments ----

  /** No key consumer inside `$apply`, and `$item` only in a fold. */
  predicate WellSpec(spec: Spec, folded: bool)
    decreases spec
  {
    match spec
    case Value(_) => true
    case Item(_) => folded
    case List(elements) => WellSpecs(elements, folded)
    case Apply(fn, args) => fn !in KEY_CONSUMING && WellSpecs(args, folded)
  }

  predicate WellSpecs(specs: seq<Spec>, folded: bool)
    decreases specs
  {
    specs == [] || (WellSpec(specs[0], folded) && WellSpecs(specs[1..], folded))
  }

  /** The primitives a resolved argument can look up. */
  function Names(spec: Spec): set<string>
    decreases spec
  {
    match spec
    case Value(_) => {}
    case Item(_) => {}
    case List(elements) => NamesIn(elements)
    case Apply(fn, args) => {fn} + NamesIn(args)
  }

  function NamesIn(specs: seq<Spec>): set<string>
    decreases specs
  {
    if specs == [] then {} else Names(specs[0]) + NamesIn(specs[1..])
  }

  predicate MentionsItem(spec: Spec)
    decreases spec
  {
    match spec
    case Value(_) => false
    case Item(_) => true
    case List(elements) => MentionItem(elements)
    case Apply(_, args) => MentionItem(args)
  }

  predicate MentionItem(specs: seq<Spec>)
    decreases specs
  {
    specs != [] && (MentionsItem(specs[0]) || MentionItem(specs[1..]))
  }

  // ---- Resolution keeps what the check saw ----

  lemma MarkersDiffer()
    ensures INPUT != ITEM && INPUT != APPLY && ITEM != APPLY
    ensures IsMarker(INPUT) && IsMarker(ITEM) && IsMarker(APPLY)
  {
    assert |ITEM| != |INPUT| && |ITEM| != |APPLY|;
    assert INPUT[1] != APPLY[1];
  }

  lemma Unmarked(fields: seq<Field>, key: string)
    requires !HasMarker(fields) && IsMarker(key)
    ensures !Has(fields, key)
  {
  }

  lemma OnlyKey(fields: seq<Field>, key: string)
    requires |fields| == 1
    ensures Has(fields, key) <==> fields[0].key == key
    ensures Has(fields, key) ==> Get(fields, key) == fields[0].value
  {
    assert fields[1..] == [];
  }

  /** A valid argument never resolves to a bad shape, and its resolved form looks up exactly the
      primitives the check looked up. */
  ghost predicate Faithful(r: Ready<Spec>, folded: bool, names: set<string>) {
    !r.Bad? && (r.Resolved? ==> WellSpec(r.value, folded) && Names(r.value) == names)
  }

  ghost predicate FaithfulList(r: Ready<seq<Spec>>, folded: bool, names: set<string>) {
    !r.Bad? && (r.Resolved? ==> WellSpecs(r.value, folded) && NamesIn(r.value) == names)
  }

  lemma {:induction false} ArgFaithful(arg: Json, declared: set<string>, folded: bool, nested: bool, doc: Doc)
    requires ValidArg(arg, declared, folded, nested)
    ensures Faithful(ResolveArg(arg, doc), folded, AppliedIn(arg))
    decreases arg
  {
    match arg
    case Arr(items) =>
      ArgsFaithful(items, declared, folded, nested, doc);
    case Obj(fields) =>
      MarkersDiffer();
      if !HasMarker(fields) {
        Unmarked(fields, INPUT);
        Unmarked(fields, ITEM);
        Unmarked(fields, APPLY);
      } else {
        OnlyKey(fields, INPUT);
        OnlyKey(fields, ITEM);
        OnlyKey(fields, APPLY);
        if fields[0].key == APPLY {
          ApplyFaithful(fields[0].value, declared, folded, doc);
        }
      }
    case _ =>
  }

  function AppliedBy(inner: Json): set<string>
    requires inner.Obj?
  {
    (if Has(inner.fields, "fn") then NameOf(Get(inner.fields, "fn")) else {})
    + (if Has(inner.fields, "args") && Get(inner.fields, "args").Arr? then AppliedInList(Get(inner.fields, "args").items) else {})
  }

  lemma {:induction false} ApplyFaithful(inner: Json, declared: set<string>, folded: bool, doc: Doc)
    requires ValidApply(inner, declared, folded)
    ensures Faithful(ResolveApply(inner, doc), folded, AppliedBy(inner))
    decreases inner
  {
    if Has(inner.fields, "args") {
      ArgsFaithful(Get(inner.fields, "args").items, declared, folded, true, doc);
    }
  }

  lemma {:induction false} ArgsFaithful(args: seq<Json>, declared: set<string>, folded: bool, nested: bool, doc: Doc)
    requires forall i :: 0 <= i < |args| ==> ValidArg(args[i], declared, folded, nested)
    ensures FaithfulList(ResolveArgs(args, doc), folded, AppliedInList(args))
    decreases args
  {
    if args != [] {
      ArgFaithful(args[0], declared, folded, nested, doc);
      ArgsFaithful(args[1..], declared, folded, nested, doc);
      var r, rest := ResolveArg(args[0], doc), ResolveArgs(args[1..], doc);
      if r.Resolved? && rest.Resolved? {
        assert ([r.value] + rest.value)[1..] == rest.value;
      }
    }
  }

  lemma {:induction false} CandidateResolves(node: Json, doc: Doc)
    requires ValidCandidate(node)
    ensures !ResolveCandidate(node, doc).Bad?
    decreases node
  {
    match node
    case Arr(items) => CandidatesResolve(items, doc);
    case Obj(fields) =>
      MarkersDiffer();
      if HasMarker(fields) {
        OnlyKey(fields, INPUT);
      } else {
        Unmarked(fields, INPUT);
        FieldsResolve(fields, doc);
      }
    case _ =>
  }

  lemma {:induction false} CandidatesResolve(nodes: seq<Json>, doc: Doc)
    requires forall i :: 0 <= i < |nodes| ==> ValidCandidate(nodes[i])
    ensures !ResolveCandidates(nodes, doc).Bad?
    decreases nodes
  {
    if nodes != [] {
      CandidateResolves(nodes[0], doc);
      CandidatesResolve(nodes[1..], doc);
    }
  }

  lemma {:induction false} FieldsResolve(fields: seq<Field>, doc: Doc)
    requires forall i :: 0 <= i < |fields| ==> ValidCandidate(fields[i].value)
    ensures !ResolveFields(fields, doc).Bad?
    decreases fields
  {
    if fields != [] {
      CandidateResolves(fields[0].value, doc);
      FieldsResolve(fields[1..], doc);
    }
  }

  /** `over` is a reference whose path is not a string: the one shape the check lets through. */
  predicate StrayOver(keys: seq<Field>) {
    Has(keys, "over") && var over := Get(keys, "over");
    over.Obj? && |over.fields| == 1 && over.fields[0].key == INPUT && !over.fields[0].value.Str?
  }

  lemma OverResolves(over: Json, doc: Doc)
    requires ValidOver(over)
    ensures ResolveOver(over, doc).Bad? <==> over.Obj? && !over.fields[0].value.Str?
  {
    if over.Arr? {
      CandidateResolves(over, doc);
    } else {
      OnlyKey(over.fields, INPUT);
    }
  }

  /** The resolved call is well typed: a key primitive is top level only in a fold. */
  predicate WellCall(call: Call) {
    && WellSpecs(call.args, call.fold.Some?)
    && (call.fold.None? ==> call.fn !in KEY_CONSUMING && call.fn !in KEY_PRODUCING)
  }

  /** A valid entry resolves to a well-typed call over exactly the referenced primitives, or
      waits for a field. It reaches a shape the resolver cannot walk exactly when its arguments
      resolve and its `over` is a reference whose path is not a string. */
  lemma DeriveFaithful(keys: seq<Field>, declared: set<string>, doc: Doc)
    requires ValidDerive(keys, declared)
    ensures ResolveDerive(keys, doc).Bad? <==> StrayOver(keys) && ResolveArgs(ArgsOf(keys).items, doc).Resolved?
    ensures ResolveDerive(keys, doc).Resolved? ==>
      var call := ResolveDerive(keys, doc).value;
      WellCall(call) && {call.fn} + NamesIn(call.args) == ReferencedBy(Derive(keys))
  {
    ArgsFaithful(ArgsOf(keys).items, declared, Has(keys, "over"), false, doc);
    if Has(keys, "over") {
      OverResolves(Get(keys, "over"), doc);
    }
  }

  // ---- Evaluation of well-typed calls ----

  /** The bad shape a result reports, if it reports one. */
  function ShapeOf<T>(r: Res<T>): Option<Shape> {
    if r.Fails? && r.fault.BadShape? then Some(r.fault.shape) else None
  }

  /** The only bad shape is `$item` read for a null candidate. */
  predicate OnlyNullItem<T>(r: Res<T>, item: Json, mentions: bool) {
    ShapeOf(r).Some? ==> ShapeOf(r).value == ItemOutsideFold && item.Null? && mentions
  }

  lemma {:induction false} EvalArgSound(voc: Vocabulary, spec: Spec, folded: bool, item: Json)
    requires WellSpec(spec, folded) && Names(spec) <= voc.names
    ensures OnlyNullItem(EvalArg(voc, spec, item), item, MentionsItem(spec))
    decreases spec
  {
    match spec
    case Value(_) =>
    case Item(_) =>
    case List(elements) => EvalArgsSound(voc, elements, folded, item);
    case Apply(fn, args) => EvalArgsSound(voc, args, folded, item);
  }

  lemma {:induction false} EvalArgsSound(voc: Vocabulary, specs: seq<Spec>, folded: bool, item: Json)
    requires WellSpecs(specs, folded) && NamesIn(specs) <= voc.names
    ensures OnlyNullItem(EvalArgs(voc, specs, item), item, MentionItem(specs))
    decreases specs
  {
    if specs != [] {
      EvalArgSound(voc, specs[0], folded, item);
      EvalArgsSound(voc, specs[1..], folded, item);
    }
  }

  lemma {:induction false} BareMentionsNone(spec: Spec)
    requires WellSpec(spec, false)
    ensures !MentionsItem(spec)
    decreases spec
  {
    match spec
    case Value(_) =>
    case Item(_) =>
    case List(elements) => BareMentionNone(elements);
    case Apply(_, args) => BareMentionNone(args);
  }

  lemma {:induction false} BareMentionNone(specs: seq<Spec>)
    requires WellSpecs(specs, false)
    ensures !MentionItem(specs)
    decreases specs
  {
    if specs != [] {
      BareMentionsNone(specs[0]);
      BareMentionNone(specs[1..]);
    }
  }

  /** Candidate n is null, everything before it folds, and the arguments, evaluated for null, report
      a bad shape: they get as far as an `$item`. */
  ghost predicate NullReached(voc: Vocabulary, fn: string, args: seq<Spec>, project: string, items: seq<Json>, n: int) {
    && 0 <= n < |items| && items[n].Null?
    && ShapeOf(EvalArgs(voc, args, Null)).Some?
    && FoldOver(voc, fn, args, project, items[..n]).Ok?
  }

  /** One more candidate: the reached null is among the ones before, or it is the last. */
  lemma NullReachedSnoc(voc: Vocabulary, fn: string, args: seq<Spec>, project: string, items: seq<Json>)
    requires items != []
    ensures var last := |items| - 1;
      (exists n :: NullReached(voc, fn, args, project, items, n)) <==>
        (exists n :: NullReached(voc, fn, args, project, items[..last], n)) || NullReached(voc, fn, args, project, items, last)
  {
    hide FoldOver, EvalArgs;
    var last := |items| - 1;
    var init := items[..last];
    if n :| NullReached(voc, fn, args, project, items, n) {
      if n < last {
        assert init[..n] == items[..n];
        assert NullReached(voc, fn, args, project, init, n);
      }
    }
    if n :| NullReached(voc, fn, args, project, init, n) {
      assert init[..n] == items[..n];
      assert NullReached(voc, fn, args, project, items, n);
    }
  }

  lemma {:induction false} FoldSound(voc: Vocabulary, fn: string, args: seq<Spec>, project: string, items: seq<Json>)
    requires WellSpecs(args, true) && NamesIn(args) <= voc.names
    ensures ShapeOf(FoldOver(voc, fn, args, project, items)) in {None, Some(ItemOutsideFold)}
    ensures ShapeOf(FoldOver(voc, fn, args, project, items)).Some? <==>
      exists n :: NullReached(voc, fn, args, project, items, n)
    decreases |items|
  {
    if items != [] {
      var last := |items| - 1;
      FoldSound(voc, fn, args, project, items[..last]);
      EvalArgsSound(voc, args, true, items[last]);
      NullReachedSnoc(voc, fn, args, project, items);
      if n :| NullReached(voc, fn, args, project, items[..last], n) {
        assert ShapeOf(FoldOver(voc, fn, args, project, items[..last])).Some?;
      }
      hide EvalArgs, WellSpecs, NamesIn;
      LastWitness(voc, fn, args, project, items);
    }
  }

  /** Whether the last candidate is what a fold breaks its shape on. */
  lemma LastWitness(voc: Vocabulary, fn: string, args: seq<Spec>, project: string, items: seq<Json>)
    requires items != []
    requires var r := EvalArgs(voc, args, items[|items| - 1]); ShapeOf(r).Some? ==> items[|items| - 1].Null?
    ensures var before, item := FoldOver(voc, fn, args, project, items[..|items| - 1]), items[|items| - 1];
      ShapeOf(FoldOver(voc, fn, args, project, items)) ==
        if before.Ok? then ShapeOf(EvalArgs(voc, args, item)) else ShapeOf(before)
  {
  }

  /** A reached null candidate of this call. */
  ghost predicate NullCandidate(voc: Vocabulary, call: Call, n: int) {
    && call.fold.Some? && call.fold.value.over.Arr?
    && NullReached(voc, call.fn, call.args, call.fold.value.project, call.fold.value.over.items, n)
  }

  /** A well-typed call over known primitives reports a bad shape exactly when its fold reaches a
      null candidate for which its arguments read `$item`. */
  lemma EvalCallSound(voc: Vocabulary, call: Call)
    requires WellCall(call) && {call.fn} + NamesIn(call.args) <= voc.names
    ensures ShapeOf(EvalCall(voc, call)) in {None, Some(ItemOutsideFold)}
    ensures ShapeOf(EvalCall(voc, call)).Some? <==> exists n :: NullCandidate(voc, call, n)
  {
    if call.fold.Some? {
      if call.fold.value.over.Arr? {
        var items := call.fold.value.over.items;
        FoldSound(voc, call.fn, call.args, call.fold.value.project, items);
        assert forall n :: NullCandidate(voc, call, n) <==> NullReached(voc, call.fn, call.args, call.fold.value.project, items, n);
      }
    } else {
      EvalArgsSound(voc, call.args, false, Null);
      BareMentionNone(call.args);
    }
  }

  // ---- Whole plans ----

  /** The document the walk has when it comes to entry n, if it gets there. */
  function DocAt(voc: Vocabulary, ctx: Context, entries: seq<Entry>, n: nat, doc: Doc): Option<Doc>
    requires n <= |entries|
  {
    if n == 0 then Some(doc)
    else
      match EntryEffect(voc, ctx, entries[0], doc)
      case Put(v) => DocAt(voc, ctx, entries[1..], n - 1, doc[entries[0].field := v])
      case Omit => DocAt(voc, ctx, entries[1..], n - 1, doc)
      case Abort(_) => None
  }

  /** The walk comes to entry n, and that entry aborts it. */
  ghost predicate AbortsAt(voc: Vocabulary, ctx: Context, entries: seq<Entry>, doc: Doc, f: Fault, n: int) {
    && 0 <= n < |entries|
    && DocAt(voc, ctx, entries, n, doc).Some?
    && EntryEffect(voc, ctx, entries[n], DocAt(voc, ctx, entries, n, doc).value) == Abort(f)
  }

  /** An assembly fails exactly at an entry the walk reaches. */
  lemma {:induction false} FailsWhere(voc: Vocabulary, ctx: Context, entries: seq<Entry>, doc: Doc, f: Fault)
    ensures AssembleFrom(voc, ctx, entries, doc) == Failed(f) <==> exists n :: AbortsAt(voc, ctx, entries, doc, f, n)
    decreases |entries|
  {
    hide EntryEffect;
    if entries != [] {
      var effect, rest := EntryEffect(voc, ctx, entries[0], doc), entries[1..];
      var next := if effect.Put? then doc[entries[0].field := effect.value] else doc;
      if effect == Abort(f) {
        assert AbortsAt(voc, ctx, entries, doc, f, 0);
      }
      if !effect.Abort? {
        FailsWhere(voc, ctx, rest, next, f);
        if n :| AbortsAt(voc, ctx, rest, next, f, n) {
          assert AbortsAt(voc, ctx, entries, doc, f, n + 1);
        }
        if n :| AbortsAt(voc, ctx, entries, doc, f, n) {
          assert AbortsAt(voc, ctx, rest, next, f, n - 1);
        }
      }
    }
  }

  /** How this entry, on this document, breaks its shape: its `over` path is not a string and its
      arguments are there to be resolved, or it must succeed and its fold reaches a null candidate. */
  ghost predicate ShapeTrouble(voc: Vocabulary, e: Entry, doc: Doc, s: Shape) {
    e.source.Derive? &&
    match s
    case Malformed =>
      StrayOver(e.source.keys) && ArgsOf(e.source.keys).Arr? && ResolveArgs(ArgsOf(e.source.keys).items, doc).Resolved?
    case ItemOutsideFold =>
      && !e.optional && ResolveDerive(e.source.keys, doc).Resolved?
      && exists n :: NullCandidate(voc, ResolveDerive(e.source.keys, doc).value, n)
    case _ => false
  }

  lemma ResolvesWell(plan: Plan, available: set<string>, e: Entry, doc: Doc)
    requires Accepts(plan, available) && e in plan.entries && e.source.Derive?
    ensures ArgsOf(e.source.keys).Arr?
    ensures ResolveDerive(e.source.keys, doc).Bad? <==>
      StrayOver(e.source.keys) && ResolveArgs(ArgsOf(e.source.keys).items, doc).Resolved?
    ensures ResolveDerive(e.source.keys, doc).Bad? ==> ResolveDerive(e.source.keys, doc).shape == Malformed
    ensures ResolveDerive(e.source.keys, doc).Resolved? ==>
      var call := ResolveDerive(e.source.keys, doc).value;
      WellCall(call) && {call.fn} + NamesIn(call.args) <= available
  {
    DeriveFaithful(e.source.keys, Declared(plan.primitives).value, doc);
    assert ReferencedBy(e.source) <= Referenced(plan.entries);
  }

  /** The check, exactly, for every entry of an accepted plan, every document and every runtime
      vocabulary that includes the validated one: the entry aborts for its shape just when it has
      one of the two troubles. */
  lemma EntrySound(plan: Plan, available: set<string>, voc: Vocabulary, ctx: Context, e: Entry, doc: Doc, s: Shape)
    requires Accepts(plan, available) && available <= voc.names && e in plan.entries
    ensures EntryEffect(voc, ctx, e, doc) == Abort(BadShape(s)) <==>
      ShapeTrouble(voc, e, doc, s)
  {
    hide Accepts, ShapeTrouble, EntryEffect;
    if e.source.Fetch? {
      FetchSound(voc, ctx, e, doc, s);
    } else {
      ResolvesWell(plan, available, e, doc);
      hide StrayOver, ResolveDerive, ResolveArgs, ArgsOf, EvalCall, WellCall, NullCandidate;
      var r := ResolveDerive(e.source.keys, doc);
      if r.Resolved? {
        EvalCallSound(voc, r.value);
      }
      DeriveEffect(voc, ctx, e, doc, s);
    }
  }

  /** What a derive entry does, from how it resolves and how its call evaluates. */
  lemma DeriveEffect(voc: Vocabulary, ctx: Context, e: Entry, doc: Doc, s: Shape)
    requires e.source.Derive?
    requires var r := ResolveDerive(e.source.keys, doc);
      && ArgsOf(e.source.keys).Arr?
      && (r.Bad? <==> StrayOver(e.source.keys) && ResolveArgs(ArgsOf(e.source.keys).items, doc).Resolved?)
      && (r.Bad? ==> r.shape == Malformed)
      && (r.Resolved? ==> ShapeOf(EvalCall(voc, r.value)) in {None, Some(ItemOutsideFold)})
      && (r.Resolved? ==> (ShapeOf(EvalCall(voc, r.value)).Some? <==> exists n :: NullCandidate(voc, r.value, n)))
    ensures EntryEffect(voc, ctx, e, doc) == Abort(BadShape(s)) <==> ShapeTrouble(voc, e, doc, s)
  {
    hide StrayOver, ResolveDerive, ResolveArgs, ArgsOf, EvalCall, NullCandidate;
  }

  lemma FetchSound(voc: Vocabulary, ctx: Context, e: Entry, doc: Doc, s: Shape)
    requires e.source.Fetch?
    ensures EntryEffect(voc, ctx, e, doc) != Abort(BadShape(s)) && !ShapeTrouble(voc, e, doc, s)
  {
    hide ResolveParams;
    ParamsResolve(e.source.params, doc);
  }

  /** Soundness of the check for whole plans, exactly: an accepted plan fails for a shape in a context
      just when the walk comes to an entry that has that trouble on the document it has by then. */
  lemma PlanSound(plan: Plan, available: set<string>, voc: Vocabulary, ctx: Context, s: Shape)
    requires Accepts(plan, available) && available <= voc.names
    ensures Assemble(voc, ctx, plan.entries) == Failed(BadShape(s)) <==> exists n :: TroubleAt(voc, ctx, plan.entries, s, n)
  {
    hide EntryEffect, ShapeTrouble, Accepts, ArgsOf;
    FailsWhere(voc, ctx, plan.entries, map[], BadShape(s));
    forall n | 0 <= n < |plan.entries| && DocAt(voc, ctx, plan.entries, n, map[]).Some?
      ensures TroubleAt(voc, ctx, plan.entries, s, n) <==> AbortsAt(voc, ctx, plan.entries, map[], BadShape(s), n)
    {
      EntrySound(plan, available, voc, ctx, plan.entries[n], DocAt(voc, ctx, plan.entries, n, map[]).value, s);
    }
    if n :| TroubleAt(voc, ctx, plan.entries, s, n) {
      assert AbortsAt(voc, ctx, plan.entries, map[], BadShape(s), n);
    }
    if n :| AbortsAt(voc, ctx, plan.entries, map[], BadShape(s), n) {
      assert TroubleAt(voc, ctx, plan.entries, s, n);
    }
  }

  ghost predicate TroubleAt(voc: Vocabulary, ctx: Context, entries: seq<Entry>, s: Shape, n: int) {
    && 0 <= n < |entries| && DocAt(voc, ctx, entries, n, map[]).Some?
    && ShapeTrouble(voc, entries[n], DocAt(voc, ctx, entries, n, map[]).value, s)
  }

  /** The candidates of an entry's fold, once it is resolved. */
  function CandidatesOf(e: Entry, doc: Doc): seq<Json> {
    if e.source.Derive? && ResolveDerive(e.source.keys, doc).Resolved? then
      var fold := ResolveDerive(e.source.keys, doc).value.fold;
      if fold.Some? && fold.value.over.Arr? then fold.value.over.items else []
    else []
  }

  /** With string paths and no null among the candidates the walk meets, an accepted plan reaches none
      of the shapes the check rules out, in any context. */
  lemma NeverMisshapen(plan: Plan, available: set<string>, voc: Vocabulary, ctx: Context, s: Shape)
    requires Accepts(plan, available) && available <= voc.names
    requires forall e :: e in plan.entries && e.source.Derive? ==> !StrayOver(e.source.keys)
    requires forall n :: 0 <= n < |plan.entries| && DocAt(voc, ctx, plan.entries, n, map[]).Some? ==>
               Null !in CandidatesOf(plan.entries[n], DocAt(voc, ctx, plan.entries, n, map[]).value)
    ensures Assemble(voc, ctx, plan.entries) != Failed(BadShape(s))
  {
    PlanSound(plan, available, voc, ctx, s);
    hide Accepts, StrayOver, EntryEffect, ResolveDerive, Assemble, DocAt;
    forall n | 0 <= n < |plan.entries|
      ensures !TroubleAt(voc, ctx, plan.entries, s, n)
    {
      var e := plan.entries[n];
      assert e in plan.entries;
    }
  }

  // ---- When a null candidate is reached, exactly ----

  function TrueVocabulary(names: set<string>): Vocabulary {
    Vocabulary(names, (fn, args) => Returned(Bool(true)))
  }

  lemma {:induction false} TrueSettlesArg(names: set<string>, spec: Spec, item: Json)
    requires WellSpec(spec, true) && Names(spec) <= names && !MentionsItem(spec)
    ensures EvalArg(TrueVocabulary(names), spec, item).Ok?
    decreases spec
  {
    match spec
    case Value(_) =>
    case Item(_) =>
    case List(elements) => TrueSettles(names, elements, item);
    case Apply(_, args) => TrueSettles(names, args, item);
  }

  lemma {:induction false} TrueSettles(names: set<string>, specs: seq<Spec>, item: Json)
    requires WellSpecs(specs, true) && NamesIn(specs) <= names && !MentionItem(specs)
    ensures EvalArgs(TrueVocabulary(names), specs, item).Ok?
    decreases specs
  {
    if specs != [] {
      TrueSettlesArg(names, specs[0], item);
      TrueSettles(names, specs[1..], item);
    }
  }

  lemma {:induction false} NullReadsItem(names: set<string>, spec: Spec)
    requires WellSpec(spec, true) && Names(spec) <= names && MentionsItem(spec)
    ensures EvalArg(TrueVocabulary(names), spec, Null) == Fails(BadShape(ItemOutsideFold))
    decreases spec
  {
    match spec
    case Value(_) =>
    case Item(_) =>
    case List(elements) => NullReadItem(names, elements);
    case Apply(_, args) => NullReadItem(names, args);
  }

  lemma {:induction false} NullReadItem(names: set<string>, specs: seq<Spec>)
    requires WellSpecs(specs, true) && NamesIn(specs) <= names && MentionItem(specs)
    ensures EvalArgs(TrueVocabulary(names), specs, Null) == Fails(BadShape(ItemOutsideFold))
    decreases specs
  {
    if MentionsItem(specs[0]) {
      NullReadsItem(names, specs[0]);
    } else {
      TrueSettlesArg(names, specs[0], Null);
      NullReadItem(names, specs[1..]);
    }
  }

  /** A candidate is safe under every vocabulary exactly when it is not null or no argument reads
      `$item`. */
  lemma NullCandidateExactly(names: set<string>, args: seq<Spec>, item: Json)
    requires WellSpecs(args, true) && NamesIn(args) <= names
    ensures (forall voc: Vocabulary :: names <= voc.names ==> ShapeOf(EvalArgs(voc, args, item)).None?)
      <==> !(item.Null? && MentionItem(args))
  {
    if item.Null? && MentionItem(args) {
      NullReadItem(names, args);
      assert names <= TrueVocabulary(names).names;
    } else {
      forall voc: Vocabulary | names <= voc.names
        ensures ShapeOf(EvalArgs(voc, args, item)).None?
      {
        EvalArgsSound(voc, args, true, item);
      }
    }
  }

  // ---- The two shapes the check lets through ----

  /** A plan of one fold, with any declaration block. */
  function LoneFold(block: Option<Json>, fn: string, over: Json, args: seq<Json>): Plan {
    Plan(block, [Entry("w", Derive(FoldKeys(fn, over, args)), false)])
  }

  function FoldKeys(fn: string, over: Json, args: seq<Json>): seq<Field> {
    [Field("fn", Str(fn)), Field("args", Arr(args)), Field("over", over), Field("project", Str("k"))]
  }

  lemma {:induction false} FindAt(fields: seq<Field>, key: string, i: nat)
    requires i < |fields| && fields[i].key == key && forall j :: 0 <= j < i ==> fields[j].key != key
    ensures Find(fields, key) == i
  {
    if i > 0 {
      FindAt(fields[1..], key, i - 1);
    }
  }

  lemma FoldKeysFound(fn: string, over: Json, args: seq<Json>)
    ensures var keys := FoldKeys(fn, over, args);
      && Has(keys, "fn") && Get(keys, "fn") == Str(fn)
      && Has(keys, "args") && Get(keys, "args") == Arr(args)
      && Has(keys, "over") && Get(keys, "over") == over
      && Has(keys, "project") && Get(keys, "project") == Str("k")
      && OnlyKeys(keys, SOURCE_KEYS)
  {
    var keys := FoldKeys(fn, over, args);
    assert "fn"[0] != "args"[0] && "fn"[0] != "over"[0] && "fn"[0] != "project"[0];
    assert "args"[0] != "over"[0] && "args"[0] != "project"[0] && "over"[0] != "project"[0];
    FindAt(keys, "fn", 0);
    FindAt(keys, "args", 1);
    FindAt(keys, "over", 2);
    FindAt(keys, "project", 3);
  }

  /** A primitive with no key and no signature of its own, such as `sha256`. */
  predicate Plain(fn: string) {
    fn != "" && fn !in KEY_CONSUMING && fn !in KEY_PRODUCING && fn != "concat" && fn != "format_int"
  }

  lemma FoldKeysValid(declared: set<string>, fn: string, over: Json, args: seq<Json>)
    requires Plain(fn) && fn in declared && ValidOver(over)
    requires forall i :: 0 <= i < |args| ==> ValidArg(args[i], declared, true, false)
    ensures ValidDerive(FoldKeys(fn, over, args), declared)
  {
    hide ValidArg, ValidOver, Find, Has, Get, OnlyKeys, FoldKeys;
    FoldKeysFound(fn, over, args);
  }

  lemma LoneDeriveAccepted(block: Option<Json>, keys: seq<Field>, fn: string)
    requires Declared(block).Some? && ValidDerive(keys, Declared(block).value) && ReferencedBy(Derive(keys)) == {fn}
    ensures Accepts(Plan(block, [Entry("w", Derive(keys), false)]), {fn})
  {
    hide ValidDerive, Declared, ReferencedBy;
    var entries := [Entry("w", Derive(keys), false)];
    assert Referenced(entries[1..]) == {};
  }

  lemma LoneFoldAccepted(block: Option<Json>, fn: string, over: Json, args: seq<Json>)
    requires Plain(fn) && Declared(block).Some? && fn in Declared(block).value && ValidOver(over)
    requires forall i :: 0 <= i < |args| ==> ValidArg(args[i], Declared(block).value, true, false)
    requires AppliedInList(args) == {}
    ensures Accepts(LoneFold(block, fn, over, args), {fn})
  {
    hide ValidDerive, ValidArg, ValidOver, Declared, FoldKeys, Plain, ReferencedBy, Accepts;
    FoldKeysValid(Declared(block).value, fn, over, args);
    FoldKeysReference(fn, over, args);
    LoneDeriveAccepted(block, FoldKeys(fn, over, args), fn);
  }

  lemma FoldKeysReference(fn: string, over: Json, args: seq<Json>)
    requires Plain(fn) && AppliedInList(args) == {}
    ensures ReferencedBy(Derive(FoldKeys(fn, over, args))) == {fn}
  {
    hide Find, Has, Get, OnlyKeys, FoldKeys;
    FoldKeysFound(fn, over, args);
  }

  /** A plan with `over: {"$input": 5}` is accepted, and its assembly raises for every context. */
  lemma StrayOverAccepted(block: Option<Json>, fn: string, voc: Vocabulary, ctx: Context)
    requires Plain(fn) && Declared(block).Some? && fn in Declared(block).value
    ensures var over := Obj([Field(INPUT, Int(5))]);
      Accepts(LoneFold(block, fn, over, []), {fn}) && Assemble(voc, ctx, LoneFold(block, fn, over, []).entries) == Failed(BadShape(Malformed))
  {
    var over := Obj([Field(INPUT, Int(5))]);
    LoneFoldAccepted(block, fn, over, []);
    FoldKeysFound(fn, over, []);
    OnlyKey(over.fields, INPUT);
    MarkersDiffer();
  }

  /** A plan with `over: [null]` that reads `$item` is accepted, and its assembly faults. */
  lemma NullCandidateAccepted(block: Option<Json>, fn: string, ctx: Context)
    requires Plain(fn) && Declared(block).Some? && fn in Declared(block).value
    ensures var args := [Obj([Field(ITEM, Str("k"))])];
      && Accepts(LoneFold(block, fn, Arr([Null]), args), {fn})
      && Assemble(TrueVocabulary({fn}), ctx, LoneFold(block, fn, Arr([Null]), args).entries) == Failed(BadShape(ItemOutsideFold))
  {
    var arg := Obj([Field(ITEM, Str("k"))]);
    ItemArgument(arg, Declared(block).value);
    assert AppliedInList([arg]) == AppliedIn(arg) + AppliedInList([arg][1..]);
    LoneFoldAccepted(block, fn, Arr([Null]), [arg]);
    NullFoldResolves(fn, arg);
    NullFoldFaults(fn);
    LoneEntryAborts(TrueVocabulary({fn}), ctx, LoneFold(block, fn, Arr([Null]), [arg]).entries, BadShape(ItemOutsideFold));
  }

  lemma ItemArgument(arg: Json, declared: set<string>)
    requires arg == Obj([Field(ITEM, Str("k"))])
    ensures ValidArg(arg, declared, true, false) && AppliedIn(arg) == {}
    ensures ResolveArg(arg, map[]) == Resolved(Item("k"))
  {
    MarkersDiffer();
    OnlyKey(arg.fields, INPUT);
    OnlyKey(arg.fields, ITEM);
    OnlyKey(arg.fields, APPLY);
    assert IsMarker(arg.fields[0].key);
  }

  function NullFold(fn: string): Call {
    Call(fn, [Item("k")], Some(Fold(Arr([Null]), "k")))
  }

  lemma NullFoldResolves(fn: string, arg: Json)
    requires arg.Obj? && ResolveArg(arg, map[]) == Resolved(Item("k"))
    ensures ResolveDerive(FoldKeys(fn, Arr([Null]), [arg]), map[]) == Resolved(NullFold(fn))
  {
    hide ResolveArg, Find, Has, Get, OnlyKeys, FoldKeys;
    FoldKeysFound(fn, Arr([Null]), [arg]);
    NullResolves(arg);
  }

  lemma NullResolves(arg: Json)
    requires ResolveArg(arg, map[]) == Resolved(Item("k"))
    ensures ResolveArgs([arg], map[]) == Resolved([Item("k")])
    ensures ResolveOver(Arr([Null]), map[]) == Resolved(Arr([Null]))
  {
    hide ResolveArg;
    assert ResolveArgs([arg][1..], map[]) == Resolved([]);
    assert [Item("k")] + [] == [Item("k")] && [Null] + [] == [Null];
    assert ResolveCandidates([Null][1..], map[]) == Resolved([]);
    assert ResolveCandidates([Null], map[]) == Resolved([Null]);
  }

  lemma NullFoldFaults(fn: string)
    ensures EvalCall(TrueVocabulary({fn}), NullFold(fn)) == Fails(BadShape(ItemOutsideFold))
  {
    var voc := TrueVocabulary({fn});
    assert EvalArgs(voc, [Item("k")], Null) == Fails(BadShape(ItemOutsideFold));
    assert FoldOver(voc, fn, [Item("k")], "k", [Null][..0]) == Ok([]);
  }

  lemma LoneEntryAborts(voc: Vocabulary, ctx: Context, entries: seq<Entry>, fault: Fault)
    requires |entries| == 1 && EntryEffect(voc, ctx, entries[0], map[]) == Abort(fault)
    ensures Assemble(voc, ctx, entries) == Failed(fault)
  {
  }
}
