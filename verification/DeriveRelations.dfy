/** Relational properties of assembly: verdicts are not values, what a fold collects, what an
    absent credential removes, stability, and reordering. */
module DeriveRelations {
  import opened Json
  import opened DerivePlan
  import opened DeriveEval

  // ---- Verdicts never escape as values ----

  /** Two vocabularies that agree except on which non-True answer a key consumer gives. */
  ghost predicate SameVerdicts(v: Vocabulary, w: Vocabulary) {
    && v.names == w.names
    && (forall fn, args :: fn !in KEY_CONSUMING ==> v.call(fn, args) == w.call(fn, args))
    && (forall fn, args :: v.call(fn, args) == Returned(Bool(true)) <==> w.call(fn, args) == Returned(Bool(true)))
    && (forall fn, args :: v.call(fn, args) == Raised <==> w.call(fn, args) == Raised)
  }

  lemma {:induction false} ArgSameVerdicts(v: Vocabulary, w: Vocabulary, spec: Spec, item: Json)
    requires SameVerdicts(v, w)
    ensures EvalArg(v, spec, item) == EvalArg(w, spec, item)
    decreases spec
  {
    match spec
    case Value(_) =>
    case Item(_) =>
    case List(elements) => ArgsSameVerdicts(v, w, elements, item);
    case Apply(_, args) => ArgsSameVerdicts(v, w, args, item);
  }

  lemma {:induction false} ArgsSameVerdicts(v: Vocabulary, w: Vocabulary, specs: seq<Spec>, item: Json)
    requires SameVerdicts(v, w)
    ensures EvalArgs(v, specs, item) == EvalArgs(w, specs, item)
    decreases specs
  {
    if specs != [] {
      ArgSameVerdicts(v, w, specs[0], item);
      ArgsSameVerdicts(v, w, specs[1..], item);
    }
  }

  lemma WitnessSameVerdicts(v: Vocabulary, w: Vocabulary, fn: string, args: seq<Spec>, project: string, item: Json)
    requires SameVerdicts(v, w)
    ensures Witness(v, fn, args, project, item) == Witness(w, fn, args, project, item)
  {
    ArgsSameVerdicts(v, w, args, item);
    var evaluated := EvalArgs(v, args, item);
    if evaluated.Ok? {
      assert v.call(fn, evaluated.value) == Raised <==> w.call(fn, evaluated.value) == Raised;
      assert v.call(fn, evaluated.value) == Returned(Bool(true)) <==> w.call(fn, evaluated.value) == Returned(Bool(true));
    }
  }

  lemma {:induction false} FoldSameVerdicts(v: Vocabulary, w: Vocabulary, fn: string, args: seq<Spec>, project: string, items: seq<Json>)
    requires SameVerdicts(v, w)
    ensures FoldOver(v, fn, args, project, items) == FoldOver(w, fn, args, project, items)
    decreases |items|
  {
    if items != [] {
      FoldSameVerdicts(v, w, fn, args, project, items[..|items| - 1]);
      WitnessSameVerdicts(v, w, fn, args, project, items[|items| - 1]);
    }
  }

  lemma CallSameVerdicts(v: Vocabulary, w: Vocabulary, call: Call)
    requires SameVerdicts(v, w)
    ensures EvalCall(v, call) == EvalCall(w, call)
  {
    if call.fold.Some? && call.fold.value.over.Arr? {
      FoldSameVerdicts(v, w, call.fn, call.args, call.fold.value.project, call.fold.value.over.items);
    } else {
      ArgsSameVerdicts(v, w, call.args, Null);
    }
  }

  /** Replacing a key consumer's non-True answers by other non-True answers changes nothing of
      what is assembled, for any plan and context. */
  lemma {:induction false} VerdictsStayInside(v: Vocabulary, w: Vocabulary, ctx: Context, entries: seq<Entry>, doc: Doc)
    requires SameVerdicts(v, w)
    ensures AssembleFrom(v, ctx, entries, doc) == AssembleFrom(w, ctx, entries, doc)
    decreases |entries|
  {
    if entries != [] {
      var e := entries[0];
      assert EntryEffect(v, ctx, e, doc) == EntryEffect(w, ctx, e, doc) by {
        if e.source.Derive? && ResolveDerive(e.source.keys, doc).Resolved? {
          CallSameVerdicts(v, w, ResolveDerive(e.source.keys, doc).value);
        }
      }
      match EntryEffect(v, ctx, e, doc)
      case Put(x) => VerdictsStayInside(v, w, ctx, entries[1..], doc[e.field := x]);
      case Omit => VerdictsStayInside(v, w, ctx, entries[1..], doc);
      case Abort(_) =>
    }
  }

  // ---- What a fold collects ----

  /** The candidate's arguments are defined and the primitive answers True for them. */
  predicate Verified(voc: Vocabulary, fn: string, args: seq<Spec>, item: Json) {
    EvalArgs(voc, args, item).Ok? && voc.call(fn, EvalArgs(voc, args, item).value) == Returned(Bool(true))
  }

  /** Nothing about the candidate is a fault. */
  predicate Faultless(voc: Vocabulary, fn: string, args: seq<Spec>, project: string, item: Json) {
    && !EvalArgs(voc, args, item).Fails?
    && (EvalArgs(voc, args, item).Ok? ==> voc.call(fn, EvalArgs(voc, args, item).value) != Raised)
    && (Verified(voc, fn, args, item) ==> Project(item, project).Ok?)
  }

  function VerifiedAmong(voc: Vocabulary, fn: string, args: seq<Spec>, items: seq<Json>): (r: seq<Json>)
    ensures forall x :: x in r <==> x in items && Verified(voc, fn, args, x)
  {
    if items == [] then []
    else
      var rest := VerifiedAmong(voc, fn, args, items[..|items| - 1]);
      if Verified(voc, fn, args, items[|items| - 1]) then rest + [items[|items| - 1]] else rest
  }

  /** A fold completes exactly when no candidate faults, and then holds the projection of each
      verified candidate, in order. */
  lemma {:induction false} FoldExactly(voc: Vocabulary, fn: string, args: seq<Spec>, project: string, items: seq<Json>)
    ensures var r, verified := FoldOver(voc, fn, args, project, items), VerifiedAmong(voc, fn, args, items);
      && (r.Ok? <==> forall x :: x in items ==> Faultless(voc, fn, args, project, x))
      && (r.Ok? ==> |r.value| == |verified| && forall k :: 0 <= k < |verified| ==> Project(verified[k], project) == Ok(r.value[k]))
    decreases |items|
  {
    if items != [] {
      var init, last := items[..|items| - 1], items[|items| - 1];
      FoldExactly(voc, fn, args, project, init);
      assert items == init + [last];
      assert Witness(voc, fn, args, project, last).Ok? <==> Faultless(voc, fn, args, project, last);
    }
  }

  // ---- Which fields an entry reads ----

  function PathRef(path: Json): set<string> {
    if path.Str? then {Head(path.s)} else {}
  }

  function ArgRefs(arg: Json): set<string>
    decreases arg
  {
    match arg
    case Arr(items) => ArgsRefs(items)
    case Obj(fields) =>
      if Has(fields, INPUT) then PathRef(Get(fields, INPUT))
      else if Has(fields, ITEM) then {}
      else if Has(fields, APPLY) then ApplyRefs(Get(fields, APPLY))
      else {}
    case _ => {}
  }

  function ApplyRefs(inner: Json): set<string>
    decreases inner
  {
    if inner.Obj? && Has(inner.fields, "args") && Get(inner.fields, "args").Arr? then ArgsRefs(Get(inner.fields, "args").items)
    else {}
  }

  function ArgsRefs(args: seq<Json>): set<string>
    decreases args
  {
    if args == [] then {} else ArgRefs(args[0]) + ArgsRefs(args[1..])
  }

  function CandidateRefs(node: Json): set<string>
    decreases node
  {
    match node
    case Arr(items) => CandidatesRefs(items)
    case Obj(fields) => if Has(fields, INPUT) then PathRef(Get(fields, INPUT)) else FieldsRefs(fields)
    case _ => {}
  }

  function CandidatesRefs(nodes: seq<Json>): set<string>
    decreases nodes
  {
    if nodes == [] then {} else CandidateRefs(nodes[0]) + CandidatesRefs(nodes[1..])
  }

  function FieldsRefs(fields: seq<Field>): set<string>
    decreases fields
  {
    if fields == [] then {} else CandidateRefs(fields[0].value) + FieldsRefs(fields[1..])
  }

  function ParamsRefs(params: seq<(string, Param)>): set<string> {
    if params == [] then {}
    else
      ParamsRefs(params[..|params| - 1])
      + if params[|params| - 1].1.Input? then {Head(params[|params| - 1].1.path)} else {}
  }

  /** The fields an entry `$input`-references: in its parameters, its arguments at any nesting,
      and its candidates. */
  function Refs(e: Entry): set<string> {
    match e.source
    case Fetch(_, params) => ParamsRefs(params)
    case Derive(keys) =>
      (if ArgsOf(keys).Arr? then ArgsRefs(ArgsOf(keys).items) else {})
      + (if !Has(keys, "over") then {}
         else if Get(keys, "over").Arr? then CandidateRefs(Get(keys, "over"))
         else ArgRefs(Get(keys, "over")))
  }

  ghost predicate AgreeOn(d: Doc, d': Doc, refs: set<string>) {
    forall k :: k in refs ==> (k in d <==> k in d') && (k in d ==> d[k] == d'[k])
  }

  ghost predicate Within(d': Doc, d: Doc) {
    forall k :: k in d' ==> k in d && d'[k] == d[k]
  }

  /** How resolution on two documents compares: it reads only `refs`; on a smaller document it is
      the same or waits; and it succeeds only when all of `refs` are there. */
  ghost predicate Framed<T>(r: Ready<T>, r': Ready<T>, refs: set<string>, d: Doc, d': Doc) {
    && (AgreeOn(d, d', refs) ==> r == r')
    && (Within(d', d) ==> r' == r || r'.NotYet?)
    && (r.Resolved? ==> refs <= d.Keys)
  }

  lemma {:induction false} ArgFramed(arg: Json, d: Doc, d': Doc)
    ensures Framed(ResolveArg(arg, d), ResolveArg(arg, d'), ArgRefs(arg), d, d')
    decreases arg
  {
    match arg
    case Arr(items) => ArgsFramed(items, d, d');
    case Obj(fields) =>
      if !Has(fields, INPUT) && !Has(fields, ITEM) && Has(fields, APPLY) {
        ApplyFramed(Get(fields, APPLY), d, d');
      }
    case _ =>
  }

  lemma {:induction false} ApplyFramed(inner: Json, d: Doc, d': Doc)
    ensures Framed(ResolveApply(inner, d), ResolveApply(inner, d'), ApplyRefs(inner), d, d')
    decreases inner
  {
    if inner.Obj? && Has(inner.fields, "args") && Get(inner.fields, "args").Arr? {
      ArgsFramed(Get(inner.fields, "args").items, d, d');
    }
  }

  lemma {:induction false} ArgsFramed(args: seq<Json>, d: Doc, d': Doc)
    ensures Framed(ResolveArgs(args, d), ResolveArgs(args, d'), ArgsRefs(args), d, d')
    decreases args
  {
    if args != [] {
      ArgFramed(args[0], d, d');
      ArgsFramed(args[1..], d, d');
    }
  }

  lemma {:induction false} CandidateFramed(node: Json, d: Doc, d': Doc)
    ensures Framed(ResolveCandidate(node, d), ResolveCandidate(node, d'), CandidateRefs(node), d, d')
    decreases node
  {
    match node
    case Arr(items) => CandidatesFramed(items, d, d');
    case Obj(fields) =>
      if !Has(fields, INPUT) {
        FieldsFramed(fields, d, d');
      }
    case _ =>
  }

  lemma {:induction false} CandidatesFramed(nodes: seq<Json>, d: Doc, d': Doc)
    ensures Framed(ResolveCandidates(nodes, d), ResolveCandidates(nodes, d'), CandidatesRefs(nodes), d, d')
    decreases nodes
  {
    if nodes != [] {
      CandidateFramed(nodes[0], d, d');
      CandidatesFramed(nodes[1..], d, d');
    }
  }

  lemma {:induction false} FieldsFramed(fields: seq<Field>, d: Doc, d': Doc)
    ensures Framed(ResolveFields(fields, d), ResolveFields(fields, d'), FieldsRefs(fields), d, d')
    decreases fields
  {
    if fields != [] {
      CandidateFramed(fields[0].value, d, d');
      FieldsFramed(fields[1..], d, d');
    }
  }

  lemma {:induction false} ParamsFramed(params: seq<(string, Param)>, d: Doc, d': Doc)
    ensures Framed(ResolveParams(params, d), ResolveParams(params, d'), ParamsRefs(params), d, d')
    decreases |params|
  {
    if params != [] {
      ParamsFramed(params[..|params| - 1], d, d');
    }
  }

  lemma DeriveFramed(keys: seq<Field>, d: Doc, d': Doc)
    ensures Framed(ResolveDerive(keys, d), ResolveDerive(keys, d'), Refs(Entry("", Derive(keys), false)), d, d')
  {
    if ArgsOf(keys).Arr? {
      ArgsFramed(ArgsOf(keys).items, d, d');
      if Has(keys, "over") {
        OverFramed(Get(keys, "over"), d, d');
      }
    }
  }

  lemma OverFramed(over: Json, d: Doc, d': Doc)
    ensures Framed(ResolveOver(over, d), ResolveOver(over, d'),
                   if over.Arr? then CandidateRefs(over) else ArgRefs(over), d, d')
  {
    if over.Arr? {
      CandidateFramed(over, d, d');
    } else {
      ArgFramed(over, d, d');
    }
  }

  /** An entry's effect reads only the fields it references; on a smaller document it is the same
      or the field is omitted; and it puts a value only when all it references is there. */
  lemma EntryFramed(voc: Vocabulary, ctx: Context, e: Entry, d: Doc, d': Doc)
    ensures AgreeOn(d, d', Refs(e)) ==> EntryEffect(voc, ctx, e, d') == EntryEffect(voc, ctx, e, d)
    ensures Within(d', d) ==> EntryEffect(voc, ctx, e, d') == EntryEffect(voc, ctx, e, d) || EntryEffect(voc, ctx, e, d').Omit?
    ensures EntryEffect(voc, ctx, e, d).Put? ==> Refs(e) <= d.Keys
  {
    match e.source
    case Fetch(_, params) => ParamsFramed(params, d, d');
    case Derive(keys) => DeriveFramed(keys, d, d');
  }

  // ---- An absent optional credential ----

  /** `g` is `f`, or an entry of the plan named `g` references a field that refers to `f`. */
  least predicate RefersTo(plan: seq<Entry>, g: string, f: string) {
    g == f || exists e, h :: e in plan && e.field == g && h in Refs(e) && RefersTo(plan, h, f)
  }

  /** The part of a document that does not refer to `f`. */
  ghost function Without(plan: seq<Entry>, doc: Doc, f: string): Doc {
    map k | k in doc && !RefersTo(plan, k, f) :: doc[k]
  }

  /** Every entry of the field is an optional call credential. */
  ghost predicate OptionalCredential(plan: seq<Entry>, f: string) {
    forall e :: e in plan && e.field == f ==> e.source.Fetch? && e.source.kind == CallKind && e.optional
  }

  function Absent(ctx: Context, f: string): Context {
    ctx.(envelope := map k | k in ctx.envelope && k != f :: ctx.envelope[k])
  }

  lemma CredentialOmitted(voc: Vocabulary, ctx: Context, e: Entry, doc: Doc)
    requires e.source.Fetch? && e.source.kind == CallKind && e.optional
    ensures EntryEffect(voc, Absent(ctx, e.field), e, doc) == Omit
  {
    ParamsFramed(e.source.params, doc, doc);
    ParamsResolve(e.source.params, doc);
  }

  lemma OtherFieldsSame(voc: Vocabulary, ctx: Context, f: string, e: Entry, doc: Doc)
    requires e.field != f
    ensures EntryEffect(voc, Absent(ctx, f), e, doc) == EntryEffect(voc, ctx, e, doc)
  {
  }

  lemma UniqueEntry(plan: seq<Entry>, e: Entry, e': Entry)
    requires UniqueFields(plan) && e in plan && e' in plan && e.field == e'.field
    ensures e == e'
  {
  }

  /** One entry without the credential: what does not refer to it is put as before, and
      everything else is omitted. */
  lemma StepWithout(voc: Vocabulary, ctx: Context, plan: seq<Entry>, f: string, e: Entry, doc: Doc)
    requires UniqueFields(plan) && OptionalCredential(plan, f) && e in plan
    requires !EntryEffect(voc, ctx, e, doc).Abort?
    ensures var r, r' := EntryEffect(voc, ctx, e, doc), EntryEffect(voc, Absent(ctx, f), e, Without(plan, doc, f));
      if r.Put? && !RefersTo(plan, e.field, f) then r' == r else r' == Omit
  {
    var doc' := Without(plan, doc, f);
    if e.field == f {
      CredentialOmitted(voc, ctx, e, doc');
    } else {
      OtherFieldsSame(voc, ctx, f, e, doc');
      EntryFramed(voc, ctx, e, doc, doc');
      EntryFramed(voc, ctx, e, doc', doc);
      if EntryEffect(voc, ctx, e, doc).Put? {
        if RefersTo(plan, e.field, f) {
          var e', h :| e' in plan && e'.field == e.field && h in Refs(e') && RefersTo(plan, h, f);
          UniqueEntry(plan, e, e');
        } else {
          assert forall h :: h in Refs(e) ==> !RefersTo(plan, h, f);
          assert AgreeOn(doc, doc', Refs(e));
        }
      }
    }
  }

  lemma {:induction false} WalkWithout(voc: Vocabulary, ctx: Context, plan: seq<Entry>, f: string, entries: seq<Entry>, doc: Doc)
    requires UniqueFields(plan) && OptionalCredential(plan, f)
    requires forall e :: e in entries ==> e in plan
    requires AssembleFrom(voc, ctx, entries, doc).Assembled?
    ensures AssembleFrom(voc, Absent(ctx, f), entries, Without(plan, doc, f))
         == Assembled(Without(plan, AssembleFrom(voc, ctx, entries, doc).doc, f))
    decreases |entries|
  {
    hide EntryEffect;
    if entries != [] {
      var e := entries[0];
      StepWithout(voc, ctx, plan, f, e, doc);
      match EntryEffect(voc, ctx, e, doc)
      case Put(v) =>
        assert Without(plan, doc[e.field := v], f)
            == if RefersTo(plan, e.field, f) then Without(plan, doc, f) else Without(plan, doc, f)[e.field := v];
        WalkWithout(voc, ctx, plan, f, entries[1..], doc[e.field := v]);
      case Omit => WalkWithout(voc, ctx, plan, f, entries[1..], doc);
      case Abort(_) =>
    }
  }

  /** Removing an optional call credential never turns a completed assembly into a failure: the
      result is the old document restricted to the fields that do not transitively refer to it. */
  lemma CredentialRemoved(voc: Vocabulary, ctx: Context, plan: seq<Entry>, f: string)
    requires UniqueFields(plan) && OptionalCredential(plan, f)
    requires Assemble(voc, ctx, plan).Assembled?
    ensures Assemble(voc, Absent(ctx, f), plan) == Assembled(Without(plan, Assemble(voc, ctx, plan).doc, f))
  {
    WalkWithout(voc, ctx, plan, f, plan, map[]);
    assert Without(plan, map[], f) == map[];
  }

  // ---- Stability ----

  ghost predicate Fresh(entries: seq<Entry>, doc: Doc) {
    forall e :: e in entries ==> e.field !in doc
  }

  lemma {:induction false} Grows(voc: Vocabulary, ctx: Context, entries: seq<Entry>, doc: Doc)
    requires UniqueFields(entries) && Fresh(entries, doc) && AssembleFrom(voc, ctx, entries, doc).Assembled?
    ensures Within(doc, AssembleFrom(voc, ctx, entries, doc).doc)
    ensures forall k :: k in AssembleFrom(voc, ctx, entries, doc).doc ==> k in doc || exists e :: e in entries && e.field == k
    decreases |entries|
  {
    hide EntryEffect;
    if entries != [] {
      var e, rest := entries[0], entries[1..];
      assert forall x :: x in rest ==> x in entries && x.field != e.field;
      match EntryEffect(voc, ctx, e, doc)
      case Put(v) => Grows(voc, ctx, rest, doc[e.field := v]);
      case Omit => Grows(voc, ctx, rest, doc);
      case Abort(_) =>
    }
  }

  /** With unique field names the document is a fixed point: every entry that is present resolves
      against the final document to the value it has there. */
  lemma {:induction false} Stable(voc: Vocabulary, ctx: Context, entries: seq<Entry>, doc: Doc, e: Entry)
    requires UniqueFields(entries) && Fresh(entries, doc) && AssembleFrom(voc, ctx, entries, doc).Assembled?
    requires e in entries && e.field in AssembleFrom(voc, ctx, entries, doc).doc
    ensures var final := AssembleFrom(voc, ctx, entries, doc).doc;
      EntryEffect(voc, ctx, e, final) == Put(final[e.field])
    decreases |entries|
  {
    hide EntryEffect, Refs;
    var first, rest := entries[0], entries[1..];
    assert forall x :: x in rest ==> x in entries && x.field != first.field;
    var effect := EntryEffect(voc, ctx, first, doc);
    var next := if effect.Put? then doc[first.field := effect.value] else doc;
    var final := AssembleFrom(voc, ctx, rest, next).doc;
    Grows(voc, ctx, rest, next);
    if e == first {
      assert effect.Put?;
      EntryFramed(voc, ctx, e, doc, final);
      assert AgreeOn(doc, final, Refs(e));
    } else {
      Stable(voc, ctx, rest, next, e);
    }
  }

  // ---- Reordering ----

  /** Neither entry reads the other's field. */
  ghost predicate Independent(a: Entry, b: Entry) {
    a.field != b.field && a.field !in Refs(b) && b.field !in Refs(a)
  }

  /** Both fail, or both complete with the same document. */
  ghost predicate SameAssembly(a: Assembly, b: Assembly) {
    a == b || (a.Failed? && b.Failed?)
  }

  lemma Unaffected(voc: Vocabulary, ctx: Context, a: Entry, b: Entry, doc: Doc, v: Json)
    requires Independent(a, b)
    ensures EntryEffect(voc, ctx, b, doc[a.field := v]) == EntryEffect(voc, ctx, b, doc)
  {
    EntryFramed(voc, ctx, b, doc, doc[a.field := v]);
  }

  lemma FirstTwo(voc: Vocabulary, ctx: Context, a: Entry, b: Entry, rest: seq<Entry>, doc: Doc)
    ensures AssembleFrom(voc, ctx, [a, b] + rest, doc) ==
      match EntryEffect(voc, ctx, a, doc)
      case Put(v) => AssembleFrom(voc, ctx, [b] + rest, doc[a.field := v])
      case Omit => AssembleFrom(voc, ctx, [b] + rest, doc)
      case Abort(f) => Failed(f)
    ensures AssembleFrom(voc, ctx, [b] + rest, doc) ==
      match EntryEffect(voc, ctx, b, doc)
      case Put(v) => AssembleFrom(voc, ctx, rest, doc[b.field := v])
      case Omit => AssembleFrom(voc, ctx, rest, doc)
      case Abort(f) => Failed(f)
  {
    hide EntryEffect;
    assert ([a, b] + rest)[1..] == [b] + rest;
    assert ([b] + rest)[1..] == rest;
  }

  lemma Swap(voc: Vocabulary, ctx: Context, a: Entry, b: Entry, rest: seq<Entry>, doc: Doc)
    requires Independent(a, b)
    ensures SameAssembly(AssembleFrom(voc, ctx, [a, b] + rest, doc), AssembleFrom(voc, ctx, [b, a] + rest, doc))
  {
    hide EntryEffect, Refs;
    var ea, eb := EntryEffect(voc, ctx, a, doc), EntryEffect(voc, ctx, b, doc);
    FirstTwo(voc, ctx, a, b, rest, doc);
    FirstTwo(voc, ctx, b, a, rest, doc);
    if ea.Put? {
      Unaffected(voc, ctx, a, b, doc, ea.value);
      FirstTwo(voc, ctx, a, b, rest, doc[a.field := ea.value]);
    }
    if eb.Put? {
      Unaffected(voc, ctx, b, a, doc, eb.value);
      FirstTwo(voc, ctx, b, a, rest, doc[b.field := eb.value]);
    }
    if ea.Put? && eb.Put? {
      assert doc[a.field := ea.value][b.field := eb.value] == doc[b.field := eb.value][a.field := ea.value];
    }
  }

  /** An entry can move to the front past entries it is independent of. */
  lemma {:induction false} MoveToFront(voc: Vocabulary, ctx: Context, pre: seq<Entry>, x: Entry, post: seq<Entry>, doc: Doc)
    requires forall a :: a in pre ==> Independent(a, x)
    ensures SameAssembly(AssembleFrom(voc, ctx, pre + [x] + post, doc), AssembleFrom(voc, ctx, [x] + pre + post, doc))
    decreases |pre|
  {
    hide EntryEffect, Refs, AssembleFrom;
    if pre == [] {
      assert pre + [x] + post == [x] + pre + post;
    } else {
      var a, rest := pre[0], pre[1..];
      var next := match EntryEffect(voc, ctx, a, doc) case Put(v) => doc[a.field := v] case _ => doc;
      MoveToFront(voc, ctx, rest, x, post, next);
      SameHead(voc, ctx, a, rest + [x] + post, [x] + rest + post, doc, next);
      assert pre + [x] + post == [a] + (rest + [x] + post);
      assert [a] + ([x] + rest + post) == [a, x] + (rest + post);
      Swap(voc, ctx, a, x, rest + post, doc);
      assert [x, a] + (rest + post) == [x] + pre + post;
    }
  }

  /** `a` comes before `b`. */
  ghost predicate Before(entries: seq<Entry>, a: Entry, b: Entry) {
    exists i, j :: 0 <= i < j < |entries| && entries[i] == a && entries[j] == b
  }

  /** Entries that are not independent keep their order. */
  ghost predicate KeepsOrder(p: seq<Entry>, q: seq<Entry>) {
    forall i, j :: 0 <= i < j < |p| && !Independent(p[i], p[j]) ==> Before(q, p[i], p[j])
  }

  lemma AfterFirst(q: seq<Entry>, a: Entry, b: Entry)
    requires UniqueFields(q) && q != [] && Before(q, a, b)
    ensures b != q[0]
    ensures a != q[0] ==> Before(q[1..], a, b)
  {
    var i, j :| 0 <= i < j < |q| && q[i] == a && q[j] == b;
    if a != q[0] {
      assert q[1..][i - 1] == a && q[1..][j - 1] == b;
    }
  }

  lemma KeepsOrderRest(p: seq<Entry>, q: seq<Entry>, i: nat)
    requires UniqueFields(p) && UniqueFields(q) && KeepsOrder(p, q) && i < |p| && q != [] && p[i] == q[0]
    ensures KeepsOrder(p[..i] + p[i + 1..], q[1..])
    ensures forall a :: a in p[..i] ==> Independent(a, p[i])
  {
    var r := p[..i] + p[i + 1..];
    forall k, l | 0 <= k < l < |r| && !Independent(r[k], r[l])
      ensures Before(q[1..], r[k], r[l])
    {
      var k', l' := if k < i then k else k + 1, if l < i then l else l + 1;
      assert p[k'] == r[k] && p[l'] == r[l];
      AfterFirst(q, r[k], r[l]);
    }
    forall a | a in p[..i]
      ensures Independent(a, p[i])
    {
      var k :| 0 <= k < i && p[..i][k] == a;
      if !Independent(p[k], p[i]) {
        AfterFirst(q, p[k], p[i]);
      }
    }
  }

  /** Order independence: with unique field names, a permutation that keeps the relative order of
      entries that read each other completes exactly when the original does, with the same
      document. */
  lemma {:induction false} Reordered(voc: Vocabulary, ctx: Context, p: seq<Entry>, q: seq<Entry>, doc: Doc)
    requires UniqueFields(p) && multiset(p) == multiset(q) && KeepsOrder(p, q)
    ensures SameAssembly(AssembleFrom(voc, ctx, p, doc), AssembleFrom(voc, ctx, q, doc))
    decreases |q|
  {
    hide EntryEffect, Refs, UniqueFields, KeepsOrder;
    UniquePermutation(p, q);
    if q == [] {
      assert |multiset(p)| == 0;
    } else {
      var i := PermutationHead(p, q);
      var x, pre, post := p[i], p[..i], p[i + 1..];
      KeepsOrderRest(p, q, i);
      UniqueRest(p, i);
      UniqueRest(q, 0);
      MoveToFront(voc, ctx, pre, x, post, doc);
      var effect := EntryEffect(voc, ctx, x, doc);
      var next := if effect.Put? then doc[x.field := effect.value] else doc;
      Reordered(voc, ctx, pre + post, q[1..], next);
      assert [x] + pre + post == [x] + (pre + post);
      SameHead(voc, ctx, x, pre + post, q[1..], doc, next);
    }
  }

  lemma PermutationHead(p: seq<Entry>, q: seq<Entry>) returns (i: nat)
    requires multiset(p) == multiset(q) && q != []
    ensures i < |p| && p[i] == q[0] && multiset(p[..i] + p[i + 1..]) == multiset(q[1..])
    ensures p == p[..i] + [p[i]] + p[i + 1..] && q == [p[i]] + q[1..]
  {
    assert q[0] in multiset(p);
    i :| 0 <= i < |p| && p[i] == q[0];
    TakeOut(p, i);
    FirstOut(q);
  }

  lemma FirstOut(q: seq<Entry>)
    requires q != []
    ensures q == [q[0]] + q[1..]
    ensures multiset(q[1..]) == multiset(q) - multiset{q[0]}
  {
    assert q == [q[0]] + q[1..];
  }

  lemma TakeOut(p: seq<Entry>, i: nat)
    requires i < |p|
    ensures p == p[..i] + [p[i]] + p[i + 1..]
    ensures multiset(p[..i] + p[i + 1..]) == multiset(p) - multiset{p[i]}
  {
    assert p == p[..i] + [p[i]] + p[i + 1..];
  }

  lemma SameHead(voc: Vocabulary, ctx: Context, x: Entry, r: seq<Entry>, s: seq<Entry>, doc: Doc, next: Doc)
    requires next == match EntryEffect(voc, ctx, x, doc) case Put(v) => doc[x.field := v] case _ => doc
    requires SameAssembly(AssembleFrom(voc, ctx, r, next), AssembleFrom(voc, ctx, s, next))
    ensures SameAssembly(AssembleFrom(voc, ctx, [x] + r, doc), AssembleFrom(voc, ctx, [x] + s, doc))
  {
    hide EntryEffect;
    assert ([x] + r)[1..] == r && ([x] + s)[1..] == s;
  }

  lemma UniqueRest(p: seq<Entry>, i: nat)
    requires UniqueFields(p) && i < |p|
    ensures UniqueFields(p[..i] + p[i + 1..])
    ensures i == 0 ==> UniqueFields(p[1..])
  {
  }

  lemma UniquePermutation(p: seq<Entry>, q: seq<Entry>)
    requires UniqueFields(p) && multiset(p) == multiset(q)
    ensures UniqueFields(q)
  {
    forall i, j | 0 <= i < j < |q|
      ensures q[i].field != q[j].field
    {
      if q[i].field == q[j].field {
        assert q[i] in multiset(p) && q[j] in multiset(p);
        UniqueEntry(p, q[i], q[j]);
        Twice(q, i, j);
        AtMostOnce(p, q[i]);
      }
    }
  }

  lemma Twice(q: seq<Entry>, i: nat, j: nat)
    requires i < j < |q| && q[i] == q[j]
    ensures multiset(q)[q[i]] >= 2
  {
    assert q == q[..i] + [q[i]] + q[i + 1..j] + [q[j]] + q[j + 1..];
  }

  lemma AtMostOnce(p: seq<Entry>, e: Entry)
    requires UniqueFields(p)
    ensures multiset(p)[e] <= 1
  {
    if e in multiset(p) {
      var k :| 0 <= k < |p| && p[k] == e;
      assert p == p[..k] + [e] + p[k + 1..];
    }
  }
}
