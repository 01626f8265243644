/** Assembling the closed policy input: `$input` resolution, the `derive` evaluator, and the
    entry-by-entry walk. */
module DeriveEval {
  import opened Prelude
  import opened Json
  import opened DerivePlan

  /** What a primitive does: it returns a JSON value (Null reads as "could not read its operand"),
      or it raises. */
  datatype Reply = Returned(value: Json) | Raised

  datatype Vocabulary = Vocabulary(names: set<string>, call: (string, seq<Json>) -> Reply)

  /** The shapes the load-time check exists to rule out. */
  datatype Shape =
    | BareKey             // a key primitive applied outside a fold
    | NestedKey           // a key consumer inside `$apply`
    | UnknownPrimitive
    | ItemOutsideFold
    | MalformedOver       // neither a reference nor a literal list
    | Malformed           // a value of the wrong type where the evaluator reads a name or a path

  /** A fault of the data, or of the plan's shape. */
  datatype Fault =
    | BadShape(shape: Shape)
    | OverNotAList
    | CandidateField
    | PrimitiveRaised
    | Unavailable         // a fetched source that has nothing to give
    | NoResolver

  datatype Res<+T> = Ok(value: T) | Undefined | Fails(fault: Fault) {
    predicate IsFailure() {
      !Ok?
    }

    function PropagateFailure<U>(): Res<U>
      requires IsFailure()
    {
      if Undefined? then Undefined else Fails(fault)
    }

    function Extract(): T
      requires Ok?
    {
      value
    }
  }

  // ---- The parameter phase ----

  /** An argument with its `$input` references resolved. */
  datatype Spec =
    | Value(value: Json)
    | List(elements: seq<Spec>)
    | Item(path: string)
    | Apply(fn: string, args: seq<Spec>)

  datatype Fold = Fold(over: Json, project: string)

  datatype Call = Call(fn: string, args: seq<Spec>, fold: Option<Fold>)

  /** Outcome of the parameter phase: resolved, or a path that is not there (yet), or a shape the
      resolver cannot walk. */
  datatype Ready<+T> = Resolved(value: T) | NotYet | Bad(shape: Shape) {
    predicate IsFailure() {
      !Resolved?
    }

    function PropagateFailure<U>(): Ready<U>
      requires IsFailure()
    {
      if NotYet? then NotYet else Bad(shape)
    }

    function Extract(): T
      requires Resolved?
    {
      value
    }
  }

  function Reference(doc: Doc, path: Json): Ready<Json> {
    if !path.Str? then Bad(Malformed)
    else
      match NavigateDoc(doc, path.s)
      case Some(v) => Resolved(v)
      case None => NotYet
  }

  function ResolveArg(arg: Json, doc: Doc): Ready<Spec>
    decreases arg
  {
    match arg
    case Arr(items) =>
      var specs :- ResolveArgs(items, doc);
      Resolved(List(specs))
    case Obj(fields) =>
      if Has(fields, INPUT) then
        var v :- Reference(doc, Get(fields, INPUT));
        Resolved(Value(v))
      else if Has(fields, ITEM) then
        if Get(fields, ITEM).Str? then Resolved(Item(Get(fields, ITEM).s)) else Bad(Malformed)
      else if Has(fields, APPLY) then ResolveApply(Get(fields, APPLY), doc)
      else Resolved(Value(arg))
    case _ => Resolved(Value(arg))
  }

  function ResolveApply(inner: Json, doc: Doc): Ready<Spec>
    decreases inner
  {
    if !inner.Obj? || !Has(inner.fields, "fn") || !Get(inner.fields, "fn").Str? then Bad(Malformed)
    else if !Has(inner.fields, "args") then Resolved(Apply(Get(inner.fields, "fn").s, []))
    else if !Get(inner.fields, "args").Arr? then Bad(Malformed)
    else
      var specs :- ResolveArgs(Get(inner.fields, "args").items, doc);
      Resolved(Apply(Get(inner.fields, "fn").s, specs))
  }

  function ResolveArgs(args: seq<Json>, doc: Doc): (r: Ready<seq<Spec>>)
    decreases args
  {
    if args == [] then Resolved([])
    else
      var spec :- ResolveArg(args[0], doc);
      var specs :- ResolveArgs(args[1..], doc);
      Resolved([spec] + specs)
  }

  /** A literal candidate with its `$input` leaves resolved, at any depth. */
  function ResolveCandidate(node: Json, doc: Doc): Ready<Json>
    decreases node
  {
    match node
    case Arr(items) =>
      var vs :- ResolveCandidates(items, doc);
      Resolved(Arr(vs))
    case Obj(fields) =>
      if Has(fields, INPUT) then Reference(doc, Get(fields, INPUT))
      else
        var fs :- ResolveFields(fields, doc);
        Resolved(Obj(fs))
    case _ => Resolved(node)
  }

  function ResolveCandidates(nodes: seq<Json>, doc: Doc): Ready<seq<Json>>
    decreases nodes
  {
    if nodes == [] then Resolved([])
    else
      var v :- ResolveCandidate(nodes[0], doc);
      var vs :- ResolveCandidates(nodes[1..], doc);
      Resolved([v] + vs)
  }

  function ResolveFields(fields: seq<Field>, doc: Doc): Ready<seq<Field>>
    decreases fields
  {
    if fields == [] then Resolved([])
    else
      var v :- ResolveCandidate(fields[0].value, doc);
      var fs :- ResolveFields(fields[1..], doc);
      Resolved([Field(fields[0].key, v)] + fs)
  }

  function ResolveOver(over: Json, doc: Doc): Ready<Json> {
    if over.Arr? then ResolveCandidate(over, doc)
    else
      var spec :- ResolveArg(over, doc);
      if spec.Value? then Resolved(spec.value) else Bad(MalformedOver)
  }

  /** `source.get("project")`: a missing one projects the whole element. */
  function ProjectOf(keys: seq<Field>): Ready<string> {
    if !Has(keys, "project") || Get(keys, "project").Null? then Resolved("")
    else if Get(keys, "project").Str? then Resolved(Get(keys, "project").s)
    else Bad(Malformed)
  }

  function ResolveDerive(keys: seq<Field>, doc: Doc): Ready<Call> {
    if !Has(keys, "fn") || !Get(keys, "fn").Str? || !ArgsOf(keys).Arr? then Bad(Malformed)
    else
      var args :- ResolveArgs(ArgsOf(keys).items, doc);
      if !Has(keys, "over") then Resolved(Call(Get(keys, "fn").s, args, None))
      else
        var over :- ResolveOver(Get(keys, "over"), doc);
        var project :- ProjectOf(keys);
        Resolved(Call(Get(keys, "fn").s, args, Some(Fold(over, project))))
  }

  function ResolveParams(params: seq<(string, Param)>, doc: Doc): Ready<map<string, Json>> {
    if params == [] then Resolved(map[])
    else
      var m :- ResolveParams(params[..|params| - 1], doc);
      var (key, param) := params[|params| - 1];
      match param
      case Literal(v) => Resolved(m[key := v])
      case Input(path) =>
        var v :- Reference(doc, Str(path));
        Resolved(m[key := v])
  }

  lemma {:induction false} ParamsResolve(params: seq<(string, Param)>, doc: Doc)
    ensures !ResolveParams(params, doc).Bad?
    decreases |params|
  {
    if params != [] {
      ParamsResolve(params[..|params| - 1], doc);
    }
  }

  // ---- The derive evaluator ----

  function Invoke(voc: Vocabulary, fn: string, args: seq<Json>): Res<Json> {
    match voc.call(fn, args)
    case Raised => Fails(PrimitiveRaised)
    case Returned(v) => Ok(v)
  }

  /** An application whose answer is a value: None reads as undefined. */
  function Defined(r: Res<Json>): Res<Json> {
    if r == Ok(Null) then Undefined else r
  }

  function Project(container: Json, path: string): Res<Json> {
    if path == "" then Ok(container)
    else
      match Navigate(container, path)
      case Some(v) => Ok(v)
      case None => Fails(CandidateField)
  }

  /** One argument for the candidate `item`; Null is also the "not folded" sentinel. */
  function EvalArg(voc: Vocabulary, spec: Spec, item: Json): Res<Json>
    decreases spec
  {
    match spec
    case Value(v) => Ok(v)
    case List(elements) =>
      var vs :- EvalArgs(voc, elements, item);
      Ok(Arr(vs))
    case Item(path) => if item.Null? then Fails(BadShape(ItemOutsideFold)) else Project(item, path)
    case Apply(fn, args) =>
      if fn !in voc.names then Fails(BadShape(UnknownPrimitive))
      else if fn in KEY_CONSUMING then Fails(BadShape(NestedKey))
      else
        var vs :- EvalArgs(voc, args, item);
        Defined(Invoke(voc, fn, vs))
  }

  function EvalArgs(voc: Vocabulary, specs: seq<Spec>, item: Json): Res<seq<Json>>
    decreases specs
  {
    if specs == [] then Ok([])
    else
      var v :- EvalArg(voc, specs[0], item);
      var vs :- EvalArgs(voc, specs[1..], item);
      Ok([v] + vs)
  }

  /** What one candidate contributes to a fold: its witness, nothing, or a fault. A candidate
      whose arguments are undefined is no witness. */
  function Witness(voc: Vocabulary, fn: string, args: seq<Spec>, project: string, item: Json): Res<Option<Json>> {
    var evaluated := EvalArgs(voc, args, item);
    if evaluated.Undefined? then Ok(None)
    else
      var vs :- evaluated;
      var answer :- Invoke(voc, fn, vs);
      if answer != Bool(true) then Ok(None)
      else
        var w :- Project(item, project);
        Ok(Some(w))
  }

  function FoldOver(voc: Vocabulary, fn: string, args: seq<Spec>, project: string, items: seq<Json>): Res<seq<Json>> {
    if items == [] then Ok([])
    else
      var ws :- FoldOver(voc, fn, args, project, items[..|items| - 1]);
      var w :- Witness(voc, fn, args, project, items[|items| - 1]);
      Ok(if w.Some? then ws + [w.value] else ws)
  }

  function EvalCall(voc: Vocabulary, call: Call): Res<Json> {
    if call.fn !in voc.names then Fails(BadShape(UnknownPrimitive))
    else if call.fold.Some? then
      if !call.fold.value.over.Arr? then Fails(OverNotAList)
      else
        var ws :- FoldOver(voc, call.fn, call.args, call.fold.value.project, call.fold.value.over.items);
        Ok(Arr(ws))
    else if call.fn in KEY_CONSUMING || call.fn in KEY_PRODUCING then Fails(BadShape(BareKey))
    else
      var vs :- EvalArgs(voc, call.args, Null);
      Defined(Invoke(voc, call.fn, vs))
  }

  // ---- The walk ----

  /** What the deployment supplies. A wallet answers Null for a subject it does not know. */
  datatype Context = Context(envelope: Doc, config: Doc, now: int, wallet: Option<Json -> Json>)

  function FetchField(ctx: Context, kind: Kind, field: string, params: map<string, Json>): Res<Json> {
    match kind
    case CallKind => if field in ctx.envelope then Ok(ctx.envelope[field]) else Fails(Unavailable)
    case ConfigKind => if field in ctx.config then Ok(ctx.config[field]) else Fails(Unavailable)
    case ClockKind => Ok(Int(ctx.now))
    case WalletKind =>
      if "subject" !in params || params["subject"].Null? || ctx.wallet.None? then Fails(Unavailable)
      else if ctx.wallet.value(params["subject"]).Null? then Fails(Unavailable)
      else Ok(ctx.wallet.value(params["subject"]))
    case UnknownKind(_) => Fails(Unavailable)
  }

  /** What one entry does to the document under assembly. */
  datatype Effect = Put(value: Json) | Omit | Abort(fault: Fault)

  /** An undefined field is omitted, and so is an optional one whose resolver faults. */
  function Settle(r: Res<Json>, optional: bool): Effect {
    match r
    case Ok(v) => Put(v)
    case Undefined => Omit
    case Fails(f) => if optional then Omit else Abort(f)
  }

  /** A parameter that cannot be resolved yet omits the field, as does a malformed `over`; any
      other shape the code cannot walk raises something that is not a fetch error. */
  function EntryEffect(voc: Vocabulary, ctx: Context, e: Entry, doc: Doc): Effect {
    match e.source
    case Fetch(kind, params) =>
      if kind.UnknownKind? then Abort(NoResolver)
      else
        (match ResolveParams(params, doc)
         case Resolved(m) => Settle(FetchField(ctx, kind, e.field, m), e.optional)
         case NotYet => Omit
         case Bad(s) => Abort(BadShape(s)))
    case Derive(keys) =>
      (match ResolveDerive(keys, doc)
       case Resolved(call) => Settle(EvalCall(voc, call), e.optional)
       case NotYet => Omit
       case Bad(s) => if s == MalformedOver then Omit else Abort(BadShape(s)))
  }

  datatype Assembly = Assembled(doc: Doc) | Failed(fault: Fault)

  function AssembleFrom(voc: Vocabulary, ctx: Context, entries: seq<Entry>, doc: Doc): Assembly {
    if entries == [] then Assembled(doc)
    else
      match EntryEffect(voc, ctx, entries[0], doc)
      case Put(v) => AssembleFrom(voc, ctx, entries[1..], doc[entries[0].field := v])
      case Omit => AssembleFrom(voc, ctx, entries[1..], doc)
      case Abort(f) => Failed(f)
  }

  function Assemble(voc: Vocabulary, ctx: Context, entries: seq<Entry>): Assembly {
    AssembleFrom(voc, ctx, entries, map[])
  }

  lemma {:induction false} FoldStops(voc: Vocabulary, fn: string, args: seq<Spec>, project: string, items: seq<Json>, n: nat)
    requires n <= |items| && FoldOver(voc, fn, args, project, items[..n]).IsFailure()
    ensures FoldOver(voc, fn, args, project, items) == FoldOver(voc, fn, args, project, items[..n])
    decreases |items|
  {
    if n == |items| {
      assert items[..n] == items;
    } else {
      assert items[..|items| - 1][..n] == items[..n];
      FoldStops(voc, fn, args, project, items[..|items| - 1], n);
    }
  }

  /** The loop that appends to `witnesses`. */
  method FoldCandidates(voc: Vocabulary, fn: string, args: seq<Spec>, project: string, items: seq<Json>)
    returns (r: Res<seq<Json>>)
    ensures r == FoldOver(voc, fn, args, project, items)
  {
    var witnesses: seq<Json> := [];
    for n := 0 to |items|
      invariant FoldOver(voc, fn, args, project, items[..n]) == Ok(witnesses)
    {
      assert items[..n + 1][..n] == items[..n];
      var w := Witness(voc, fn, args, project, items[n]);
      if w.IsFailure() {
        FoldStops(voc, fn, args, project, items, n + 1);
        return w.PropagateFailure();
      }
      if w.value.Some? {
        witnesses := witnesses + [w.value.value];
      }
    }
    assert items[..|items|] == items;
    return Ok(witnesses);
  }

  /** The loop that fills `assembled` and `omitted`: every entry walked so far is in exactly one
      of them, or was overwritten by a later entry of the same field. */
  method AssembleLoop(voc: Vocabulary, ctx: Context, entries: seq<Entry>) returns (r: Assembly, omitted: set<string>)
    ensures r == Assemble(voc, ctx, entries)
    ensures r.Assembled? ==> forall e :: e in entries ==> e.field in r.doc || e.field in omitted
    ensures r.Assembled? && UniqueFields(entries) ==> r.doc.Keys !! omitted
  {
    hide EntryEffect;
    var assembled: Doc := map[];
    omitted := {};
    for n := 0 to |entries|
      invariant Assemble(voc, ctx, entries) == AssembleFrom(voc, ctx, entries[n..], assembled)
      invariant forall i :: 0 <= i < n ==> entries[i].field in assembled || entries[i].field in omitted
      invariant forall k :: k in assembled || k in omitted ==> exists i :: 0 <= i < n && entries[i].field == k
      invariant UniqueFields(entries) ==> assembled.Keys !! omitted
    {
      assert entries[n..][0] == entries[n] && entries[n..][1..] == entries[n + 1..];
      var e := entries[n];
      match EntryEffect(voc, ctx, e, assembled) {
        case Put(v) => assembled := assembled[e.field := v];
        case Omit => omitted := omitted + {e.field};
        case Abort(f) => return Failed(f), omitted;
      }
    }
    assert entries[|entries|..] == [];
    return Assembled(assembled), omitted;
  }
}
