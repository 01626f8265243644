/** Cedar's decision over a policy set, and the engine that asks it once (forbid-only) or twice
    (permit-decides, with a probe pass). */
module Cedar {
  import opened Prelude
  import opened Json
  import opened JsonPaths

  /** A check id or a tier name. */
  type Label(==, !new)

  datatype Effect = Permit | Forbid

  /** What a policy's condition does on a context: Cedar skips a policy whose condition errs. */
  datatype Truth = Matches | Inert | Errs

  datatype Policy = Policy(effect: Effect, id: Option<Label>, assembly: Option<Label>, tier: Option<Label>, condition: Json -> Truth)

  datatype Shape = ForbidOnly | PermitDecides

  const PROBE := "probe"

  // ---- Cedar ----

  datatype Response = Response(allow: bool, reasons: seq<Policy>, erred: bool)

  function Matching(ps: seq<Policy>, effect: Effect, context: Json): (r: seq<Policy>)
    ensures forall p :: p in r <==> p in ps && p.effect == effect && p.condition(context) == Matches
  {
    if ps == [] then []
    else if ps[0].effect == effect && ps[0].condition(context) == Matches then [ps[0]] + Matching(ps[1..], effect, context)
    else Matching(ps[1..], effect, context)
  }

  predicate Erring(ps: seq<Policy>, context: Json) {
    exists i :: 0 <= i < |ps| && ps[i].condition(context) == Errs
  }

  /** Forbid overrides permit, the default is deny, an erring policy is skipped with a diagnostic,
      and the reasons are the policies that decided. */
  function IsAuthorized(ps: seq<Policy>, context: Json): Response {
    var forbids, permits := Matching(ps, Forbid, context), Matching(ps, Permit, context);
    if forbids != [] then Response(false, forbids, Erring(ps, context))
    else Response(permits != [], permits, Erring(ps, context))
  }

  // ---- The engine ----

  datatype Evaluation = Evaluated(allowed: bool, ids: set<Label>) | Diagnostics

  function IdsOf(reasons: seq<Policy>): (r: set<Label>)
    ensures forall c :: c in r <==> exists p :: p in reasons && p.id == Some(c)
  {
    if reasons == [] then {}
    else (if reasons[0].id.Some? then {reasons[0].id.value} else {}) + IdsOf(reasons[1..])
  }

  /** One pass. Any evaluation diagnostic is a fault, and a reason with no `@id` is dropped. */
  function Evaluate(ps: seq<Policy>, context: Json): Evaluation {
    var r := IsAuthorized(ps, context);
    if r.erred then Diagnostics else Evaluated(r.allow, IdsOf(r.reasons))
  }

  predicate ReservedName(key: string) {
    |key| >= 2 && key[0] == '_' && key[1] == '_'
  }

  /** A key with the reserved prefix anywhere in the input. */
  predicate HasReserved(j: Json)
    decreases j
  {
    match j
    case Arr(items) => exists i :: 0 <= i < |items| && HasReserved(items[i])
    case Obj(fields) => exists i :: 0 <= i < |fields| && (ReservedName(fields[i].key) || HasReserved(fields[i].value))
    case _ => false
  }

  predicate Admissible(input: Json) {
    input.Obj? && !HasReserved(input) && !Has(input.fields, PROBE)
  }

  function Probed(input: Json): Json
    requires input.Obj?
  {
    Obj(input.fields + [Field(PROBE, Bool(true))])
  }

  datatype Reply<T> = Result(value: T) | Fault

  function QueryAllow(ps: seq<Policy>, shape: Shape, input: Json): Reply<bool> {
    if !Admissible(input) then Fault
    else
      match Evaluate(ps, input)
      case Diagnostics => Fault
      case Evaluated(allowed, ids) =>
        if shape == PermitDecides && !allowed && ids != {} then Fault
        else Result(allowed)
  }

  function QueryFailedChecks(ps: seq<Policy>, shape: Shape, input: Json): Reply<set<Label>> {
    if !Admissible(input) then Fault
    else
      match Evaluate(ps, input)
      case Diagnostics => Fault
      case Evaluated(allowed, ids) =>
        if shape == ForbidOnly then Result(if allowed then {} else ids)
        else if !allowed && ids != {} then Fault
        else if allowed then Result({})
        else
          match Evaluate(ps, Probed(input))
          case Diagnostics => Fault
          case Evaluated(probeAllowed, failed) => if probeAllowed then Fault else Result(failed)
  }

  // ---- What an answer means ----

  ghost predicate Fires(ps: seq<Policy>, effect: Effect, context: Json) {
    exists p :: p in ps && p.effect == effect && p.condition(context) == Matches
  }

  /** An `@id` forbid matches. */
  ghost predicate CheckFires(ps: seq<Policy>, context: Json) {
    exists p :: p in ps && p.effect == Forbid && p.id.Some? && p.condition(context) == Matches
  }

  lemma MatchingMeans(ps: seq<Policy>, effect: Effect, context: Json)
    ensures Matching(ps, effect, context) != [] <==> Fires(ps, effect, context)
  {
    if Matching(ps, effect, context) != [] {
      assert Matching(ps, effect, context)[0] in Matching(ps, effect, context);
    }
    if Fires(ps, effect, context) {
      var p :| p in ps && p.effect == effect && p.condition(context) == Matches;
      assert p in Matching(ps, effect, context);
    }
  }

  /** One pass, in terms of what matches. */
  lemma EvaluateMeans(ps: seq<Policy>, context: Json)
    ensures Evaluate(ps, context).Diagnostics? <==> exists p :: p in ps && p.condition(context) == Errs
    ensures Evaluate(ps, context).Evaluated? ==>
      (Evaluate(ps, context).allowed <==> Fires(ps, Permit, context) && !Fires(ps, Forbid, context))
    ensures Evaluate(ps, context).Evaluated? && !Evaluate(ps, context).allowed ==>
      forall c :: c in Evaluate(ps, context).ids <==>
        exists p :: p in ps && p.effect == Forbid && p.id == Some(c) && p.condition(context) == Matches
  {
    MatchingMeans(ps, Forbid, context);
    MatchingMeans(ps, Permit, context);
    ErringMeans(ps, context);
  }

  lemma ErringMeans(ps: seq<Policy>, context: Json)
    ensures Erring(ps, context) <==> exists p :: p in ps && p.condition(context) == Errs
  {
    if p :| p in ps && p.condition(context) == Errs {
      var i :| 0 <= i < |ps| && ps[i] == p;
    }
  }

  /** Permit-decides, exactly: it answers allow when a permit matches, no forbid does and nothing
      errs; it answers deny when nothing errs, that is not so, and no `@id` forbid fired without
      its guard; anything else is a fault. */
  lemma AllowExactly(ps: seq<Policy>, input: Json)
    ensures QueryAllow(ps, PermitDecides, input) == Result(true) <==>
      Admissible(input) && !Erring(ps, input) && Fires(ps, Permit, input) && !Fires(ps, Forbid, input)
    ensures QueryAllow(ps, PermitDecides, input) == Result(false) <==>
      Admissible(input) && !Erring(ps, input) && !CheckFires(ps, input)
      && (Fires(ps, Permit, input) ==> Fires(ps, Forbid, input))
  {
    hide Evaluate, Erring, Fires, CheckFires, Admissible;
    EvaluateMeans(ps, input);
    ErringMeans(ps, input);
    if Admissible(input) && Evaluate(ps, input).Evaluated? && !Evaluate(ps, input).allowed {
      NoIdsExactly(ps, input);
    }
    FiringCheckFires(ps, input);
  }

  lemma FiringCheckFires(ps: seq<Policy>, context: Json)
    ensures CheckFires(ps, context) ==> Fires(ps, Forbid, context)
  {
  }

  /** A denial reports no id exactly when no `@id` forbid matched. */
  lemma NoIdsExactly(ps: seq<Policy>, context: Json)
    requires Evaluate(ps, context).Evaluated? && !Evaluate(ps, context).allowed
    ensures Evaluate(ps, context).ids == {} <==> !CheckFires(ps, context)
  {
    EvaluateMeans(ps, context);
    hide Evaluate;
    var ids := Evaluate(ps, context).ids;
    if CheckFires(ps, context) {
      var p :| p in ps && p.effect == Forbid && p.id.Some? && p.condition(context) == Matches;
      assert p.id.value in ids;
    } else {
      assert forall c :: c !in ids;
    }
  }

  /** An empty policy set never allows, in either shape. */
  lemma EmptyDenies(shape: Shape, input: Json)
    ensures QueryAllow([], shape, input) != Result(true)
    ensures Admissible(input) ==> QueryAllow([], shape, input) == Result(false)
  {
    EvaluateMeans([], input);
  }

  /** Without some of its forbids a forbid-only set still allows what it allowed; it allows more
      exactly when the missing forbids were the only ones that fired. */
  lemma FewerForbids(ps: seq<Policy>, rest: seq<Policy>, input: Json)
    requires forall p :: p in rest ==> p in ps
    requires forall p :: p in ps && p.effect == Permit ==> p in rest
    ensures QueryAllow(ps, ForbidOnly, input) == Result(true) ==> QueryAllow(rest, ForbidOnly, input) == Result(true)
    ensures QueryAllow(ps, ForbidOnly, input) == Result(false) ==>
      (QueryAllow(rest, ForbidOnly, input) == Result(true) <==> Fires(ps, Permit, input) && !Fires(rest, Forbid, input))
  {
    EvaluateMeans(ps, input);
    EvaluateMeans(rest, input);
  }

  /** What a denial reports. Forbid-only: the ids of the forbids that matched. Permit-decides: those that
      match once the probe is added, where no `@id` forbid matched without it, nothing errs in either pass
      and the probe pass does not allow; else a fault. An allowed call reports none. */
  lemma ReportedExactly(ps: seq<Policy>, input: Json, ids: set<Label>)
    requires Admissible(input)
    ensures QueryFailedChecks(ps, ForbidOnly, input) == Result(ids) <==>
      !Erring(ps, input) && Reports(ps, input, Fires(ps, Permit, input) && !Fires(ps, Forbid, input), ids)
    ensures var probed := Obj(input.fields + [Field("probe", Bool(true))]);
      var allowed := Fires(ps, Permit, input) && !Fires(ps, Forbid, input);
      QueryFailedChecks(ps, PermitDecides, input) == Result(ids) <==>
        && !Erring(ps, input) && (allowed || !CheckFires(ps, input))
        && (!allowed ==> !Erring(ps, probed) && !(Fires(ps, Permit, probed) && !Fires(ps, Forbid, probed)))
        && Reports(ps, probed, allowed, ids)
  {
    var probed := Probed(input);
    hide Evaluate, Erring, Fires, CheckFires, Admissible, Reports;
    assert probed == Obj(input.fields + [Field("probe", Bool(true))]);
    PassReports(ps, input, ids);
    PassReports(ps, probed, ids);
    AllowedReports(ps, input, ids);
    AllowedReports(ps, probed, ids);
  }

  /** One pass: whether it errs, whether it allows, and what a denial by it reports. */
  lemma PassReports(ps: seq<Policy>, context: Json, ids: set<Label>)
    ensures Evaluate(ps, context).Diagnostics? <==> Erring(ps, context)
    ensures Evaluate(ps, context).Evaluated? ==>
      (Evaluate(ps, context).allowed <==> Fires(ps, Permit, context) && !Fires(ps, Forbid, context))
    ensures Evaluate(ps, context).Evaluated? && !Evaluate(ps, context).allowed ==>
      && (Evaluate(ps, context).ids == {} <==> !CheckFires(ps, context))
      && (Evaluate(ps, context).ids == ids <==> Reports(ps, context, false, ids))
  {
    hide Evaluate, Erring, Fires, CheckFires;
    EvaluateMeans(ps, context);
    ErringMeans(ps, context);
    if Evaluate(ps, context).Evaluated? && !Evaluate(ps, context).allowed {
      NoIdsExactly(ps, context);
      ReportsAre(ps, context, Evaluate(ps, context).ids, ids);
    }
  }

  lemma AllowedReports(ps: seq<Policy>, context: Json, ids: set<Label>)
    ensures Reports(ps, context, true, ids) <==> ids == {}
  {
  }

  /** The ids of the forbids that match, or none where the call is allowed. */
  ghost predicate Reports(ps: seq<Policy>, context: Json, allowed: bool, ids: set<Label>) {
    if allowed then ids == {}
    else forall c :: c in ids <==> exists p :: p in ps && p.effect == Forbid && p.id == Some(c) && p.condition(context) == Matches
  }

  lemma ReportsAre(ps: seq<Policy>, context: Json, found: set<Label>, ids: set<Label>)
    requires Reports(ps, context, false, found)
    ensures Reports(ps, context, false, ids) <==> ids == found
  {
    if Reports(ps, context, false, ids) {
      forall c
        ensures c in ids <==> c in found
      {
      }
    }
  }

  // ---- Which inputs are judged at all ----

  /** Each value is an item or a field's value of the one before it. */
  ghost predicate Inside(path: seq<Json>) {
    path != [] && forall i :: 0 <= i < |path| - 1 ==> Part(path[i], path[i + 1])
  }

  ghost predicate Part(whole: Json, part: Json) {
    || (whole.Arr? && part in whole.items)
    || (whole.Obj? && exists i :: 0 <= i < |whole.fields| && whole.fields[i].value == part)
  }

  /** An object somewhere in it has a key that starts with two underscores. */
  ghost predicate ReservedInside(j: Json) {
    exists path :: Inside(path) && path[0] == j && KeyReserved(path[|path| - 1])
  }

  predicate KeyReserved(j: Json) {
    j.Obj? && exists i :: 0 <= i < |j.fields| && "__" <= j.fields[i].key
  }

  lemma ReservedHere(j: Json)
    requires KeyReserved(j)
    ensures ReservedInside(j)
  {
    assert Inside([j]);
  }

  lemma ReservedDeeper(j: Json, part: Json)
    requires Part(j, part) && ReservedInside(part)
    ensures ReservedInside(j)
  {
    hide Part, KeyReserved;
    var path :| Inside(path) && path[0] == part && KeyReserved(path[|path| - 1]);
    var longer := [j] + path;
    forall i | 0 <= i < |longer| - 1
      ensures Part(longer[i], longer[i + 1])
    {
      if i > 0 {
        assert Part(path[i - 1], path[i - 1 + 1]);
      }
    }
    assert Inside(longer);
  }

  lemma ReservedSplits(j: Json)
    requires ReservedInside(j)
    ensures KeyReserved(j) || exists part :: Part(j, part) && ReservedInside(part)
  {
    hide Part, KeyReserved;
    var path :| Inside(path) && path[0] == j && KeyReserved(path[|path| - 1]);
    if |path| > 1 {
      var rest := path[1..];
      forall i | 0 <= i < |rest| - 1
        ensures Part(rest[i], rest[i + 1])
      {
        assert Part(path[i + 1], path[i + 1 + 1]);
      }
      assert Inside(rest);
      assert Part(path[0], path[0 + 1]) && ReservedInside(path[1]);
    }
  }

  lemma {:induction false} ReservedIs(j: Json)
    ensures HasReserved(j) <==> ReservedInside(j)
    decreases j
  {
    if j.Arr? {
      forall i | 0 <= i < |j.items|
        ensures HasReserved(j.items[i]) <==> ReservedInside(j.items[i])
      {
        ReservedIs(j.items[i]);
      }
    } else if j.Obj? {
      forall i | 0 <= i < |j.fields|
        ensures HasReserved(j.fields[i].value) <==> ReservedInside(j.fields[i].value)
      {
        ReservedIs(j.fields[i].value);
      }
    }
    hide ReservedInside;
    ReservedNames(j);
    if ReservedInside(j) {
      ReservedSplits(j);
    }
    forall part | Part(j, part) && ReservedInside(part)
      ensures ReservedInside(j)
    {
      ReservedDeeper(j, part);
    }
  }

  lemma ReservedNames(j: Json)
    ensures KeyReserved(j) <==> j.Obj? && exists i :: 0 <= i < |j.fields| && ReservedName(j.fields[i].key)
    ensures KeyReserved(j) ==> ReservedInside(j)
  {
    if KeyReserved(j) {
      ReservedHere(j);
    }
    if j.Obj? {
      forall i | 0 <= i < |j.fields|
        ensures "__" <= j.fields[i].key <==> ReservedName(j.fields[i].key)
      {
      }
    }
  }

  /** An input is judged exactly when it is an object without the probe's key, and no key in it, however deep,
      starts with two underscores; anything else is a fault in both entrypoints and both shapes. */
  lemma JudgedExactly(ps: seq<Policy>, shape: Shape, input: Json)
    ensures Admissible(input) <==>
      && input.Obj? && (forall i :: 0 <= i < |input.fields| ==> input.fields[i].key != "probe")
      && !ReservedInside(input)
    ensures !Admissible(input) ==> QueryAllow(ps, shape, input) == Fault && QueryFailedChecks(ps, shape, input) == Fault
  {
    ReservedIs(input);
    if input.Obj? {
      FindFirst(input.fields, PROBE);
    }
  }
}
