/** Three evaluators, one meaning: guarded permit-decides Cedar, forbid-only Cedar and the CEL fold
    decide the same tiers over the same three-valued checks. */
module PolicyAgreement {
  import opened Prelude
  import opened Json
  import opened Cedar
  import Cel

  /** A check on one input: it holds, it fails, or a field it reads is absent. */
  datatype Check = Holds | Fails | Undefined

  type Tier = Cel.Tier

  predicate TierHolds(t: Tier, o: Label -> Check) {
    forall i :: 0 <= i < |t.checks| ==> o(t.checks[i]) == Holds
  }

  predicate Incomplete(t: Tier, o: Label -> Check) {
    exists i :: 0 <= i < |t.checks| && o(t.checks[i]) == Undefined
  }

  predicate SomeTierHolds(tiers: seq<Tier>, o: Label -> Check) {
    exists i :: 0 <= i < |tiers| && TierHolds(tiers[i], o)
  }

  predicate InSomeTier(tiers: seq<Tier>, c: Label) {
    exists i :: 0 <= i < |tiers| && c in tiers[i].checks
  }

  /** Some tier that does not contain the check is satisfied. */
  predicate CarriedWithoutCheck(tiers: seq<Tier>, o: Label -> Check, c: Label) {
    exists i :: 0 <= i < |tiers| && c !in tiers[i].checks && TierHolds(tiers[i], o)
  }

  predicate CarriedWithoutTier(tiers: seq<Tier>, o: Label -> Check, name: Label) {
    exists i :: 0 <= i < |tiers| && tiers[i].name != name && TierHolds(tiers[i], o)
  }

  predicate DistinctNames(tiers: seq<Tier>) {
    forall i, j :: 0 <= i < j < |tiers| ==> tiers[i].name != tiers[j].name
  }

  predicate IsTier(tiers: seq<Tier>, name: Label) {
    exists i :: 0 <= i < |tiers| && tiers[i].name == name
  }

  function TierNamed(tiers: seq<Tier>, name: Label): (t: Tier)
    requires IsTier(tiers, name)
    ensures t in tiers && t.name == name
  {
    if tiers[0].name == name then tiers[0] else TierNamed(tiers[1..], name)
  }

  ghost predicate HasCheck(ps: seq<Policy>, c: Label) {
    exists p :: p in ps && p.effect == Forbid && p.id == Some(c)
  }

  ghost predicate HasAssembly(ps: seq<Policy>, name: Label) {
    exists p :: p in ps && p.effect == Forbid && p.id.None? && p.assembly == Some(name)
  }

  ghost predicate HasPermit(ps: seq<Policy>, name: Label) {
    exists p :: p in ps && p.effect == Permit && p.tier == Some(name)
  }

  /** The policies a generated set must carry. */
  ghost predicate Carries(ps: seq<Policy>, tiers: seq<Tier>) {
    forall c :: InSomeTier(tiers, c) ==> HasCheck(ps, c)
  }

  /** In a forbid-only set a leaf forbid fires when its check fails, an assembly forbid when its
      tier is incomplete, and either only when no other tier carries the call. */
  ghost predicate ForbidOnlyPolicy(p: Policy, tiers: seq<Tier>, o: Label -> Check, input: Json) {
    && p.condition(input) != Errs
    && (p.effect == Forbid ==>
          if p.id.Some? then
            && InSomeTier(tiers, p.id.value)
            && (p.condition(input) == Matches <==> o(p.id.value) == Fails && !CarriedWithoutCheck(tiers, o, p.id.value))
          else
            && p.assembly.Some? && IsTier(tiers, p.assembly.value)
            && (p.condition(input) == Matches <==>
                  Incomplete(TierNamed(tiers, p.assembly.value), o) && !CarriedWithoutTier(tiers, o, p.assembly.value)))
  }

  /** A forbid-only set for the tiers on this input: a base permit, a leaf forbid per check and an
      assembly forbid per tier. */
  ghost predicate ForbidOnlyFor(ps: seq<Policy>, tiers: seq<Tier>, o: Label -> Check, input: Json) {
    && Fires(ps, Permit, input)
    && (forall p :: p in ps ==> ForbidOnlyPolicy(p, tiers, o, input))
    && Carries(ps, tiers)
    && (forall t :: t in tiers ==> HasAssembly(ps, t.name))
  }

  /** In a guarded permit-decides set only permits can match without the probe, each exactly when
      its tier holds, and only forbids with it, an `@id` one exactly when its check fails. */
  ghost predicate PermitDecidesPolicy(p: Policy, tiers: seq<Tier>, o: Label -> Check, input: Json)
    requires input.Obj?
  {
    && p.condition(input) != Errs && p.condition(Probed(input)) != Errs
    && (if p.effect == Permit then
          && p.condition(Probed(input)) == Inert
          && p.tier.Some? && IsTier(tiers, p.tier.value)
          && (p.condition(input) == Matches <==> TierHolds(TierNamed(tiers, p.tier.value), o))
        else
          && p.condition(input) == Inert
          && (p.id.Some? ==>
                InSomeTier(tiers, p.id.value) && (p.condition(Probed(input)) == Matches <==> o(p.id.value) == Fails)))
  }

  ghost predicate PermitDecidesFor(ps: seq<Policy>, tiers: seq<Tier>, o: Label -> Check, input: Json)
    requires input.Obj?
  {
    && (forall p :: p in ps ==> PermitDecidesPolicy(p, tiers, o, input))
    && Carries(ps, tiers)
    && (forall t :: t in tiers ==> HasPermit(ps, t.name))
  }

  /** A CEL file for the tiers: each check is a boolean, or evidence it cannot read. */
  ghost predicate CelFor(spec: Cel.Spec, tiers: seq<Tier>, o: Label -> Check, eval: Label -> Cel.Outcome) {
    && spec.tiers == tiers
    && (forall c :: c in spec.checks <==> InSomeTier(tiers, c))
    && (forall c :: c in spec.checks ==>
          match o(c)
          case Holds => eval(c) == Cel.Verdict(true)
          case Fails => eval(c) == Cel.Verdict(false)
          case Undefined => eval(c) == Cel.Verdict(false) || eval(c) == Cel.NoEvidence)
  }

  /** The ids a denial reports. */
  ghost predicate FailedIds(tiers: seq<Tier>, o: Label -> Check, ids: set<Label>) {
    forall c :: c in ids <==> InSomeTier(tiers, c) && o(c) == Fails
  }

  /** Allow iff some tier holds, and on a denial the failed checks. */
  ghost predicate Decides(tiers: seq<Tier>, o: Label -> Check, allow: Reply<bool>, failed: Reply<set<Label>>) {
    && allow == Result(SomeTierHolds(tiers, o))
    && failed.Result?
    && (if SomeTierHolds(tiers, o) then failed.value == {} else FailedIds(tiers, o, failed.value))
  }

  // ---- Forbid-only ----

  /** A tier that does not hold has a check that fails or is undefined. */
  lemma TierBlocked(t: Tier, o: Label -> Check)
    requires !TierHolds(t, o)
    ensures Incomplete(t, o) || exists c :: c in t.checks && o(c) == Fails
  {
    var i :| 0 <= i < |t.checks| && o(t.checks[i]) != Holds;
    assert t.checks[i] in t.checks;
  }

  lemma {:induction false} OnlyTierNamed(tiers: seq<Tier>, t: Tier)
    requires DistinctNames(tiers) && t in tiers
    ensures IsTier(tiers, t.name) && TierNamed(tiers, t.name) == t
  {
    if tiers[0] != t {
      assert t in tiers[1..];
      OnlyTierNamed(tiers[1..], t);
    }
  }

  lemma NoTierCarries(tiers: seq<Tier>, o: Label -> Check, x: Label)
    requires !SomeTierHolds(tiers, o)
    ensures !CarriedWithoutCheck(tiers, o, x) && !CarriedWithoutTier(tiers, o, x)
  {
  }

  lemma CheckInTier(tiers: seq<Tier>, t: Tier, c: Label)
    requires t in tiers && c in t.checks
    ensures InSomeTier(tiers, c)
  {
  }

  lemma ForbidOnlyDenies(ps: seq<Policy>, tiers: seq<Tier>, o: Label -> Check, input: Json)
    requires ForbidOnlyFor(ps, tiers, o, input) && tiers != [] && DistinctNames(tiers) && !SomeTierHolds(tiers, o)
    ensures Fires(ps, Forbid, input)
  {
    hide SomeTierHolds, CarriedWithoutCheck, CarriedWithoutTier, InSomeTier, DistinctNames, IsTier, TierNamed;
    var t := tiers[0];
    NoneHolds(tiers, o, t);
    TierBlocked(t, o);
    if Incomplete(t, o) {
      var p :| p in ps && p.effect == Forbid && p.id.None? && p.assembly == Some(t.name);
      OnlyTierNamed(tiers, t);
      NoTierCarries(tiers, o, t.name);
      assert ForbidOnlyPolicy(p, tiers, o, input);
    } else {
      var c :| c in t.checks && o(c) == Fails;
      CheckInTier(tiers, t, c);
      NoTierCarries(tiers, o, c);
      assert HasCheck(ps, c);
      var p :| p in ps && p.effect == Forbid && p.id == Some(c);
      assert ForbidOnlyPolicy(p, tiers, o, input);
    }
  }

  lemma NoneHolds(tiers: seq<Tier>, o: Label -> Check, t: Tier)
    requires !SomeTierHolds(tiers, o) && t in tiers
    ensures !TierHolds(t, o)
  {
  }

  /** A satisfied tier disarms every forbid: it contains no failing check, and it is not an
      incomplete tier. */
  lemma Disarmed(p: Policy, tiers: seq<Tier>, o: Label -> Check, input: Json, k: nat)
    requires DistinctNames(tiers) && ForbidOnlyPolicy(p, tiers, o, input) && p.effect == Forbid && k < |tiers| && TierHolds(tiers[k], o)
    ensures p.condition(input) != Matches
  {
    if p.id.None? {
      OnlyTierNamed(tiers, tiers[k]);
    }
  }

  lemma ForbidOnlyAllows(ps: seq<Policy>, tiers: seq<Tier>, o: Label -> Check, input: Json)
    requires ForbidOnlyFor(ps, tiers, o, input) && DistinctNames(tiers) && SomeTierHolds(tiers, o)
    ensures !Fires(ps, Forbid, input)
  {
    hide InSomeTier, ForbidOnlyPolicy, CarriedWithoutCheck, CarriedWithoutTier;
    var k :| 0 <= k < |tiers| && TierHolds(tiers[k], o);
    forall p | p in ps && p.effect == Forbid
      ensures p.condition(input) != Matches
    {
      Disarmed(p, tiers, o, input, k);
    }
  }

  /** The `@id` forbids that fire when no tier holds are the failed checks. */
  lemma ForbidOnlyIds(ps: seq<Policy>, tiers: seq<Tier>, o: Label -> Check, input: Json, c: Label)
    requires ForbidOnlyFor(ps, tiers, o, input) && !SomeTierHolds(tiers, o)
    ensures (exists p :: p in ps && p.effect == Forbid && p.id == Some(c) && p.condition(input) == Matches)
      <==> InSomeTier(tiers, c) && o(c) == Fails
  {
    hide SomeTierHolds, CarriedWithoutCheck, CarriedWithoutTier, InSomeTier;
    NoTierCarries(tiers, o, c);
    if InSomeTier(tiers, c) && o(c) == Fails {
      assert HasCheck(ps, c);
      var p :| p in ps && p.effect == Forbid && p.id == Some(c);
      assert ForbidOnlyPolicy(p, tiers, o, input);
    }
  }

  lemma ForbidOnlyClean(ps: seq<Policy>, tiers: seq<Tier>, o: Label -> Check, input: Json)
    requires ForbidOnlyFor(ps, tiers, o, input)
    ensures !Erring(ps, input)
  {
    hide InSomeTier, CarriedWithoutCheck, CarriedWithoutTier;
    forall i | 0 <= i < |ps|
      ensures ps[i].condition(input) != Errs
    {
      assert ForbidOnlyPolicy(ps[i], tiers, o, input);
    }
  }

  /** Forbid-only Cedar allows exactly when some tier holds. */
  lemma ForbidOnlyDecides(ps: seq<Policy>, tiers: seq<Tier>, o: Label -> Check, input: Json)
    requires ForbidOnlyFor(ps, tiers, o, input) && tiers != [] && DistinctNames(tiers) && Admissible(input)
    ensures Decides(tiers, o, QueryAllow(ps, ForbidOnly, input), QueryFailedChecks(ps, ForbidOnly, input))
  {
    ForbidOnlyClean(ps, tiers, o, input);
    hide SomeTierHolds, InSomeTier, Evaluate, Erring, DistinctNames, Admissible, ForbidOnlyPolicy, Carries;
    EvaluateMeans(ps, input);
    if SomeTierHolds(tiers, o) {
      ForbidOnlyAllows(ps, tiers, o, input);
    } else {
      ForbidOnlyDenies(ps, tiers, o, input);
      forall c
        ensures c in Evaluate(ps, input).ids <==> InSomeTier(tiers, c) && o(c) == Fails
      {
        ForbidOnlyIds(ps, tiers, o, input, c);
      }
    }
  }

  // ---- Permit-decides ----

  lemma DecisionPass(ps: seq<Policy>, tiers: seq<Tier>, o: Label -> Check, input: Json)
    requires input.Obj? && PermitDecidesFor(ps, tiers, o, input) && DistinctNames(tiers)
    ensures Fires(ps, Permit, input) <==> SomeTierHolds(tiers, o)
    ensures !Fires(ps, Forbid, input) && !Fires(ps, Permit, Probed(input))
  {
    hide InSomeTier, DistinctNames, IsTier, TierNamed, TierHolds, Carries, Probed;
    forall p | p in ps
      ensures p.effect == Forbid ==> p.condition(input) != Matches
      ensures p.effect == Permit ==> p.condition(Probed(input)) != Matches
      ensures p.effect == Permit && p.condition(input) == Matches ==> SomeTierHolds(tiers, o)
    {
      assert PermitDecidesPolicy(p, tiers, o, input);
    }
    if SomeTierHolds(tiers, o) {
      var k :| 0 <= k < |tiers| && TierHolds(tiers[k], o);
      assert HasPermit(ps, tiers[k].name);
      var p :| p in ps && p.effect == Permit && p.tier == Some(tiers[k].name);
      OnlyTierNamed(tiers, tiers[k]);
      assert PermitDecidesPolicy(p, tiers, o, input);
    }
  }

  lemma ProbeIds(ps: seq<Policy>, tiers: seq<Tier>, o: Label -> Check, input: Json, c: Label)
    requires input.Obj? && PermitDecidesFor(ps, tiers, o, input)
    ensures (exists p :: p in ps && p.effect == Forbid && p.id == Some(c) && p.condition(Probed(input)) == Matches)
      <==> InSomeTier(tiers, c) && o(c) == Fails
  {
    hide InSomeTier, IsTier, TierNamed, TierHolds, Probed;
    if InSomeTier(tiers, c) && o(c) == Fails {
      assert HasCheck(ps, c);
      var p :| p in ps && p.effect == Forbid && p.id == Some(c);
      assert PermitDecidesPolicy(p, tiers, o, input);
    }
  }

  lemma PermitDecidesClean(ps: seq<Policy>, tiers: seq<Tier>, o: Label -> Check, input: Json)
    requires input.Obj? && PermitDecidesFor(ps, tiers, o, input)
    ensures !Erring(ps, input) && !Erring(ps, Probed(input))
  {
    hide InSomeTier, IsTier, TierNamed, TierHolds, Carries, Probed;
    forall i | 0 <= i < |ps|
      ensures ps[i].condition(input) != Errs && ps[i].condition(Probed(input)) != Errs
    {
      assert PermitDecidesPolicy(ps[i], tiers, o, input);
    }
  }

  /** Guarded permit-decides Cedar allows exactly when some tier holds, and the probe pass reports
      exactly the failed checks. */
  lemma PermitDecidesDecides(ps: seq<Policy>, tiers: seq<Tier>, o: Label -> Check, input: Json)
    requires Admissible(input) && PermitDecidesFor(ps, tiers, o, input) && DistinctNames(tiers)
    ensures Decides(tiers, o, QueryAllow(ps, PermitDecides, input), QueryFailedChecks(ps, PermitDecides, input))
  {
    PermitDecidesClean(ps, tiers, o, input);
    DecisionPass(ps, tiers, o, input);
    hide SomeTierHolds, InSomeTier, Evaluate, Erring, DistinctNames, PermitDecidesPolicy, Carries, Probed;
    EvaluateMeans(ps, input);
    EvaluateMeans(ps, Probed(input));
    assert !Evaluate(ps, input).allowed ==> Evaluate(ps, input).ids == {};
    forall c
      ensures c in Evaluate(ps, Probed(input)).ids <==> InSomeTier(tiers, c) && o(c) == Fails
    {
      ProbeIds(ps, tiers, o, input, c);
    }
  }

  // ---- CEL ----

  /** A check that does not hold is reported exactly when it fails. */
  ghost predicate GuardsCoincide(spec: Cel.Spec, o: Label -> Check, input: Json) {
    forall c :: c in spec.checks && o(c) != Holds ==> (o(c) == Fails <==> Cel.Applicable(spec, c, input))
  }

  lemma CelTier(spec: Cel.Spec, tiers: seq<Tier>, o: Label -> Check, eval: Label -> Cel.Outcome, t: Tier)
    requires CelFor(spec, tiers, o, eval) && t in tiers
    ensures TierHolds(t, o) <==> Cel.Satisfied(spec, t, eval)
    ensures !Cel.Trips(spec, t, eval)
  {
    hide InSomeTier;
    forall j | 0 <= j < |t.checks|
      ensures t.checks[j] in spec.checks && (o(t.checks[j]) == Holds <==> Cel.Passes(eval(t.checks[j])))
    {
      CheckInTier(tiers, t, t.checks[j]);
    }
  }

  lemma CelAllows(spec: Cel.Spec, tiers: seq<Tier>, o: Label -> Check, eval: Label -> Cel.Outcome)
    requires CelFor(spec, tiers, o, eval)
    ensures Cel.QueryAllow(spec, eval) == Result(SomeTierHolds(tiers, o))
  {
    hide TierHolds, Cel.Satisfied, Cel.Trips, Cel.FoldTiers;
    forall i | 0 <= i < |spec.checks|
      ensures !Cel.Faulty(eval(spec.checks[i]))
    {
      assert spec.checks[i] in spec.checks;
    }
    forall i | 0 <= i < |tiers|
      ensures (TierHolds(tiers[i], o) <==> Cel.Satisfied(spec, tiers[i], eval)) && !Cel.Trips(spec, tiers[i], eval)
    {
      CelTier(spec, tiers, o, eval, tiers[i]);
    }
    Cel.FoldTiersMeans(spec, tiers, eval);
    if SomeTierHolds(tiers, o) {
      var i :| 0 <= i < |tiers| && TierHolds(tiers[i], o);
      assert Cel.AllowsAt(spec, tiers, eval, i);
    }
  }

  /** CEL allows exactly when some tier holds; on a denial it reports the failed checks exactly
      when an absent guarded field coincides with an undefined check. */
  lemma CelDecides(spec: Cel.Spec, tiers: seq<Tier>, o: Label -> Check, eval: Label -> Cel.Outcome, input: Json)
    requires CelFor(spec, tiers, o, eval)
    ensures Decides(tiers, o, Cel.QueryAllow(spec, eval), Cel.QueryFailedChecks(spec, eval, input))
      <==> SomeTierHolds(tiers, o) || GuardsCoincide(spec, o, input)
    ensures Cel.QueryAllow(spec, eval) == Result(SomeTierHolds(tiers, o))
  {
    CelAllows(spec, tiers, o, eval);
    if !SomeTierHolds(tiers, o) {
      var ids := Cel.QueryFailedChecks(spec, eval, input).value;
      forall c | c in spec.checks
        ensures c in ids <==> o(c) != Holds && Cel.Applicable(spec, c, input)
      {
      }
    }
  }

  /** One meaning: where a check is undefined exactly when a field that guards it is absent, the
      three engines give the same answers on the same tiers. */
  lemma ThreeEvaluators(pd: seq<Policy>, fo: seq<Policy>, spec: Cel.Spec, tiers: seq<Tier>, o: Label -> Check,
                        eval: Label -> Cel.Outcome, input: Json)
    requires tiers != [] && DistinctNames(tiers) && Admissible(input)
    requires PermitDecidesFor(pd, tiers, o, input) && ForbidOnlyFor(fo, tiers, o, input) && CelFor(spec, tiers, o, eval)
    ensures QueryAllow(pd, PermitDecides, input) == QueryAllow(fo, ForbidOnly, input) == Cel.QueryAllow(spec, eval)
    ensures QueryFailedChecks(pd, PermitDecides, input) == QueryFailedChecks(fo, ForbidOnly, input)
    ensures GuardsCoincide(spec, o, input) ==>
      Cel.QueryFailedChecks(spec, eval, input) == QueryFailedChecks(fo, ForbidOnly, input)
  {
    hide PermitDecidesFor, ForbidOnlyFor, CelFor, QueryAllow, QueryFailedChecks, Cel.QueryAllow, Cel.QueryFailedChecks;
    PermitDecidesDecides(pd, tiers, o, input);
    ForbidOnlyDecides(fo, tiers, o, input);
    CelDecides(spec, tiers, o, eval, input);
    SameDecision(tiers, o, QueryFailedChecks(pd, PermitDecides, input), QueryFailedChecks(fo, ForbidOnly, input));
    if GuardsCoincide(spec, o, input) {
      SameDecision(tiers, o, Cel.QueryFailedChecks(spec, eval, input), QueryFailedChecks(fo, ForbidOnly, input));
    }
  }

  lemma SameDecision(tiers: seq<Tier>, o: Label -> Check, a: Reply<set<Label>>, b: Reply<set<Label>>)
    requires Decides(tiers, o, Result(SomeTierHolds(tiers, o)), a) && Decides(tiers, o, Result(SomeTierHolds(tiers, o)), b)
    ensures a == b
  {
    assert a.value == b.value;
  }

  // ---- The sets a generator writes from tiers and checks ----

  predicate HasProbe(context: Json) {
    context.Obj? && Has(context.fields, PROBE)
  }

  function Fire(b: bool): Truth {
    if b then Matches else Inert
  }

  type Checks = (Json, Label) -> Check

  function On(o: Checks, context: Json): Label -> Check {
    c => o(context, c)
  }

  function PermitOf(t: Tier, o: Checks): Policy {
    Policy(Permit, None, None, Some(t.name), context => Fire(!HasProbe(context) && TierHolds(t, On(o, context))))
  }

  function ForbidOf(c: Label, o: Checks): Policy {
    Policy(Forbid, Some(c), None, None, context => Fire(HasProbe(context) && o(context, c) == Fails))
  }

  function AssemblyOf(t: Tier, o: Checks): Policy {
    Policy(Forbid, None, Some(t.name), None, context => Fire(HasProbe(context) && Incomplete(t, On(o, context))))
  }

  function LeafOf(tiers: seq<Tier>, c: Label, o: Checks): Policy {
    Policy(Forbid, Some(c), None, None,
           context => Fire(o(context, c) == Fails && !CarriedWithoutCheck(tiers, On(o, context), c)))
  }

  function LooseEndOf(tiers: seq<Tier>, t: Tier, o: Checks): Policy {
    Policy(Forbid, None, Some(t.name), None,
           context => Fire(Incomplete(t, On(o, context)) && !CarriedWithoutTier(tiers, On(o, context), t.name)))
  }

  function BasePermit(): Policy {
    Policy(Permit, None, None, None, context => Matches)
  }

  ghost predicate Covers(checks: seq<Label>, tiers: seq<Tier>) {
    forall c :: c in checks <==> InSomeTier(tiers, c)
  }

  function Each<A(!new)>(xs: seq<A>, f: A -> Policy): (ps: seq<Policy>)
    ensures forall p :: p in ps <==> exists x :: x in xs && p == f(x)
  {
    if xs == [] then [] else [f(xs[0])] + Each(xs[1..], f)
  }

  function PermitDecidesSet(tiers: seq<Tier>, checks: seq<Label>, o: Checks): seq<Policy> {
    Each(tiers, (t: Tier) => PermitOf(t, o)) + Each(checks, (c: Label) => ForbidOf(c, o)) + Each(tiers, (t: Tier) => AssemblyOf(t, o))
  }

  function ForbidOnlySet(tiers: seq<Tier>, checks: seq<Label>, o: Checks): seq<Policy> {
    [BasePermit()] + Each(checks, (c: Label) => LeafOf(tiers, c, o)) + Each(tiers, (t: Tier) => LooseEndOf(tiers, t, o))
  }

  lemma LeafFits(tiers: seq<Tier>, c: Label, o: Checks, input: Json)
    requires InSomeTier(tiers, c)
    ensures ForbidOnlyPolicy(LeafOf(tiers, c, o), tiers, On(o, input), input)
  {
    hide InSomeTier, CarriedWithoutCheck, CarriedWithoutTier, Incomplete, IsTier, TierNamed;
    var p, fires := LeafOf(tiers, c, o), o(input, c) == Fails && !CarriedWithoutCheck(tiers, On(o, input), c);
    assert p.condition(input) == Fire(fires);
  }

  lemma LooseEndFits(tiers: seq<Tier>, t: Tier, o: Checks, input: Json)
    requires DistinctNames(tiers) && t in tiers
    ensures ForbidOnlyPolicy(LooseEndOf(tiers, t, o), tiers, On(o, input), input)
  {
    hide InSomeTier, CarriedWithoutCheck, CarriedWithoutTier, Incomplete, DistinctNames, IsTier, TierNamed;
    OnlyTierNamed(tiers, t);
  }

  lemma ForbidOnlySetFits(tiers: seq<Tier>, checks: seq<Label>, o: Checks, input: Json)
    requires DistinctNames(tiers) && Covers(checks, tiers)
    ensures ForbidOnlyFor(ForbidOnlySet(tiers, checks, o), tiers, On(o, input), input)
  {
    hide InSomeTier, CarriedWithoutCheck, CarriedWithoutTier, Incomplete, DistinctNames, IsTier, TierNamed, ForbidOnlyPolicy;
    var ps := ForbidOnlySet(tiers, checks, o);
    var leaf, loose := (c: Label) => LeafOf(tiers, c, o), (t: Tier) => LooseEndOf(tiers, t, o);
    assert ps == [BasePermit()] + Each(checks, leaf) + Each(tiers, loose);
    assert BasePermit() in ps;
    forall p | p in ps
      ensures ForbidOnlyPolicy(p, tiers, On(o, input), input)
    {
      if p in Each(checks, leaf) {
        var c :| c in checks && p == leaf(c);
        LeafFits(tiers, c, o, input);
      } else if p in Each(tiers, loose) {
        var t :| t in tiers && p == loose(t);
        LooseEndFits(tiers, t, o, input);
      } else {
        BaseFits(tiers, o, input);
      }
    }
    forall c | InSomeTier(tiers, c)
      ensures HasCheck(ps, c)
    {
      assert leaf(c) in Each(checks, leaf);
      assert leaf(c) in ps;
    }
    forall t | t in tiers
      ensures HasAssembly(ps, t.name)
    {
      assert loose(t) in Each(tiers, loose);
      assert loose(t) in ps;
    }
  }

  lemma BaseFits(tiers: seq<Tier>, o: Checks, input: Json)
    ensures ForbidOnlyPolicy(BasePermit(), tiers, On(o, input), input)
  {
  }

  lemma {:induction false} ProbeIsAdded(fields: seq<Field>)
    ensures Has(fields + [Field(PROBE, Bool(true))], PROBE)
  {
    if fields != [] {
      ProbeIsAdded(fields[1..]);
      assert (fields + [Field(PROBE, Bool(true))])[1..] == fields[1..] + [Field(PROBE, Bool(true))];
    }
  }

  /** The checks read the same on the probed input, which carries the probe as the input does not. */
  ghost predicate ProbeUnread(o: Checks, input: Json) {
    && Admissible(input)
    && HasProbe(Probed(input)) && !HasProbe(input)
    && (forall c :: o(Probed(input), c) == o(input, c))
  }

  lemma PermitFits(tiers: seq<Tier>, t: Tier, o: Checks, input: Json)
    requires ProbeUnread(o, input) && DistinctNames(tiers) && t in tiers
    ensures PermitDecidesPolicy(PermitOf(t, o), tiers, On(o, input), input)
  {
    OnlyTierNamed(tiers, t);
    var p, probed := PermitOf(t, o), Probed(input);
    hide InSomeTier, DistinctNames, IsTier, TierNamed, TierHolds, Probed, HasProbe, Admissible;
    assert p.condition(probed) == Fire(!HasProbe(probed) && TierHolds(t, On(o, probed)));
    assert p.condition(input) == Fire(!HasProbe(input) && TierHolds(t, On(o, input)));
  }

  lemma ForbidFits(tiers: seq<Tier>, c: Label, o: Checks, input: Json)
    requires ProbeUnread(o, input) && InSomeTier(tiers, c)
    ensures PermitDecidesPolicy(ForbidOf(c, o), tiers, On(o, input), input)
  {
    var p, probed := ForbidOf(c, o), Probed(input);
    hide InSomeTier, IsTier, TierNamed, Probed, HasProbe, Admissible;
    assert p.condition(probed) == Fire(HasProbe(probed) && o(probed, c) == Fails);
    assert p.condition(input) == Fire(HasProbe(input) && o(input, c) == Fails);
  }

  lemma AssemblyFits(tiers: seq<Tier>, t: Tier, o: Checks, input: Json)
    requires ProbeUnread(o, input)
    ensures PermitDecidesPolicy(AssemblyOf(t, o), tiers, On(o, input), input)
  {
    var p, probed := AssemblyOf(t, o), Probed(input);
    hide InSomeTier, IsTier, TierNamed, Incomplete, Probed, HasProbe, Admissible;
    assert p.condition(probed) == Fire(HasProbe(probed) && Incomplete(t, On(o, probed)));
    assert p.condition(input) == Fire(HasProbe(input) && Incomplete(t, On(o, input)));
  }

  lemma PermitDecidesSetFits(tiers: seq<Tier>, checks: seq<Label>, o: Checks, input: Json)
    requires DistinctNames(tiers) && Covers(checks, tiers) && Admissible(input)
    requires forall c :: o(Probed(input), c) == o(input, c)
    ensures PermitDecidesFor(PermitDecidesSet(tiers, checks, o), tiers, On(o, input), input)
  {
    ProbeIsAdded(input.fields);
    hide InSomeTier, DistinctNames, HasReserved, PermitDecidesPolicy, IsTier, TierNamed;
    var ps := PermitDecidesSet(tiers, checks, o);
    var permit, forbid, loose := (t: Tier) => PermitOf(t, o), (c: Label) => ForbidOf(c, o), (t: Tier) => AssemblyOf(t, o);
    assert ps == Each(tiers, permit) + Each(checks, forbid) + Each(tiers, loose);
    forall p | p in ps
      ensures PermitDecidesPolicy(p, tiers, On(o, input), input)
    {
      if p in Each(tiers, permit) {
        var t :| t in tiers && p == permit(t);
        PermitFits(tiers, t, o, input);
      } else if p in Each(checks, forbid) {
        var c :| c in checks && p == forbid(c);
        ForbidFits(tiers, c, o, input);
      } else {
        var t :| t in tiers && p == loose(t);
        AssemblyFits(tiers, t, o, input);
      }
    }
    forall c | InSomeTier(tiers, c)
      ensures HasCheck(ps, c)
    {
      assert forbid(c) in Each(checks, forbid);
      assert forbid(c) in ps;
    }
    forall t | t in tiers
      ensures HasPermit(ps, t.name)
    {
      assert permit(t) in Each(tiers, permit);
      assert permit(t) in ps;
    }
  }

  /** Both generated sets decide what the tiers say, on every admissible input whose checks do not
      read the probe. */
  lemma GeneratedSetsAgree(tiers: seq<Tier>, checks: seq<Label>, o: Checks, input: Json)
    requires tiers != [] && DistinctNames(tiers) && Covers(checks, tiers) && Admissible(input)
    requires forall c :: o(Probed(input), c) == o(input, c)
    ensures Decides(tiers, On(o, input), QueryAllow(PermitDecidesSet(tiers, checks, o), PermitDecides, input),
                    QueryFailedChecks(PermitDecidesSet(tiers, checks, o), PermitDecides, input))
    ensures Decides(tiers, On(o, input), QueryAllow(ForbidOnlySet(tiers, checks, o), ForbidOnly, input),
                    QueryFailedChecks(ForbidOnlySet(tiers, checks, o), ForbidOnly, input))
  {
    PermitDecidesSetFits(tiers, checks, o, input);
    PermitDecidesDecides(PermitDecidesSet(tiers, checks, o), tiers, On(o, input), input);
    ForbidOnlySetFits(tiers, checks, o, input);
    ForbidOnlyDecides(ForbidOnlySet(tiers, checks, o), tiers, On(o, input), input);
  }
}
