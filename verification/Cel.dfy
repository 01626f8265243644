/** The CEL engine: every named check evaluated once, tiers as any-of over all-of, and failed
    checks dropped where a guarded field is absent. */
module Cel {
  import opened Prelude
  import opened Json
  import opened JsonPaths
  import Cedar

  type Label = Cedar.Label

  /** What one check's program gives: a boolean, unreadable evidence (raised or returned), some
      other value, or an exception. */
  datatype Outcome = Verdict(b: bool) | NoEvidence | NotABoolean | Raises

  datatype Tier = Tier(name: Label, checks: seq<Label>)

  datatype Spec = Spec(checks: seq<Label>, tiers: seq<Tier>, guards: map<Label, set<string>>)

  predicate Faulty(o: Outcome) {
    o.NotABoolean? || o.Raises?
  }

  predicate Passes(o: Outcome) {
    o == Verdict(true)
  }

  /** `_evaluate_all`: any fault aborts the whole query; unreadable evidence is a failed check. */
  method EvaluateAll(checks: seq<Label>, eval: Label -> Outcome) returns (out: Option<map<Label, bool>>)
    ensures out.None? <==> exists i :: 0 <= i < |checks| && Faulty(eval(checks[i]))
    ensures out.Some? ==> forall c :: c in out.value <==> c in checks
    ensures out.Some? ==> forall c :: c in out.value ==> (out.value[c] <==> Passes(eval(c)))
  {
    var results: map<Label, bool> := map[];
    for n := 0 to |checks|
      invariant forall i :: 0 <= i < n ==> !Faulty(eval(checks[i]))
      invariant forall c :: c in results <==> c in checks[..n]
      invariant forall c :: c in results ==> (results[c] <==> Passes(eval(c)))
    {
      match eval(checks[n]) {
        case Verdict(b) => results := results[checks[n] := b];
        case NoEvidence => results := results[checks[n] := false];
        case NotABoolean => return None;
        case Raises => return None;
      }
      assert checks[..n + 1] == checks[..n] + [checks[n]];
    }
    assert checks[..|checks|] == checks;
    return Some(results);
  }

  predicate Aborts(spec: Spec, eval: Label -> Outcome) {
    exists i :: 0 <= i < |spec.checks| && Faulty(eval(spec.checks[i]))
  }

  /** Every top-level field the check is guarded by is present. */
  predicate Applicable(spec: Spec, c: Label, input: Json) {
    input.Obj? && c in spec.guards ==> forall f :: f in spec.guards[c] ==> Has(input.fields, f)
  }

  /** `all(results[cid] for cid in checks)`: left to right, stopping at the first check that does not
      pass; a check the file does not define raises when it is reached. */
  function FoldChecks(spec: Spec, checks: seq<Label>, eval: Label -> Outcome): Cedar.Reply<bool> {
    if checks == [] then Cedar.Result(true)
    else if checks[0] !in spec.checks then Cedar.Fault
    else if !Passes(eval(checks[0])) then Cedar.Result(false)
    else FoldChecks(spec, checks[1..], eval)
  }

  /** `any(...)` over the tiers, stopping at the first that passes. */
  function FoldTiers(spec: Spec, tiers: seq<Tier>, eval: Label -> Outcome): Cedar.Reply<bool> {
    if tiers == [] then Cedar.Result(false)
    else
      var first := FoldChecks(spec, tiers[0].checks, eval);
      if first.Result? && !first.value then FoldTiers(spec, tiers[1..], eval) else first
  }

  function QueryAllow(spec: Spec, eval: Label -> Outcome): Cedar.Reply<bool> {
    if Aborts(spec, eval) then Cedar.Fault else FoldTiers(spec, spec.tiers, eval)
  }

  function QueryFailedChecks(spec: Spec, eval: Label -> Outcome, input: Json): Cedar.Reply<set<Label>> {
    match QueryAllow(spec, eval)
    case Fault => Cedar.Fault
    case Result(true) => Cedar.Result({})
    case Result(false) => Cedar.Result(set c | c in spec.checks && !Passes(eval(c)) && Applicable(spec, c, input))
  }

  // ---- What the fold means ----

  /** A check the tier names is missing from the file, and everything before it passes. */
  predicate Trips(spec: Spec, tier: Tier, eval: Label -> Outcome) {
    exists k :: 0 <= k < |tier.checks| && TripsAt(spec, tier, eval, k)
  }

  predicate TripsAt(spec: Spec, tier: Tier, eval: Label -> Outcome, k: nat)
    requires k < |tier.checks|
  {
    tier.checks[k] !in spec.checks && forall j :: 0 <= j < k ==> tier.checks[j] in spec.checks && Passes(eval(tier.checks[j]))
  }

  predicate Satisfied(spec: Spec, tier: Tier, eval: Label -> Outcome) {
    forall j :: 0 <= j < |tier.checks| ==> tier.checks[j] in spec.checks && Passes(eval(tier.checks[j]))
  }

  lemma {:induction false} FoldChecksMeans(spec: Spec, checks: seq<Label>, eval: Label -> Outcome, name: Label)
    ensures FoldChecks(spec, checks, eval).Fault? <==> Trips(spec, Tier(name, checks), eval)
    ensures FoldChecks(spec, checks, eval).Result? ==>
      (FoldChecks(spec, checks, eval).value <==> Satisfied(spec, Tier(name, checks), eval))
  {
    if checks != [] {
      var t, rest := Tier(name, checks), Tier(name, checks[1..]);
      FoldChecksMeans(spec, checks[1..], eval, name);
      if checks[0] !in spec.checks {
        assert TripsAt(spec, t, eval, 0);
      } else if Passes(eval(checks[0])) {
        if k :| 0 <= k < |rest.checks| && TripsAt(spec, rest, eval, k) {
          assert TripsAt(spec, t, eval, k + 1);
        }
        if k :| 0 <= k < |checks| && TripsAt(spec, t, eval, k) {
          assert TripsAt(spec, rest, eval, k - 1);
        }
      }
    }
  }

  predicate AllowsAt(spec: Spec, tiers: seq<Tier>, eval: Label -> Outcome, i: nat)
    requires i < |tiers|
  {
    Satisfied(spec, tiers[i], eval) && forall j :: 0 <= j < i ==> !Trips(spec, tiers[j], eval)
  }

  /** The fold, exactly: it allows when some tier is satisfied and no tier before it trips over an
      undefined check, it denies when no tier is satisfied or trips, and it raises otherwise. */
  lemma {:induction false} FoldTiersMeans(spec: Spec, tiers: seq<Tier>, eval: Label -> Outcome)
    ensures FoldTiers(spec, tiers, eval) == Cedar.Result(true) <==> exists i :: 0 <= i < |tiers| && AllowsAt(spec, tiers, eval, i)
    ensures FoldTiers(spec, tiers, eval) == Cedar.Result(false) <==>
      forall i :: 0 <= i < |tiers| ==> !Satisfied(spec, tiers[i], eval) && !Trips(spec, tiers[i], eval)
  {
    hide Satisfied, Trips, FoldChecks;
    if tiers != [] {
      var rest := tiers[1..];
      FoldChecksMeans(spec, tiers[0].checks, eval, tiers[0].name);
      assert tiers[0] == Tier(tiers[0].name, tiers[0].checks);
      Exclusive(spec, tiers[0], eval);
      FoldTiersMeans(spec, rest, eval);
      assert forall j :: 0 < j < |tiers| ==> tiers[j] == rest[j - 1];
      assert forall j :: 0 <= j < |rest| ==> rest[j] == tiers[j + 1];
      if Satisfied(spec, tiers[0], eval) {
        assert AllowsAt(spec, tiers, eval, 0);
      } else if Trips(spec, tiers[0], eval) {
        assert FoldTiers(spec, tiers, eval) == Cedar.Fault;
        assert forall i :: 0 <= i < |tiers| ==> !AllowsAt(spec, tiers, eval, i);
      } else {
        assert FoldTiers(spec, tiers, eval) == FoldTiers(spec, rest, eval);
        if i :| 0 <= i < |rest| && AllowsAt(spec, rest, eval, i) {
          Shifted(spec, tiers, eval, i);
          assert AllowsAt(spec, tiers, eval, i + 1);
        }
        if i :| 0 <= i < |tiers| && AllowsAt(spec, tiers, eval, i) {
          Shifted(spec, tiers, eval, i - 1);
          assert AllowsAt(spec, rest, eval, i - 1);
        }
      }
    }
  }

  lemma Shifted(spec: Spec, tiers: seq<Tier>, eval: Label -> Outcome, i: nat)
    requires i < |tiers| - 1
    ensures AllowsAt(spec, tiers, eval, i + 1) <==> !Trips(spec, tiers[0], eval) && AllowsAt(spec, tiers[1..], eval, i)
  {
    hide Satisfied, Trips;
    var rest := tiers[1..];
    assert forall j :: 0 < j < |tiers| ==> tiers[j] == rest[j - 1];
    assert forall j :: 0 <= j < |rest| ==> rest[j] == tiers[j + 1];
  }

  lemma Exclusive(spec: Spec, tier: Tier, eval: Label -> Outcome)
    ensures !(Satisfied(spec, tier, eval) && Trips(spec, tier, eval))
  {
  }

  // ---- Both entrypoints, off one evaluation of every check ----

  method Query(spec: Spec, eval: Label -> Outcome, input: Json) returns (allow: Cedar.Reply<bool>, failed: Cedar.Reply<set<Label>>)
    ensures allow == QueryAllow(spec, eval)
    ensures failed == QueryFailedChecks(spec, eval, input)
  {
    var results := EvaluateAll(spec.checks, eval);
    if results.None? {
      return Cedar.Fault, Cedar.Fault;
    }
    var out := results.value;
    var i, allowed := 0, false;
    assert spec.tiers[0..] == spec.tiers;
    while i < |spec.tiers| && !allowed
      invariant i <= |spec.tiers|
      invariant FoldTiers(spec, spec.tiers, eval) == if allowed then Cedar.Result(true) else FoldTiers(spec, spec.tiers[i..], eval)
    {
      var checks, j := spec.tiers[i].checks, 0;
      assert checks[0..] == checks;
      while j < |checks| && checks[j] in out && out[checks[j]]
        invariant j <= |checks|
        invariant FoldChecks(spec, checks, eval) == FoldChecks(spec, checks[j..], eval)
      {
        j := j + 1;
      }
      if j < |checks| && checks[j] !in out {
        return Cedar.Fault, Cedar.Fault;
      }
      allowed := j == |checks|;
      i := i + 1;
    }
    allow := Cedar.Result(allowed);
    if allowed {
      failed := Cedar.Result({});
    } else {
      var ids := set c | c in out && !out[c] && Applicable(spec, c, input);
      assert ids == set c | c in spec.checks && !Passes(eval(c)) && Applicable(spec, c, input);
      failed := Cedar.Result(ids);
    }
  }

  /** Which ids a denial reports: the checks that did not pass and whose guard fields, if it has any, the
      input holds, each as one of its own fields. */
  lemma ReportedExactly(spec: Spec, eval: Label -> Outcome, input: Json, c: Label)
    requires QueryAllow(spec, eval) == Cedar.Result(false)
    ensures QueryFailedChecks(spec, eval, input).Result?
    ensures c in QueryFailedChecks(spec, eval, input).value <==>
      && c in spec.checks && eval(c) != Verdict(true)
      && (input.Obj? && c in spec.guards ==>
            forall f :: f in spec.guards[c] ==> exists i :: 0 <= i < |input.fields| && input.fields[i].key == f)
  {
    if input.Obj? && c in spec.guards {
      forall f | f in spec.guards[c]
        ensures Has(input.fields, f) <==> exists i :: 0 <= i < |input.fields| && input.fields[i].key == f
      {
        FindFirst(input.fields, f);
      }
    }
  }
}
