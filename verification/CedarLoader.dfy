/** Loading a Cedar bundle: the declared or inferred structure, and the completeness check. */
module CedarLoader {
  import opened Prelude
  import opened Cedar
  import Cel

  type Tier = Cel.Tier

  datatype DeclaredShape = Unstated | Stated(shape: Shape) | Unknown

  /** `expected_ids.json`. */
  datatype Declaration = Declaration(shape: DeclaredShape, ids: seq<Label>, tiers: seq<Tier>)

  /** What the loader verified: ids, tiers, shape, and the ids of each tier in order. */
  datatype Structure = Structure(ids: set<Label>, tiers: set<Label>, shape: Shape, tierIds: seq<Tier>)

  predicate Distinct(s: seq<Label>) {
    forall i, j :: 0 <= i < j < |s| ==> s[i] != s[j]
  }

  function ToSet(s: seq<Label>): set<Label> {
    set x | x in s
  }

  function NamesOf(tiers: seq<Tier>): (r: seq<Label>)
    ensures |r| == |tiers| && forall i :: 0 <= i < |r| ==> r[i] == tiers[i].name
  {
    seq(|tiers|, i requires 0 <= i < |tiers| => tiers[i].name)
  }

  function AllIds(tiers: seq<Tier>): seq<Label> {
    if tiers == [] then [] else tiers[0].checks + AllIds(tiers[1..])
  }

  function ReadExpected(d: Declaration): Option<Structure> {
    if d.shape == Unknown then None
    else if d.ids == [] || !Distinct(d.ids) then None
    else if d.tiers == [] || !Distinct(NamesOf(d.tiers)) then None
    else if ToSet(AllIds(d.tiers)) != ToSet(d.ids) then None
    else
      var shape := if d.shape.Stated? then d.shape.shape else ForbidOnly;
      Some(Structure(ToSet(d.ids), ToSet(NamesOf(d.tiers)), shape, d.tiers))
  }

  // ---- Inferring the structure ----

  /** The tiers of the permits in order of appearance, or None if some permit has none. */
  function PermitTierList(ps: seq<Policy>): Option<seq<Label>> {
    if ps == [] then Some([])
    else
      var last := ps[|ps| - 1];
      match PermitTierList(ps[..|ps| - 1])
      case None => None
      case Some(ts) =>
        if last.effect == Forbid then Some(ts)
        else if last.tier.None? then None
        else Some(ts + [last.tier.value])
  }

  predicate IsCheck(p: Policy) {
    p.effect == Forbid && p.id.Some?
  }

  /** The tier a check's sentence belongs to. */
  function Place(p: Policy, tiers: seq<Label>): Option<Label> {
    if p.tier.Some? then if p.tier.value in tiers then Some(p.tier.value) else None
    else if |tiers| == 1 then Some(tiers[0])
    else None
  }

  function IdsPlaced(ps: seq<Policy>, tiers: seq<Label>, t: Label): seq<Label> {
    if ps == [] then []
    else
      var last := ps[|ps| - 1];
      var before := IdsPlaced(ps[..|ps| - 1], tiers, t);
      if IsCheck(last) && Place(last, tiers) == Some(t) then before + [last.id.value] else before
  }

  function TiersPlaced(ps: seq<Policy>, tiers: seq<Label>, ts: seq<Label>): (r: seq<Tier>)
    ensures |r| == |ts| && forall i :: 0 <= i < |r| ==> r[i] == Cel.Tier(ts[i], IdsPlaced(ps, tiers, ts[i]))
  {
    seq(|ts|, i requires 0 <= i < |ts| => Cel.Tier(ts[i], IdsPlaced(ps, tiers, ts[i])))
  }

  predicate AllPlaced(ps: seq<Policy>, tiers: seq<Label>) {
    forall i :: 0 <= i < |ps| && IsCheck(ps[i]) ==> Place(ps[i], tiers).Some?
  }

  function Infer(ps: seq<Policy>): Option<Structure> {
    match PermitTierList(ps)
    case None => None
    case Some(tiers) =>
      if tiers == [] || !Distinct(tiers) || !AllPlaced(ps, tiers) then None
      else
        var tierIds := TiersPlaced(ps, tiers, tiers);
        if AllIds(tierIds) == [] then None
        else Some(Structure(ToSet(AllIds(tierIds)), ToSet(tiers), PermitDecides, tierIds))
  }

  // ---- Completeness ----

  function FoundIds(ps: seq<Policy>): multiset<Label> {
    if ps == [] then multiset{}
    else
      var last := ps[|ps| - 1];
      FoundIds(ps[..|ps| - 1]) + if IsCheck(last) then multiset{last.id.value} else multiset{}
  }

  function FoundAssemblies(ps: seq<Policy>): multiset<Label> {
    if ps == [] then multiset{}
    else
      var last := ps[|ps| - 1];
      FoundAssemblies(ps[..|ps| - 1])
      + if last.effect == Forbid && last.id.None? && last.assembly.Some? then multiset{last.assembly.value} else multiset{}
  }

  function PermitTiers(ps: seq<Policy>): multiset<Label> {
    if ps == [] then multiset{}
    else
      var last := ps[|ps| - 1];
      PermitTiers(ps[..|ps| - 1])
      + if last.effect == Permit && last.tier.Some? then multiset{last.tier.value} else multiset{}
  }

  function Permits(ps: seq<Policy>): nat {
    if ps == [] then 0
    else Permits(ps[..|ps| - 1]) + if ps[|ps| - 1].effect == Permit then 1 else 0
  }

  /** The annotations a policy may carry in a shape. */
  predicate Fits(p: Policy, shape: Shape) {
    if p.effect == Permit then p.id.None? && p.assembly.None? && (p.tier.Some? <==> shape == PermitDecides)
    else p.id.Some? != p.assembly.Some?
  }

  predicate NoDuplicates(m: multiset<Label>) {
    forall k :: k in m ==> m[k] == 1
  }

  function Keys(m: multiset<Label>): set<Label> {
    set k | k in m
  }

  predicate Complete(ps: seq<Policy>, st: Structure, declared: bool) {
    && (forall i :: 0 <= i < |ps| ==> Fits(ps[i], st.shape))
    && Permits(ps) > 0
    && (st.shape == PermitDecides ==> NoDuplicates(PermitTiers(ps)) && Keys(PermitTiers(ps)) == st.tiers)
    && NoDuplicates(FoundIds(ps))
    && NoDuplicates(FoundAssemblies(ps))
    && Keys(FoundIds(ps)) == st.ids
    && (if declared then Keys(FoundAssemblies(ps)) == st.tiers else Keys(FoundAssemblies(ps)) <= st.tiers)
  }

  /** The loader: None is a refusal. */
  function Load(ps: seq<Policy>, declaration: Option<Declaration>): Option<Structure> {
    match (if declaration.Some? then ReadExpected(declaration.value) else Infer(ps))
    case None => None
    case Some(st) => if Complete(ps, st, declaration.Some?) then Some(st) else None
  }

  // ---- The loops of the source ----

  /** The counting loop; a policy whose annotations do not fit the shape is refused. */
  method CountAnnotations(ps: seq<Policy>, shape: Shape)
    returns (ok: bool, permits: nat, ids: multiset<Label>, assemblies: multiset<Label>, permitTiers: multiset<Label>)
    ensures ok <==> forall i :: 0 <= i < |ps| ==> Fits(ps[i], shape)
    ensures ok ==> permits == Permits(ps)
    ensures ok ==> ids == FoundIds(ps) && assemblies == FoundAssemblies(ps) && permitTiers == PermitTiers(ps)
  {
    hide FoundIds, FoundAssemblies, PermitTiers, Permits;
    CountNone(ps);
    ok, permits, ids, assemblies, permitTiers := false, 0, multiset{}, multiset{}, multiset{};
    for n := 0 to |ps|
      invariant forall i :: 0 <= i < n ==> Fits(ps[i], shape)
      invariant permits == Permits(ps[..n])
      invariant ids == FoundIds(ps[..n]) && assemblies == FoundAssemblies(ps[..n]) && permitTiers == PermitTiers(ps[..n])
    {
      CountOne(ps, n);
      var p := ps[n];
      if p.effect == Permit {
        if p.id.Some? || p.assembly.Some? || p.tier.Some? != (shape == PermitDecides) {
          return;
        }
        permits := permits + 1;
        if p.tier.Some? {
          permitTiers := permitTiers + multiset{p.tier.value};
        }
      } else if p.id.Some? == p.assembly.Some? {
        return;
      } else if p.id.Some? {
        ids := ids + multiset{p.id.value};
      } else {
        assemblies := assemblies + multiset{p.assembly.value};
      }
    }
    ok := true;
  }

  lemma CountNone(ps: seq<Policy>)
    ensures Permits(ps[..0]) == 0 && FoundIds(ps[..0]) == FoundAssemblies(ps[..0]) == PermitTiers(ps[..0]) == multiset{}
    ensures ps[..|ps|] == ps
  {
  }

  lemma CountOne(ps: seq<Policy>, n: nat)
    requires n < |ps|
    ensures var p, before, after := ps[n], ps[..n], ps[..n + 1];
      && Permits(after) == Permits(before) + (if p.effect == Permit then 1 else 0)
      && PermitTiers(after) == PermitTiers(before) + (if p.effect == Permit && p.tier.Some? then multiset{p.tier.value} else multiset{})
      && FoundIds(after) == FoundIds(before) + (if IsCheck(p) then multiset{p.id.value} else multiset{})
      && FoundAssemblies(after) == FoundAssemblies(before)
           + (if p.effect == Forbid && p.id.None? && p.assembly.Some? then multiset{p.assembly.value} else multiset{})
  {
    assert ps[..n + 1][..n] == ps[..n];
  }

  method CheckComplete(ps: seq<Policy>, st: Structure, declared: bool) returns (ok: bool)
    ensures ok <==> Complete(ps, st, declared)
  {
    var fits, permits, ids, assemblies, permitTiers := CountAnnotations(ps, st.shape);
    if !fits || permits == 0 {
      return false;
    }
    if st.shape == PermitDecides && (!NoDuplicates(permitTiers) || Keys(permitTiers) != st.tiers) {
      return false;
    }
    if !NoDuplicates(ids) || !NoDuplicates(assemblies) || Keys(ids) != st.ids {
      return false;
    }
    ok := if declared then Keys(assemblies) == st.tiers else Keys(assemblies) <= st.tiers;
  }

  /** The first loop of `_infer_structure`: the permits' tiers. */
  method CollectTiers(ps: seq<Policy>) returns (r: Option<seq<Label>>)
    ensures r == PermitTierList(ps)
  {
    var tiers: seq<Label> := [];
    for n := 0 to |ps|
      invariant PermitTierList(ps[..n]) == Some(tiers)
    {
      assert ps[..n + 1][..n] == ps[..n];
      if ps[n].effect == Permit {
        if ps[n].tier.None? {
          NoTierList(ps, n + 1);
          return None;
        }
        tiers := tiers + [ps[n].tier.value];
      }
    }
    assert ps[..|ps|] == ps;
    return Some(tiers);
  }

  /** Its second loop: each check's id under its tier. */
  method PlaceIds(ps: seq<Policy>, tiers: seq<Label>) returns (r: Option<map<Label, seq<Label>>>)
    requires tiers != []
    ensures r.Some? <==> AllPlaced(ps, tiers)
    ensures r.Some? ==> forall t :: t in r.value <==> t in tiers
    ensures r.Some? ==> forall t :: t in r.value ==> r.value[t] == IdsPlaced(ps, tiers, t)
  {
    hide IdsPlaced, AllPlaced, Place;
    var perTier: map<Label, seq<Label>> := map t | t in tiers :: [];
    NonePlaced(ps, tiers);
    for n := 0 to |ps|
      invariant AllPlaced(ps[..n], tiers)
      invariant forall t :: t in perTier <==> t in tiers
      invariant forall t :: t in perTier ==> perTier[t] == IdsPlaced(ps[..n], tiers, t)
    {
      OneMorePlaced(ps, n, tiers);
      var p := ps[n];
      if IsCheck(p) {
        var place := Place(p, tiers);
        if place.None? {
          Unplaced(ps, n, tiers);
          return None;
        }
        perTier := perTier[place.value := perTier[place.value] + [p.id.value]];
      }
    }
    return Some(perTier);
  }

  method InferStructure(ps: seq<Policy>) returns (r: Option<Structure>)
    ensures r == Infer(ps)
  {
    hide Infer, IdsPlaced, AllPlaced, Distinct, ToSet, AllIds, PermitTierList;
    Inferred(ps);
    var permits := CollectTiers(ps);
    if permits.None? || permits.value == [] || !Distinct(permits.value) {
      return None;
    }
    var tiers := permits.value;
    var placed := PlaceIds(ps, tiers);
    if placed.None? {
      return None;
    }
    var perTier := placed.value;
    var tierIds := seq(|tiers|, i requires 0 <= i < |tiers| && tiers[i] in perTier => Cel.Tier(tiers[i], perTier[tiers[i]]));
    assert tierIds == TiersPlaced(ps, tiers, tiers);
    var ids := AllIds(tierIds);
    if ids == [] {
      return None;
    }
    return Some(Structure(ToSet(ids), ToSet(tiers), PermitDecides, tierIds));
  }

  lemma NonePlaced(ps: seq<Policy>, tiers: seq<Label>)
    ensures AllPlaced(ps[..0], tiers) && forall t :: IdsPlaced(ps[..0], tiers, t) == []
    ensures ps[..|ps|] == ps
  {
  }

  lemma OneMorePlaced(ps: seq<Policy>, n: nat, tiers: seq<Label>)
    requires n < |ps|
    ensures tiers != [] && Place(ps[n], tiers).Some? ==> Place(ps[n], tiers).value in tiers
    ensures AllPlaced(ps[..n + 1], tiers) <==> AllPlaced(ps[..n], tiers) && (IsCheck(ps[n]) ==> Place(ps[n], tiers).Some?)
    ensures forall t :: IdsPlaced(ps[..n + 1], tiers, t) == (
              if IsCheck(ps[n]) && Place(ps[n], tiers) == Some(t) then IdsPlaced(ps[..n], tiers, t) + [ps[n].id.value]
              else IdsPlaced(ps[..n], tiers, t))
  {
    var before, after := ps[..n], ps[..n + 1];
    assert after[..n] == before;
    assert forall i :: 0 <= i < n ==> after[i] == before[i];
    assert after[n] == ps[n];
  }

  lemma Unplaced(ps: seq<Policy>, n: nat, tiers: seq<Label>)
    requires n < |ps| && IsCheck(ps[n]) && Place(ps[n], tiers).None?
    ensures !AllPlaced(ps, tiers)
  {
  }

  /** The inferred structure in terms of the tier list. */
  lemma Inferred(ps: seq<Policy>)
    ensures PermitTierList(ps).None? ==> Infer(ps).None?
    ensures PermitTierList(ps).Some? ==>
      var tiers := PermitTierList(ps).value;
      var tierIds := TiersPlaced(ps, tiers, tiers);
      Infer(ps) ==
        if tiers == [] || !Distinct(tiers) || !AllPlaced(ps, tiers) || AllIds(tierIds) == [] then None
        else Some(Structure(ToSet(AllIds(tierIds)), ToSet(tiers), PermitDecides, tierIds))
  {
  }

  lemma {:induction false} NoTierList(ps: seq<Policy>, n: nat)
    requires n <= |ps| && PermitTierList(ps[..n]).None?
    ensures PermitTierList(ps).None?
    decreases |ps| - n
  {
    if n == |ps| {
      assert ps[..n] == ps;
    } else {
      assert ps[..n + 1][..n] == ps[..n];
      NoTierList(ps, n + 1);
    }
  }

  // ---- Agreement of the two ways to load ----

  function WriteOut(st: Structure): Declaration {
    Declaration(Stated(st.shape), AllIds(st.tierIds), st.tierIds)
  }

  /** Counting one policy more in a list of distinct tiers: its id appears once if its tier is in
      the list. */
  lemma {:induction false} PlaceOne(ps: seq<Policy>, p: Policy, tiers: seq<Label>, ts: seq<Label>)
    requires Distinct(ts)
    ensures multiset(AllIds(TiersPlaced(ps + [p], tiers, ts))) ==
      multiset(AllIds(TiersPlaced(ps, tiers, ts)))
      + if IsCheck(p) && Place(p, tiers).Some? && Place(p, tiers).value in ts then multiset{p.id.value} else multiset{}
  {
    if ts != [] {
      var rest := ts[1..];
      PlaceOne(ps, p, tiers, rest);
      assert (ps + [p])[..|ps|] == ps;
      PlacedHead(ps, tiers, ts);
      PlacedHead(ps + [p], tiers, ts);
      assert ts[0] !in rest;
    }
  }

  lemma PlacedHead(ps: seq<Policy>, tiers: seq<Label>, ts: seq<Label>)
    requires ts != []
    ensures AllIds(TiersPlaced(ps, tiers, ts)) == IdsPlaced(ps, tiers, ts[0]) + AllIds(TiersPlaced(ps, tiers, ts[1..]))
  {
    assert TiersPlaced(ps, tiers, ts)[1..] == TiersPlaced(ps, tiers, ts[1..]);
  }

  lemma {:induction false} PlacedNothing(tiers: seq<Label>, ts: seq<Label>)
    ensures AllIds(TiersPlaced([], tiers, ts)) == []
  {
    if ts != [] {
      PlacedHead([], tiers, ts);
      PlacedNothing(tiers, ts[1..]);
    }
  }

  /** With every check placed, the tiers together hold exactly the checks found. */
  lemma {:induction false} PlacedAll(ps: seq<Policy>, tiers: seq<Label>)
    requires Distinct(tiers) && AllPlaced(ps, tiers)
    ensures multiset(AllIds(TiersPlaced(ps, tiers, tiers))) == FoundIds(ps)
  {
    if ps == [] {
      PlacedNothing(tiers, tiers);
    } else {
      var init, last := ps[..|ps| - 1], ps[|ps| - 1];
      assert ps == init + [last];
      PlacedAll(init, tiers);
      PlaceOne(init, last, tiers, tiers);
    }
  }

  lemma DistinctFromCounts(s: seq<Label>)
    requires NoDuplicates(multiset(s))
    ensures Distinct(s)
  {
    forall i, j | 0 <= i < j < |s|
      ensures s[i] != s[j]
    {
      TwiceCounted(s, i, j);
    }
  }

  lemma TwiceCounted(s: seq<Label>, i: nat, j: nat)
    requires i < j < |s|
    ensures s[i] == s[j] ==> multiset(s)[s[i]] >= 2
  {
    assert s == s[..i] + [s[i]] + s[i + 1..j] + [s[j]] + s[j + 1..];
  }

  /** A set accepted with inferred structure and one assembly forbid per tier is accepted with that
      structure written out, and gives the same ids, tiers, shape and tier order. */
  lemma LoadersAgree(ps: seq<Policy>, st: Structure)
    requires Load(ps, None) == Some(st) && Keys(FoundAssemblies(ps)) == st.tiers
    ensures Load(ps, Some(WriteOut(st))) == Some(st)
  {
    hide PermitTierList, AllPlaced, IdsPlaced, FoundIds, FoundAssemblies, PermitTiers, Fits, AllIds;
    var tiers := PermitTierList(ps).value;
    var ids := AllIds(st.tierIds);
    PlacedAll(ps, tiers);
    DistinctFromCounts(ids);
    assert NamesOf(st.tierIds) == tiers;
  }
}
