/** What the Cedar loader accepts, by the policies of the file: where inference places each check, and when
    annotations and structure match. */
module CedarStructure {
  import opened Prelude
  import opened Cedar
  import opened CedarLoader

  // ---- Policies picked from a file, in file order ----

  /** `at` holds the positions of the chosen policies, in order, and `labels` what each of them is named by. */
  ghost predicate Lists(ps: seq<Policy>, chosen: Policy -> bool, name: Policy -> Option<Label>, at: seq<nat>, labels: seq<Label>) {
    && (forall m, n :: 0 <= m < n < |at| ==> at[m] < at[n])
    && (forall i :: i in at <==> 0 <= i < |ps| && chosen(ps[i]))
    && |labels| == |at| && forall m :: 0 <= m < |at| ==> at[m] < |ps| && name(ps[at[m]]) == Some(labels[m])
  }

  lemma ListsNothing(chosen: Policy -> bool, name: Policy -> Option<Label>)
    ensures Lists([], chosen, name, [], [])
  {
  }

  lemma ListsNext(ps: seq<Policy>, chosen: Policy -> bool, name: Policy -> Option<Label>, at: seq<nat>, labels: seq<Label>)
    requires ps != [] && Lists(ps[..|ps| - 1], chosen, name, at, labels)
    requires chosen(ps[|ps| - 1]) ==> name(ps[|ps| - 1]).Some?
    ensures if chosen(ps[|ps| - 1]) then Lists(ps, chosen, name, at + [|ps| - 1], labels + [name(ps[|ps| - 1]).value])
            else Lists(ps, chosen, name, at, labels)
  {
    var init, last := ps[..|ps| - 1], |ps| - 1;
    assert forall i :: 0 <= i < last ==> init[i] == ps[i];
    if chosen(ps[last]) {
      var all, named := at + [last], labels + [name(ps[last]).value];
      forall i
        ensures i in all <==> 0 <= i < |ps| && chosen(ps[i])
      {
      }
      forall m | 0 <= m < |all|
        ensures all[m] < |ps| && name(ps[all[m]]) == Some(named[m])
      {
      }
    } else {
      forall i
        ensures i in at <==> 0 <= i < |ps| && chosen(ps[i])
      {
      }
    }
  }

  // ---- The inferred structure ----

  /** A check whose sentence belongs under the tier: it says so, or says nothing and the tier is the only one. */
  predicate BelongsTo(p: Policy, tier: Label, only: bool) {
    p.effect == Forbid && p.id.Some? && (p.tier == Some(tier) || (p.tier.None? && only))
  }

  predicate IsPermit(p: Policy) {
    p.effect == Permit
  }

  /** The permits' tiers, in file order, or a permit without one. */
  lemma {:induction false} TiersListed(ps: seq<Policy>) returns (at: seq<nat>)
    ensures PermitTierList(ps).None? <==> exists i :: 0 <= i < |ps| && ps[i].effect == Permit && ps[i].tier.None?
    ensures PermitTierList(ps).Some? ==> Lists(ps, IsPermit, (p: Policy) => p.tier, at, PermitTierList(ps).value)
    decreases |ps|
  {
    hide Lists;
    var tierOf := (p: Policy) => p.tier;
    if ps == [] {
      at := [];
      ListsNothing(IsPermit, tierOf);
    } else {
      var init, last := ps[..|ps| - 1], |ps| - 1;
      at := TiersListed(init);
      if i :| 0 <= i < |init| && init[i].effect == Permit && init[i].tier.None? {
        assert ps[i] == init[i];
      } else {
        assert forall i :: 0 <= i < last ==> init[i] == ps[i];
        if !(IsPermit(ps[last]) && ps[last].tier.None?) {
          ListsNext(ps, IsPermit, tierOf, at, PermitTierList(init).value);
          at := if IsPermit(ps[last]) then at + [last] else at;
        }
      }
    }
  }

  /** The ids placed under a tier are those of the checks that belong to it, in file order. */
  lemma {:induction false} IdsListed(ps: seq<Policy>, tiers: seq<Label>, tier: Label) returns (at: seq<nat>)
    requires tier in tiers
    ensures Lists(ps, (p: Policy) => BelongsTo(p, tier, |tiers| == 1), (p: Policy) => p.id, at, IdsPlaced(ps, tiers, tier))
    decreases |ps|
  {
    hide Lists;
    var belongs, idOf := (p: Policy) => BelongsTo(p, tier, |tiers| == 1), (p: Policy) => p.id;
    if ps == [] {
      at := [];
      ListsNothing(belongs, idOf);
    } else {
      var last := ps[|ps| - 1];
      at := IdsListed(ps[..|ps| - 1], tiers, tier);
      ListsNext(ps, belongs, idOf, at, IdsPlaced(ps[..|ps| - 1], tiers, tier));
      at := if belongs(last) then at + [|ps| - 1] else at;
    }
  }

  /** An inferred structure lists the permits' tiers in the order of the permits. */
  lemma TiersInOrder(ps: seq<Policy>, st: Structure) returns (at: seq<nat>)
    requires Infer(ps) == Some(st)
    ensures Lists(ps, IsPermit, (p: Policy) => p.tier, at, NamesOf(st.tierIds))
  {
    at := TiersListed(ps);
    hide PermitTierList, AllPlaced, AllIds, IdsPlaced, Lists;
    assert NamesOf(st.tierIds) == PermitTierList(ps).value;
  }

  /** Under each tier stand the ids of exactly the checks that belong to it, each as often as the file has
      it and in file order. */
  lemma ChecksInOrder(ps: seq<Policy>, st: Structure, k: nat) returns (at: seq<nat>)
    requires Infer(ps) == Some(st) && k < |st.tierIds|
    ensures Lists(ps, (p: Policy) => BelongsTo(p, st.tierIds[k].name, |st.tierIds| == 1), (p: Policy) => p.id, at, st.tierIds[k].checks)
  {
    hide PermitTierList, AllPlaced, AllIds, IdsPlaced, Lists;
    at := IdsListed(ps, PermitTierList(ps).value, st.tierIds[k].name);
  }

  /** An id is listed under a tier exactly when some check with that id carries the tier, or carries none
      while there is no other. */
  lemma PlacedExactly(ps: seq<Policy>, st: Structure, k: nat, c: Label)
    requires Infer(ps) == Some(st) && k < |st.tierIds|
    ensures c in st.tierIds[k].checks <==>
      exists i :: 0 <= i < |ps| && ps[i].effect == Forbid && ps[i].id == Some(c)
                  && (ps[i].tier == Some(st.tierIds[k].name) || (ps[i].tier.None? && |st.tierIds| == 1))
  {
    var at := ChecksInOrder(ps, st, k);
    hide Infer;
    var checks := st.tierIds[k].checks;
    if c in checks {
      var m :| 0 <= m < |checks| && checks[m] == c;
      assert BelongsTo(ps[at[m]], st.tierIds[k].name, |st.tierIds| == 1);
    }
    if i :| 0 <= i < |ps| && ps[i].effect == Forbid && ps[i].id == Some(c)
            && (ps[i].tier == Some(st.tierIds[k].name) || (ps[i].tier.None? && |st.tierIds| == 1)) {
      assert BelongsTo(ps[i], st.tierIds[k].name, |st.tierIds| == 1);
      assert i in at;
      var m :| 0 <= m < |at| && at[m] == i;
    }
  }

  /** Inference succeeds exactly when the file has a permit, every permit its own tier, and a check, each
      under some permit's tier or, without one, under the only permit's. */
  lemma InferredExactly(ps: seq<Policy>)
    ensures Infer(ps).Some? <==>
      && (exists i :: 0 <= i < |ps| && ps[i].effect == Permit)
      && (forall i :: 0 <= i < |ps| && ps[i].effect == Permit ==> ps[i].tier.Some?)
      && (forall i, j :: 0 <= i < j < |ps| && ps[i].effect == Permit && ps[j].effect == Permit ==> ps[i].tier != ps[j].tier)
      && (exists i :: 0 <= i < |ps| && ps[i].effect == Forbid && ps[i].id.Some?)
      && (forall i :: 0 <= i < |ps| && ps[i].effect == Forbid && ps[i].id.Some? ==> HasPlace(ps, ps[i]))
    ensures Infer(ps).Some? ==> Infer(ps).value.shape == PermitDecides
  {
    var at := TiersListed(ps);
    hide PermitTierList, Lists, AllPlaced, AllIds, TiersPlaced;
    if PermitTierList(ps).Some? {
      var tiers := PermitTierList(ps).value;
      TiersDistinct(ps, at, tiers);
      ChecksPlaced(ps, at, tiers);
      if tiers != [] && Distinct(tiers) && AllPlaced(ps, tiers) {
        AnyCheck(ps, tiers);
      }
    }
  }

  /** Some permit has the check's tier, or the check has none and there is one permit. */
  ghost predicate HasPlace(ps: seq<Policy>, p: Policy) {
    if p.tier.Some? then exists i :: 0 <= i < |ps| && ps[i].effect == Permit && ps[i].tier == p.tier
    else forall i, j :: 0 <= i < j < |ps| ==> ps[i].effect != Permit || ps[j].effect != Permit
  }

  lemma PermitAt(ps: seq<Policy>, at: seq<nat>, tiers: seq<Label>, i: nat) returns (m: nat)
    requires Lists(ps, IsPermit, (p: Policy) => p.tier, at, tiers) && i < |ps| && ps[i].effect == Permit
    ensures m < |at| && at[m] == i && ps[i].tier == Some(tiers[m])
  {
    assert IsPermit(ps[i]);
    m :| 0 <= m < |at| && at[m] == i;
  }

  lemma ListedPermit(ps: seq<Policy>, at: seq<nat>, tiers: seq<Label>, m: nat)
    requires Lists(ps, IsPermit, (p: Policy) => p.tier, at, tiers) && m < |tiers|
    ensures at[m] < |ps| && ps[at[m]].effect == Permit && ps[at[m]].tier == Some(tiers[m])
  {
    assert at[m] in at;
  }

  lemma TiersDistinct(ps: seq<Policy>, at: seq<nat>, tiers: seq<Label>)
    requires Lists(ps, IsPermit, (p: Policy) => p.tier, at, tiers)
    ensures tiers == [] <==> !exists i :: 0 <= i < |ps| && ps[i].effect == Permit
    ensures Distinct(tiers) <==>
      forall i, j :: 0 <= i < j < |ps| && ps[i].effect == Permit && ps[j].effect == Permit ==> ps[i].tier != ps[j].tier
  {
    if tiers != [] {
      ListedPermit(ps, at, tiers, 0);
    }
    if i :| 0 <= i < |ps| && ps[i].effect == Permit {
      var m := PermitAt(ps, at, tiers, i);
    }
    if Distinct(tiers) {
      forall i, j | 0 <= i < j < |ps| && ps[i].effect == Permit && ps[j].effect == Permit
        ensures ps[i].tier != ps[j].tier
      {
        var m := PermitAt(ps, at, tiers, i);
        var n := PermitAt(ps, at, tiers, j);
      }
    } else {
      var m, n :| 0 <= m < n < |tiers| && tiers[m] == tiers[n];
      ListedPermit(ps, at, tiers, m);
      ListedPermit(ps, at, tiers, n);
    }
  }

  lemma OnlyTier(ps: seq<Policy>, at: seq<nat>, tiers: seq<Label>)
    requires Lists(ps, IsPermit, (p: Policy) => p.tier, at, tiers)
    ensures |tiers| <= 1 <==> forall i, j :: 0 <= i < j < |ps| ==> ps[i].effect != Permit || ps[j].effect != Permit
  {
    if |tiers| > 1 {
      ListedPermit(ps, at, tiers, 0);
      ListedPermit(ps, at, tiers, 1);
    } else {
      forall i, j | 0 <= i < j < |ps| && ps[i].effect == Permit
        ensures ps[j].effect != Permit
      {
        var m := PermitAt(ps, at, tiers, i);
        if ps[j].effect == Permit {
          var n := PermitAt(ps, at, tiers, j);
        }
      }
    }
  }

  lemma ChecksPlaced(ps: seq<Policy>, at: seq<nat>, tiers: seq<Label>)
    requires Lists(ps, IsPermit, (p: Policy) => p.tier, at, tiers)
    ensures tiers != [] ==> (AllPlaced(ps, tiers) <==> forall i :: 0 <= i < |ps| && ps[i].effect == Forbid && ps[i].id.Some? ==> HasPlace(ps, ps[i]))
  {
    OnlyTier(ps, at, tiers);
    hide Lists;
    forall i | 0 <= i < |ps| && ps[i].effect == Forbid && ps[i].id.Some?
      ensures tiers != [] ==> (Place(ps[i], tiers).Some? <==> HasPlace(ps, ps[i]))
    {
      if ps[i].tier.Some? {
        TierListed(ps, at, tiers, ps[i].tier.value);
      }
    }
  }

  lemma TierListed(ps: seq<Policy>, at: seq<nat>, tiers: seq<Label>, t: Label)
    requires Lists(ps, IsPermit, (p: Policy) => p.tier, at, tiers)
    ensures t in tiers <==> exists i :: 0 <= i < |ps| && ps[i].effect == Permit && ps[i].tier == Some(t)
  {
    if m :| 0 <= m < |tiers| && tiers[m] == t {
      ListedPermit(ps, at, tiers, m);
    }
    if i :| 0 <= i < |ps| && ps[i].effect == Permit && ps[i].tier == Some(t) {
      var m := PermitAt(ps, at, tiers, i);
    }
  }

  lemma AnyCheck(ps: seq<Policy>, tiers: seq<Label>)
    requires Distinct(tiers) && AllPlaced(ps, tiers)
    ensures AllIds(TiersPlaced(ps, tiers, tiers)) == [] <==> !exists i :: 0 <= i < |ps| && ps[i].effect == Forbid && ps[i].id.Some?
  {
    PlacedAll(ps, tiers);
    IdsAreTags(ps);
    hide AllIds, Tags, AllPlaced, Distinct, FoundIds, FoundAssemblies, PermitTiers;
    var ids := AllIds(TiersPlaced(ps, tiers, tiers));
    if ids != [] {
      assert ids[0] in multiset(ids);
      TagCount(ps, IdTag, ids[0]);
      var i :| TaggedAt(ps, IdTag, ids[0], i);
      assert ps[i].effect == Forbid && ps[i].id.Some?;
    }
    if i :| 0 <= i < |ps| && ps[i].effect == Forbid && ps[i].id.Some? {
      TagCount(ps, IdTag, ps[i].id.value);
      assert TaggedAt(ps, IdTag, ps[i].id.value, i);
      assert ps[i].id.value in multiset(ids);
    }
  }

  // ---- Counting annotations ----

  /** The id of a check, the name of an assembly forbid, the tier of a permit. */
  function IdTag(p: Policy): Option<Label> {
    if p.effect == Forbid then p.id else None
  }

  function AssemblyTag(p: Policy): Option<Label> {
    if p.effect == Forbid && p.id.None? then p.assembly else None
  }

  function TierTag(p: Policy): Option<Label> {
    if p.effect == Permit then p.tier else None
  }

  function Tags(ps: seq<Policy>, tag: Policy -> Option<Label>): multiset<Label> {
    if ps == [] then multiset{}
    else Tags(ps[..|ps| - 1], tag) + if tag(ps[|ps| - 1]).Some? then multiset{tag(ps[|ps| - 1]).value} else multiset{}
  }

  lemma {:induction false} IdsAreTags(ps: seq<Policy>)
    ensures FoundIds(ps) == Tags(ps, IdTag) && FoundAssemblies(ps) == Tags(ps, AssemblyTag) && PermitTiers(ps) == Tags(ps, TierTag)
  {
    if ps != [] {
      IdsAreTags(ps[..|ps| - 1]);
    }
  }

  predicate TaggedAt(ps: seq<Policy>, tag: Policy -> Option<Label>, c: Label, i: int) {
    0 <= i < |ps| && tag(ps[i]) == Some(c)
  }

  ghost predicate Tagged(ps: seq<Policy>, tag: Policy -> Option<Label>, c: Label) {
    exists i :: TaggedAt(ps, tag, c, i)
  }

  ghost predicate AtMostOnce(ps: seq<Policy>, tag: Policy -> Option<Label>, c: Label) {
    forall i, j :: TaggedAt(ps, tag, c, i) && TaggedAt(ps, tag, c, j) ==> i == j
  }

  lemma {:induction false} TagCount(ps: seq<Policy>, tag: Policy -> Option<Label>, c: Label)
    ensures c in Tags(ps, tag) <==> Tagged(ps, tag, c)
    ensures Tags(ps, tag)[c] <= 1 <==> AtMostOnce(ps, tag, c)
  {
    if ps != [] {
      var init, last := ps[..|ps| - 1], |ps| - 1;
      TagCount(init, tag, c);
      forall i
        ensures TaggedAt(init, tag, c, i) <==> TaggedAt(ps, tag, c, i) && i != last
      {
      }
      TagNext(ps, tag, c);
      if tag(ps[last]) == Some(c) {
        assert TaggedAt(ps, tag, c, last);
      }
    }
  }

  lemma TagNext(ps: seq<Policy>, tag: Policy -> Option<Label>, c: Label)
    requires ps != []
    ensures Tags(ps, tag)[c] == Tags(ps[..|ps| - 1], tag)[c] + if tag(ps[|ps| - 1]) == Some(c) then 1 else 0
  {
  }

  /** The tags are the members of `s`, each on one policy. */
  ghost predicate Matched(ps: seq<Policy>, tag: Policy -> Option<Label>, s: set<Label>) {
    forall c :: (Tagged(ps, tag, c) <==> c in s) && AtMostOnce(ps, tag, c)
  }

  ghost predicate OnceWithin(ps: seq<Policy>, tag: Policy -> Option<Label>, s: set<Label>) {
    forall c :: (Tagged(ps, tag, c) ==> c in s) && AtMostOnce(ps, tag, c)
  }

  lemma MatchedIs(ps: seq<Policy>, tag: Policy -> Option<Label>, s: set<Label>)
    ensures Matched(ps, tag, s) <==> NoDuplicates(Tags(ps, tag)) && Keys(Tags(ps, tag)) == s
    ensures OnceWithin(ps, tag, s) <==> NoDuplicates(Tags(ps, tag)) && Keys(Tags(ps, tag)) <= s
  {
    hide Tagged, AtMostOnce, Tags;
    var m := Tags(ps, tag);
    forall c
      ensures c in m <==> Tagged(ps, tag, c)
      ensures m[c] <= 1 <==> AtMostOnce(ps, tag, c)
    {
      TagCount(ps, tag, c);
    }
    assert forall c :: c in Keys(m) <==> c in m;
    assert NoDuplicates(m) <==> forall c :: AtMostOnce(ps, tag, c);
  }

  /** The completeness check, exactly: permits carry a tier and nothing else in one shape and nothing in the
      other, forbids an id or an assembly, and the annotations match the structure one to one, assembly
      forbids onto the tiers where the structure was declared. */
  lemma CompleteExactly(ps: seq<Policy>, st: Structure, declared: bool)
    ensures Complete(ps, st, declared) <==>
      && (exists i :: 0 <= i < |ps| && ps[i].effect == Permit)
      && (forall i :: 0 <= i < |ps| && ps[i].effect == Permit ==>
            ps[i].id.None? && ps[i].assembly.None? && (ps[i].tier.Some? <==> st.shape == PermitDecides))
      && (forall i :: 0 <= i < |ps| && ps[i].effect == Forbid ==> (ps[i].id.Some? <==> ps[i].assembly.None?))
      && (st.shape == PermitDecides ==> Matched(ps, TierTag, st.tiers))
      && Matched(ps, IdTag, st.ids)
      && (if declared then Matched(ps, AssemblyTag, st.tiers) else OnceWithin(ps, AssemblyTag, st.tiers))
  {
    IdsAreTags(ps);
    MatchedIs(ps, TierTag, st.tiers);
    MatchedIs(ps, IdTag, st.ids);
    MatchedIs(ps, AssemblyTag, st.tiers);
    SomePermit(ps);
    hide Matched, OnceWithin, NoDuplicates, Keys, Tags, FoundIds, FoundAssemblies, PermitTiers, Permits;
  }

  lemma {:induction false} SomePermit(ps: seq<Policy>)
    ensures Permits(ps) > 0 <==> exists i :: 0 <= i < |ps| && ps[i].effect == Permit
  {
    if ps != [] {
      SomePermit(ps[..|ps| - 1]);
      if i :| 0 <= i < |ps| && ps[i].effect == Permit {
        assert i < |ps| - 1 ==> ps[..|ps| - 1][i] == ps[i];
      }
    }
  }

  /** Every accepted permit-decides set has its `@id` forbids in bijection with the ids and its
      permits in bijection with the tiers. */
  lemma AnnotationsBijective(ps: seq<Policy>, declaration: Option<Declaration>, st: Structure)
    requires Load(ps, declaration) == Some(st) && st.shape == PermitDecides
    ensures Matched(ps, IdTag, st.ids) && Matched(ps, TierTag, st.tiers)
    ensures forall i :: 0 <= i < |ps| && ps[i].effect == Permit ==> TierTag(ps[i]).Some?
  {
    CompleteExactly(ps, st, declaration.Some?);
    hide Infer, ReadExpected, Complete, Matched, OnceWithin;
  }

  // ---- The declared structure ----

  /** A declaration is read exactly when its shape is known, its ids and its tiers are listed, each once,
      and the tiers' own lists hold the same ids; without a shape it is forbid-only. */
  lemma ReadExactly(d: Declaration, st: Structure)
    ensures ReadExpected(d) == Some(st) <==>
      && d.shape != Unknown && (st.shape == PermitDecides <==> d.shape == Stated(PermitDecides))
      && d.ids != [] && (forall i, j :: 0 <= i < j < |d.ids| ==> d.ids[i] != d.ids[j])
      && d.tiers != [] && (forall i, j :: 0 <= i < j < |d.tiers| ==> d.tiers[i].name != d.tiers[j].name)
      && (forall c :: c in d.ids <==> exists k :: 0 <= k < |d.tiers| && c in d.tiers[k].checks)
      && (forall c :: c in st.ids <==> c in d.ids)
      && (forall t :: t in st.tiers <==> exists k :: 0 <= k < |d.tiers| && d.tiers[k].name == t)
      && st.tierIds == d.tiers
  {
    SameIds(d);
    hide AllIds;
    var names := NamesOf(d.tiers);
    assert Distinct(names) <==> forall i, j :: 0 <= i < j < |d.tiers| ==> d.tiers[i].name != d.tiers[j].name;
    assert Distinct(d.ids) <==> forall i, j :: 0 <= i < j < |d.ids| ==> d.ids[i] != d.ids[j];
    NamesSet(d.tiers);
    assert st.ids == ToSet(d.ids) <==> forall c :: c in st.ids <==> c in d.ids;
    assert st.tiers == ToSet(names) <==> forall t :: t in st.tiers <==> t in ToSet(names);
    assert ReadExpected(d) == Some(st) <==>
      && d.shape != Unknown && d.ids != [] && Distinct(d.ids) && d.tiers != [] && Distinct(names)
      && ToSet(AllIds(d.tiers)) == ToSet(d.ids) && st.ids == ToSet(d.ids) && st.tiers == ToSet(names) && st.tierIds == d.tiers
      && st.shape == if d.shape.Stated? then d.shape.shape else ForbidOnly;
  }

  lemma NamesSet(tiers: seq<Tier>)
    ensures forall t :: t in ToSet(NamesOf(tiers)) <==> exists k :: 0 <= k < |tiers| && tiers[k].name == t
  {
    var names := NamesOf(tiers);
    forall t
      ensures t in names <==> exists k :: 0 <= k < |tiers| && tiers[k].name == t
    {
      if k :| 0 <= k < |tiers| && tiers[k].name == t {
        assert names[k] == t;
      }
    }
  }

  lemma SameIds(d: Declaration)
    ensures ToSet(AllIds(d.tiers)) == ToSet(d.ids) <==>
      forall c :: c in d.ids <==> exists k :: 0 <= k < |d.tiers| && c in d.tiers[k].checks
  {
    forall c
      ensures c in AllIds(d.tiers) <==> exists k :: 0 <= k < |d.tiers| && c in d.tiers[k].checks
    {
      IdListed(d.tiers, c);
    }
    hide AllIds;
    assert forall c :: c in ToSet(AllIds(d.tiers)) <==> c in AllIds(d.tiers);
    assert forall c :: c in ToSet(d.ids) <==> c in d.ids;
  }

  lemma {:induction false} IdListed(tiers: seq<Tier>, c: Label)
    ensures c in AllIds(tiers) <==> exists k :: 0 <= k < |tiers| && c in tiers[k].checks
  {
    if tiers != [] {
      IdListed(tiers[1..], c);
      if k :| 0 <= k < |tiers| && c in tiers[k].checks {
        assert k > 0 ==> tiers[1..][k - 1] == tiers[k];
      }
      if k :| 0 <= k < |tiers[1..]| && c in tiers[1..][k].checks {
        assert tiers[k + 1] == tiers[1..][k];
      }
    }
  }
}
