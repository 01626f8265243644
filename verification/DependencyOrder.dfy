/** Credential fields with each one's dependencies before it: an in-place depth-first sort that
    tolerates cycles. */
module DependencyOrder {

  type Field(==, !new)

  /** The credential fields of a bundle and what each one signs over. */
  datatype Graph = Graph(fields: seq<Field>, deps: Field -> seq<Field>)

  // ---- Reaching one field from another ----

  predicate Edge(g: Graph, a: Field, b: Field) {
    b in g.deps(a) && b in g.fields
  }

  /** A chain of dependencies from a to b; a field alone is a chain. */
  ghost predicate IsChain(g: Graph, p: seq<Field>, a: Field, b: Field) {
    && |p| > 0 && p[0] == a && p[|p| - 1] == b
    && forall i :: 0 <= i < |p| - 1 ==> Edge(g, p[i], p[i + 1])
  }

  ghost predicate Reaches(g: Graph, a: Field, b: Field) {
    exists p :: IsChain(g, p, a, b)
  }

  lemma ReachesItself(g: Graph, a: Field)
    ensures Reaches(g, a, a)
  {
    assert IsChain(g, [a], a, a);
  }

  lemma ReachesOn(g: Graph, a: Field, b: Field, c: Field)
    requires Reaches(g, a, b) && Edge(g, b, c)
    ensures Reaches(g, a, c)
  {
    var p :| IsChain(g, p, a, b);
    var q := p + [c];
    assert forall i :: 0 <= i < |q| - 1 ==> Edge(g, q[i], q[i + 1]);
    assert IsChain(g, q, a, c);
  }

  lemma ReachesAhead(g: Graph, a: Field, b: Field, c: Field)
    requires Edge(g, a, b) && Reaches(g, b, c)
    ensures Reaches(g, a, c)
  {
    var p :| IsChain(g, p, b, c);
    var q := [a] + p;
    forall i | 0 <= i < |q| - 1
      ensures Edge(g, q[i], q[i + 1])
    {
      if i > 0 {
        assert Edge(g, p[i - 1], p[i - 1 + 1]);
      }
    }
    assert IsChain(g, q, a, c);
  }

  // ---- What an order must keep ----

  predicate Distinct(s: seq<Field>) {
    forall i, j :: 0 <= i < j < |s| ==> s[i] != s[j]
  }

  /** A dependency stands earlier, or it reaches back. */
  ghost predicate Follows(g: Graph, earlier: seq<Field>, f: Field) {
    forall d :: Edge(g, f, d) ==> d in earlier || Reaches(g, d, f)
  }

  ghost predicate Respects(g: Graph, order: seq<Field>) {
    forall i :: 0 <= i < |order| ==> Follows(g, order[..i], order[i])
  }

  ghost predicate Sound(g: Graph, order: seq<Field>) {
    && Distinct(order)
    && (forall f :: f in order ==> f in g.fields)
    && Respects(g, order)
  }

  lemma AppendSound(g: Graph, order: seq<Field>, f: Field)
    requires Sound(g, order) && f in g.fields && f !in order && Follows(g, order, f)
    ensures Sound(g, order + [f])
  {
    var longer := order + [f];
    forall i | 0 <= i < |longer|
      ensures Follows(g, longer[..i], longer[i])
    {
      assert longer[..i] == if i < |order| then order[..i] else order;
    }
  }

  ghost predicate ReachedFrom(g: Graph, roots: seq<Field>, f: Field) {
    exists r :: r in roots && Reaches(g, r, f)
  }

  /** Nothing is moved ahead of a field without need: what stands before it is reached from a field
      listed no later. */
  ghost predicate Settled(g: Graph, order: seq<Field>, n: nat)
    requires n <= |g.fields|
  {
    forall i :: 0 <= i < n ==> SettledAt(g, order, i)
  }

  ghost predicate SettledAt(g: Graph, order: seq<Field>, i: nat)
    requires i < |g.fields|
  {
    exists k :: 0 <= k <= |order| && g.fields[i] in order[..k] && ReachedAll(g, g.fields[..i + 1], order[..k])
  }

  ghost predicate ReachedAll(g: Graph, roots: seq<Field>, order: seq<Field>) {
    forall j :: 0 <= j < |order| ==> ReachedFrom(g, roots, order[j])
  }

  class Sorter {
    const g: Graph
    var ordered: seq<Field>
    var visiting: set<Field>

    constructor (g: Graph)
      ensures this.g == g && ordered == [] && visiting == {}
    {
      this.g := g;
      ordered := [];
      visiting := {};
    }

    ghost predicate Valid()
      reads this
    {
      && Sound(g, ordered)
      && (forall v :: v in visiting ==> v in g.fields && v !in ordered)
    }

    ghost function Unvisited(): set<Field>
      reads this
    {
      set f | f in g.fields && f !in ordered && f !in visiting
    }

    /** The closure `visit`: every field on the stack reaches the one visited. */
    method Visit(field: Field)
      requires Valid() && field in g.fields
      requires forall v :: v in visiting ==> Reaches(g, v, field)
      modifies this`ordered, this`visiting
      ensures Valid() && visiting == old(visiting)
      ensures old(ordered) <= ordered
      ensures field in ordered || field in visiting
      ensures forall j :: |old(ordered)| <= j < |ordered| ==> Reaches(g, field, ordered[j])
      decreases Unvisited()
    {
      hide Sound, Reaches;
      if field in ordered || field in visiting {
        return;
      }
      ReachesItself(g, field);
      visiting := visiting + {field};
      assert field in old(Unvisited()) && field !in Unvisited();
      var deps := g.deps(field);
      for i := 0 to |deps|
        invariant Valid() && visiting == old(visiting) + {field}
        invariant old(ordered) <= ordered
        invariant forall j :: 0 <= j < i && deps[j] in g.fields ==> deps[j] in ordered || deps[j] in visiting
        invariant forall j :: |old(ordered)| <= j < |ordered| ==> Reaches(g, field, ordered[j])
      {
        var dep := deps[i];
        if dep in g.fields {
          forall v | v in visiting
            ensures Reaches(g, v, dep)
          {
            ReachesOn(g, v, field, dep);
          }
          ghost var before := |ordered|;
          Visit(dep);
          forall j | before <= j < |ordered|
            ensures Reaches(g, field, ordered[j])
          {
            ReachesAhead(g, field, dep, ordered[j]);
          }
        }
      }
      forall d | Edge(g, field, d)
        ensures d in ordered || Reaches(g, d, field)
      {
        var j :| 0 <= j < |deps| && deps[j] == d;
      }
      visiting := visiting - {field};
      AppendSound(g, ordered, field);
      ordered := ordered + [field];
    }

    /** `_dependency_order`. */
    method Order()
      requires ordered == [] && visiting == {}
      modifies this`ordered, this`visiting
      ensures Sound(g, ordered) && Covers(g, ordered, |g.fields|)
      ensures Settled(g, ordered, |g.fields|)
    {
      hide Sound, Reaches, Settled, ReachedAll;
      NothingOrdered(g);
      for i := 0 to |g.fields|
        invariant Valid() && visiting == {}
        invariant Covers(g, ordered, i) && Settled(g, ordered, i)
        invariant ReachedAll(g, g.fields[..i], ordered)
      {
        var f := g.fields[i];
        ghost var before := ordered;
        Visit(f);
        WiderRoots(g, before, ordered, i);
        SettlesNext(g, before, ordered, i);
      }
    }
  }

  lemma NothingOrdered(g: Graph)
    ensures Sound(g, []) && Settled(g, [], 0) && ReachedAll(g, g.fields[..0], [])
  {
  }

  ghost predicate Covers(g: Graph, order: seq<Field>, n: nat)
    requires n <= |g.fields|
  {
    forall i :: 0 <= i < n ==> g.fields[i] in order
  }

  lemma WiderRoots(g: Graph, before: seq<Field>, after: seq<Field>, i: nat)
    requires i < |g.fields| && before <= after && ReachedAll(g, g.fields[..i], before)
    requires forall j :: |before| <= j < |after| ==> Reaches(g, g.fields[i], after[j])
    ensures ReachedAll(g, g.fields[..i + 1], after)
  {
    hide Reaches;
    var roots, wider := g.fields[..i], g.fields[..i + 1];
    assert wider == roots + [g.fields[i]];
    forall j | 0 <= j < |after|
      ensures ReachedFrom(g, wider, after[j])
    {
      if j < |before| {
        assert before[j] == after[j] && ReachedFrom(g, roots, before[j]);
        var r :| r in roots && Reaches(g, r, before[j]);
        assert r in wider;
      }
    }
  }

  lemma SettlesNext(g: Graph, before: seq<Field>, after: seq<Field>, i: nat)
    requires i < |g.fields| && before <= after && Settled(g, before, i)
    requires g.fields[i] in after && ReachedAll(g, g.fields[..i + 1], after)
    ensures Settled(g, after, i + 1)
  {
    hide ReachedAll;
    assert after[..|after|] == after;
    forall m | 0 <= m < i + 1
      ensures SettledAt(g, after, m)
    {
      if m < i {
        assert SettledAt(g, before, m);
        var k :| 0 <= k <= |before| && g.fields[m] in before[..k] && ReachedAll(g, g.fields[..m + 1], before[..k]);
        assert after[..k] == before[..k];
      }
    }
  }

  // ---- What a caller of the sort may rely on ----

  /** A dependency that cannot reach back stands before the field that signs over it. */
  lemma DependencyFirst(g: Graph, order: seq<Field>, i: nat, d: Field)
    requires Sound(g, order) && i < |order| && Edge(g, order[i], d) && !Reaches(g, d, order[i])
    ensures d in order[..i]
  {
    assert Follows(g, order[..i], order[i]);
  }

  /** A field that stands before one listed no later than it is needed by something listed no later:
      with no dependencies at all the given order is kept. */
  lemma NotMovedWithoutNeed(g: Graph, order: seq<Field>, i: nat, at: nat, j: nat)
    requires Sound(g, order) && Settled(g, order, |g.fields|) && i < |g.fields|
    requires j <= at < |order| && order[at] == g.fields[i]
    ensures ReachedFrom(g, g.fields[..i + 1], order[j])
  {
    hide Respects, ReachedFrom;
    assert SettledAt(g, order, i);
    var k :| 0 <= k <= |order| && g.fields[i] in order[..k] && ReachedAll(g, g.fields[..i + 1], order[..k]);
    var m :| 0 <= m < k && order[..k][m] == g.fields[i];
    assert order[m] == order[at];
    assert order[j] == order[..k][j];
  }

  lemma {:induction false} CountedOnce(s: seq<Field>, f: Field)
    requires Distinct(s)
    ensures multiset(s)[f] == if f in s then 1 else 0
  {
    if s != [] {
      assert s == s[..|s| - 1] + [s[|s| - 1]];
      CountedOnce(s[..|s| - 1], f);
    }
  }

  /** For a bundle that lists each field once, the order is a permutation of its fields. */
  lemma Permutes(g: Graph, order: seq<Field>)
    requires Distinct(g.fields) && Sound(g, order) && Covers(g, order, |g.fields|)
    ensures multiset(order) == multiset(g.fields)
  {
    hide Respects, Distinct;
    forall f: Field
      ensures multiset(order)[f] == multiset(g.fields)[f]
    {
      CountedOnce(order, f);
      CountedOnce(g.fields, f);
    }
  }
}
