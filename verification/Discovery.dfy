/** The discovered-tools filter: a bounded ordered dictionary of sessions that stands for the whole
    history of registrations. */
module Discovery {

  /** A session id; a transport without sessions uses one of them for every call. */
  type Session(==, !new)
  type Tool(==, !new)

  datatype Registration = Registration(session: Session, tools: seq<Tool>)
  type History = seq<Registration>

  // ---- What a history says ----

  function Without(s: seq<Session>, x: Session): (r: seq<Session>)
    ensures forall y :: y in r <==> y in s && y != x
  {
    if s == [] then [] else (if s[0] == x then [] else [s[0]]) + Without(s[1..], x)
  }

  /** The sessions that ever registered, each once, by their latest registration. */
  function Recent(h: History): (r: seq<Session>)
    ensures forall x :: x in r <==> exists i :: 0 <= i < |h| && h[i].session == x
  {
    if h == [] then []
    else
      var n := |h| - 1;
      assert forall i :: 0 <= i < |h| ==> i == n || h[i] == h[..n][i];
      Without(Recent(h[..n]), h[n].session) + [h[n].session]
  }

  function LastN(s: seq<Session>, n: nat): (r: seq<Session>)
    ensures |r| == if |s| <= n then |s| else n
    ensures forall x :: x in r ==> x in s
  {
    if |s| <= n then s else s[|s| - n..]
  }

  /** The sessions a filter of that capacity still remembers. */
  function Kept(h: History, capacity: nat): seq<Session> {
    LastN(Recent(h), capacity)
  }

  /** The session registered the tool and has been kept ever since. */
  ghost predicate Passes(h: History, capacity: nat, s: Session, t: Tool) {
    exists i :: PassesSince(h, capacity, s, t, i)
  }

  ghost predicate PassesSince(h: History, capacity: nat, s: Session, t: Tool, i: int) {
    && 0 <= i < |h| && h[i].session == s && t in h[i].tools
    && forall n :: i < n <= |h| ==> s in Kept(h[..n], capacity)
  }

  // ---- Laws of the history ----

  predicate Distinct(s: seq<Session>) {
    forall i, j :: 0 <= i < j < |s| ==> s[i] != s[j]
  }

  lemma {:induction false} WithoutDistinct(s: seq<Session>, x: Session)
    requires Distinct(s)
    ensures Distinct(Without(s, x))
    ensures |Without(s, x)| == |s| - if x in s then 1 else 0
  {
    if s != [] {
      var rest := Without(s[1..], x);
      WithoutDistinct(s[1..], x);
      assert forall j :: 0 <= j < |rest| ==> rest[j] in s[1..];
      assert s[0] !in s[1..];
    }
  }

  lemma {:induction false} RecentDistinct(h: History)
    ensures Distinct(Recent(h))
  {
    if h != [] {
      RecentDistinct(h[..|h| - 1]);
      WithoutDistinct(Recent(h[..|h| - 1]), h[|h| - 1].session);
    }
  }

  lemma PopDistinct(s: seq<Session>)
    requires Distinct(s) && s != []
    ensures Distinct(s[1..]) && forall x :: x in s[1..] <==> x in s && x != s[0]
  {
  }

  lemma LastNow(s: seq<Session>, n: nat)
    ensures |s| <= n ==> LastN(s, n) == s
  {
  }

  lemma PopKeepsLast(s: seq<Session>, n: nat)
    requires |s| > n
    ensures LastN(s[1..], n) == LastN(s, n)
  {
  }

  /** Evicting before or after a registration keeps the same sessions. */
  lemma {:induction false} EvictThenTouch(s: seq<Session>, x: Session, n: nat)
    requires Distinct(s)
    ensures LastN(Without(LastN(s, n), x) + [x], n) == LastN(Without(s, x) + [x], n)
  {
    hide LastN, Distinct;
    if |s| > n {
      PopDistinct(s);
      var w := Without(s[1..], x) + [x];
      WithoutDistinct(s[1..], x);
      EvictThenTouch(s[1..], x, n);
      PopKeepsLast(s, n);
      assert Without(s, x) + [x] == if s[0] == x then w else [s[0]] + w;
      assert ([s[0]] + w)[1..] == w;
      PopKeepsLast([s[0]] + w, n);
    } else {
      LastNow(s, n);
    }
  }

  lemma KeptDistinct(h: History, capacity: nat)
    ensures Distinct(Kept(h, capacity))
  {
    RecentDistinct(h);
  }

  lemma TouchDistinct(s: seq<Session>, x: Session)
    requires Distinct(s)
    ensures Distinct(Without(s, x) + [x])
  {
    WithoutDistinct(s, x);
  }

  lemma KeptAfter(h: History, r: Registration, capacity: nat)
    ensures Kept(h + [r], capacity) == LastN(Without(Kept(h, capacity), r.session) + [r.session], capacity)
  {
    assert (h + [r])[..|h|] == h;
    RecentDistinct(h);
    EvictThenTouch(Recent(h), r.session, capacity);
  }

  lemma PassesAfter(h: History, r: Registration, capacity: nat, s: Session, t: Tool)
    ensures Passes(h + [r], capacity, s, t) <==>
      s in Kept(h + [r], capacity) && (Passes(h, capacity, s, t) || (s == r.session && t in r.tools))
  {
    hide Kept;
    var after := h + [r];
    assert after[..|after|] == after;
    assert forall n :: 0 <= n <= |h| ==> after[..n] == h[..n];
    if i :| PassesSince(after, capacity, s, t, i) {
      assert i < |h| ==> PassesSince(h, capacity, s, t, i);
    }
    if s in Kept(after, capacity) {
      if i :| PassesSince(h, capacity, s, t, i) {
        assert PassesSince(after, capacity, s, t, i);
      }
      if s == r.session && t in r.tools {
        assert PassesSince(after, capacity, s, t, |h|);
      }
    }
  }

  // ---- Which sessions are kept ----

  function SessionsIn(h: History): (r: set<Session>)
    ensures forall x :: x in r <==> exists i :: 0 <= i < |h| && h[i].session == x
  {
    set i | 0 <= i < |h| :: h[i].session
  }

  lemma {:induction false} WithoutSplits(a: seq<Session>, b: seq<Session>, x: Session)
    ensures Without(a + b, x) == Without(a, x) + Without(b, x)
  {
    if a == [] {
      assert a + b == b;
    } else {
      assert (a + b)[1..] == a[1..] + b;
      WithoutSplits(a[1..], b, x);
    }
  }

  /** After a session's last registration come, in recency order, exactly the sessions that have
      registered since. */
  lemma {:induction false} RecentSplit(h: History, i: nat) returns (older: seq<Session>, newer: seq<Session>)
    requires i < |h| && h[i].session !in SessionsIn(h[i + 1..])
    ensures Recent(h) == older + [h[i].session] + newer
    ensures forall x :: x in newer <==> x in SessionsIn(h[i + 1..])
  {
    var n, s := |h| - 1, h[i].session;
    if i == n {
      older, newer := Without(Recent(h[..n]), s), [];
    } else {
      var before, x := h[..n], h[n].session;
      assert h[i + 1..] == before[i + 1..] + [h[n]];
      SinceGrows(before[i + 1..], h[n]);
      var a, b := RecentSplit(before, i);
      WithoutSplits(a + [s], b, x);
      WithoutSplits(a, [s], x);
      older, newer := Without(a, x), Without(b, x) + [x];
    }
  }

  lemma SinceGrows(h: History, r: Registration)
    ensures SessionsIn(h + [r]) == SessionsIn(h) + {r.session}
  {
    var after := h + [r];
    assert after[|h|] == r;
    assert forall i :: 0 <= i < |h| ==> after[i] == h[i];
  }

  lemma {:induction false} DistinctSize(s: seq<Session>)
    requires Distinct(s)
    ensures |set x | x in s| == |s|
  {
    if s != [] {
      PopDistinct(s);
      DistinctSize(s[1..]);
      assert (set x | x in s) == {s[0]} + set x | x in s[1..];
    }
  }

  lemma TailDistinct(a: seq<Session>, x: Session, b: seq<Session>)
    requires Distinct(a + [x] + b)
    ensures Distinct(b) && x !in a && x !in b
  {
    var all := a + [x] + b;
    assert all[|a|] == x;
    assert forall j :: 0 <= j < |b| ==> b[j] == all[|a| + 1 + j];
    assert forall j :: 0 <= j < |a| ==> a[j] == all[j];
  }

  /** A session is remembered exactly when fewer than the capacity of other sessions have registered
      since its own last registration. */
  lemma KeptExactly(h: History, capacity: nat, i: nat)
    requires i < |h| && h[i].session !in SessionsIn(h[i + 1..])
    ensures h[i].session in Kept(h, capacity) <==> |SessionsIn(h[i + 1..])| < capacity
  {
    var s, since := h[i].session, SessionsIn(h[i + 1..]);
    var older, newer := RecentSplit(h, i);
    RecentDistinct(h);
    TailDistinct(older, s, newer);
    DistinctSize(newer);
    assert since == set x | x in newer;
    hide Recent, Distinct, SessionsIn;
    LastOf(older, s, newer, capacity);
  }

  lemma LastOf(a: seq<Session>, x: Session, b: seq<Session>, n: nat)
    requires x !in b
    ensures |b| < n ==> x in LastN(a + [x] + b, n)
    ensures n <= |b| ==> x !in LastN(a + [x] + b, n)
  {
    var all := a + [x] + b;
    if |b| < n <= |all| {
      assert LastN(all, n)[n - |b| - 1] == all[|a|];
    } else if n <= |b| {
      assert LastN(all, n) == b[|b| - n..];
    } else {
      assert all[|a|] == x;
    }
  }

  // ---- The filter ----

  class DiscoveredToolsFilter {
    /** The ordered dictionary: its keys in insertion order, and the tools of each. */
    var order: seq<Session>
    var bySession: map<Session, set<Tool>>
    const maxSessions: nat
    ghost var history: History

    constructor (maxSessions: nat)
      ensures Valid() && history == [] && this.maxSessions == maxSessions
    {
      order, bySession, history := [], map[], [];
      this.maxSessions := maxSessions;
    }

    /** The dictionary holds the kept sessions of the history in recency order, each with the tools
        that pass for it. */
    ghost predicate Valid()
      reads this
    {
      && order == Kept(history, maxSessions)
      && (forall s :: s in bySession <==> s in order)
      && forall s, t :: (s in bySession && t in bySession[s]) <==> Passes(history, maxSessions, s, t)
    }

    method Register(tools: seq<Tool>, session: Session)
      requires Valid()
      modifies this`order, this`bySession, this`history
      ensures Valid() && history == old(history) + [Registration(session, tools)]
    {
      hide Passes, Kept, LastN, Distinct, Without;
      KeptDistinct(history, maxSessions);
      TouchDistinct(order, session);
      ghost var r := Registration(session, tools);
      KeptAfter(history, r, maxSessions);
      var discovered := (if session in bySession then bySession[session] else {}) + set t | t in tools;
      order := Without(order, session) + [session];
      bySession := bySession[session := discovered];
      ghost var all, told := order, bySession;
      LastNow(all, maxSessions);
      while |order| > maxSessions
        invariant history == old(history) && Distinct(order)
        invariant forall s :: s in bySession <==> s in order
        invariant forall s :: s in bySession ==> s in told && bySession[s] == told[s]
        invariant LastN(order, maxSessions) == LastN(all, maxSessions)
      {
        PopKeepsLast(order, maxSessions);
        PopDistinct(order);
        bySession := map s | s in bySession && s != order[0] :: bySession[s];
        order := order[1..];
      }
      LastNow(order, maxSessions);
      forall s, t
        ensures (s in bySession && t in bySession[s]) <==> Passes(history + [r], maxSessions, s, t)
      {
        PassesAfter(history, r, maxSessions, s, t);
      }
      history := history + [r];
    }

    method Check(tool: Tool, session: Session) returns (allowed: bool)
      requires Valid()
      ensures allowed <==> Passes(history, maxSessions, session, tool)
    {
      allowed := session in bySession && tool in bySession[session];
    }
  }
}
