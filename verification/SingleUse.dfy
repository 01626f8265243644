/** The single-use evidence filter: what one call claims, and one call run undisturbed.
    The interleaved protocol is in SingleUseProtocol. */
module SingleUse {
  import opened Prelude
  import opened SpentStore

  /** A credential argument as the filter sees it: it has a usable id or not, and a readable
      expiry or not. */
  datatype Credential = Unspendable | Spendable(id: Id, exp: Option<Time>)

  /** What the inner policy filter answers: it decides, or it faults. */
  datatype Verdict = Admit | Refuse | Raise

  datatype Denial = Spent | Full | Refused | Raised

  datatype Answer = Allowed | Denied(why: Denial)

  /** An ordered dict: the ids to reserve in order, and the expiry of each. */
  datatype Claims = Claims(ids: seq<Id>, exp: Entries) {
    ghost predicate Valid() {
      && (forall i, j :: 0 <= i < j < |ids| ==> ids[i] != ids[j])
      && (forall k :: k in exp <==> k in ids)
    }

    /** Assignment `d[id] = max(exp, d.get(id, exp))`. */
    function Put(id: Id, t: Time): Claims {
      if id in exp
      then this.(exp := exp[id := if exp[id] < t then t else exp[id]])
      else Claims(ids + [id], exp[id := t])
    }
  }

  function ReservationExpiry(cr: Credential, now: Time, ttl: Time): Time
    requires cr.Spendable?
  {
    if cr.exp.Some? then cr.exp.value else now + ttl
  }

  predicate AllSpendable(creds: seq<Credential>) {
    forall i :: 0 <= i < |creds| ==> creds[i].Spendable?
  }

  /** The claims of a request: each id once, in order of first appearance. */
  function Collected(creds: seq<Credential>, now: Time, ttl: Time): Claims
    requires AllSpendable(creds)
  {
    if creds == [] then Claims([], map[])
    else
      var cr := creds[|creds| - 1];
      Collected(creds[..|creds| - 1], now, ttl).Put(cr.id, ReservationExpiry(cr, now, ttl))
  }

  /** Credential fields that share one id yield one claim for it, at the longest expiry
      among them: a credential's own, or the default time from now where it has none to read. */
  lemma {:induction false} CollectedMeaning(creds: seq<Credential>, now: Time, ttl: Time)
    requires AllSpendable(creds)
    ensures Collected(creds, now, ttl).Valid()
    ensures forall k :: k in Collected(creds, now, ttl).exp <==> exists i :: 0 <= i < |creds| && creds[i].id == k
    ensures forall i :: 0 <= i < |creds| ==>
      (if creds[i].exp.Some? then creds[i].exp.value else now + ttl) <= Collected(creds, now, ttl).exp[creds[i].id]
    ensures forall k :: k in Collected(creds, now, ttl).exp ==>
      exists i :: 0 <= i < |creds| && creds[i].id == k
        && Collected(creds, now, ttl).exp[k] == if creds[i].exp.Some? then creds[i].exp.value else now + ttl
  {
    if creds != [] {
      var n := |creds| - 1;
      var before := creds[..n];
      CollectedMeaning(before, now, ttl);
      var d, r := Collected(before, now, ttl), Collected(creds, now, ttl);
      forall k | k in r.exp
        ensures exists i :: 0 <= i < |creds| && creds[i].id == k
                  && r.exp[k] == if creds[i].exp.Some? then creds[i].exp.value else now + ttl
      {
        if k in d.exp && r.exp[k] == d.exp[k] {
          var i :| 0 <= i < n && before[i].id == k
            && d.exp[k] == if before[i].exp.Some? then before[i].exp.value else now + ttl;
          assert creds[i] == before[i];
        } else {
          assert creds[n].id == k;
        }
      }
      forall i | 0 <= i < |creds|
        ensures creds[i].id in r.exp
        ensures (if creds[i].exp.Some? then creds[i].exp.value else now + ttl) <= r.exp[creds[i].id]
      {
        if i < n {
          assert creds[i] == before[i];
        }
      }
    }
  }

  method CollectClaims(creds: seq<Credential>, now: Time, ttl: Time) returns (r: Option<Claims>)
    ensures r == if AllSpendable(creds) then Some(Collected(creds, now, ttl)) else None
  {
    var pairs: seq<(Id, Time)> := [];
    for i := 0 to |creds|
      invariant AllSpendable(creds[..i]) && |pairs| == i
      invariant forall j :: 0 <= j < i ==> pairs[j] == (creds[j].id, ReservationExpiry(creds[j], now, ttl))
    {
      if creds[i].Unspendable? {
        return None;
      }
      pairs := pairs + [(creds[i].id, ReservationExpiry(creds[i], now, ttl))];
    }
    assert creds[..|creds|] == creds;
    var deduped := Claims([], map[]);
    for i := 0 to |pairs|
      invariant deduped == Collected(creds[..i], now, ttl)
    {
      assert creds[..i + 1][..i] == creds[..i];
      deduped := deduped.Put(pairs[i].0, pairs[i].1);
    }
    return Some(deduped);
  }

  /** The entries of the first `n` claims. */
  function Prefix(claims: Claims, n: nat): Entries
    requires n <= |claims.ids| && claims.Valid()
  {
    map k | k in claims.ids[..n] :: claims.exp[k]
  }

  /** The entries left when each of `ids` is popped. */
  function Without(m: Entries, ids: seq<Id>): Entries {
    map k | k in m && k !in ids :: m[k]
  }

  lemma ClaimHasExpiry(claims: Claims, n: nat)
    requires claims.Valid() && n < |claims.ids|
    ensures claims.ids[n] in claims.exp
  {
  }

  lemma TakeNext<T>(s: seq<T>, n: nat)
    requires n < |s|
    ensures s[..n + 1] == s[..n] + [s[n]]
  {
  }

  predicate Free(live: Entries, ids: seq<Id>) {
    forall i :: 0 <= i < |ids| ==> ids[i] !in live
  }

  /** No id of the call is held against it, and there is room for each claim in turn. A claim
      that is already past its expiry is pruned by the next reservation, so it takes no room. */
  ghost predicate Available(live: Entries, capacity: int, claims: Claims, now: Time)
    requires claims.Valid()
  {
    && Free(live, claims.ids)
    && (claims.ids != [] ==> |live| + |Live(Prefix(claims, |claims.ids| - 1), now)| < capacity)
  }

  lemma DisjointSum(a: Entries, b: Entries)
    requires a.Keys !! b.Keys
    ensures |a + b| == |a| + |b|
  {
    assert (a + b).Keys == a.Keys + b.Keys;
  }

  /** The room taken by the first claims is at most that taken by more of them. */
  lemma PrefixGrows(claims: Claims, m: nat, n: nat, now: Time)
    requires m <= n <= |claims.ids| && claims.Valid()
    ensures |Live(Prefix(claims, m), now)| <= |Live(Prefix(claims, n), now)|
  {
    assert claims.ids[..m] == claims.ids[..n][..m];
    SubmapSize(Live(Prefix(claims, m), now), Live(Prefix(claims, n), now));
  }

  lemma PrefixStep(claims: Claims, n: nat)
    requires n < |claims.ids| && claims.Valid()
    ensures claims.ids[n] !in Prefix(claims, n)
    ensures Prefix(claims, n + 1) == Prefix(claims, n)[claims.ids[n] := claims.exp[claims.ids[n]]]
  {
    assert claims.ids[..n + 1] == claims.ids[..n] + [claims.ids[n]];
  }

  lemma LivePut(m: Entries, k: Id, t: Time, now: Time)
    requires k !in m
    ensures Live(m[k := t], now) == if now < t then Live(m, now)[k := t] else Live(m, now)
  {
  }

  lemma LiveTwice(m: Entries, now: Time)
    ensures Live(Live(m, now), now) == Live(m, now)
  {
  }

  /** A reservation on top of the live entries and the claims already held. */
  lemma ReserveNext(live: Entries, held: Entries, k: Id, t: Time, now: Time)
    requires Live(live, now) == live && k !in live && k !in held
    ensures Live((live + Live(held, now))[k := t], now) == live + Live(held[k := t], now)
  {
    var m := live + Live(held, now);
    assert Live(m, now) == m;
    LivePut(m, k, t, now);
    LivePut(held, k, t, now);
    assert m[k := t] == live + Live(held, now)[k := t];
  }

  /** After `n` successful reservations: the live part of the store is the old live entries plus
      the claims held, and popping those gives the old live entries back. */
  ghost predicate Holding(spent: Entries, live: Entries, claims: Claims, n: nat, now: Time)
    requires n <= |claims.ids| && claims.Valid()
  {
    && Live(spent, now) == live + Live(Prefix(claims, n), now)
    && live.Keys !! Prefix(claims, n).Keys
    && Without(Live(spent, now), claims.ids[..n]) == live
    && (n > 0 ==> Without(spent, claims.ids[..n]) == live)
  }

  lemma HoldNone(spent: Entries, claims: Claims, now: Time)
    requires claims.Valid()
    ensures Holding(spent, Live(spent, now), claims, 0, now)
  {
  }

  lemma HoldNext(spent: Entries, live: Entries, claims: Claims, n: nat, now: Time)
    requires n < |claims.ids| && claims.Valid() && Holding(spent, live, claims, n, now)
    requires Live(live, now) == live && claims.ids[n] !in Live(spent, now)
    ensures Holding(Live(spent, now)[claims.ids[n] := claims.exp[claims.ids[n]]], live, claims, n + 1, now)
  {
    var k, t, held := claims.ids[n], claims.exp[claims.ids[n]], Prefix(claims, n);
    PrefixStep(claims, n);
    TakeNext(claims.ids, n);
    PopNext(Live(spent, now), claims.ids[..n], k, t);
    ReserveNext(live, held, k, t, now);
    PopLive(live, Prefix(claims, n + 1), claims.ids[..n + 1], now);
  }

  lemma PopNext(m: Entries, ids: seq<Id>, k: Id, t: Time)
    requires k !in m
    ensures Without(m[k := t], ids + [k]) == Without(m, ids)
  {
  }

  lemma PopLive(live: Entries, held: Entries, ids: seq<Id>, now: Time)
    requires live.Keys !! held.Keys && forall k :: k in held <==> k in ids
    ensures Without(live + Live(held, now), ids) == live
  {
  }

  /** What the next reservation sees. */
  lemma HoldSees(spent: Entries, live: Entries, claims: Claims, n: nat, now: Time)
    requires n < |claims.ids| && claims.Valid() && Holding(spent, live, claims, n, now)
    ensures claims.ids[n] in claims.exp
    ensures claims.ids[n] in Live(spent, now) <==> claims.ids[n] in live
    ensures |Live(spent, now)| == |live| + |Live(Prefix(claims, n), now)|
  {
    PrefixStep(claims, n);
    DisjointSum(live, Live(Prefix(claims, n), now));
  }

  /** The claiming loop from claim `n` on: every id, or a rollback of what is held. */
  function Reserving(spent: Entries, capacity: int, claims: Claims, n: nat, now: Time): (Outcome, Entries)
    requires n <= |claims.ids| && claims.Valid()
    decreases |claims.ids| - n
  {
    if n == |claims.ids| then (Reserved, spent)
    else
      var k := claims.ids[n];
      var outcome := ReserveOutcome(spent, capacity, k, now);
      var spent' := AfterReserve(spent, capacity, k, claims.exp[k], now);
      if outcome == Reserved then Reserving(spent', capacity, claims, n + 1, now)
      else (outcome, Without(spent', claims.ids[..n]))
  }

  /** What a claiming loop over these live entries comes to: it holds everything exactly when
      everything is available, else it leaves exactly the live entries it found, and says why. */
  ghost predicate ClaimsSettled(outcome: Outcome, after: Entries, live: Entries, capacity: int, claims: Claims, now: Time)
    requires claims.Valid()
  {
    && (outcome == Reserved <==> Available(live, capacity, claims, now))
    && (outcome == Reserved ==> Holding(after, live, claims, |claims.ids|, now))
    && (outcome != Reserved ==> after == live && claims.ids != [])
    && (outcome == AlreadySpent ==> !Free(live, claims.ids))
    && (outcome == AtCapacity ==> |live| + |Live(Prefix(claims, |claims.ids|), now)| >= capacity)
  }

  /** The loop has come to claim n: the ones before are held, were free, and had room. */
  ghost predicate ClaimedUpTo(spent: Entries, live: Entries, capacity: int, claims: Claims, n: nat, now: Time)
    requires n <= |claims.ids| && claims.Valid()
  {
    && Live(live, now) == live && Holding(spent, live, claims, n, now) && Free(live, claims.ids[..n])
    && (n > 0 ==> |live| + |Live(Prefix(claims, n - 1), now)| < capacity)
  }

  lemma AllClaimed(spent: Entries, live: Entries, capacity: int, claims: Claims, now: Time)
    requires claims.Valid() && ClaimedUpTo(spent, live, capacity, claims, |claims.ids|, now)
    ensures ClaimsSettled(Reserved, spent, live, capacity, claims, now)
  {
    hide Live, Prefix, Claims.Valid, Holding;
    assert claims.ids[..|claims.ids|] == claims.ids;
  }

  lemma ClaimRefused(spent: Entries, live: Entries, capacity: int, claims: Claims, n: nat, now: Time)
    requires n < |claims.ids| && claims.Valid() && ClaimedUpTo(spent, live, capacity, claims, n, now)
    requires ReserveOutcome(spent, capacity, claims.ids[n], now) != Reserved
    ensures claims.ids[n] in claims.exp
    ensures var k := claims.ids[n];
      ClaimsSettled(ReserveOutcome(spent, capacity, k, now),
                    Without(AfterReserve(spent, capacity, k, claims.exp[k], now), claims.ids[..n]), live, capacity, claims, now)
  {
    hide Live, Prefix, Claims.Valid, Without;
    HoldSees(spent, live, claims, n, now);
    PrefixGrows(claims, n, |claims.ids| - 1, now);
    PrefixGrows(claims, n, |claims.ids|, now);
    if claims.ids[n] in live {
      assert !Free(live, claims.ids);
    }
  }

  lemma ClaimNext(spent: Entries, live: Entries, capacity: int, claims: Claims, n: nat, now: Time)
    requires n < |claims.ids| && claims.Valid() && ClaimedUpTo(spent, live, capacity, claims, n, now)
    requires ReserveOutcome(spent, capacity, claims.ids[n], now) == Reserved
    ensures claims.ids[n] in claims.exp
    ensures var k := claims.ids[n];
      ClaimedUpTo(AfterReserve(spent, capacity, k, claims.exp[k], now), live, capacity, claims, n + 1, now)
  {
    hide Live, Prefix, Claims.Valid, Without;
    HoldSees(spent, live, claims, n, now);
    HoldNext(spent, live, claims, n, now);
    TakeNext(claims.ids, n);
  }

  lemma {:induction false} ReservingMeaning(spent: Entries, live: Entries, capacity: int, claims: Claims, n: nat, now: Time)
    requires n <= |claims.ids| && claims.Valid() && ClaimedUpTo(spent, live, capacity, claims, n, now)
    ensures var (outcome, after) := Reserving(spent, capacity, claims, n, now);
      ClaimsSettled(outcome, after, live, capacity, claims, now)
    decreases |claims.ids| - n
  {
    hide ClaimsSettled, ClaimedUpTo, Claims.Valid, Without, AfterReserve, ReserveOutcome;
    if n == |claims.ids| {
      AllClaimed(spent, live, capacity, claims, now);
    } else if ReserveOutcome(spent, capacity, claims.ids[n], now) == Reserved {
      ClaimNext(spent, live, capacity, claims, n, now);
      ReservingMeaning(AfterReserve(spent, capacity, claims.ids[n], claims.exp[claims.ids[n]], now), live, capacity, claims, n + 1, now);
    } else {
      ClaimRefused(spent, live, capacity, claims, n, now);
    }
  }

  lemma NothingClaimed(spent: Entries, capacity: int, claims: Claims, now: Time)
    requires claims.Valid()
    ensures ClaimedUpTo(spent, Live(spent, now), capacity, claims, 0, now)
  {
    LiveTwice(spent, now);
    HoldNone(spent, claims, now);
  }

  /** All claims held: what the store holds, and what is left when they are handed back. */
  lemma HeldWhole(spent: Entries, live: Entries, claims: Claims, now: Time)
    requires claims.Valid() && Holding(spent, live, claims, |claims.ids|, now)
    ensures Live(spent, now) == live + Live(claims.exp, now)
    ensures Without(spent, claims.ids) == if claims.ids == [] then spent else live
  {
    WholePrefix(claims);
    assert claims.ids[..|claims.ids|] == claims.ids;
  }

  // ---- One call, and the next ----

  /** One call run undisturbed at one time: its answer, and the store it leaves. */
  function Answered(spent: Entries, capacity: int, creds: seq<Credential>, now: Time, ttl: Time, verdict: Verdict): (Answer, Entries) {
    var turnedDown := Denied(if verdict == Raise then Raised else Refused);
    if !AllSpendable(creds) then (turnedDown, spent)
    else
      CollectedMeaning(creds, now, ttl);
      var claims := Collected(creds, now, ttl);
      var (outcome, after) := Reserving(spent, capacity, claims, 0, now);
      match outcome
      case AlreadySpent => (Denied(Spent), after)
      case AtCapacity => (Denied(Full), after)
      case Reserved => if verdict == Admit then (Allowed, after) else (turnedDown, Without(after, claims.ids))
  }

  /** The loop from its start, on any store. */
  lemma ReservingSettled(spent: Entries, capacity: int, claims: Claims, now: Time)
    requires claims.Valid()
    ensures var (outcome, after) := Reserving(spent, capacity, claims, 0, now);
      ClaimsSettled(outcome, after, Live(spent, now), capacity, claims, now)
  {
    NothingClaimed(spent, capacity, claims, now);
    ReservingMeaning(spent, Live(spent, now), capacity, claims, 0, now);
  }

  /** How long an allowed call's ids are held: at any later time, exactly while one of its credentials
      with that id has not run out. */
  lemma HeldExactly(spent: Entries, capacity: int, creds: seq<Credential>, now: Time, ttl: Time, i: nat, later: Time)
    requires Answered(spent, capacity, creds, now, ttl, Admit).0 == Allowed
    requires i < |creds| && AllSpendable(creds) && now <= later
    ensures creds[i].id in Live(Answered(spent, capacity, creds, now, ttl, Admit).1, later) <==>
      exists j :: 0 <= j < |creds| && creds[j].id == creds[i].id
                  && later < if creds[j].exp.Some? then creds[j].exp.value else now + ttl
  {
    var claims, id := Collected(creds, now, ttl), creds[i].id;
    CollectedMeaning(creds, now, ttl);
    hide Collected, Reserving, AllSpendable;
    ReservingSettled(spent, capacity, claims, now);
    var after := Answered(spent, capacity, creds, now, ttl, Admit).1;
    HeldWhole(after, Live(spent, now), claims, now);
    LiveLater(after, Live(spent, now), claims, id, now, later);
  }

  /** A call is allowed exactly when the inner policy admits it and every id was free with room for all;
      the live entries are then the old ones plus its claims, each lasting at least as long as any
      credential with its id, or the default time where that has no expiry to read. Any other answer
      leaves exactly the old live entries: nothing of a refused, faulted or rolled-back call stays held. */
  ghost predicate CallSettled(answer: Answer, after: Entries, spent: Entries, capacity: int, creds: seq<Credential>,
                              now: Time, ttl: Time, verdict: Verdict)
    requires AllSpendable(creds)
  {
    CollectedMeaning(creds, now, ttl);
    var claims := Collected(creds, now, ttl);
    && (forall i :: 0 <= i < |creds| ==>
          (if creds[i].exp.Some? then creds[i].exp.value else now + ttl) <= claims.exp[creds[i].id])
    && AnswerSettled(answer, after, spent, capacity, claims, now, verdict)
  }

  ghost predicate AnswerSettled(answer: Answer, after: Entries, spent: Entries, capacity: int, claims: Claims, now: Time, verdict: Verdict)
    requires claims.Valid()
  {
    var live := Live(spent, now);
    && (answer == Allowed <==> verdict == Admit && Available(live, capacity, claims, now))
    && (answer == Allowed ==> Live(after, now) == live + Live(claims.exp, now))
    && (answer != Allowed ==> after == if claims.ids == [] then spent else live)
    && (answer == Denied(Spent) ==> !Free(live, claims.ids))
    && (answer == Denied(Full) ==> |live| + |Live(claims.exp, now)| >= capacity)
    && (answer == Denied(Raised) ==> verdict == Raise) && (answer == Denied(Refused) ==> verdict == Refuse)
  }

  lemma AnsweredMeans(spent: Entries, capacity: int, creds: seq<Credential>, now: Time, ttl: Time, verdict: Verdict)
    requires AllSpendable(creds)
    ensures var (answer, after) := Answered(spent, capacity, creds, now, ttl, verdict);
      CallSettled(answer, after, spent, capacity, creds, now, ttl, verdict)
  {
    CollectedMeaning(creds, now, ttl);
    hide Collected, AllSpendable, Claims.Valid, Reserving, AnswerSettled;
    var claims := Collected(creds, now, ttl);
    var (outcome, after) := Reserving(spent, capacity, claims, 0, now);
    OutcomeSettled(spent, capacity, claims, now, outcome, after, verdict);
  }

  lemma OutcomeSettled(spent: Entries, capacity: int, claims: Claims, now: Time, outcome: Outcome, after: Entries, verdict: Verdict)
    requires claims.Valid() && (outcome, after) == Reserving(spent, capacity, claims, 0, now)
    ensures outcome == Reserved ==> AnswerSettled(if verdict == Admit then Allowed else Denied(if verdict == Raise then Raised else Refused),
              if verdict == Admit then after else Without(after, claims.ids), spent, capacity, claims, now, verdict)
    ensures outcome == AlreadySpent ==> AnswerSettled(Denied(Spent), after, spent, capacity, claims, now, verdict)
    ensures outcome == AtCapacity ==> AnswerSettled(Denied(Full), after, spent, capacity, claims, now, verdict)
  {
    hide Available, Free, Claims.Valid, Reserving, Live, Without, Prefix, Holding;
    ReservingSettled(spent, capacity, claims, now);
    NoClaims(spent, capacity, claims, now);
    WholePrefix(claims);
    if outcome == Reserved {
      HeldWhole(after, Live(spent, now), claims, now);
    }
  }

  lemma WholePrefix(claims: Claims)
    requires claims.Valid()
    ensures Prefix(claims, |claims.ids|) == claims.exp
  {
    assert claims.ids[..|claims.ids|] == claims.ids;
  }

  lemma NoClaims(spent: Entries, capacity: int, claims: Claims, now: Time)
    requires claims.Valid()
    ensures claims.ids == [] ==> Reserving(spent, capacity, claims, 0, now) == (Reserved, spent)
  {
  }

  lemma LiveLater(after: Entries, live: Entries, claims: Claims, id: Id, now: Time, later: Time)
    requires claims.Valid() && id in claims.exp && id !in live && now <= later
    requires Live(after, now) == live + Live(claims.exp, now)
    ensures id in Live(after, later) <==> later < claims.exp[id]
  {
    assert id in Live(after, now) <==> now < claims.exp[id];
  }

  /** One approval, one call: after an allowed call, any call that carries one of its ids again before
      that credential runs out is turned away before the policy can admit it, and a call with nothing
      else is told that the approval was used. */
  lemma SpentUntilExpiry(spent: Entries, capacity: int, creds: seq<Credential>, now: Time, ttl: Time, i: nat,
                         again: seq<Credential>, j: nat, later: Time, verdict: Verdict)
    requires Answered(spent, capacity, creds, now, ttl, Admit).0 == Allowed
    requires AllSpendable(creds) && AllSpendable(again) && i < |creds| && j < |again| && again[j].id == creds[i].id
    requires now <= later < if creds[i].exp.Some? then creds[i].exp.value else now + ttl
    ensures var after := Answered(spent, capacity, creds, now, ttl, Admit).1;
      var answer := Answered(after, capacity, again, later, ttl, verdict).0;
      (answer == Denied(Spent) || answer == Denied(Full)) && (|again| == 1 ==> answer == Denied(Spent))
  {
    var after := Answered(spent, capacity, creds, now, ttl, Admit).1;
    HeldExactly(spent, capacity, creds, now, ttl, i, later);
    HeldIsRefused(after, capacity, again, later, ttl, verdict, j);
  }

  lemma HeldIsRefused(spent: Entries, capacity: int, creds: seq<Credential>, now: Time, ttl: Time, verdict: Verdict, i: nat)
    requires AllSpendable(creds) && i < |creds| && creds[i].id in Live(spent, now)
    ensures var answer := Answered(spent, capacity, creds, now, ttl, verdict).0;
      (answer == Denied(Spent) || answer == Denied(Full)) && (|creds| == 1 ==> answer == Denied(Spent))
  {
    var claims := Collected(creds, now, ttl);
    CollectedMeaning(creds, now, ttl);
    ReservingSettled(spent, capacity, claims, now);
    if |creds| == 1 {
      OneClaim(creds, now, ttl);
    }
    hide Collected, AfterReserve, AllSpendable, Live;
    assert !Free(Live(spent, now), claims.ids);
  }

  lemma OneClaim(creds: seq<Credential>, now: Time, ttl: Time)
    requires AllSpendable(creds) && |creds| == 1
    ensures Collected(creds, now, ttl).ids == [creds[0].id]
  {
    assert Collected(creds[..0], now, ttl) == Claims([], map[]);
  }

  class SingleUseFilter {
    const store: InMemorySpentStore
    const ttl: Time

    constructor (store: InMemorySpentStore, ttl: Time)
      ensures this.store == store && this.ttl == ttl
    {
      this.store := store;
      this.ttl := ttl;
    }

    method ReleaseAll(held: seq<Id>)
      modifies store`spent
      ensures store.spent == Without(old(store.spent), held)
    {
      for n := 0 to |held|
        invariant store.spent == Without(old(store.spent), held[..n])
      {
        store.Release(held[n]);
        TakeNext(held, n);
      }
      assert held[..|held|] == held;
    }

    /** All or nothing: every claim is held exactly when every id is free and there is room for each,
        and otherwise the store is left with exactly its live entries. */
    method ReserveAll(claims: Claims, now: Time) returns (outcome: Outcome)
      requires claims.Valid()
      modifies store`spent
      ensures var live := Live(old(store.spent), now);
        && (outcome == Reserved <==> Available(live, store.maxEntries, claims, now))
        && (outcome == Reserved ==> Holding(store.spent, live, claims, |claims.ids|, now))
        && (outcome != Reserved ==> store.spent == live && claims.ids != [])
        && (outcome == AlreadySpent ==> !Free(live, claims.ids))
        && (outcome == AtCapacity ==> |live| + |Live(Prefix(claims, |claims.ids|), now)| >= store.maxEntries)
        && (claims.ids == [] ==> store.spent == old(store.spent))
      ensures (outcome, store.spent) == Reserving(old(store.spent), store.maxEntries, claims, 0, now)
    {
      hide Available, Holding, Live, Prefix, Free, Claims.Valid, AfterReserve, ReserveOutcome, Without;
      NothingClaimed(store.spent, store.maxEntries, claims, now);
      ReservingMeaning(store.spent, Live(store.spent, now), store.maxEntries, claims, 0, now);
      var held: seq<Id> := [];
      for n := 0 to |claims.ids|
        invariant held == claims.ids[..n]
        invariant Reserving(store.spent, store.maxEntries, claims, n, now)
               == Reserving(old(store.spent), store.maxEntries, claims, 0, now)
      {
        ClaimHasExpiry(claims, n);
        outcome := store.Reserve(claims.ids[n], claims.exp[claims.ids[n]], now);
        if outcome != Reserved {
          ReleaseAll(held);
          return;
        }
        TakeNext(claims.ids, n);
        held := held + [claims.ids[n]];
      }
      outcome := Reserved;
    }

    /** One call run undisturbed at one time, with what `AnsweredMeans` says of it. */
    method Check(creds: seq<Credential>, now: Time, verdict: Verdict) returns (answer: Answer)
      modifies store`spent
      ensures (answer, store.spent) == Answered(old(store.spent), store.maxEntries, creds, now, ttl, verdict)
      ensures !AllSpendable(creds) ==> answer.Denied? && store.spent == old(store.spent)
      ensures AllSpendable(creds) ==>
        CallSettled(answer, store.spent, old(store.spent), store.maxEntries, creds, now, ttl, verdict)
    {
      if AllSpendable(creds) {
        AnsweredMeans(store.spent, store.maxEntries, creds, now, ttl, verdict);
      }
      hide Available, Holding, Live, Prefix, Free, Claims.Valid, Without, Collected, Reserving, AllSpendable, CallSettled;
      var collected := CollectClaims(creds, now, ttl);
      if collected.None? {
        return Denied(if verdict == Raise then Raised else Refused);
      }
      var claims := collected.value;
      CollectedMeaning(creds, now, ttl);
      var outcome := ReserveAll(claims, now);
      if outcome != Reserved {
        return Denied(if outcome == AlreadySpent then Spent else Full);
      }
      if verdict != Admit {
        ReleaseAll(claims.ids);
        return Denied(if verdict == Raise then Raised else Refused);
      }
      return Allowed;
    }
  }
}
