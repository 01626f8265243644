/** Every interleaving of concurrent calls over one store: each reservation, verdict and release
    is one atomic step, and a call may be abandoned between any two of its steps. */
module SingleUseProtocol {
  import opened Prelude
  import opened SpentStore
  import opened SingleUse

  type CallId = nat

  /** One id a call holds: until when it is reserved, and when that was done. */
  datatype Hold = Hold(id: Id, exp: Time, at: Time)

  datatype Phase =
    | Reserving
    | Awaiting(since: Time)
    | Releasing(why: Denial)
    | Done(answer: Answer)
    | Hopeless
    | Abandoned

  datatype Call = Call(claims: seq<(Id, Time)>, held: seq<Hold>, phase: Phase)

  datatype State = State(now: Time, store: Entries, calls: map<CallId, Call>)

  /** `refusedFrom(id)` is the time from which the inner policy refuses every call carrying `id`, if
      it ever does; `availableFrom(cr)` is the time from which calls may carry the credential, if they
      ever may. */
  datatype Config = Config(capacity: int, ttl: Time, refusedFrom: Id -> Option<Time>, availableFrom: Credential -> Option<Time>)

  /** The inner policy may still accept a call carrying the id. */
  predicate Accepts(cfg: Config, id: Id, t: Time) {
    cfg.refusedFrom(id).None? || t < cfg.refusedFrom(id).value
  }

  /** A reservation until `exp` lasts until the inner policy refuses the id. */
  predicate Outlasts(cfg: Config, id: Id, exp: Time) {
    cfg.refusedFrom(id).Some? && cfg.refusedFrom(id).value <= exp
  }

  predicate Presentable(cfg: Config, cr: Credential, t: Time) {
    cfg.availableFrom(cr).Some? && cfg.availableFrom(cr).value <= t
  }

  datatype Event =
    | Tick(to: Time)
    | Arrive(c: CallId, creds: seq<Credential>)
    | Reserve(c: CallId)
    | Consult(c: CallId)
    | Decide(c: CallId, verdict: Verdict)
    | Release(c: CallId)
    | Abandon(c: CallId)

  function Init(from: Time): State {
    State(from, map[], map[])
  }

  function Pairs(claims: Claims): (r: seq<(Id, Time)>)
    requires claims.Valid()
    ensures |r| == |claims.ids|
    ensures forall i :: 0 <= i < |r| ==> r[i] == (claims.ids[i], claims.exp[claims.ids[i]])
  {
    seq(|claims.ids|, i requires 0 <= i < |claims.ids| => (claims.ids[i], claims.exp[claims.ids[i]]))
  }

  ghost predicate Enabled(cfg: Config, s: State, e: Event)
  {
    match e
    case Tick(to) => s.now <= to
    case Arrive(c, creds) => c !in s.calls && forall i :: 0 <= i < |creds| ==> Presentable(cfg, creds[i], s.now)
    case Reserve(c) => c in s.calls && s.calls[c].phase == Reserving && |s.calls[c].held| < |s.calls[c].claims|
    case Consult(c) => c in s.calls && s.calls[c].phase == Reserving && |s.calls[c].held| == |s.calls[c].claims|
    case Decide(c, verdict) =>
      && c in s.calls
      && (s.calls[c].phase.Awaiting? || s.calls[c].phase.Hopeless?)
      // The policy read the clock at some time since it was consulted, so an admission means
      // that the time it was consulted was before the refusal time of every id it was shown.
      && (s.calls[c].phase.Awaiting? && verdict == Admit ==>
            forall h :: h in s.calls[c].held ==> Accepts(cfg, h.id, s.calls[c].phase.since))
    case Release(c) => c in s.calls && s.calls[c].phase.Releasing? && s.calls[c].held != []
    case Abandon(c) =>
      c in s.calls && !s.calls[c].phase.Done? && s.calls[c].phase != Abandoned
  }

  /** A refused call hands back what it holds before it answers. */
  function RollBack(call: Call, why: Denial): Call {
    call.(phase := if call.held == [] then Done(Denied(why)) else Releasing(why))
  }

  function NewCall(creds: seq<Credential>, now: Time, ttl: Time): Call {
    if !AllSpendable(creds) then Call([], [], Hopeless)
    else
      CollectedMeaning(creds, now, ttl);
      Call(Pairs(Collected(creds, now, ttl)), [], Reserving)
  }

  function ReserveNextId(cfg: Config, s: State, c: CallId): State
    requires c in s.calls && |s.calls[c].held| < |s.calls[c].claims|
  {
    var call := s.calls[c];
    var (id, exp) := call.claims[|call.held|];
    var call' := match ReserveOutcome(s.store, cfg.capacity, id, s.now)
      case Reserved => call.(held := call.held + [Hold(id, exp, s.now)])
      case AlreadySpent => RollBack(call, Spent)
      case AtCapacity => RollBack(call, Full);
    s.(store := AfterReserve(s.store, cfg.capacity, id, exp, s.now), calls := s.calls[c := call'])
  }

  function Decided(call: Call, verdict: Verdict): Call {
    if call.phase.Awaiting? && verdict == Admit then call.(phase := Done(Allowed))
    else RollBack(call, if verdict == Raise then Raised else Refused)
  }

  function ReleaseNextId(s: State, c: CallId): State
    requires c in s.calls && s.calls[c].held != [] && s.calls[c].phase.Releasing?
  {
    var call := s.calls[c];
    var id := call.held[0].id;
    s.(store := map k | k in s.store && k != id :: s.store[k],
       calls := s.calls[c := RollBack(call.(held := call.held[1..]), call.phase.why)])
  }

  function Step(cfg: Config, s: State, e: Event): State
    requires Enabled(cfg, s, e)
  {
    match e
    case Tick(to) => s.(now := to)
    case Arrive(c, creds) => s.(calls := s.calls[c := NewCall(creds, s.now, cfg.ttl)])
    case Reserve(c) => ReserveNextId(cfg, s, c)
    case Consult(c) => s.(calls := s.calls[c := s.calls[c].(phase := Awaiting(s.now))])
    case Decide(c, verdict) => s.(calls := s.calls[c := Decided(s.calls[c], verdict)])
    case Release(c) => ReleaseNextId(s, c)
    case Abandon(c) => s.(calls := s.calls[c := s.calls[c].(phase := Abandoned)])
  }

  /** `es` can happen from `s` and ends in `t`. */
  ghost predicate Run(cfg: Config, s: State, es: seq<Event>, t: State)
    decreases |es|
  {
    if es == [] then s == t
    else Enabled(cfg, s, es[0]) && Run(cfg, Step(cfg, s, es[0]), es[1..], t)
  }

  ghost predicate Reachable(cfg: Config, from: Time, t: State) {
    exists es :: Run(cfg, Init(from), es, t)
  }

  predicate IsAllowed(s: State, c: CallId) {
    c in s.calls && s.calls[c].phase == Done(Allowed)
  }

  predicate Carries(s: State, c: CallId, id: Id) {
    c in s.calls && exists i :: 0 <= i < |s.calls[c].claims| && s.calls[c].claims[i].0 == id
  }

  /** At most one call is ever allowed per id. */
  ghost predicate OncePerId(s: State) {
    forall c, d, id :: IsAllowed(s, c) && IsAllowed(s, d) && Carries(s, c, id) && Carries(s, d, id) ==> c == d
  }

  /** Each credential, shown at any time it can be while the policy still accepts it, is reserved
      until the policy refuses it. */
  ghost predicate Covered(cfg: Config, from: Time) {
    forall cr: Credential, t: Time :: cr.Spendable? && from <= t && Presentable(cfg, cr, t) && Accepts(cfg, cr.id, t) ==>
      Outlasts(cfg, cr.id, if cr.exp.Some? then cr.exp.value else t + cfg.ttl)
  }

  // ---- What holds whatever is presented ----

  /** Reserved while the policy still accepted the id. */
  predicate Early(cfg: Config, h: Hold) {
    Accepts(cfg, h.id, h.at)
  }

  ghost predicate Holds(s: State, c: CallId, h: Hold) {
    c in s.calls && h in s.calls[c].held
  }

  predicate DistinctClaims(claims: seq<(Id, Time)>) {
    forall i, j :: 0 <= i < j < |claims| ==> claims[i].0 != claims[j].0
  }

  predicate DistinctHolds(held: seq<Hold>) {
    forall i, j :: 0 <= i < j < |held| ==> held[i].id != held[j].id
  }

  /** What is reserved so far is a prefix of what is claimed. */
  predicate HeldInOrder(call: Call) {
    && |call.held| <= |call.claims|
    && forall k :: 0 <= k < |call.held| ==> call.held[k].id == call.claims[k].0 && call.held[k].exp == call.claims[k].1
  }

  predicate PhaseOk(cfg: Config, now: Time, call: Call) {
    match call.phase
    case Reserving => HeldInOrder(call)
    case Awaiting(since) =>
      && HeldInOrder(call) && |call.held| == |call.claims| && since <= now
      && forall h :: h in call.held ==> h.at <= since
    case Done(Allowed) =>
      HeldInOrder(call) && |call.held| == |call.claims| && forall h :: h in call.held ==> Early(cfg, h)
    case Done(Denied(_)) => call.held == []
    case Hopeless => call.held == []
    case _ => true
  }

  predicate CallOk(cfg: Config, now: Time, call: Call) {
    && DistinctClaims(call.claims)
    && DistinctHolds(call.held)
    && (forall h :: h in call.held ==> h.at <= now)
    && PhaseOk(cfg, now, call)
  }

  /** Every store entry is held by some call. */
  ghost predicate Owned(s: State) {
    forall id :: id in s.store ==> OwnedBySome(s, id)
  }

  ghost predicate OwnedBySome(s: State, id: Id)
    requires id in s.store
  {
    exists c, h :: Holds(s, c, h) && h.id == id && h.exp == s.store[id]
  }

  function Bound(cfg: Config): nat {
    if cfg.capacity < 0 then 0 else cfg.capacity
  }

  ghost predicate CallsOk(cfg: Config, s: State) {
    forall c :: c in s.calls ==> CallOk(cfg, s.now, s.calls[c])
  }

  ghost predicate Basic(cfg: Config, s: State) {
    CallsOk(cfg, s) && Owned(s) && |s.store| <= Bound(cfg)
  }

  /** A step after which the same holds are held, in the same store or a pruned one. */
  ghost predicate SameHolds(s: State, t: State) {
    forall c, h :: Holds(t, c, h) <==> Holds(s, c, h)
  }

  lemma OwnedStill(s: State, t: State)
    requires Owned(s) && SameHolds(s, t) && forall id :: id in t.store ==> id in s.store && t.store[id] == s.store[id]
    ensures Owned(t)
  {
    forall id | id in t.store
      ensures OwnedBySome(t, id)
    {
      assert OwnedBySome(s, id);
      var c, h :| Holds(s, c, h) && h.id == id && h.exp == s.store[id];
      assert Holds(t, c, h);
    }
  }

  lemma CallOkLater(cfg: Config, now: Time, later: Time, call: Call)
    requires CallOk(cfg, now, call) && now <= later
    ensures CallOk(cfg, later, call)
  {
  }

  lemma RollBackOk(cfg: Config, now: Time, call: Call, why: Denial)
    requires CallOk(cfg, now, call)
    ensures CallOk(cfg, now, RollBack(call, why)) && RollBack(call, why).held == call.held
  {
  }

  lemma TickBasic(cfg: Config, s: State, to: Time)
    requires Basic(cfg, s) && s.now <= to
    ensures Basic(cfg, s.(now := to))
  {
    OwnedStill(s, s.(now := to));
    forall c | c in s.calls
      ensures CallOk(cfg, to, s.calls[c])
    {
      CallOkLater(cfg, s.now, to, s.calls[c]);
    }
  }

  lemma NewCallOk(cfg: Config, now: Time, creds: seq<Credential>)
    ensures CallOk(cfg, now, NewCall(creds, now, cfg.ttl)) && NewCall(creds, now, cfg.ttl).held == []
  {
    if AllSpendable(creds) {
      CollectedMeaning(creds, now, cfg.ttl);
    }
  }

  /** One call rewritten with the holds it had. */
  lemma CallRewritten(cfg: Config, s: State, t: State, c: CallId, call: Call)
    requires Basic(cfg, s) && t == s.(calls := s.calls[c := call]) && CallOk(cfg, s.now, call)
    requires call.held == if c in s.calls then s.calls[c].held else []
    ensures Basic(cfg, t) && SameHolds(s, t)
  {
    hide CallOk;
    assert SameHolds(s, t);
    OwnedStill(s, t);
  }

  lemma PhaseBasic(cfg: Config, s: State, e: Event)
    requires Basic(cfg, s) && Enabled(cfg, s, e) && (e.Consult? || e.Decide? || e.Abandon?)
    ensures Basic(cfg, Step(cfg, s, e)) && SameHolds(s, Step(cfg, s, e))
    ensures var t := Step(cfg, s, e);
      && e.c in t.calls && t == s.(calls := s.calls[e.c := t.calls[e.c]])
      && t.calls[e.c].claims == s.calls[e.c].claims && t.calls[e.c].held == s.calls[e.c].held
  {
    var t, call := Step(cfg, s, e), s.calls[e.c];
    if e.Decide? {
      RollBackOk(cfg, s.now, call, if e.verdict == Raise then Raised else Refused);
    }
    CallRewritten(cfg, s, t, e.c, t.calls[e.c]);
  }

  /** A reservation that is turned down only prunes. */
  lemma PruneBasic(cfg: Config, s: State, t: State, c: CallId, why: Denial)
    requires Basic(cfg, s) && c in s.calls
    requires t == s.(store := Live(s.store, s.now), calls := s.calls[c := RollBack(s.calls[c], why)])
    ensures Basic(cfg, t) && SameHolds(s, t)
  {
    RollBackOk(cfg, s.now, s.calls[c], why);
    SubmapSize(t.store, s.store);
    hide CallOk, RollBack;
    assert SameHolds(s, t);
    OwnedStill(s, t);
  }

  lemma ReservedCallOk(cfg: Config, now: Time, call: Call)
    requires CallOk(cfg, now, call) && call.phase == Reserving && |call.held| < |call.claims|
    ensures var (id, exp) := call.claims[|call.held|];
      CallOk(cfg, now, call.(held := call.held + [Hold(id, exp, now)]))
  {
  }

  /** One hold added to the call that made it. */
  ghost predicate Adds(s: State, t: State, c: CallId, g: Hold) {
    forall d, h :: Holds(t, d, h) <==> Holds(s, d, h) || (d == c && h == g)
  }

  lemma OwnedAfterReserve(s: State, t: State, c: CallId, g: Hold)
    requires Owned(s) && Adds(s, t, c, g) && t.store == Live(s.store, s.now)[g.id := g.exp]
    ensures Owned(t)
  {
    forall id | id in t.store
      ensures OwnedBySome(t, id)
    {
      if id == g.id {
        assert Holds(t, c, g);
      } else {
        assert OwnedBySome(s, id);
        var d, h :| Holds(s, d, h) && h.id == id && h.exp == s.store[id];
        assert Holds(t, d, h);
      }
    }
  }

  lemma ReservedBasic(cfg: Config, s: State, t: State, c: CallId, g: Hold)
    requires Basic(cfg, s) && c in s.calls && s.calls[c].phase == Reserving && |s.calls[c].held| < |s.calls[c].claims|
    requires var (id, exp) := s.calls[c].claims[|s.calls[c].held|];
      g == Hold(id, exp, s.now) && ReserveOutcome(s.store, cfg.capacity, id, s.now) == Reserved
    requires t == s.(store := Live(s.store, s.now)[g.id := g.exp],
                     calls := s.calls[c := s.calls[c].(held := s.calls[c].held + [g])])
    ensures Basic(cfg, t) && Adds(s, t, c, g)
  {
    ReserveKeepsBound(s.store, cfg.capacity, g.id, g.exp, s.now);
    ReservedCallOk(cfg, s.now, s.calls[c]);
    hide CallOk, Live, ReserveOutcome;
    assert Adds(s, t, c, g);
    OwnedAfterReserve(s, t, c, g);
  }

  /** The holds of one id taken from one call. */
  ghost predicate Drops(s: State, t: State, c: CallId, g: Hold) {
    forall d, h :: Holds(t, d, h) <==> Holds(s, d, h) && !(d == c && h.id == g.id)
  }

  lemma ReleasedCallOk(cfg: Config, now: Time, call: Call)
    requires CallOk(cfg, now, call) && call.phase.Releasing? && call.held != []
    ensures CallOk(cfg, now, RollBack(call.(held := call.held[1..]), call.phase.why))
    ensures forall h :: h in call.held[1..] <==> h in call.held && h.id != call.held[0].id
  {
    RollBackOk(cfg, now, call.(held := call.held[1..]), call.phase.why);
  }

  lemma ReleaseBasic(cfg: Config, s: State, t: State, c: CallId)
    requires Basic(cfg, s) && c in s.calls && s.calls[c].phase.Releasing? && s.calls[c].held != []
    requires t == ReleaseNextId(s, c)
    ensures Basic(cfg, t) && Drops(s, t, c, s.calls[c].held[0])
  {
    var g := s.calls[c].held[0];
    ReleasedCallOk(cfg, s.now, s.calls[c]);
    SubmapSize(t.store, s.store);
    hide CallOk;
    assert Drops(s, t, c, g);
    forall id | id in t.store
      ensures OwnedBySome(t, id)
    {
      assert OwnedBySome(s, id);
      var d, h :| Holds(s, d, h) && h.id == id && h.exp == s.store[id];
      assert Holds(t, d, h);
    }
  }

  lemma ReserveBasic(cfg: Config, s: State, c: CallId)
    requires Basic(cfg, s) && Enabled(cfg, s, Reserve(c))
    ensures Basic(cfg, Step(cfg, s, Reserve(c)))
  {
    hide Basic, Live;
    var call, t := s.calls[c], Step(cfg, s, Reserve(c));
    var (id, exp) := call.claims[|call.held|];
    match ReserveOutcome(s.store, cfg.capacity, id, s.now)
    case AlreadySpent => PruneBasic(cfg, s, t, c, Spent);
    case AtCapacity => PruneBasic(cfg, s, t, c, Full);
    case Reserved => ReservedBasic(cfg, s, t, c, Hold(id, exp, s.now));
  }

  lemma StepBasic(cfg: Config, s: State, e: Event)
    requires Basic(cfg, s) && Enabled(cfg, s, e)
    ensures Basic(cfg, Step(cfg, s, e)) && s.now <= Step(cfg, s, e).now
  {
    hide Basic, CallOk;
    match e
    case Tick(to) => TickBasic(cfg, s, to);
    case Arrive(c, creds) =>
      NewCallOk(cfg, s.now, creds);
      CallRewritten(cfg, s, Step(cfg, s, e), c, NewCall(creds, s.now, cfg.ttl));
    case Reserve(c) => ReserveBasic(cfg, s, c);
    case Release(c) => ReleaseBasic(cfg, s, Step(cfg, s, e), c);
    case _ => PhaseBasic(cfg, s, e);
  }

  lemma {:induction false} RunBasic(cfg: Config, s: State, es: seq<Event>, t: State)
    requires Basic(cfg, s) && Run(cfg, s, es, t)
    ensures Basic(cfg, t)
    decreases |es|
  {
    hide Basic, Enabled, Step;
    if es != [] {
      StepBasic(cfg, s, es[0]);
      RunBasic(cfg, Step(cfg, s, es[0]), es[1..], t);
    }
  }

  lemma ReachableBasic(cfg: Config, from: Time, t: State)
    requires Reachable(cfg, from, t)
    ensures Basic(cfg, t)
  {
    var es :| Run(cfg, Init(from), es, t);
    RunBasic(cfg, Init(from), es, t);
  }

  // ---- What covered credentials add ----

  /** Each claim the policy may still accept, and each early hold, outlasts its acceptance. */
  predicate LastsEnough(cfg: Config, now: Time, call: Call) {
    && (forall i :: 0 <= i < |call.claims| && Accepts(cfg, call.claims[i].0, now) ==>
          Outlasts(cfg, call.claims[i].0, call.claims[i].1))
    && (forall h :: h in call.held && Early(cfg, h) ==> Outlasts(cfg, h.id, h.exp))
  }

  /** An early hold keeps its store entry until it expires. */
  ghost predicate Guarded(cfg: Config, s: State) {
    forall c, h :: Holds(s, c, h) && Early(cfg, h) && s.now < h.exp ==> h.id in s.store && s.store[h.id] == h.exp
  }

  /** No other call holds the id of an early hold until it expires, and none ever holds it early. */
  ghost predicate Alone(cfg: Config, s: State) {
    forall c, h, d, g ::
      Holds(s, c, h) && Holds(s, d, g) && h.id == g.id && Early(cfg, h) && (Early(cfg, g) || s.now < h.exp) ==> c == d
  }

  ghost predicate AllReserved(cfg: Config, s: State) {
    forall c :: c in s.calls ==> LastsEnough(cfg, s.now, s.calls[c])
  }

  ghost predicate Exclusive(cfg: Config, s: State) {
    AllReserved(cfg, s) && Guarded(cfg, s) && Alone(cfg, s)
  }

  ghost predicate Inv(cfg: Config, s: State) {
    Basic(cfg, s) && Exclusive(cfg, s)
  }

  /** The same holds, in a store that lost no live entry. */
  lemma QuietStep(cfg: Config, s: State, t: State)
    requires Exclusive(cfg, s) && SameHolds(s, t) && s.now <= t.now
    requires forall id :: id in s.store && t.now < s.store[id] ==> id in t.store && t.store[id] == s.store[id]
    ensures Guarded(cfg, t) && Alone(cfg, t)
  {
  }

  lemma StillReserved(cfg: Config, now: Time, later: Time, call: Call)
    requires LastsEnough(cfg, now, call) && now <= later
    ensures LastsEnough(cfg, later, call)
  {
  }

  lemma TickKeeps(cfg: Config, s: State, to: Time)
    requires Exclusive(cfg, s) && s.now <= to
    ensures Exclusive(cfg, s.(now := to))
  {
    QuietStep(cfg, s, s.(now := to));
    forall c | c in s.calls
      ensures LastsEnough(cfg, to, s.calls[c])
    {
      StillReserved(cfg, s.now, to, s.calls[c]);
    }
  }

  lemma NewCallReserved(cfg: Config, from: Time, now: Time, creds: seq<Credential>)
    requires Covered(cfg, from) && from <= now && forall i :: 0 <= i < |creds| ==> Presentable(cfg, creds[i], now)
    ensures LastsEnough(cfg, now, NewCall(creds, now, cfg.ttl)) && NewCall(creds, now, cfg.ttl).held == []
  {
    if AllSpendable(creds) {
      CollectedMeaning(creds, now, cfg.ttl);
      var claims := Collected(creds, now, cfg.ttl);
      forall i | 0 <= i < |claims.ids| && Accepts(cfg, claims.ids[i], now)
        ensures Outlasts(cfg, claims.ids[i], claims.exp[claims.ids[i]])
      {
        assert claims.ids[i] in claims.exp;
        var j :| 0 <= j < |creds| && creds[j].id == claims.ids[i];
        assert Presentable(cfg, creds[j], now);
      }
    }
  }

  /** One call rewritten with the holds and claims it had. */
  lemma RewriteKeeps(cfg: Config, s: State, t: State, c: CallId)
    requires Exclusive(cfg, s) && SameHolds(s, t) && s.now == t.now && c in t.calls
    requires t.calls == s.calls[c := t.calls[c]] && LastsEnough(cfg, s.now, t.calls[c])
    requires forall id :: id in s.store && t.now < s.store[id] ==> id in t.store && t.store[id] == s.store[id]
    ensures Exclusive(cfg, t)
  {
    hide LastsEnough;
    QuietStep(cfg, s, t);
  }

  lemma ArriveKeeps(cfg: Config, from: Time, s: State, c: CallId, creds: seq<Credential>)
    requires Inv(cfg, s) && Enabled(cfg, s, Arrive(c, creds)) && Covered(cfg, from) && from <= s.now
    ensures Exclusive(cfg, Step(cfg, s, Arrive(c, creds)))
  {
    var t := Step(cfg, s, Arrive(c, creds));
    NewCallReserved(cfg, from, s.now, creds);
    NewCallOk(cfg, s.now, creds);
    CallRewritten(cfg, s, t, c, t.calls[c]);
    hide Exclusive, LastsEnough, SameHolds, Basic;
    RewriteKeeps(cfg, s, t, c);
  }

  lemma PhaseKeeps(cfg: Config, s: State, e: Event)
    requires Inv(cfg, s) && Enabled(cfg, s, e) && (e.Consult? || e.Decide? || e.Abandon?)
    ensures Exclusive(cfg, Step(cfg, s, e))
  {
    PhaseBasic(cfg, s, e);
    assert LastsEnough(cfg, s.now, s.calls[e.c]);
    hide Exclusive, SameHolds, Basic, Step, Enabled;
    RewriteKeeps(cfg, s, Step(cfg, s, e), e.c);
  }

  lemma PruneKeeps(cfg: Config, s: State, t: State, c: CallId, why: Denial)
    requires Inv(cfg, s) && c in s.calls
    requires t == s.(store := Live(s.store, s.now), calls := s.calls[c := RollBack(s.calls[c], why)])
    ensures Exclusive(cfg, t)
  {
    PruneBasic(cfg, s, t, c, why);
    assert LastsEnough(cfg, s.now, s.calls[c]);
    hide Exclusive, SameHolds, Basic;
    RewriteKeeps(cfg, s, t, c);
  }

  /** The new hold is the only one of its id that matters: an early one before it would still
      have its entry. */
  lemma ReservedAlone(cfg: Config, s: State, t: State, c: CallId, g: Hold)
    requires Inv(cfg, s) && t.now == s.now && g.at == s.now && g.id !in Live(s.store, s.now) && Adds(s, t, c, g)
    ensures Alone(cfg, t)
  {
    forall d, h | Holds(s, d, h) && h.id == g.id && Early(cfg, h)
      ensures h.exp <= s.now && !Early(cfg, g)
    {
      assert LastsEnough(cfg, s.now, s.calls[d]);
    }
  }

  lemma ReservedGuarded(cfg: Config, s: State, t: State, c: CallId, g: Hold)
    requires Guarded(cfg, s) && t.now == s.now && g.id !in Live(s.store, s.now) && Adds(s, t, c, g)
    requires t.store == Live(s.store, s.now)[g.id := g.exp]
    ensures Guarded(cfg, t)
  {
    forall d, h | Holds(s, d, h) && Early(cfg, h) && s.now < h.exp
      ensures h.id != g.id && h.id in t.store && t.store[h.id] == h.exp
    {
    }
  }

  lemma StaysReserved(cfg: Config, now: Time, call: Call)
    requires LastsEnough(cfg, now, call) && |call.held| < |call.claims|
    ensures var (id, exp) := call.claims[|call.held|];
      LastsEnough(cfg, now, call.(held := call.held + [Hold(id, exp, now)]))
  {
  }

  lemma ReservedKeeps(cfg: Config, s: State, t: State, c: CallId, g: Hold)
    requires Inv(cfg, s) && c in s.calls && s.calls[c].phase == Reserving && |s.calls[c].held| < |s.calls[c].claims|
    requires var (id, exp) := s.calls[c].claims[|s.calls[c].held|];
      g == Hold(id, exp, s.now) && ReserveOutcome(s.store, cfg.capacity, id, s.now) == Reserved
    requires t == s.(store := Live(s.store, s.now)[g.id := g.exp],
                     calls := s.calls[c := s.calls[c].(held := s.calls[c].held + [g])])
    ensures Exclusive(cfg, t)
  {
    ReservedBasic(cfg, s, t, c, g);
    ReservedAlone(cfg, s, t, c, g);
    ReservedGuarded(cfg, s, t, c, g);
    assert LastsEnough(cfg, s.now, s.calls[c]);
    StaysReserved(cfg, s.now, s.calls[c]);
    hide LastsEnough, Guarded, Alone, Basic, Live, ReserveOutcome;
  }

  lemma ReserveKeeps(cfg: Config, s: State, c: CallId)
    requires Inv(cfg, s) && Enabled(cfg, s, Reserve(c))
    ensures Exclusive(cfg, Step(cfg, s, Reserve(c)))
  {
    hide Inv, Exclusive, Live;
    var call, t := s.calls[c], Step(cfg, s, Reserve(c));
    var (id, exp) := call.claims[|call.held|];
    match ReserveOutcome(s.store, cfg.capacity, id, s.now)
    case AlreadySpent => PruneKeeps(cfg, s, t, c, Spent);
    case AtCapacity => PruneKeeps(cfg, s, t, c, Full);
    case Reserved => ReservedKeeps(cfg, s, t, c, Hold(id, exp, s.now));
  }

  /** Popping the entry of a hold disturbs no other early hold: an early hold that is still
      reserved is the only hold of its id. */
  lemma ReleasedStore(cfg: Config, s: State, t: State, c: CallId, g: Hold)
    requires Exclusive(cfg, s) && t.now == s.now && Holds(s, c, g) && Drops(s, t, c, g)
    requires t.store == map k | k in s.store && k != g.id :: s.store[k]
    ensures Guarded(cfg, t) && Alone(cfg, t)
  {
  }

  lemma ReleaseKeeps(cfg: Config, s: State, c: CallId)
    requires Inv(cfg, s) && Enabled(cfg, s, Release(c))
    ensures Exclusive(cfg, Step(cfg, s, Release(c)))
  {
    var t, g := Step(cfg, s, Release(c)), s.calls[c].held[0];
    ReleaseBasic(cfg, s, t, c);
    assert Holds(s, c, g);
    ReleasedStore(cfg, s, t, c, g);
    assert LastsEnough(cfg, s.now, s.calls[c]);
    assert LastsEnough(cfg, s.now, t.calls[c]);
    hide LastsEnough, Guarded, Alone, Basic, Drops;
  }

  lemma StepKeeps(cfg: Config, from: Time, s: State, e: Event)
    requires Inv(cfg, s) && Enabled(cfg, s, e) && Covered(cfg, from) && from <= s.now
    ensures Inv(cfg, Step(cfg, s, e)) && from <= Step(cfg, s, e).now
  {
    StepBasic(cfg, s, e);
    hide Basic, Exclusive;
    match e
    case Tick(to) => TickKeeps(cfg, s, to);
    case Arrive(c, creds) => ArriveKeeps(cfg, from, s, c, creds);
    case Reserve(c) => ReserveKeeps(cfg, s, c);
    case Release(c) => ReleaseKeeps(cfg, s, c);
    case _ => PhaseKeeps(cfg, s, e);
  }

  lemma {:induction false} RunKeeps(cfg: Config, from: Time, s: State, es: seq<Event>, t: State)
    requires Inv(cfg, s) && Run(cfg, s, es, t) && Covered(cfg, from) && from <= s.now
    ensures Inv(cfg, t) && from <= t.now
    decreases |es|
  {
    hide Inv, Enabled, Step, Covered;
    if es != [] {
      StepKeeps(cfg, from, s, es[0]);
      RunKeeps(cfg, from, Step(cfg, s, es[0]), es[1..], t);
    }
  }

  lemma ReachableInv(cfg: Config, from: Time, t: State)
    requires Covered(cfg, from) && Reachable(cfg, from, t)
    ensures Inv(cfg, t)
  {
    var es :| Run(cfg, Init(from), es, t);
    RunKeeps(cfg, from, Init(from), es, t);
  }

  // ---- What the protocol guarantees ----

  /** An allowed call holds every id it carries, reserved before the policy refused it. */
  lemma AllowedHolds(cfg: Config, s: State, c: CallId, id: Id) returns (h: Hold)
    requires Basic(cfg, s) && IsAllowed(s, c) && Carries(s, c, id)
    ensures Holds(s, c, h) && h.id == id && Early(cfg, h)
  {
    var i :| 0 <= i < |s.calls[c].claims| && s.calls[c].claims[i].0 == id;
    assert CallOk(cfg, s.now, s.calls[c]);
    h := s.calls[c].held[i];
  }

  /** Safety over every run: with covered credentials, no id ever authorizes two calls. */
  lemma SafeWhenCovered(cfg: Config, from: Time, s: State)
    requires Covered(cfg, from) && Reachable(cfg, from, s)
    ensures OncePerId(s)
  {
    ReachableInv(cfg, from, s);
    forall c, d, id | IsAllowed(s, c) && IsAllowed(s, d) && Carries(s, c, id) && Carries(s, d, id)
      ensures c == d
    {
      var h := AllowedHolds(cfg, s, c, id);
      var g := AllowedHolds(cfg, s, d, id);
    }
  }

  /** A call still in flight, or abandoned on its way, or allowed: not one that was denied. */
  predicate NotDenied(s: State, c: CallId) {
    c in s.calls && !(s.calls[c].phase.Done? && s.calls[c].phase.answer.Denied?)
  }

  /** Accounting over every run of every configuration: the store stays within its capacity, and
      every entry belongs to a call that was not denied, so nothing of a denied call is left in it. */
  lemma Accounting(cfg: Config, from: Time, s: State, id: Id)
    requires Reachable(cfg, from, s)
    ensures |s.store| <= Bound(cfg)
    ensures id in s.store ==> exists c, h :: NotDenied(s, c) && Holds(s, c, h) && h.id == id && h.exp == s.store[id]
  {
    ReachableBasic(cfg, from, s);
    if id in s.store {
      assert OwnedBySome(s, id);
      var c, h :| Holds(s, c, h) && h.id == id && h.exp == s.store[id];
      assert CallOk(cfg, s.now, s.calls[c]);
      assert NotDenied(s, c);
    }
  }

  /** With covered credentials, an allowed call's id stays in the store until its reservation expires,
      and no sooner than the policy refuses it. */
  lemma AllowedStays(cfg: Config, from: Time, s: State, c: CallId, id: Id)
    requires Covered(cfg, from) && Reachable(cfg, from, s) && IsAllowed(s, c) && Carries(s, c, id)
    ensures exists h :: Holds(s, c, h) && h.id == id && Outlasts(cfg, id, h.exp)
                        && (s.now < h.exp ==> id in s.store && s.store[id] == h.exp)
  {
    ReachableInv(cfg, from, s);
    var h := AllowedHolds(cfg, s, c, id);
    assert LastsEnough(cfg, s.now, s.calls[c]);
    assert Guarded(cfg, s);
  }

  /** `id` belongs to an allowed call whose reservation has not expired. */
  ghost predicate SpentAndUnexpired(s: State, id: Id) {
    exists c, h :: IsAllowed(s, c) && Holds(s, c, h) && h.id == id && s.now < h.exp
  }

  lemma OwnerAllowed(cfg: Config, s: State, c: CallId)
    requires c in s.calls && CallOk(cfg, s.now, s.calls[c]) && s.calls[c].phase.Done? && s.calls[c].held != []
    ensures IsAllowed(s, c)
  {
  }

  lemma LiveIsSpent(cfg: Config, s: State, id: Id)
    requires Basic(cfg, s) && id in Live(s.store, s.now)
    requires forall c :: c in s.calls ==> s.calls[c].phase.Done?
    ensures SpentAndUnexpired(s, id)
  {
    hide CallOk;
    assert OwnedBySome(s, id);
    var c, h :| Holds(s, c, h) && h.id == id && h.exp == s.store[id];
    OwnerAllowed(cfg, s, c);
  }

  lemma SpentIsLive(cfg: Config, s: State, id: Id)
    requires Inv(cfg, s) && SpentAndUnexpired(s, id)
    ensures id in Live(s.store, s.now)
  {
    var c, h :| IsAllowed(s, c) && Holds(s, c, h) && h.id == id && s.now < h.exp;
    assert CallOk(cfg, s.now, s.calls[c]);
    assert Early(cfg, h);
    assert Guarded(cfg, s);
  }

  /** With no call in flight every live entry is an unexpired id of an allowed call; with covered
      credentials those are all the live entries there are. */
  lemma QuiescentStore(cfg: Config, from: Time, s: State, id: Id)
    requires Reachable(cfg, from, s)
    requires forall c :: c in s.calls ==> s.calls[c].phase.Done?
    ensures id in Live(s.store, s.now) ==> SpentAndUnexpired(s, id)
    ensures Covered(cfg, from) ==> (id in Live(s.store, s.now) <==> SpentAndUnexpired(s, id))
  {
    ReachableBasic(cfg, from, s);
    if id in Live(s.store, s.now) {
      LiveIsSpent(cfg, s, id);
    } else if Covered(cfg, from) && SpentAndUnexpired(s, id) {
      ReachableInv(cfg, from, s);
      SpentIsLive(cfg, s, id);
    }
  }

  // ---- And exactly when ----

  lemma {:induction false} RunConcat(cfg: Config, s: State, es: seq<Event>, t: State, fs: seq<Event>, u: State)
    requires Run(cfg, s, es, t) && Run(cfg, t, fs, u)
    ensures Run(cfg, s, es + fs, u)
    decreases |es|
  {
    if es == [] {
      assert es + fs == fs;
    } else {
      RunConcat(cfg, Step(cfg, s, es[0]), es[1..], t, fs, u);
      assert (es + fs)[0] == es[0] && (es + fs)[1..] == es[1..] + fs;
    }
  }

  lemma RunOne(cfg: Config, s: State, e: Event)
    requires Enabled(cfg, s, e)
    ensures Run(cfg, s, [e], Step(cfg, s, e))
  {
    assert Run(cfg, Step(cfg, s, e), [e][1..], Step(cfg, s, e));
  }

  function LoneClaim(cr: Credential, now: Time, ttl: Time): (Id, Time)
    requires cr.Spendable?
  {
    (cr.id, ReservationExpiry(cr, now, ttl))
  }

  lemma LoneCall(cr: Credential, now: Time, ttl: Time)
    requires cr.Spendable?
    ensures NewCall([cr], now, ttl) == Call([LoneClaim(cr, now, ttl)], [], Reserving)
  {
    assert [cr][..0] == [];
    assert Collected([], now, ttl) == Claims([], map[]);
    CollectedMeaning([cr], now, ttl);
    assert Collected([cr], now, ttl).ids == [cr.id];
    assert Pairs(Collected([cr], now, ttl)) == [LoneClaim(cr, now, ttl)];
  }

  function Admitted(s: State, c: CallId, cr: Credential, ttl: Time): State
    requires cr.Spendable?
  {
    var (id, exp) := LoneClaim(cr, s.now, ttl);
    s.(store := Live(s.store, s.now)[id := exp],
       calls := s.calls[c := Call([(id, exp)], [Hold(id, exp, s.now)], Done(Allowed))])
  }

  /** A call with one credential that is free, while the policy accepts it, can be allowed. */
  lemma CanAdmit(cfg: Config, s: State, c: CallId, cr: Credential) returns (es: seq<Event>)
    requires c !in s.calls && Presentable(cfg, cr, s.now) && cr.Spendable? && Accepts(cfg, cr.id, s.now)
    requires cr.id !in Live(s.store, s.now) && |Live(s.store, s.now)| < cfg.capacity
    ensures Run(cfg, s, es, Admitted(s, c, cr, cfg.ttl))
  {
    var (id, exp) := LoneClaim(cr, s.now, cfg.ttl);
    LoneCall(cr, s.now, cfg.ttl);
    var s1 := Step(cfg, s, Arrive(c, [cr]));
    assert s1.calls[c] == Call([(id, exp)], [], Reserving);
    var s2 := Step(cfg, s1, Reserve(c));
    assert s2.calls[c] == Call([(id, exp)], [Hold(id, exp, s.now)], Reserving);
    var s3 := Step(cfg, s2, Consult(c));
    var s4 := Step(cfg, s3, Decide(c, Admit));
    assert s4.calls == Admitted(s, c, cr, cfg.ttl).calls;
    RunOne(cfg, s, Arrive(c, [cr]));
    RunOne(cfg, s1, Reserve(c));
    RunOne(cfg, s2, Consult(c));
    RunOne(cfg, s3, Decide(c, Admit));
    RunConcat(cfg, s, [Arrive(c, [cr])], s1, [Reserve(c)], s2);
    RunConcat(cfg, s, [Arrive(c, [cr])] + [Reserve(c)], s2, [Consult(c)], s3);
    es := [Arrive(c, [cr])] + [Reserve(c)] + [Consult(c)] + [Decide(c, Admit)];
    RunConcat(cfg, s, [Arrive(c, [cr])] + [Reserve(c)] + [Consult(c)], s3, [Decide(c, Admit)], s4);
  }

  /** A credential that can be shown while the policy accepts it, reserved for less time than the policy
      goes on accepting it, authorizes two calls in some run: the second comes after the reservation
      expired and before the policy refuses, if it ever does. */
  lemma ReplayWhenUncovered(cfg: Config, from: Time, cr: Credential, t: Time) returns (s: State)
    requires cr.Spendable? && from <= t && Presentable(cfg, cr, t) && Accepts(cfg, cr.id, t)
    requires !Outlasts(cfg, cr.id, if cr.exp.Some? then cr.exp.value else t + cfg.ttl) && cfg.capacity >= 1
    ensures Reachable(cfg, from, s) && !OncePerId(s)
  {
    var exp := ReservationExpiry(cr, t, cfg.ttl);
    var later := if exp < t then t else exp;
    var s1 := Admitted(Init(from).(now := t), 1, cr, cfg.ttl);
    assert s1.calls[1].claims[0].0 == cr.id;
    var s2 := s1.(now := later);
    s := Admitted(s2, 2, cr, cfg.ttl);
    assert Live(s2.store, later) == map[];
    RunOne(cfg, Init(from), Tick(t));
    RunOne(cfg, s1, Tick(later));
    var es := CanAdmit(cfg, Init(from).(now := t), 1, cr);
    var fs := CanAdmit(cfg, s2, 2, cr);
    AllowedTwice(s1, later, cr, cfg.ttl);
    hide Enabled, Step, Live, Run, Admitted, OncePerId;
    RunConcat(cfg, Init(from), [Tick(t)], Init(from).(now := t), es, s1);
    RunConcat(cfg, Init(from), [Tick(t)] + es, s1, [Tick(later)], s2);
    RunConcat(cfg, Init(from), [Tick(t)] + es + [Tick(later)], s2, fs, s);
  }

  lemma AllowedTwice(s: State, later: Time, cr: Credential, ttl: Time)
    requires cr.Spendable? && IsAllowed(s, 1) && Carries(s, 1, cr.id)
    ensures !OncePerId(Admitted(s.(now := later), 2, cr, ttl))
  {
    var t := Admitted(s.(now := later), 2, cr, ttl);
    assert t.calls[2].claims[0].0 == cr.id;
    assert IsAllowed(t, 1) && IsAllowed(t, 2) && Carries(t, 1, cr.id) && Carries(t, 2, cr.id);
  }

  /** A store with no room allows nothing that claims an id, whatever is covered. */
  lemma NoRoomNothingAllowed(cfg: Config, from: Time, s: State, c: CallId, id: Id)
    requires cfg.capacity <= 0 && Reachable(cfg, from, s)
    ensures !(IsAllowed(s, c) && Carries(s, c, id))
  {
    var es :| Run(cfg, Init(from), es, s);
    NothingHeld(cfg, Init(from), es, s);
    ReachableBasic(cfg, from, s);
    hide Run;
    if IsAllowed(s, c) && Carries(s, c, id) {
      var h := AllowedHolds(cfg, s, c, id);
      assert false;
    }
  }

  lemma {:induction false} NothingHeld(cfg: Config, s: State, es: seq<Event>, t: State)
    requires cfg.capacity <= 0 && Run(cfg, s, es, t) && forall c :: c in s.calls ==> s.calls[c].held == []
    ensures forall c :: c in t.calls ==> t.calls[c].held == []
    decreases |es|
  {
    if es != [] {
      NothingHeldStep(cfg, s, es[0]);
      hide Enabled, Step;
      NothingHeld(cfg, Step(cfg, s, es[0]), es[1..], t);
    }
  }

  lemma NothingHeldStep(cfg: Config, s: State, e: Event)
    requires cfg.capacity <= 0 && Enabled(cfg, s, e) && forall c :: c in s.calls ==> s.calls[c].held == []
    ensures forall c :: c in Step(cfg, s, e).calls ==> Step(cfg, s, e).calls[c].held == []
  {
  }

  /** One approval authorizes at most one call over every run exactly when every credential is, from the
      time it can be shown, reserved until the policy refuses it, or the store has no room at all. */
  lemma SingleUseExactly(cfg: Config, from: Time)
    ensures (forall s :: Reachable(cfg, from, s) ==> OncePerId(s)) <==> Covered(cfg, from) || cfg.capacity <= 0
  {
    if cfg.capacity <= 0 {
      forall s, c, id | Reachable(cfg, from, s)
        ensures !(IsAllowed(s, c) && Carries(s, c, id))
      {
        NoRoomNothingAllowed(cfg, from, s, c, id);
      }
    } else if Covered(cfg, from) {
      forall s | Reachable(cfg, from, s)
        ensures OncePerId(s)
      {
        SafeWhenCovered(cfg, from, s);
      }
    } else {
      var cr: Credential, t: Time :| cr.Spendable? && from <= t && Presentable(cfg, cr, t) && Accepts(cfg, cr.id, t)
        && !Outlasts(cfg, cr.id, if cr.exp.Some? then cr.exp.value else t + cfg.ttl);
      var s := ReplayWhenUncovered(cfg, from, cr, t);
    }
  }

  /** Coverage of one credential, at the first time it can be shown: the policy refuses it already, or
      the reservation made then lasts until it does. One that is never refused is never covered. */
  ghost predicate CoveredCredential(cfg: Config, from: Time, cr: Credential)
    requires cr.Spendable? && cfg.availableFrom(cr).Some?
  {
    var first := if cfg.availableFrom(cr).value < from then from else cfg.availableFrom(cr).value;
    !Accepts(cfg, cr.id, first) || Outlasts(cfg, cr.id, if cr.exp.Some? then cr.exp.value else first + cfg.ttl)
  }

  lemma CoveredExactly(cfg: Config, from: Time)
    ensures Covered(cfg, from) <==>
      forall cr: Credential :: cr.Spendable? && cfg.availableFrom(cr).Some? ==> CoveredCredential(cfg, from, cr)
  {
    if Covered(cfg, from) {
      forall cr: Credential | cr.Spendable? && cfg.availableFrom(cr).Some?
        ensures CoveredCredential(cfg, from, cr)
      {
        var first := if cfg.availableFrom(cr).value < from then from else cfg.availableFrom(cr).value;
        assert from <= first && Presentable(cfg, cr, first);
      }
    } else {
      var cr: Credential, t: Time :| cr.Spendable? && from <= t && Presentable(cfg, cr, t) && Accepts(cfg, cr.id, t)
        && !Outlasts(cfg, cr.id, if cr.exp.Some? then cr.exp.value else t + cfg.ttl);
      assert !CoveredCredential(cfg, from, cr);
    }
  }

  // ---- What a call carries, and why it is turned away ----

  /** The call is refused for this reason: at once if it holds nothing, else after it has handed that back. */
  predicate TurnedDown(call: Call, why: Denial) {
    if call.held == [] then call.phase == Done(Denied(why)) else call.phase == Releasing(why)
  }

  /** Why a step turns a call down. A reservation does because the id is held by an entry that has not expired,
      or else because the store has no room; a decision because the policy raised, or refused, or because a
      credential could not be spent. Handing ids back keeps the reason. */
  lemma ReasonsExactly(cfg: Config, s: State, e: Event, why: Denial)
    requires Enabled(cfg, s, e) && (e.Reserve? || e.Decide? || e.Release?)
    ensures var call, after := s.calls[e.c], Step(cfg, s, e).calls[e.c];
      match e
      case Reserve(_) =>
        var id := call.claims[|call.held|].0;
        && (TurnedDown(after, Spent) <==> id in s.store && s.now < s.store[id])
        && (TurnedDown(after, Full) <==> !(id in s.store && s.now < s.store[id]) && |Live(s.store, s.now)| >= cfg.capacity)
        && (TurnedDown(after, why) ==> (why == Spent || why == Full) && after.held == call.held)
      case Decide(_, verdict) =>
        && (TurnedDown(after, Raised) <==> verdict == Raise)
        && (TurnedDown(after, Refused) <==> verdict == Refuse || (verdict == Admit && call.phase.Hopeless?))
        && (after.phase == Done(Allowed) <==> verdict == Admit && call.phase.Awaiting?) && after.held == call.held
      case _ => TurnedDown(after, call.phase.why) && after.held == call.held[1..]
  {
  }

  /** The call can no longer be allowed: a credential of it could not be spent. */
  predicate Doomed(call: Call) {
    call.held == [] && (call.phase.Hopeless? || call.phase.Abandoned? || (call.phase.Done? && call.phase.answer.Denied?))
  }

  /** What a call carries never changes, and one that is doomed stays so. */
  lemma {:induction false} CallKeeps(cfg: Config, s: State, es: seq<Event>, t: State, c: CallId)
    requires Run(cfg, s, es, t) && c in s.calls
    ensures c in t.calls && t.calls[c].claims == s.calls[c].claims
    ensures Doomed(s.calls[c]) ==> Doomed(t.calls[c])
    decreases |es|
  {
    if es != [] {
      CallKeepsStep(cfg, s, es[0], c);
      hide Enabled, Step, Doomed;
      CallKeeps(cfg, Step(cfg, s, es[0]), es[1..], t, c);
    }
  }

  lemma CallKeepsStep(cfg: Config, s: State, e: Event, c: CallId)
    requires Enabled(cfg, s, e) && c in s.calls
    ensures c in Step(cfg, s, e).calls && Step(cfg, s, e).calls[c].claims == s.calls[c].claims
    ensures Doomed(s.calls[c]) ==> Doomed(Step(cfg, s, e).calls[c])
  {
  }

  /** A call carries the id of each credential it arrived with, and no other; with one that cannot be spent it
      is never allowed. */
  lemma {:induction false} CarriesExactly(cfg: Config, s: State, es: seq<Event>, t: State, k: nat, c: CallId, creds: seq<Credential>, id: Id)
    requires Run(cfg, s, es, t) && k < |es| && es[k] == Arrive(c, creds)
    ensures c in t.calls
    ensures AllSpendable(creds) ==> (Carries(t, c, id) <==> exists i :: 0 <= i < |creds| && creds[i].id == id)
    ensures !AllSpendable(creds) ==> !IsAllowed(t, c) && !Carries(t, c, id)
    decreases k
  {
    var next := Step(cfg, s, es[0]);
    if k > 0 {
      hide Enabled, Step, AllSpendable;
      CarriesExactly(cfg, next, es[1..], t, k - 1, c, creds, id);
    } else {
      assert next.calls[c] == NewCall(creds, s.now, cfg.ttl);
      NewCallCarries(creds, s.now, cfg.ttl, id);
      hide Enabled, Step, AllSpendable, NewCall;
      CallKeeps(cfg, next, es[1..], t, c);
    }
  }

  lemma NewCallCarries(creds: seq<Credential>, now: Time, ttl: Time, id: Id)
    ensures var call := NewCall(creds, now, ttl);
      if AllSpendable(creds) then
        (exists i :: 0 <= i < |call.claims| && call.claims[i].0 == id) <==> exists i :: 0 <= i < |creds| && creds[i].id == id
      else Doomed(call) && call.claims == []
  {
    if AllSpendable(creds) {
      CollectedMeaning(creds, now, ttl);
      hide Collected, AllSpendable;
      var claims := Collected(creds, now, ttl);
      assert id in claims.exp <==> id in claims.ids;
      if id in claims.ids {
        var i :| 0 <= i < |claims.ids| && claims.ids[i] == id;
        assert Pairs(claims)[i].0 == id;
      }
    }
  }

  /** One approval authorizes one call, said of requests: of two calls that arrive with credentials of one id,
      at whatever times and however they interleave, no more than one is allowed. */
  lemma OneCallPerApproval(cfg: Config, from: Time, es: seq<Event>, t: State, k: nat, c: CallId, creds: seq<Credential>, i: nat,
                           l: nat, d: CallId, others: seq<Credential>, j: nat)
    requires Covered(cfg, from) && Run(cfg, Init(from), es, t)
    requires k < |es| && es[k] == Arrive(c, creds) && i < |creds| && creds[i].Spendable?
    requires l < |es| && es[l] == Arrive(d, others) && j < |others| && others[j].Spendable?
    requires c != d && creds[i].id == others[j].id
    ensures !(IsAllowed(t, c) && IsAllowed(t, d))
  {
    CarriesExactly(cfg, Init(from), es, t, k, c, creds, creds[i].id);
    CarriesExactly(cfg, Init(from), es, t, l, d, others, creds[i].id);
    hide Run, Covered, Carries;
    assert Reachable(cfg, from, t) by { Reached(cfg, from, es, t); }
    SafeWhenCovered(cfg, from, t);
  }

  lemma Reached(cfg: Config, from: Time, es: seq<Event>, t: State)
    requires Run(cfg, Init(from), es, t)
    ensures Reachable(cfg, from, t)
  {
  }
}
