/** The bounded in-memory store of spent credential ids: an entry lives until its expiry,
    a full store refuses instead of evicting, and a release pops whatever entry the id has. */
module SpentStore {

  type Id(==, !new)
  type Time = real
  type Entries = map<Id, Time>

  datatype Outcome = Reserved | AlreadySpent | AtCapacity

  /** The entries that outlast `now`. */
  function Live(spent: Entries, now: Time): Entries
  {
    map k | k in spent && now < spent[k] :: spent[k]
  }

  function ReserveOutcome(spent: Entries, capacity: int, key: Id, now: Time): Outcome
  {
    if key in Live(spent, now) then AlreadySpent
    else if |Live(spent, now)| >= capacity then AtCapacity
    else Reserved
  }

  function AfterReserve(spent: Entries, capacity: int, key: Id, expiresAt: Time, now: Time): Entries
  {
    if ReserveOutcome(spent, capacity, key, now) == Reserved
    then Live(spent, now)[key := expiresAt]
    else Live(spent, now)
  }

  /** No reservation pushes the store past its capacity, drops a live entry, or changes any entry but
      the reserved one; an id that is held keeps its entry. */
  lemma ReserveKeepsBound(spent: Entries, capacity: int, key: Id, expiresAt: Time, now: Time)
    requires |spent| <= if capacity < 0 then 0 else capacity
    ensures var after := AfterReserve(spent, capacity, key, expiresAt, now);
      && |after| <= (if capacity < 0 then 0 else capacity)
      && (forall k :: k in spent && now < spent[k] ==> k in after && after[k] == spent[k])
      && (forall k :: k in after && k != key ==> k in spent && after[k] == spent[k])
      && (key in after && !(key in spent && after[key] == spent[key]) ==>
            after[key] == expiresAt && !(key in spent && now < spent[key]))
  {
    var live := Live(spent, now);
    SubmapSize(live, spent);
    assert live[key := expiresAt].Keys == live.Keys + {key};
  }

  lemma SubmapSize(small: Entries, big: Entries)
    requires small.Keys <= big.Keys
    ensures |small| <= |big|
  {
    assert |small.Keys| == |small| && |big.Keys| == |big|;
    SubsetSize(small.Keys, big.Keys);
  }

  lemma {:induction false} SubsetSize<T>(small: set<T>, big: set<T>)
    requires small <= big
    ensures |small| <= |big|
  {
    if small != {} {
      var x :| x in small;
      SubsetSize(small - {x}, big - {x});
    }
  }

  class InMemorySpentStore {
    const maxEntries: int
    var spent: Entries

    constructor (maxEntries: int)
      ensures this.maxEntries == maxEntries && spent == map[]
    {
      this.maxEntries := maxEntries;
      spent := map[];
    }

    /** Drops exactly the entries whose time has come; a live entry is never dropped. */
    method Prune(now: Time)
      modifies this`spent
      ensures spent == Live(old(spent), now)
    {
      var expired := set k | k in spent && spent[k] <= now;
      while expired != {}
        invariant forall k :: k in spent ==> k in old(spent) && spent[k] == old(spent)[k]
        invariant forall k :: k in old(spent) && now < old(spent)[k] ==> k in spent
        invariant forall k :: k in expired <==> k in spent && spent[k] <= now
        decreases |expired|
      {
        var key :| key in expired;
        spent := spent - {key};
        expired := expired - {key};
      }
    }

    method Reserve(key: Id, expiresAt: Time, now: Time) returns (outcome: Outcome)
      modifies this`spent
      ensures outcome == ReserveOutcome(old(spent), maxEntries, key, now)
      ensures spent == AfterReserve(old(spent), maxEntries, key, expiresAt, now)
    {
      Prune(now);
      if key in spent {
        return AlreadySpent;
      }
      if |spent| >= maxEntries {
        return AtCapacity;
      }
      spent := spent[key := expiresAt];
      return Reserved;
    }

    method Release(key: Id)
      modifies this`spent
      ensures spent == map k | k in old(spent) && k != key :: old(spent)[k]
    {
      spent := spent - {key};
    }
  }
}
