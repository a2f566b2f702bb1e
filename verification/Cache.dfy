/** The bounded credential cache with an absolute TTL (src/credentials/cache.rs).

    Ticks are monotonic nanoseconds; wall-clock instants are nanoseconds too, but may move either
    way between readings. */
module Cache {
  import opened Common

  const MAX_TTL: nat := 30_000_000_000

  type Key = Uuid

  /** One reading of both clocks. */
  datatype Reading = Reading(tick: nat, wall: int)

  datatype Entry<V> = Entry(value: V, expiresTick: nat, expiresWall: int)

  type Entries<V> = map<Key, Entry<V>>

  datatype CacheError = Poisoned

  predicate Live<V>(e: Entry<V>, now: Reading) {
    now.tick < e.expiresTick && now.wall < e.expiresWall
  }

  function WallDeadline(wall: int, ttl: nat, bound: Option<int>): int {
    if bound.Some? then Min(wall + ttl, bound.value) else wall + ttl
  }

  // ---- The three operations on values --------------------------------------------------

  function Looked<V>(es: Entries<V>, key: Key, now: Reading): (Entries<V>, Option<V>) {
    if key !in es then (es, None)
    else if Live(es[key], now) then (es, Some(es[key].value))
    else (es - {key}, None)
  }

  function LiveOnes<V>(es: Entries<V>, now: Reading): Entries<V> {
    map k | k in es && Live(es[k], now) :: es[k]
  }

  /** The keys an insert may give up: none while there is room or the key is already held; else
      the dead ones, and, only when no entry was dead, one entry closest to its tick deadline. */
  ghost predicate Evicts<V>(es: Entries<V>, capacity: nat, key: Key, now: Reading, dropped: set<Key>) {
    if |es| < capacity || key in es then dropped == {}
    else
      var dead := es.Keys - LiveOnes(es, now).Keys;
      if |LiveOnes(es, now)| < capacity then dropped == dead
      else exists victim ::
        && dropped == dead + {victim} && victim in LiveOnes(es, now)
        && forall k :: k in LiveOnes(es, now) ==> es[victim].expiresTick <= es[k].expiresTick
  }

  function Stored<V>(es: Entries<V>, ttl: nat, key: Key, value: V, bound: Option<int>, now: Reading,
                     dropped: set<Key>): Entries<V>
  {
    (es - dropped)[key := Entry(value, now.tick + ttl, WallDeadline(now.wall, ttl, bound))]
  }

  // ---- The history a cache has been through --------------------------------------------

  datatype Event<V> =
    | Inserted(key: Key, value: V, bound: Option<int>, at: Reading, dropped: set<Key>)
    | Looking(key: Key, at: Reading)
    | Invalidated(key: Key)

  function EntryOf<V>(e: Event<V>, ttl: nat): Entry<V>
    requires e.Inserted?
  {
    Entry(e.value, e.at.tick + ttl, WallDeadline(e.at.wall, ttl, e.bound))
  }

  /** `e` removes or replaces what is held for `key`; a lookup removes only an entry it finds dead. */
  predicate Removes<V>(e: Event<V>, key: Key, held: Entry<V>) {
    match e
    case Inserted(k, _, _, _, dropped) => k == key || key in dropped
    case Looking(k, at) => k == key && !Live(held, at)
    case Invalidated(k) => k == key
  }

  /** Event `i` is the last insert for `key`, not since invalidated, evicted or found dead. */
  ghost predicate HeldSince<V>(history: seq<Event<V>>, ttl: nat, key: Key, i: int) {
    && 0 <= i < |history| && history[i].Inserted? && history[i].key == key
    && forall j :: i < j < |history| ==> !Removes(history[j], key, EntryOf(history[i], ttl))
  }

  /** The entries are exactly what the history says they are. */
  ghost predicate Remembers<V>(es: Entries<V>, history: seq<Event<V>>, ttl: nat) {
    && (forall key, i :: HeldSince(history, ttl, key, i) ==> key in es && es[key] == EntryOf(history[i], ttl))
    && (forall key :: key in es ==> exists i :: HeldSince(history, ttl, key, i))
  }

  lemma HeldBefore<V>(history: seq<Event<V>>, ttl: nat, key: Key, i: int, e: Event<V>)
    ensures i < |history| ==>
      (HeldSince(history + [e], ttl, key, i) <==>
       HeldSince(history, ttl, key, i) && !Removes(e, key, EntryOf(history[i], ttl)))
    ensures HeldSince(history + [e], ttl, key, |history|) <==> e.Inserted? && e.key == key
  {
    var h := history + [e];
    if 0 <= i < |history| && history[i].Inserted? {
      if HeldSince(h, ttl, key, i) {
        assert Removes(h[|history|], key, EntryOf(h[i], ttl)) <==> Removes(e, key, EntryOf(history[i], ttl));
        forall j | i < j < |history| ensures !Removes(history[j], key, EntryOf(history[i], ttl)) {
          assert h[j] == history[j];
        }
      }
    }
  }

  /** The general step: whatever the event keeps is kept, whatever it removes is gone. */
  lemma StepRemembers<V>(es: Entries<V>, history: seq<Event<V>>, ttl: nat, e: Event<V>, es': Entries<V>)
    requires Remembers(es, history, ttl)
    requires forall key :: key in es && !Removes(e, key, es[key]) ==> key in es' && es'[key] == es[key]
    requires forall key :: key in es' ==> (e.Inserted? && e.key == key) || (key in es && !Removes(e, key, es[key]))
    requires e.Inserted? ==> e.key in es' && es'[e.key] == EntryOf(e, ttl)
    ensures Remembers(es', history + [e], ttl)
  {
    var h := history + [e];
    forall key, i | HeldSince(h, ttl, key, i) ensures key in es' && es'[key] == EntryOf(h[i], ttl) {
      HeldBefore(history, ttl, key, i, e);
      if i == |history| { assert h[i] == e; } else { assert h[i] == history[i]; }
    }
    forall key | key in es' ensures exists i :: HeldSince(h, ttl, key, i) {
      if e.Inserted? && e.key == key {
        HeldBefore(history, ttl, key, |history|, e);
        assert HeldSince(h, ttl, key, |history|);
      } else {
        var i :| HeldSince(history, ttl, key, i);
        HeldBefore(history, ttl, key, i, e);
        assert HeldSince(h, ttl, key, i);
      }
    }
  }

  // ---- Every reachable state -----------------------------------------------------------

  ghost predicate Happens<V>(before: Entries<V>, capacity: nat, ttl: nat, e: Event<V>, after: Entries<V>) {
    match e
    case Inserted(key, value, bound, at, dropped) =>
      Evicts(before, capacity, key, at, dropped) && after == Stored(before, ttl, key, value, bound, at, dropped)
    case Looking(key, at) => after == Looked(before, key, at).0
    case Invalidated(key) => after == before - {key}
  }

  /** `es` is a state the cache can reach through `history`. */
  ghost predicate Reaches<V(!new)>(history: seq<Event<V>>, capacity: nat, ttl: nat, es: Entries<V>)
    decreases |history|
  {
    if history == [] then es == map[] else
      var n := |history| - 1;
      exists before :: Reaches(history[..n], capacity, ttl, before) && Happens(before, capacity, ttl, history[n], es)
  }

  lemma RoomIsMade<V>(es: Entries<V>, capacity: nat, key: Key, now: Reading, dropped: set<Key>)
    requires |es.Keys| <= capacity && capacity >= 1 && key !in es && Evicts(es, capacity, key, now, dropped)
    ensures |es.Keys - dropped| < capacity
  {
    var live := LiveOnes(es, now).Keys;
    SubsetSize(live, es.Keys);
    if |es| >= capacity {
      if |LiveOnes(es, now)| < capacity {
        assert es.Keys - dropped == live;
      } else {
        var victim :| dropped == (es.Keys - live) + {victim} && victim in live;
        assert es.Keys - dropped == live - {victim};
      }
    } else {
      assert es.Keys - dropped == es.Keys;
    }
  }

  lemma StoredFits<V>(es: Entries<V>, capacity: nat, ttl: nat, key: Key, value: V, bound: Option<int>, now: Reading,
                      dropped: set<Key>)
    requires |es.Keys| <= capacity && capacity >= 1 && Evicts(es, capacity, key, now, dropped)
    ensures |Stored(es, ttl, key, value, bound, now, dropped).Keys| <= capacity
  {
    assert Stored(es, ttl, key, value, bound, now, dropped).Keys == (es.Keys - dropped) + {key};
    if key in es {
      assert (es.Keys - dropped) + {key} == es.Keys;
    } else {
      RoomIsMade(es, capacity, key, now, dropped);
    }
  }

  lemma HappeningFits<V>(before: Entries<V>, capacity: nat, ttl: nat, e: Event<V>, after: Entries<V>)
    requires |before.Keys| <= capacity && capacity >= 1 && Happens(before, capacity, ttl, e, after)
    ensures |after.Keys| <= capacity
  {
    match e {
      case Inserted(key, value, bound, at, dropped) =>
        StoredFits(before, capacity, ttl, key, value, bound, at, dropped);
      case _ => SubsetSize(after.Keys, before.Keys);
    }
  }

  /** In every reachable state the cache is within its capacity and holds, for each key, the last
      insert for it that nothing has since removed. */
  lemma {:induction false} ReachableIsRemembered<V(!new)>(history: seq<Event<V>>, capacity: nat, ttl: nat,
                                                   es: Entries<V>)
    requires capacity >= 1 && Reaches(history, capacity, ttl, es)
    ensures |es.Keys| <= capacity && Remembers(es, history, ttl)
    decreases |history|
  {
    if history == [] {
      assert es.Keys == {};
    } else {
      var n := |history| - 1;
      var before := LastState(history, capacity, ttl, es);
      ReachableIsRemembered(history[..n], capacity, ttl, before);
      HappeningFits(before, capacity, ttl, history[n], es);
      HappeningIsRemembered(before, history[..n], capacity, ttl, history[n], es);
      assert history[..n] + [history[n]] == history;
    }
  }

  lemma LastState<V(!new)>(history: seq<Event<V>>, capacity: nat, ttl: nat, es: Entries<V>) returns (before: Entries<V>)
    requires history != [] && Reaches(history, capacity, ttl, es)
    ensures Reaches(history[..|history| - 1], capacity, ttl, before)
    ensures Happens(before, capacity, ttl, history[|history| - 1], es)
  {
    before :| Reaches(history[..|history| - 1], capacity, ttl, before)
           && Happens(before, capacity, ttl, history[|history| - 1], es);
  }

  lemma HappeningIsRemembered<V>(before: Entries<V>, history: seq<Event<V>>, capacity: nat, ttl: nat, e: Event<V>,
                                 after: Entries<V>)
    requires Remembers(before, history, ttl) && Happens(before, capacity, ttl, e, after)
    ensures Remembers(after, history + [e], ttl)
  {
    StepRemembers(before, history, ttl, e, after);
  }

  /** The insert `e` may still answer: less than the TTL has passed on either clock, and on the wall
      clock the expiry given with it, if any, is still ahead. */
  predicate Serves<V>(e: Event<V>, ttl: nat, now: Reading)
    requires e.Inserted?
  {
    && now.tick < e.at.tick + ttl
    && now.wall < e.at.wall + ttl
    && (e.bound.Some? ==> now.wall < e.bound.value)
  }

  /** `get` answers `v` exactly when the last insert for the key stored `v`, nothing has removed it
      since, and it may still answer. */
  lemma GetAnswers<V(!new)>(history: seq<Event<V>>, capacity: nat, ttl: nat, es: Entries<V>, key: Key, now: Reading,
                            v: V)
    requires capacity >= 1 && Reaches(history, capacity, ttl, es)
    ensures Looked(es, key, now).1 == Some(v) <==>
      exists i :: HeldSince(history, ttl, key, i) && history[i].value == v && Serves(history[i], ttl, now)
  {
    ReachableIsRemembered(history, capacity, ttl, es);
    hide Reaches, HeldSince, Looked;
    LookedIs(es, key, now);
    forall i | HeldSince(history, ttl, key, i)
      ensures key in es && es[key].value == history[i].value && (Live(es[key], now) <==> Serves(history[i], ttl, now))
    {
      HeldIsInsert(history, ttl, key, i);
      assert es[key] == EntryOf(history[i], ttl);
    }
  }

  lemma LookedIs<V>(es: Entries<V>, key: Key, now: Reading)
    ensures Looked(es, key, now).1 == if key in es && Live(es[key], now) then Some(es[key].value) else None
  {
  }

  lemma HeldIsInsert<V>(history: seq<Event<V>>, ttl: nat, key: Key, i: int)
    requires HeldSince(history, ttl, key, i)
    ensures 0 <= i < |history| && history[i].Inserted?
  {
  }

  /** So nothing is served at or after the expiry it was stored with. */
  lemma NeverServedExpired<V(!new)>(history: seq<Event<V>>, capacity: nat, ttl: nat, es: Entries<V>, key: Key,
                                    now: Reading)
    requires capacity >= 1 && Reaches(history, capacity, ttl, es)
    requires forall i :: 0 <= i < |history| && history[i].Inserted? && history[i].key == key ==>
      history[i].bound.Some? && history[i].bound.value <= now.wall
    ensures Looked(es, key, now).1 == None
  {
    if key in es {
      GetAnswers(history, capacity, ttl, es, key, now, es[key].value);
    }
  }

  /** An insert gives up a live entry only if every entry was live, and then one whose tick
      deadline no other entry precedes. */
  lemma LiveEvictionIsLastResort<V>(es: Entries<V>, capacity: nat, key: Key, now: Reading, dropped: set<Key>, k: Key)
    requires |es| <= capacity && Evicts(es, capacity, key, now, dropped) && k in dropped
    ensures k in es && key !in es
    ensures Live(es[k], now) ==>
      && |es| == capacity
      && (forall j :: j in es ==> Live(es[j], now) && es[k].expiresTick <= es[j].expiresTick)
      && dropped == {k}
  {
    var live := LiveOnes(es, now);
    assert |live| == |live.Keys| && |es| == |es.Keys|;
    if Live(es[k], now) {
      var dead := es.Keys - live.Keys;
      assert live.Keys + dead == es.Keys;
      assert |es.Keys| == |live.Keys| + |dead|;
      assert dead == {};
      assert live.Keys == es.Keys;
      var victim :| dropped == dead + {victim} && victim in live
        && forall j :: j in live ==> es[victim].expiresTick <= es[j].expiresTick;
      assert victim == k;
      forall j | j in es ensures Live(es[j], now) && es[k].expiresTick <= es[j].expiresTick {
        assert j in live;
      }
    }
  }

  /** Once the tick deadline has passed, no wall-clock reading brings an entry back: whatever
      happens short of a new insert, later lookups find nothing. */
  lemma {:induction false} TickDeadlineIsFinal<V(!new)>(history: seq<Event<V>>, more: seq<Event<V>>, capacity: nat,
                                                       ttl: nat, es: Entries<V>, key: Key, i: int, now: Reading)
    requires capacity >= 1 && Reaches(history + more, capacity, ttl, es)
    requires forall k :: 0 <= k < |more| ==> !(more[k].Inserted? && more[k].key == key)
    requires HeldSince(history, ttl, key, i) && history[i].at.tick + ttl <= now.tick
    ensures Looked(es, key, now).1 == None
  {
    var h := history + more;
    ReachableIsRemembered(h, capacity, ttl, es);
    if key in es {
      var j :| HeldSince(h, ttl, key, j);
      assert j < |history|;
      assert h[j] == history[j] && h[i] == history[i];
      assert i == j;
    }
  }

  lemma {:induction false} SomeFirstToExpire<V>(es: Entries<V>) returns (victim: Key)
    requires es != map[]
    ensures victim in es && forall k :: k in es ==> es[victim].expiresTick <= es[k].expiresTick
    decreases es.Keys
  {
    var first :| first in es;
    victim := first;
    assert forall k :: k in es ==> k == first || k in es - {first};
    if es - {first} != map[] {
      var other := SomeFirstToExpire(es - {first});
      if es[other].expiresTick < es[first].expiresTick { victim := other; }
    }
  }

  /** Whatever is held, an insert finds something to give up, if anything has to be. */
  lemma SomeEviction<V>(es: Entries<V>, capacity: nat, key: Key, now: Reading) returns (dropped: set<Key>)
    requires capacity >= 1
    ensures Evicts(es, capacity, key, now, dropped)
  {
    var live := LiveOnes(es, now);
    dropped := if |es| < capacity || key in es then {} else es.Keys - live.Keys;
    if !(|es| < capacity || key in es) && |live| >= capacity {
      var victim := SomeFirstToExpire(live);
      dropped := dropped + {victim};
    }
  }

  // ---- The imperative cache ------------------------------------------------------------

  class BoundedTtlCache<V(!new)> {
    const capacity: nat
    const ttl: nat
    var entries: Entries<V>
    var poisoned: bool
    ghost var history: seq<Event<V>>

    ghost predicate Valid()
      reads this
    {
      && capacity >= 1 && ttl <= MAX_TTL
      && Reaches(history, capacity, ttl, entries)
    }

    constructor (capacity: nat, ttl: nat)
      ensures Valid() && !poisoned && entries == map[] && history == []
      ensures this.ttl == if ttl <= 30_000_000_000 then ttl else 30_000_000_000
      ensures this.capacity == if capacity == 0 then 1 else capacity
    {
      this.capacity := if capacity == 0 then 1 else capacity;
      this.ttl := Min(ttl, MAX_TTL);
      entries := map[];
      poisoned := false;
      history := [];
    }

    /** A thread panics while it holds the lock. */
    method Poison()
      requires Valid()
      modifies this`poisoned
      ensures Valid() && poisoned
    {
      poisoned := true;
    }

    method Get(key: Key, now: Reading) returns (r: Result<Option<V>, CacheError>)
      requires Valid()
      modifies this`entries, this`history
      ensures Valid()
      ensures poisoned ==> r == Err(Poisoned) && entries == old(entries) && history == old(history)
      ensures !poisoned ==>
        && (entries, r) == (Looked(old(entries), key, now).0, Ok(Looked(old(entries), key, now).1))
        && history == old(history) + [Looking(key, now)]
    {
      if poisoned { return Err(Poisoned); }
      Extend(Looking(key, now), Looked(entries, key, now).0);
      history := history + [Looking(key, now)];
      if key !in entries { return Ok(None); }
      if Live(entries[key], now) {
        r := Ok(Some(entries[key].value));
      } else {
        entries := entries - {key};
        r := Ok(None);
      }
    }

    /** The history so far, one event longer, reaches the state after that event. */
    lemma Extend(e: Event<V>, es: Entries<V>)
      requires Valid()
      requires Happens(entries, capacity, ttl, e, es)
      ensures Reaches(history + [e], capacity, ttl, es)
    {
      assert (history + [e])[..|history|] == history;
    }

    /** Writes the map back and notes the insert. */
    method Commit(key: Key, value: V, bound: Option<int>, at: Reading, ghost dropped: set<Key>, es: Entries<V>)
      requires Valid() && Evicts(entries, capacity, key, at, dropped)
      requires es == Stored(entries, ttl, key, value, bound, at, dropped)
      modifies this`entries, this`history
      ensures Valid() && entries == es
      ensures history == old(history) + [Inserted(key, value, bound, at, dropped)]
    {
      Extend(Inserted(key, value, bound, at, dropped), es);
      history := history + [Inserted(key, value, bound, at, dropped)];
      entries := es;
    }

    /** `iter().min_by_key(expires_tick)` over a nonempty map, in whatever order it iterates. */
    method Victim(among: Entries<V>) returns (victim: Key)
      requires among != map[]
      ensures victim in among
      ensures forall k :: k in among ==> among[victim].expiresTick <= among[k].expiresTick
    {
      victim :| victim in among;
      var rest := among.Keys - {victim};
      while rest != {}
        invariant rest <= among.Keys && victim in among
        invariant forall k :: k in among ==> k in rest || among[victim].expiresTick <= among[k].expiresTick
        decreases rest
      {
        var k :| k in rest;
        if among[k].expiresTick < among[victim].expiresTick { victim := k; }
        rest := rest - {k};
      }
    }

    method Insert(key: Key, value: V, hardBound: Option<int>, now: Reading)
      returns (r: Result<(), CacheError>, ghost dropped: set<Key>)
      requires Valid()
      modifies this`entries, this`history
      ensures Valid()
      ensures poisoned ==> r == Err(Poisoned) && entries == old(entries) && history == old(history)
      ensures !poisoned ==>
        && r == Ok(())
        && Evicts(old(entries), capacity, key, now, dropped)
        && entries == Stored(old(entries), ttl, key, value, hardBound, now, dropped)
        && history == old(history) + [Inserted(key, value, hardBound, now, dropped)]
    {
      if poisoned { return Err(Poisoned), {}; }
      var kept;
      kept, dropped := MakeRoom(key, now);
      kept := Deadlined(kept, key, value, hardBound, now, dropped);
      Commit(key, value, hardBound, now, dropped, kept);
      r := Ok(());
    }

    method Deadlined(kept: Entries<V>, key: Key, value: V, hardBound: Option<int>, now: Reading,
                     ghost dropped: set<Key>)
      returns (es: Entries<V>)
      requires kept == entries - dropped
      ensures es == Stored(entries, ttl, key, value, hardBound, now, dropped)
    {
      var wall := now.wall + ttl;
      if hardBound.Some? { wall := Min(wall, hardBound.value); }
      es := kept[key := Entry(value, now.tick + ttl, wall)];
    }

    /** The eviction half of an insert, on a copy of the map. */
    method MakeRoom(key: Key, now: Reading) returns (kept: Entries<V>, ghost dropped: set<Key>)
      requires capacity >= 1
      ensures Evicts(entries, capacity, key, now, dropped) && kept == entries - dropped
    {
      kept := entries;
      dropped := {};
      if |kept| >= capacity && key !in kept {
        kept := LiveOnes(kept, now);
        dropped := entries.Keys - kept.Keys;
        if |kept| >= capacity {
          var victim := Victim(kept);
          assert victim in LiveOnes(entries, now);
          kept := kept - {victim};
          dropped := dropped + {victim};
        }
      }
      assert kept == entries - dropped;
    }

    method Invalidate(key: Key) returns (r: Result<(), CacheError>)
      requires Valid()
      modifies this`entries, this`history
      ensures Valid()
      ensures poisoned ==> r == Err(Poisoned) && entries == old(entries) && history == old(history)
      ensures !poisoned ==>
          r == Ok(()) && entries == old(entries) - {key} && history == old(history) + [Invalidated(key)]
    {
      if poisoned { return Err(Poisoned); }
      Extend(Invalidated(key), entries - {key});
      history := history + [Invalidated(key)];
      entries := entries - {key};
      r := Ok(());
    }
  }
}
