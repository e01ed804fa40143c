/** The delegation cache: cache/delegation.go. */
module DelegationCache {
  import opened Wrappers

  datatype Entry<D> = Entry(data: D, cachedAt: int)

  /** What has been done to a cache. */
  datatype Event<D> = Stored(zone: string, data: D, at: int) | Cleared

  /** The last `Set` for a zone, unless the cache was cleared since. */
  ghost function LastSet<D>(history: seq<Event<D>>, zone: string): Option<Entry<D>> {
    if history == [] then None
    else
      match history[|history| - 1]
      case Cleared => None
      case Stored(z, data, at) =>
        if z == zone then Some(Entry(data, at)) else LastSet(history[..|history| - 1], zone)
  }

  /** The entry, if it is not older than the time to live. */
  function Fresh<D>(e: Option<Entry<D>>, now: int, ttl: int): Option<D> {
    if e.Some? && now - e.value.cachedAt <= ttl then Some(e.value.data) else None
  }

  class Cache<D> {
    const ttl: int
    var entries: map<string, Entry<D>>
    ghost var history: seq<Event<D>>

    ghost predicate Valid()
      reads this
    {
      forall z :: (if z in entries then Some(entries[z]) else None) == LastSet(history, z)
    }

    constructor (ttl: int)
      ensures Valid() && history == [] && this.ttl == ttl
    {
      this.ttl := ttl;
      entries := map[];
      history := [];
    }

    /** The caller reads the clock; `now` is the time of the call. */
    method Get(zone: string, now: int) returns (r: Option<D>)
      requires Valid()
      ensures r == Fresh(LastSet(history, zone), now, ttl)
    {
      assert (if zone in entries then Some(entries[zone]) else None) == LastSet(history, zone);
      if zone !in entries {
        return None;
      }
      if now - entries[zone].cachedAt > ttl {
        return None;
      }
      return Some(entries[zone].data);
    }

    method Set(zone: string, data: D, now: int)
      requires Valid()
      modifies this
      ensures Valid() && history == old(history) + [Stored(zone, data, now)]
    {
      ghost var before := entries;
      entries := entries[zone := Entry(data, now)];
      history := history + [Stored(zone, data, now)];
      assert history[..|history| - 1] == old(history);
      forall z ensures (if z in entries then Some(entries[z]) else None) == LastSet(history, z) {
        assert (if z in before then Some(before[z]) else None) == LastSet(old(history), z);
      }
    }

    method Invalidate()
      requires Valid()
      modifies this
      ensures Valid() && history == old(history) + [Cleared]
    {
      entries := map[];
      history := history + [Cleared];
    }

    method Len() returns (n: nat)
      requires Valid()
      ensures exists zones: set<string> :: n == |zones| && forall z :: z in zones <==> LastSet(history, z).Some?
    {
      n := |entries|;
      forall z ensures z in entries.Keys <==> LastSet(history, z).Some? {
        assert (if z in entries then Some(entries[z]) else None) == LastSet(history, z);
      }
      assert n == |entries.Keys|;
    }
  }

  /** `at` is the position of a zone's last store, with no clearing after it. */
  ghost predicate IsLastStore<D(!new)>(history: seq<Event<D>>, zone: string, e: Entry<D>, at: nat) {
    && at < |history|
    && history[at] == Stored(zone, e.data, e.cachedAt)
    && forall k :: at < k < |history| ==> history[k].Stored? && history[k].zone != zone
  }

  lemma {:induction false} LastSetIsLast<D(!new)>(history: seq<Event<D>>, zone: string, e: Entry<D>)
    ensures LastSet(history, zone) == Some(e) <==> exists at :: IsLastStore(history, zone, e, at)
  {
    if history != [] {
      var init, last := history[..|history| - 1], history[|history| - 1];
      LastSetIsLast(init, zone, e);
      if last.Stored? && last.zone != zone {
        if at :| IsLastStore(init, zone, e, at) {
          assert IsLastStore(history, zone, e, at);
        }
        if at :| IsLastStore(history, zone, e, at) {
          assert IsLastStore(init, zone, e, at);
        }
      } else if last.Stored? && LastSet(history, zone) == Some(e) {
        assert IsLastStore(history, zone, e, |history| - 1);
      } else if at :| IsLastStore(history, zone, e, at) {
        assert at == |history| - 1;
      }
    }
  }

  /**
   * What a `Get` can return: data stored for this very zone, at most `ttl` ago, with neither
   * another store for the zone nor a clearing in between.
   */
  lemma GetReturnsLastFreshSet<D(!new)>(history: seq<Event<D>>, zone: string, now: int, ttl: int, data: D)
    ensures Fresh(LastSet(history, zone), now, ttl) == Some(data) <==>
              exists at, cachedAt :: IsLastStore(history, zone, Entry(data, cachedAt), at) && now - cachedAt <= ttl
  {
    if Fresh(LastSet(history, zone), now, ttl) == Some(data) {
      LastSetIsLast(history, zone, LastSet(history, zone).value);
    }
    if at, cachedAt :| IsLastStore(history, zone, Entry(data, cachedAt), at) && now - cachedAt <= ttl {
      LastSetIsLast(history, zone, Entry(data, cachedAt));
    }
  }
}
