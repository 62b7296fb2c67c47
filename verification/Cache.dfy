/** The cache object: each method body is one locked section, or the sections of Get in a row. */
module Cache {
  import opened Bytes
  import opened CacheModel
  import opened CacheSafety
  import opened CacheHistory

  class Store {
    const config: Config
    var items: map<Key, Id>
    var lru: seq<Id>
    var entries: seq<Entry>

    ghost function State(): State
      reads this
    {
      CacheModel.State(items, lru, entries)
    }

    constructor (size: int, ttl: int, negativeTtl: int)
      ensures config == NewConfig(size, ttl, negativeTtl) && State() == Empty
    {
      config := NewConfig(size, ttl, negativeTtl);
      items, lru, entries := map[], [], [];
    }

    method RemoveLocked(key: Key)
      modifies this
      ensures State() == RemoveSection(old(State()), key)
    {
      if key in items {
        lru := Unlink(lru, items[key]);
        items := Without(items, key);
      }
    }

    /** Evicts until the cache fits: expired entries first, each time scanning from the back. */
    method EvictLocked(now: int)
      requires Bijective(State())
      modifies this
      ensures State() == EvictSection(old(State()), now, config.maxSize)
    {
      hide Listed, RemoveAt, EvictSection, Bijective, Victim, Without;
      LinkedOf(State());
      while |items| > config.maxSize
        invariant Bijective(State()) && Linked(State())
        invariant EvictSection(State(), now, config.maxSize) == EvictSection(old(State()), now, config.maxSize)
        decreases |lru|
      {
        EvictSteps(State(), now, config.maxSize);
        if lru == [] {
          return;
        }
        var victim := ScanFromBack(now);
        items := Without(items, entries[lru[victim]].key);
        lru := RemoveAt(lru, victim);
        LinkedOf(State());
      }
      EvictSteps(State(), now, config.maxSize);
    }

    method ScanFromBack(now: int) returns (victim: nat)
      requires Linked(State()) && lru != []
      ensures victim < |lru| && victim == Victim(Listed(lru, entries), now)
    {
      ghost var view := Listed(lru, entries);
      assert |view| == |lru| && forall j | 0 <= j < |lru| :: view[j] == entries[lru[j]];
      hide Listed, Victim, Expired;
      victim := |lru| - 1;
      var candidate := |lru|;
      while candidate > 0
        invariant 0 <= candidate <= |lru| && victim == |lru| - 1
        invariant forall j | candidate <= j < |lru| :: !Expired(view[j], now)
      {
        if Expired(entries[lru[candidate - 1]], now) {
          victim := candidate - 1;
          VictimIs(view, now, victim);
          return;
        }
        candidate := candidate - 1;
      }
      VictimIs(view, now, victim);
    }

    method Set(key: Key, m: Message, now: int, evictNow: int)
      requires config.Sound() && Inv(State(), config.maxSize)
      modifies this
      ensures State() == SetSection(old(State()), config, key, m, now, evictNow)
      ensures Inv(State(), config.maxSize)
    {
      ghost var before := State();
      assert Bijective(before);
      hide Bijective, Linked, Lifetime, InsertSection, SetSection, EvictSection, Inv, Config.Sound;
      var e := Entry(key, m, now, now + Lifetime(config, m));
      SetKeepsInv(before, config, key, m, now, evictNow);
      LinkedOf(before);
      InsertKeepsBijective(before, e);
      SetSteps(before, config, e, key, m, now, evictNow);
      if m.rcode == NAME_ERROR {
        return;
      }
      PutInFront(e);
      EvictLocked(evictNow);
    }

    /** The entry takes the place of whatever its key had. */
    method PutInFront(e: Entry)
      modifies this
      ensures State() == InsertSection(old(State()), e)
    {
      hide Unlink;
      if e.key in items {
        lru := Unlink(lru, items[e.key]);
      }
      var id := |entries|;
      entries := entries + [e];
      lru := [id] + lru;
      items := items[e.key := id];
    }

    method Get(key: Key, now: int) returns (r: Option<Message>)
      requires Inv(State(), config.maxSize)
      modifies this
      ensures State() == GetState(old(State()), key, now) && r == GetResult(old(State()), key, now)
    {
      if key !in items {
        return None;
      }
      var id := items[key];
      assert id < |entries|;
      hide AgedMessage, ElapsedSeconds, CacheModel.MoveToFront, Unlink, RemoveSection, Inv, Bijective;
      if Expired(entries[id], now) {
        RemoveLocked(key);
        return None;
      }
      var elapsed := ElapsedSeconds(entries[id], now);
      if elapsed > 0 {
        entries := entries[id := entries[id].(message := AgedMessage(entries[id].message, elapsed))];
      } else {
        NotAged(entries[id].message);
        assert entries == entries[id := entries[id].(message := AgedMessage(entries[id].message, 0))];
      }
      lru := CacheModel.MoveToFront(lru, id);
      r := Some(entries[id].message);
    }
  }
}
