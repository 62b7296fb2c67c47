/** In every history: the list is ordered by last use, so eviction takes the least recently used. */
module CacheRecency {
  import opened Bytes
  import opened CacheModel
  import opened CacheSafety
  import opened CacheRefinement
  import opened CacheHistory

  /** Operation n hit or stored the key. */
  predicate Uses(c: Config, ops: seq<Op>, n: nat, key: Key)
    requires c.Sound() && n < |ops|
  {
    ops[n].key == key && (ops[n].Stores() || (ops[n].Get? && Hits(c, ops, n)))
  }

  /** The last operation before n that used the key; -1 if there is none. */
  function LastUse(c: Config, ops: seq<Op>, n: nat, key: Key): (u: int)
    requires c.Sound() && n <= |ops|
    ensures -1 <= u < n && (u >= 0 ==> Uses(c, ops, u, key))
    ensures forall i | u < i < n :: !Uses(c, ops, i, key)
  {
    if n == 0 then -1
    else if Uses(c, ops, n - 1, key) then n - 1
    else LastUse(c, ops, n - 1, key)
  }

  /** Whatever is further back was used, and used earlier. */
  predicate ByUse(c: Config, ops: seq<Op>, n: nat, view: View)
    requires c.Sound() && n <= |ops|
  {
    && (forall i | 0 <= i < |view| :: LastUse(c, ops, n, view[i].key) >= 0)
    && (forall i, j | 0 <= i < j < |view| :: LastUse(c, ops, n, view[i].key) > LastUse(c, ops, n, view[j].key))
  }

  lemma RemoveAtByUse(c: Config, ops: seq<Op>, n: nat, view: View, i: nat)
    requires c.Sound() && n <= |ops| && ByUse(c, ops, n, view) && i < |view|
    ensures ByUse(c, ops, n, RemoveAt(view, i))
  {
    RemoveAtIs(view, i);
    hide RemoveAt, LastUse;
  }

  /** The entry just used goes in front, and nothing else was used. */
  lemma ConsByUse(c: Config, ops: seq<Op>, n: nat, rest: View, e: Entry)
    requires c.Sound() && n < |ops| && ByUse(c, ops, n, rest) && Uses(c, ops, n, e.key)
    requires forall i | 0 <= i < |rest| :: rest[i].key != e.key
    ensures ByUse(c, ops, n + 1, [e] + rest)
  {
    hide Uses, LastUse;
    LastUseStep(c, ops, n, e.key);
    forall i | 0 <= i < |rest|
      ensures LastUse(c, ops, n + 1, rest[i].key) == LastUse(c, ops, n, rest[i].key) < n
    {
      UsesOneKey(c, ops, n, e.key, rest[i].key);
      LastUseStep(c, ops, n, rest[i].key);
    }
    FrontByUse(c, ops, n, rest, e);
  }

  lemma FrontByUse(c: Config, ops: seq<Op>, n: nat, rest: View, e: Entry)
    requires c.Sound() && n < |ops| && ByUse(c, ops, n, rest) && LastUse(c, ops, n + 1, e.key) == n
    requires forall i | 0 <= i < |rest| :: LastUse(c, ops, n + 1, rest[i].key) == LastUse(c, ops, n, rest[i].key) < n
    ensures ByUse(c, ops, n + 1, [e] + rest)
  {
    hide LastUse;
    var view := [e] + rest;
    assert forall i | 0 < i < |view| :: view[i] == rest[i - 1];
  }

  lemma UsesOneKey(c: Config, ops: seq<Op>, n: nat, key: Key, other: Key)
    requires c.Sound() && n < |ops| && Uses(c, ops, n, key) && other != key
    ensures !Uses(c, ops, n, other)
  {
  }

  lemma LastUseStep(c: Config, ops: seq<Op>, n: nat, key: Key)
    requires c.Sound() && n < |ops|
    ensures LastUse(c, ops, n + 1, key) == if Uses(c, ops, n, key) then n else LastUse(c, ops, n, key)
    ensures LastUse(c, ops, n, key) < n
  {
    hide Uses;
  }

  lemma UnusedByUse(c: Config, ops: seq<Op>, n: nat, view: View)
    requires c.Sound() && n < |ops| && ByUse(c, ops, n, view)
    requires forall i | 0 <= i < |view| :: !Uses(c, ops, n, view[i].key)
    ensures ByUse(c, ops, n + 1, view)
  {
    forall i | 0 <= i < |view| ensures LastUse(c, ops, n + 1, view[i].key) == LastUse(c, ops, n, view[i].key) {
    }
    hide Uses, LastUse;
  }

  lemma {:induction false} EvictByUse(c: Config, ops: seq<Op>, n: nat, view: View, now: int, maxSize: nat)
    requires c.Sound() && n <= |ops| && ByUse(c, ops, n, view)
    ensures ByUse(c, ops, n, ListEvict(view, now, maxSize))
    decreases |view|
  {
    hide ByUse, Victim, RemoveAt;
    if |view| > maxSize {
      VictimBound(view, now);
      RemoveAtIs(view, Victim(view, now));
      RemoveAtByUse(c, ops, n, view, Victim(view, now));
      EvictByUse(c, ops, n, RemoveAt(view, Victim(view, now)), now, maxSize);
    }
  }

  lemma GetByUse(c: Config, ops: seq<Op>, n: nat)
    requires c.Sound() && n < |ops| && ops[n].Get?
    requires DistinctKeys(Before(c, ops, n)) && ByUse(c, ops, n, Before(c, ops, n))
    ensures ByUse(c, ops, n + 1, Before(c, ops, n + 1))
  {
    var view, op := Before(c, ops, n), ops[n];
    hide ByUse, RemoveAt, Expired, AgedMessage;
    match Find(view, op.key)
    case None =>
      UnusedByUse(c, ops, n, view);
    case Some(i) =>
      RemoveAtIs(view, i);
      RemoveAtByUse(c, ops, n, view, i);
      var rest := RemoveAt(view, i);
      if Expired(view[i], op.now) {
        UnusedByUse(c, ops, n, rest);
      } else {
        ConsByUse(c, ops, n, rest, Before(c, ops, n + 1)[0]);
      }
  }

  lemma InsertByUse(c: Config, ops: seq<Op>, n: nat, view: View)
    requires c.Sound() && n < |ops| && ops[n].Set? && ops[n].Stores() && DistinctKeys(view) && ByUse(c, ops, n, view)
    ensures ByUse(c, ops, n + 1, ListInsert(view, ops[n].Stored(c)))
  {
    var op := ops[n];
    assert Uses(c, ops, n, op.key);
    var e := op.Stored(c);
    assert e.key == op.key;
    DropByUse(c, ops, n, view, op.key);
    assert ListInsert(view, e) == [e] + Drop(view, op.key);
    hide *;
    ConsByUse(c, ops, n, Drop(view, op.key), e);
  }

  lemma SetByUse(c: Config, ops: seq<Op>, n: nat)
    requires c.Sound() && n < |ops| && ops[n].Set?
    requires DistinctKeys(Before(c, ops, n)) && ByUse(c, ops, n, Before(c, ops, n))
    ensures ByUse(c, ops, n + 1, Before(c, ops, n + 1))
  {
    var view, op := Before(c, ops, n), ops[n];
    if op.Stores() {
      SetBefore(c, ops, n);
      InsertByUse(c, ops, n, view);
      hide *;
      EvictByUse(c, ops, n + 1, ListInsert(view, op.Stored(c)), op.evictNow, c.maxSize);
    } else {
      hide ByUse;
      UnusedByUse(c, ops, n, view);
    }
  }

  lemma DropByUse(c: Config, ops: seq<Op>, n: nat, view: View, key: Key)
    requires c.Sound() && n <= |ops| && DistinctKeys(view) && ByUse(c, ops, n, view)
    ensures ByUse(c, ops, n, Drop(view, key))
    ensures forall i | 0 <= i < |Drop(view, key)| :: Drop(view, key)[i].key != key
  {
    hide ByUse;
    match Find(view, key)
    case None =>
    case Some(i) =>
      RemoveAtByUse(c, ops, n, view, i);
      RemoveAtIs(view, i);
      hide RemoveAt;
  }

  /** In every history, the list is in the order of last use. */
  lemma {:induction false} ListedByUse(c: Config, ops: seq<Op>, n: nat)
    requires c.Sound() && n <= |ops|
    ensures ByUse(c, ops, n, Before(c, ops, n))
    decreases n
  {
    hide ByUse, ListGet, ListSet, LastUse, DistinctKeys;
    if n == 0 {
      assert ByUse(c, ops, 0, []) by { NothingByUse(c, ops); }
    } else {
      ListedByUse(c, ops, n - 1);
      FateHolds(c, ops, n - 1, []);
      if ops[n - 1].Get? {
        GetByUse(c, ops, n - 1);
      } else {
        SetByUse(c, ops, n - 1);
      }
    }
  }

  lemma NothingByUse(c: Config, ops: seq<Op>)
    requires c.Sound()
    ensures ByUse(c, ops, 0, [])
  {
  }

  /** The list never exceeds the configured size. */
  lemma {:induction false} SizeKept(c: Config, ops: seq<Op>, n: nat)
    requires c.Sound() && n <= |ops|
    ensures |Before(c, ops, n)| <= c.maxSize
    decreases n
  {
    hide ListGet, ListSet;
    if n > 0 {
      SizeKept(c, ops, n - 1);
      match ops[n - 1]
      case Get(key, now) => GetSize(Before(c, ops, n - 1), key, now);
      case Set(key, m, now, evictNow) => SetSize(Before(c, ops, n - 1), c, key, m, now, evictNow);
    }
  }

  lemma GetSize(view: View, key: Key, now: int)
    ensures |ListGet(view, key, now).0| <= |view|
  {
    hide RemoveAt, AgedMessage;
    if Find(view, key).Some? {
      RemoveAtIs(view, Find(view, key).value);
    }
  }

  lemma SetSize(view: View, c: Config, key: Key, m: Message, now: int, evictNow: int)
    requires c.Sound() && |view| <= c.maxSize
    ensures |ListSet(view, c, key, m, now, evictNow)| <= c.maxSize
  {
    hide ListEvict, ListInsert, Lifetime;
    if m.rcode != NAME_ERROR {
      EvictSize(ListInsert(view, Entry(key, m, now, now + Lifetime(c, m))), evictNow, c.maxSize);
    }
  }

  lemma {:induction false} EvictSize(view: View, now: int, maxSize: nat)
    ensures |ListEvict(view, now, maxSize)| <= maxSize
    decreases |view|
  {
    hide RemoveAt, Victim;
    if |view| > maxSize {
      VictimBound(view, now);
      RemoveAtIs(view, Victim(view, now));
      EvictSize(RemoveAt(view, Victim(view, now)), now, maxSize);
    }
  }

  // ----- what a Set evicts

  /** Of these entries, the one of `key` was used longest ago: of the expired ones if any has expired. */
  predicate LeastRecent(c: Config, ops: seq<Op>, n: nat, view: View, key: Key, now: int)
    requires c.Sound() && n <= |ops|
  {
    Holds(view, key).Some? &&
    if exists e <- view :: Expired(e, now)
    then Expired(Holds(view, key).value, now)
         && forall e <- view | e.key != key && Expired(e, now) :: LastUse(c, ops, n, key) < LastUse(c, ops, n, e.key)
    else forall e <- view | e.key != key :: LastUse(c, ops, n, key) < LastUse(c, ops, n, e.key)
  }

  lemma VictimLeastRecent(c: Config, ops: seq<Op>, n: nat, view: View, key: Key, now: int)
    requires c.Sound() && n <= |ops| && view != [] && DistinctKeys(view) && ByUse(c, ops, n, view)
    ensures view[Victim(view, now)].key == key <==> LeastRecent(c, ops, n, view, key, now)
  {
    hide *;
    VictimBound(view, now);
    var v := Victim(view, now);
    VictimIs(view, now, v);
    SomeExpiredMember(view, now);
    HoldsMember(view, view[v].key, v);
    VictimUsedFirst(c, ops, n, view, v, now);
    if LeastRecent(c, ops, n, view, key, now) {
      OneLeastRecent(c, ops, n, view, key, view[v].key, now);
    }
  }

  lemma HeldMember(view: View, key: Key)
    ensures Holds(view, key).Some? ==> Holds(view, key).value in view && Holds(view, key).value.key == key
  {
  }

  lemma OneLeastRecent(c: Config, ops: seq<Op>, n: nat, view: View, key: Key, other: Key, now: int)
    requires c.Sound() && n <= |ops|
    requires LeastRecent(c, ops, n, view, key, now) && LeastRecent(c, ops, n, view, other, now)
    ensures key == other
  {
    HeldMember(view, key);
    HeldMember(view, other);
    hide LastUse, Expired, Holds;
  }

  /** Whoever is further in front was used later. */
  lemma VictimUsedFirst(c: Config, ops: seq<Op>, n: nat, view: View, v: nat, now: int)
    requires c.Sound() && n <= |ops| && v < |view| && ByUse(c, ops, n, view)
    requires if exists e <- view :: Expired(e, now)
             then Expired(view[v], now) && forall j | v < j < |view| :: !Expired(view[j], now)
             else v == |view| - 1
    requires Holds(view, view[v].key) == Some(view[v])
    ensures LeastRecent(c, ops, n, view, view[v].key, now)
  {
    hide LastUse, Expired, Holds;
    forall e <- view | e.key != view[v].key && ((exists x <- view :: Expired(x, now)) ==> Expired(e, now))
      ensures LastUse(c, ops, n, view[v].key) < LastUse(c, ops, n, e.key)
    {
      var i :| 0 <= i < |view| && view[i] == e;
      assert i < v;
    }
  }

  lemma SomeExpiredMember(view: View, now: int)
    ensures (exists e <- view :: Expired(e, now)) <==> exists j | 0 <= j < |view| :: Expired(view[j], now)
  {
    hide Expired;
    if j :| 0 <= j < |view| && Expired(view[j], now) {
      assert view[j] in view;
    }
  }

  /**
   * In every history, a Set evicts an entry exactly when the cache has become too large and the
   * entry is, of the expired ones if there are any, else of all, the one used longest ago.
   */
  lemma SetEvictsLeastRecent(c: Config, ops: seq<Op>, n: nat, key: Key)
    requires c.Sound() && n < |ops| && ops[n].Set? && ops[n].Stores()
    ensures var inserted := ListInsert(Before(c, ops, n), ops[n].Stored(c));
            Evicts(c, ops, n, key) <==>
              |inserted| > c.maxSize && LeastRecent(c, ops, n + 1, inserted, key, ops[n].evictNow)
  {
    hide *;
    var view, e := Before(c, ops, n), ops[n].Stored(c);
    var inserted := ListInsert(view, e);
    SetBefore(c, ops, n);
    EvictsIs(c, ops, n, key);
    FateHolds(c, ops, n, key);
    ListedByUse(c, ops, n);
    SizeKept(c, ops, n);
    InsertByUse(c, ops, n, view);
    HoldsInsert(view, e, key);
    InsertSize(view, e);
    assert |inserted| <= c.maxSize + 1;
    Evicted(c, ops, n + 1, inserted, key, ops[n].evictNow);
  }

  lemma EvictsIs(c: Config, ops: seq<Op>, n: nat, key: Key)
    requires c.Sound() && n < |ops| && ops[n].Set? && ops[n].Stores()
    ensures Evicts(c, ops, n, key) <==>
              Holds(ListInsert(Before(c, ops, n), ops[n].Stored(c)), key).Some?
              && Holds(Before(c, ops, n + 1), key).None?
  {
    hide Before, ListInsert, Holds;
  }

  lemma Evicted(c: Config, ops: seq<Op>, n: nat, view: View, key: Key, now: int)
    requires c.Sound() && n <= |ops| && DistinctKeys(view) && ByUse(c, ops, n, view) && |view| <= c.maxSize + 1
    ensures Holds(view, key).Some? && Holds(ListEvict(view, now, c.maxSize), key).None? <==>
              |view| > c.maxSize && LeastRecent(c, ops, n, view, key, now)
  {
    hide ByUse, DistinctKeys, Holds, Victim, LeastRecent, RemoveAt;
    LeastRecentHeld(c, ops, n, view, key, now);
    if |view| > c.maxSize {
      EvictsOne(view, now, c.maxSize);
      VictimBound(view, now);
      HoldsRemoveAt(view, Victim(view, now), key);
      VictimLeastRecent(c, ops, n, view, key, now);
    }
  }

  lemma LeastRecentHeld(c: Config, ops: seq<Op>, n: nat, view: View, key: Key, now: int)
    requires c.Sound() && n <= |ops|
    ensures LeastRecent(c, ops, n, view, key, now) ==> Holds(view, key).Some?
  {
  }

  lemma SetBefore(c: Config, ops: seq<Op>, n: nat)
    requires c.Sound() && n < |ops| && ops[n].Stores()
    ensures Before(c, ops, n + 1)
            == ListEvict(ListInsert(Before(c, ops, n), ops[n].Stored(c)), ops[n].evictNow, c.maxSize)
  {
    hide ListEvict, ListInsert, Lifetime, ListGet;
  }

  lemma InsertSize(view: View, e: Entry)
    ensures |ListInsert(view, e)| <= |view| + 1
  {
  }

  // ----- the cache itself

  /** The cache before operation n: its map, list and entries. */
  function StateBefore(c: Config, ops: seq<Op>, n: nat): State
    requires c.Sound() && n <= |ops|
    ensures Inv(StateBefore(c, ops, n), c.maxSize)
  {
    if n == 0 then Empty
    else
      var s := StateBefore(c, ops, n - 1);
      match ops[n - 1]
      case Get(key, now) => GetKeepsInv(s, key, now, c.maxSize); GetState(s, key, now)
      case Set(key, m, now, evictNow) =>
        SetKeepsInv(s, c, key, m, now, evictNow);
        SetSection(s, c, key, m, now, evictNow)
  }

  /** Reading leaves the map and the list in bijection. */
  lemma GetKeepsInv(s: State, key: Key, now: int, maxSize: nat)
    requires Inv(s, maxSize)
    ensures Inv(GetState(s, key, now), maxSize)
  {
    hide RemoveSection, AgeSection, TouchSection, Bijective;
    assert Bijective(s);
    UnlinkKeepsBijective(s, key);
    match EntryOf(s, key)
    case None =>
    case Some(id) =>
      var elapsed := if id < |s.entries| then ElapsedSeconds(s.entries[id], now) else 0;
      AgeKeepsBijective(s, id, elapsed);
      TouchKeepsBijective(AgeSection(s, id, elapsed), id);
      AgeKeepsItems(s, id, elapsed);
      TouchKeepsItems(AgeSection(s, id, elapsed), id);
  }

  /** Histories of the cache are histories of the list: everything said of `Before` holds of the cache. */
  lemma {:induction false} HistoryRefines(c: Config, ops: seq<Op>, n: nat)
    requires c.Sound() && n <= |ops|
    ensures Bijective(StateBefore(c, ops, n)) && ViewOf(StateBefore(c, ops, n)) == Before(c, ops, n)
    ensures n < |ops| && ops[n].Get? ==>
              GetResult(StateBefore(c, ops, n), ops[n].key, ops[n].now)
              == ListGet(Before(c, ops, n), ops[n].key, ops[n].now).1
    decreases n
  {
    hide GetState, SetSection, ListGet, ListSet, Bijective, GetResult;
    if n > 0 {
      HistoryRefines(c, ops, n - 1);
      var s := StateBefore(c, ops, n - 1);
      match ops[n - 1]
      case Get(key, now) => GetRefines(s, key, now);
      case Set(key, m, now, evictNow) => SetRefines(s, c, key, m, now, evictNow);
    }
    assert Bijective(StateBefore(c, ops, n));
    if n < |ops| && ops[n].Get? {
      GetRefines(StateBefore(c, ops, n), ops[n].key, ops[n].now);
    }
  }
}
