/**
 * Used from one goroutine, the cache refines a plain recency-ordered list of entries,
 * and that list says exactly when a Get hits and what is evicted.
 */
module CacheRefinement {
  import opened Bytes
  import opened CacheModel
  import opened CacheSafety

  // ----- the recency-ordered list

  type View = seq<Entry>

  function Find(view: View, key: Key): (r: Option<nat>)
    ensures r.Some? ==> r.value < |view| && view[r.value].key == key
    ensures r.None? ==> forall i | 0 <= i < |view| :: view[i].key != key
  {
    if view == [] then None
    else if view[0].key == key then Some(0)
    else match Find(view[1..], key) case Some(i) => Some(i + 1) case None => None
  }

  function Drop(view: View, key: Key): View {
    match Find(view, key)
    case Some(i) => RemoveAt(view, i)
    case None => view
  }

  function ListGet(view: View, key: Key, now: int): (View, Option<Message>) {
    match Find(view, key)
    case None => (view, None)
    case Some(i) =>
      if Expired(view[i], now) then (RemoveAt(view, i), None)
      else
        var aged := AgedMessage(view[i].message, ElapsedSeconds(view[i], now));
        ([view[i].(message := aged)] + RemoveAt(view, i), Some(aged))
  }

  function ListEvict(view: View, now: int, maxSize: nat): View
    decreases |view|
  {
    if |view| > maxSize then ListEvict(RemoveAt(view, Victim(view, now)), now, maxSize) else view
  }

  function ListInsert(view: View, e: Entry): View { [e] + Drop(view, e.key) }

  function ListSet(view: View, c: Config, key: Key, m: Message, now: int, evictNow: int): View
    requires c.Sound()
  {
    if m.rcode == NAME_ERROR then view
    else ListEvict(ListInsert(view, Entry(key, m, now, now + Lifetime(c, m))), evictNow, c.maxSize)
  }

  function ViewOf(s: State): View
    requires Linked(s)
  {
    Listed(s.lru, s.entries)
  }

  // ----- refinement

  lemma ViewRemoveAt(lru: seq<Id>, entries: seq<Entry>, i: nat)
    requires i < |lru| && forall j | 0 <= j < |lru| :: lru[j] < |entries|
    ensures Listed(RemoveAt(lru, i), entries) == RemoveAt(Listed(lru, entries), i)
  {
    hide RemoveAt;
    RemoveAtIs(lru, i);
    RemoveAtIs(Listed(lru, entries), i);
  }

  lemma RemoveAtIs<T>(s: seq<T>, i: nat)
    requires i < |s|
    ensures |RemoveAt(s, i)| == |s| - 1
            && forall j | 0 <= j < |s| - 1 :: RemoveAt(s, i)[j] == s[if j < i then j else j + 1]
  {
  }

  /** The map finds the place of a key's entry in the list. */
  lemma FindIsEntryOf(s: State, key: Key)
    requires Bijective(s)
    ensures Find(ViewOf(s), key)
            == match EntryOf(s, key) case None => None case Some(id) => Some(IndexOf(s.lru, id))
  {
    hide Listed, Bijective, IndexOf;
    BijectiveParts(s);
    if key in s.items {
      KeyPlace(s, key);
      ListedAt(s, IndexOf(s.lru, s.items[key]));
    }
    match Find(ViewOf(s), key) {
      case Some(j) =>
        ListedAt(s, j);
        PlaceOfKey(s, j);
      case None =>
    }
  }

  lemma KeyPlace(s: State, key: Key)
    requires Bijective(s) && key in s.items
    ensures s.items[key] in s.lru && var i := IndexOf(s.lru, s.items[key]);
            i < |s.lru| == |ViewOf(s)| && s.lru[i] < |s.entries| && s.entries[s.lru[i]].key == key
  {
  }

  lemma PlaceOfKey(s: State, i: nat)
    requires Bijective(s) && i < |s.lru|
    ensures var key := s.entries[s.lru[i]].key;
            key in s.items && s.items[key] in s.lru && IndexOf(s.lru, s.items[key]) == i
  {
  }

  lemma ListedAt(s: State, i: nat)
    requires Linked(s) && i < |ViewOf(s)|
    ensures i < |s.lru| && ViewOf(s)[i] == s.entries[s.lru[i]]
  {
  }

  lemma RemoveRefines(s: State, key: Key)
    requires Bijective(s)
    ensures Linked(RemoveSection(s, key)) && ViewOf(RemoveSection(s, key)) == Drop(ViewOf(s), key)
  {
    FindIsEntryOf(s, key);
    if key in s.items {
      ViewRemoveAt(s.lru, s.entries, IndexOf(s.lru, s.items[key]));
    }
  }

  lemma InsertRefines(s: State, e: Entry)
    requires Bijective(s)
    ensures Linked(InsertSection(s, e)) && ViewOf(InsertSection(s, e)) == ListInsert(ViewOf(s), e)
  {
    hide Drop, RemoveSection, InsertSection, Bijective;
    var s1, s' := RemoveSection(s, e.key), InsertSection(s, e);
    RemoveRefines(s, e.key);
    InsertIs(s, e);
    RemoveKeepsEntries(s, e.key);
    ListedGrows(s1.lru, s1.entries, e);
    assert s'.lru[1..] == s1.lru;
  }

  lemma {:induction false} ListedGrows(lru: seq<Id>, entries: seq<Entry>, e: Entry)
    requires forall i | 0 <= i < |lru| :: lru[i] < |entries|
    ensures Listed(lru, entries + [e]) == Listed(lru, entries)
  {
    if lru != [] {
      ListedGrows(lru[1..], entries, e);
    }
  }

  lemma {:induction false} EvictRefines(s: State, now: int, maxSize: nat)
    requires Bijective(s)
    ensures Linked(EvictSection(s, now, maxSize))
    ensures ViewOf(EvictSection(s, now, maxSize)) == ListEvict(ViewOf(s), now, maxSize)
    decreases |s.lru|
  {
    LinkedOf(s);
    SameSize(s);
    ViewLength(s);
    hide Victim, RemoveAt, Listed, Bijective;
    if |s.items| > maxSize {
      EvictOneKeepsBijective(s, now);
      ViewRemoveAt(s.lru, s.entries, Victim(ViewOf(s), now)) by { VictimInView(s, now); }
      EvictRefines(EvictOne(s, now), now, maxSize);
    }
  }

  lemma ViewLength(s: State)
    requires Linked(s)
    ensures |ViewOf(s)| == |s.lru|
  {
  }

  lemma VictimInView(s: State, now: int)
    requires Linked(s) && s.lru != []
    ensures Victim(ViewOf(s), now) < |s.lru|
  {
  }

  /** Get, run without interruption, is the list's get; in particular it returns the same. */
  lemma GetRefines(s: State, key: Key, now: int)
    requires Bijective(s)
    ensures Linked(GetState(s, key, now))
    ensures (ViewOf(GetState(s, key, now)), GetResult(s, key, now)) == ListGet(ViewOf(s), key, now)
  {
    FindIsEntryOf(s, key);
    if key in s.items {
      var id := s.items[key];
      var i := IndexOf(s.lru, id);
      assert ViewOf(s)[i] == s.entries[id];
      if Expired(s.entries[id], now) {
        RemoveRefines(s, key);
      } else {
        HitRefines(s, id, ElapsedSeconds(s.entries[id], now));
      }
    }
  }

  lemma HitRefines(s: State, id: Id, elapsed: nat)
    requires Bijective(s) && id in s.lru && id < |s.entries|
    ensures var s', i := TouchSection(AgeSection(s, id, elapsed), id), IndexOf(s.lru, id);
            && Linked(s')
            && ViewOf(s') == [s.entries[id].(message := AgedMessage(s.entries[id].message, elapsed))]
                             + RemoveAt(ViewOf(s), i)
  {
    hide AgeSection, TouchSection, AgedMessage, RemoveAt, IndexOf, Bijective, Distinct, Listed;
    var e := s.entries[id].(message := AgedMessage(s.entries[id].message, elapsed));
    BijectiveParts(s);
    AgeIs(s, id, elapsed);
    TouchIs(AgeSection(s, id, elapsed), id);
    MovedList(s.lru, s.entries, id, e);
  }

  lemma BijectiveParts(s: State)
    requires Bijective(s)
    ensures Linked(s) && Distinct(s.lru)
  {
  }

  /** Moving an element to the front and changing its entry, seen on the entries. */
  lemma MovedList(lru: seq<Id>, entries: seq<Entry>, id: Id, e: Entry)
    requires Distinct(lru) && id in lru && id < |entries| && forall i | 0 <= i < |lru| :: lru[i] < |entries|
    ensures var moved := [id] + RemoveAt(lru, IndexOf(lru, id));
            && (forall j | 0 <= j < |moved| :: moved[j] < |entries|)
            && Listed(moved, entries[id := e]) == [e] + RemoveAt(Listed(lru, entries), IndexOf(lru, id))
  {
    var i := IndexOf(lru, id);
    var rest := RemoveAt(lru, i);
    RemoveAtMembers(lru, i);
    ViewRemoveAt(lru, entries, i);
    RemoveAtIs(lru, i);
    hide RemoveAt, IndexOf, Distinct, Listed;
    ListedUpdate(rest, entries, id, e);
    ListedCons(id, rest, entries[id := e]);
  }

  lemma AgeIs(s: State, id: Id, elapsed: nat)
    requires id < |s.entries|
    ensures var e := s.entries[id];
            AgeSection(s, id, elapsed)
            == s.(entries := s.entries[id := e.(message := AgedMessage(e.message, elapsed))])
  {
    hide AgedMessage;
  }

  lemma TouchIs(s: State, id: Id)
    requires id in s.lru
    ensures TouchSection(s, id) == s.(lru := [id] + RemoveAt(s.lru, IndexOf(s.lru, id)))
  {
    hide RemoveAt, IndexOf;
  }

  lemma {:induction false} ListedUpdate(lru: seq<Id>, entries: seq<Entry>, id: Id, e: Entry)
    requires id < |entries| && id !in lru && forall i | 0 <= i < |lru| :: lru[i] < |entries|
    ensures Listed(lru, entries[id := e]) == Listed(lru, entries)
  {
    if lru != [] {
      ListedUpdate(lru[1..], entries, id, e);
    }
  }

  lemma ListedCons(id: Id, lru: seq<Id>, entries: seq<Entry>)
    requires id < |entries| && forall i | 0 <= i < |lru| :: lru[i] < |entries|
    ensures Listed([id] + lru, entries) == [entries[id]] + Listed(lru, entries)
  {
    assert ([id] + lru)[1..] == lru;
  }

  /** Set is the list's set. */
  lemma SetRefines(s: State, c: Config, key: Key, m: Message, now: int, evictNow: int)
    requires Bijective(s) && c.Sound()
    ensures Linked(SetSection(s, c, key, m, now, evictNow))
    ensures ViewOf(SetSection(s, c, key, m, now, evictNow)) == ListSet(ViewOf(s), c, key, m, now, evictNow)
  {
    LinkedOf(s);
    var e := Entry(key, m, now, now + Lifetime(c, m));
    InsertRefines(s, e);
    InsertKeepsBijective(s, e);
    EvictRefines(InsertSection(s, e), evictNow, c.maxSize);
    hide *;
    SetIs(s, c, key, m, now, evictNow);
  }

  /** Both sets insert the same entry and then evict. */
  lemma SetIs(s: State, c: Config, key: Key, m: Message, now: int, evictNow: int)
    requires c.Sound() && Linked(s)
    ensures var e := Entry(key, m, now, now + Lifetime(c, m));
            if m.rcode == NAME_ERROR
            then SetSection(s, c, key, m, now, evictNow) == s
                 && ListSet(ViewOf(s), c, key, m, now, evictNow) == ViewOf(s)
            else Linked(InsertSection(s, e))
                 && SetSection(s, c, key, m, now, evictNow) == EvictSection(InsertSection(s, e), evictNow, c.maxSize)
                 && ListSet(ViewOf(s), c, key, m, now, evictNow)
                    == ListEvict(ListInsert(ViewOf(s), e), evictNow, c.maxSize)
  {
    hide InsertSection, EvictSection, ListInsert, ListEvict, Lifetime, Linked, Listed;
    InsertLinked(s, Entry(key, m, now, now + Lifetime(c, m)));
  }

  // ----- what is evicted

  predicate DistinctKeys(view: View) {
    forall i, j | 0 <= i < j < |view| :: view[i].key != view[j].key
  }

  /** The entry a key has, if any. */
  function Holds(view: View, key: Key): Option<Entry> {
    match Find(view, key) case Some(i) => Some(view[i]) case None => None
  }

  lemma HoldsMember(view: View, key: Key, i: nat)
    requires DistinctKeys(view) && i < |view| && view[i].key == key
    ensures Holds(view, key) == Some(view[i])
  {
  }

  lemma HoldsNone(view: View, key: Key)
    ensures Holds(view, key).None? <==> forall i | 0 <= i < |view| :: view[i].key != key
  {
  }

  lemma HoldsRemoveAt(view: View, i: nat, key: Key)
    requires DistinctKeys(view) && i < |view|
    ensures DistinctKeys(RemoveAt(view, i))
    ensures Holds(RemoveAt(view, i), key) == if view[i].key == key then None else Holds(view, key)
  {
    var r := RemoveAt(view, i);
    RemoveAtIs(view, i);
    hide RemoveAt;
    HoldsNone(r, key);
    HoldsNone(view, key);
    match Find(view, key) {
      case Some(j) =>
        if j != i {
          HoldsMember(r, key, if j < i then j else j - 1);
        }
      case None =>
    }
  }

  lemma HoldsCons(e: Entry, view: View, key: Key)
    requires DistinctKeys(view) && Holds(view, e.key).None?
    ensures DistinctKeys([e] + view)
    ensures Holds([e] + view, key) == if e.key == key then Some(e) else Holds(view, key)
  {
    assert ([e] + view)[1..] == view;
    HoldsNone(view, e.key);
  }

  lemma HoldsDrop(view: View, dropped: Key, key: Key)
    requires DistinctKeys(view)
    ensures DistinctKeys(Drop(view, dropped))
    ensures Holds(Drop(view, dropped), key) == if dropped == key then None else Holds(view, key)
  {
    match Find(view, dropped) {
      case Some(i) => HoldsRemoveAt(view, i, key);
      case None =>
    }
  }

  lemma HoldsInsert(view: View, e: Entry, key: Key)
    requires DistinctKeys(view)
    ensures DistinctKeys(ListInsert(view, e))
    ensures Holds(ListInsert(view, e), key) == if e.key == key then Some(e) else Holds(view, key)
  {
    hide Drop, Holds;
    HoldsDrop(view, e.key, key);
    HoldsDrop(view, e.key, e.key);
    HoldsCons(e, Drop(view, e.key), key);
  }

  /** Eviction takes entries away and changes none. */
  lemma {:induction false} HoldsEvict(view: View, now: int, maxSize: nat, key: Key)
    requires DistinctKeys(view)
    ensures DistinctKeys(ListEvict(view, now, maxSize))
    ensures Holds(ListEvict(view, now, maxSize), key) == Holds(view, key)
            || Holds(ListEvict(view, now, maxSize), key).None?
    decreases |view|
  {
    hide Holds, Victim, RemoveAt, DistinctKeys;
    if |view| > maxSize {
      assert Victim(view, now) < |view| by { VictimBound(view, now); }
      var rest := RemoveAt(view, Victim(view, now));
      HoldsRemoveAt(view, Victim(view, now), key);
      assert |rest| < |view| by { RemoveAtIs(view, Victim(view, now)); }
      HoldsEvict(rest, now, maxSize, key);
    }
  }

  lemma VictimBound(view: View, now: int)
    requires view != []
    ensures Victim(view, now) < |view|
  {
  }

  /** The lists that arise have one entry per key. */
  lemma ViewDistinct(s: State)
    requires Bijective(s)
    ensures DistinctKeys(ViewOf(s))
  {
  }

  lemma EvictsOne(view: View, now: int, maxSize: nat)
    requires |view| == maxSize + 1
    ensures ListEvict(view, now, maxSize) == RemoveAt(view, Victim(view, now))
  {
    hide Victim;
    VictimBound(view, now);
    assert ListEvict(RemoveAt(view, Victim(view, now)), now, maxSize) == RemoveAt(view, Victim(view, now));
  }

  lemma ListKeepsStored(view: View, c: Config, key: Key, m: Message, now: int, evictNow: int)
    requires c.Sound() && DistinctKeys(view) && |view| <= c.maxSize && m.rcode != NAME_ERROR
    ensures var e := Entry(key, m, now, now + Lifetime(c, m));
            var others := Drop(view, key);
            Find(ListSet(view, c, key, m, now, evictNow), key).Some? <==>
              |others| < c.maxSize || !Expired(e, evictNow) || SomeListedExpired(others, evictNow)
  {
    var e := Entry(key, m, now, now + Lifetime(c, m));
    var others, inserted := Drop(view, key), ListInsert(view, e);
    HoldsDrop(view, key, key);
    HoldsNone(others, key);
    if |inserted| > c.maxSize {
      EvictsOne(inserted, evictNow, c.maxSize);
      VictimOfInserted(others, e, evictNow);
      VictimBound(inserted, evictNow);
      HoldsInsert(view, e, key);
      HoldsRemoveAt(inserted, Victim(inserted, evictNow), key);
      hide Victim, RemoveAt, DistinctKeys, Find;
    }
  }

  /**
   * A just-stored entry survives its own eviction pass, unless the clock has already passed its
   * expiry when eviction starts, the cache is full, and nothing else in it has expired.
   */
  lemma JustStoredSurvives(s: State, c: Config, key: Key, m: Message, now: int, evictNow: int)
    requires c.Sound() && Inv(s, c.maxSize) && m.rcode != NAME_ERROR
    ensures var others := Without(s.items, key);
            key in SetSection(s, c, key, m, now, evictNow).items <==>
              |others| < c.maxSize || evictNow <= now + Lifetime(c, m)
              || exists k <- others :: others[k] < |s.entries| && Expired(s.entries[others[k]], evictNow)
  {
    assert Bijective(s);
    SetKeepsInv(s, c, key, m, now, evictNow);
    assert Bijective(SetSection(s, c, key, m, now, evictNow));
    var others := Without(s.items, key);
    assert SomeExpired(s, others, evictNow)
      <==> exists k <- others :: others[k] < |s.entries| && Expired(s.entries[others[k]], evictNow);
    assert Expired(Entry(key, m, now, now + Lifetime(c, m)), evictNow) <==> evictNow > now + Lifetime(c, m);
    hide *;
    SetRefines(s, c, key, m, now, evictNow);
    ViewDistinct(s);
    ViewSize(s);
    assert |s.items| <= c.maxSize by { InvSize(s, c.maxSize); }
    ListKeepsStored(ViewOf(s), c, key, m, now, evictNow);
    StoredIn(SetSection(s, c, key, m, now, evictNow), key);
    OthersOf(s, key, evictNow);
  }

  /** A full cache of one entry that has not expired; the clock passes the new one's expiry before eviction. */
  lemma JustStoredLost()
    ensures var m := Message(0, false, [Record([], 1, 1, [])], [], []);
            var c := Config(300 * SECOND, 30 * SECOND, 1);
            var s := State(map[[1] := 0], [0], [Entry([1], m, 0, 10 * SECOND)]);
            c.Sound() && Inv(s, 1) && [2] !in SetSection(s, c, [2], m, 0, SECOND + 1).items
  {
    var m := Message(0, false, [Record([], 1, 1, [])], [], []);
    var c := Config(300 * SECOND, 30 * SECOND, 1);
    var s := State(map[[1] := 0], [0], [Entry([1], m, 0, 10 * SECOND)]);
    hide SetSection, Inv, Lifetime, MinTtl, Without;
    OneSecond(c, m);
    OneEntry(m);
    JustStoredSurvives(s, c, [2], m, 0, SECOND + 1);
  }

  lemma OneSecond(c: Config, m: Message)
    requires c.Sound() && c.ttl == 300 * SECOND && m.answer == [Record([], 1, 1, [])]
    ensures Lifetime(c, m) == SECOND
  {
    assert MinTtl(m.answer[1..], 1) == 1;
  }

  lemma OneEntry(m: Message)
    ensures var s := State(map[[1] := 0], [0], [Entry([1], m, 0, 10 * SECOND)]);
            Inv(s, 1) && Without(s.items, [2]) == s.items
  {
  }

  lemma InvSize(s: State, maxSize: nat)
    requires Inv(s, maxSize)
    ensures |s.items| <= maxSize
  {
  }

  predicate SomeExpired(s: State, items: map<Key, Id>, now: int) {
    exists k <- items :: items[k] < |s.entries| && Expired(s.entries[items[k]], now)
  }

  predicate SomeListedExpired(view: View, now: int) { exists i :: 0 <= i < |view| && Expired(view[i], now) }

  /** The list without a key shows the map without it. */
  lemma OthersOf(s: State, key: Key, now: int)
    requires Bijective(s)
    ensures Linked(s) && |Drop(ViewOf(s), key)| == |Without(s.items, key)|
    ensures SomeListedExpired(Drop(ViewOf(s), key), now) <==> SomeExpired(s, Without(s.items, key), now)
  {
    UnlinkKeepsBijective(s, key);
    RemoveRefines(s, key);
    OthersAre(s, key);
    ViewSize(RemoveSection(s, key));
    ExpiredMember(RemoveSection(s, key), now);
    LinkedOf(s);
    hide Bijective, RemoveSection, Without, Listed, Drop, Linked;
  }

  lemma StoredIn(s: State, key: Key)
    requires Bijective(s)
    ensures Find(ViewOf(s), key).Some? <==> key in s.items
  {
    FindIsEntryOf(s, key);
  }

  lemma ViewSize(s: State)
    requires Bijective(s)
    ensures |ViewOf(s)| == |s.items|
  {
    SameSize(s);
    ViewLength(s);
  }

  lemma OthersAre(s: State, key: Key)
    ensures RemoveSection(s, key).items == Without(s.items, key) && RemoveSection(s, key).entries == s.entries
  {
    hide Unlink;
  }

  lemma ExpiredMember(s: State, now: int)
    requires Bijective(s)
    ensures SomeListedExpired(ViewOf(s), now) <==> SomeExpired(s, s.items, now)
  {
    var view := ViewOf(s);
    if i :| 0 <= i < |view| && Expired(view[i], now) {
      PlaceOfKey(s, i);
      ListedAt(s, i);
      assert s.entries[s.lru[i]].key in s.items;
    }
    if k :| k in s.items && s.items[k] < |s.entries| && Expired(s.entries[s.items[k]], now) {
      KeyPlace(s, k);
      var i := IndexOf(s.lru, s.items[k]);
      ViewLength(s);
      ListedAt(s, i);
      assert Expired(view[i], now);
    }
  }

  /** The newest entry is the victim only if it alone has expired (or it is the only one). */
  lemma VictimOfInserted(others: View, e: Entry, now: int)
    requires others != []
    ensures Victim([e] + others, now) == 0 <==>
              Expired(e, now) && forall i | 0 <= i < |others| :: !Expired(others[i], now)
  {
    var view := [e] + others;
    var r := LastExpired(view, |view|, now);
    assert view[0] == e && forall i | 0 <= i < |others| :: view[i + 1] == others[i];
    if r == Some(0) {
      forall i | 0 <= i < |others| ensures !Expired(others[i], now) {
        assert !Expired(view[i + 1], now);
      }
    } else if r.Some? {
      assert Expired(others[r.value - 1], now);
    }
  }
}
