/** Whatever the interleaving of the locked sections: map and list stay in bijection and within the limit. */
module CacheSafety {
  import opened Bytes
  import opened CacheModel

  lemma UnlinkKeepsBijective(s: State, key: Key)
    requires Bijective(s)
    ensures Bijective(RemoveSection(s, key))
    ensures |RemoveSection(s, key).items| == if key in s.items then |s.items| - 1 else |s.items|
  {
    if key in s.items {
      DropKeepsBijective(s, IndexOf(s.lru, s.items[key]));
      WithoutSize(s.items, key);
    }
  }

  lemma TouchKeepsBijective(s: State, id: Id)
    requires Bijective(s)
    ensures Bijective(TouchSection(s, id))
  {
    if id in s.lru {
      var s', i := TouchSection(s, id), IndexOf(s.lru, id);
      RemoveAtMembers(s.lru, i);
      FrontMembers(RemoveAt(s.lru, i), id);
      BijectiveMembers(s);
      BijectiveMembers(s');
      hide RemoveAt, Bijective, Distinct;
    }
  }

  lemma FrontMembers(ids: seq<Id>, id: Id)
    requires Distinct(ids) && id !in ids
    ensures Distinct([id] + ids) && forall x :: x in [id] + ids <==> x == id || x in ids
  {
  }

  lemma AgeKeepsBijective(s: State, id: Id, elapsed: nat)
    requires Bijective(s)
    ensures Bijective(AgeSection(s, id, elapsed))
  {
  }

  lemma PrependKeepsBijective(s: State, e: Entry)
    requires Bijective(s) && e.key !in s.items
    ensures var id := |s.entries|;
            Bijective(State(s.items[e.key := id], [id] + s.lru, s.entries + [e]))
  {
    var id := |s.entries|;
    var s' := State(s.items[e.key := id], [id] + s.lru, s.entries + [e]);
    BijectiveMembers(s);
    assert id !in s.lru;
    FrontMembers(s.lru, id);
    BijectiveMembers(s');
    hide Bijective, Distinct;
  }

  lemma InsertKeepsBijective(s: State, e: Entry)
    requires Bijective(s)
    ensures Bijective(InsertSection(s, e)) && |InsertSection(s, e).items| <= |s.items| + 1
  {
    var s1, id := RemoveSection(s, e.key), |s.entries|;
    hide RemoveSection, InsertSection, Bijective;
    UnlinkKeepsBijective(s, e.key);
    RemovedKey(s, e.key);
    RemoveKeepsEntries(s, e.key);
    PrependKeepsBijective(s1, e);
    InsertIs(s, e);
  }

  lemma RemovedKey(s: State, key: Key)
    ensures key !in RemoveSection(s, key).items
  {
    hide Unlink;
  }

  lemma RemoveKeepsEntries(s: State, key: Key)
    ensures RemoveSection(s, key).entries == s.entries
  {
  }

  /** Inserting is removing what the key had and putting the new entry in front. */
  lemma InsertIs(s: State, e: Entry)
    ensures var s1, id := RemoveSection(s, e.key), |s.entries|;
            InsertSection(s, e) == State(s1.items[e.key := id], [id] + s1.lru, s1.entries + [e])
  {
    hide Unlink;
    var id := |s.entries|;
    assert s.items[e.key := id] == RemoveSection(s, e.key).items[e.key := id];
  }

  lemma {:induction false} EvictKeepsInv(s: State, now: int, maxSize: nat)
    requires Bijective(s)
    ensures Inv(EvictSection(s, now, maxSize), maxSize)
    decreases |s.lru|
  {
    hide Victim, RemoveAt, Listed;
    SameSize(s);
    if |s.items| > maxSize && s.lru != [] {
      EvictOneKeepsBijective(s, now);
      EvictKeepsInv(EvictOne(s, now), now, maxSize);
    }
  }

  lemma EvictOneKeepsBijective(s: State, now: int)
    requires Bijective(s) && s.lru != []
    ensures Bijective(EvictOne(s, now)) && |EvictOne(s, now).lru| == |s.lru| - 1
  {
    DropKeepsBijective(s, Victim(Listed(s.lru, s.entries), now));
  }

  lemma SetKeepsInv(s: State, c: Config, key: Key, m: Message, now: int, evictNow: int)
    requires c.Sound() && Inv(s, c.maxSize)
    ensures Inv(SetSection(s, c, key, m, now, evictNow), c.maxSize)
  {
    hide InsertSection, EvictSection;
    var e := Entry(key, m, now, now + Lifetime(c, m));
    InsertKeepsBijective(s, e);
    EvictKeepsInv(InsertSection(s, e), evictNow, c.maxSize);
  }

  /** Set, in terms of the entry it puts in front. */
  lemma SetSteps(s: State, c: Config, e: Entry, key: Key, m: Message, now: int, evictNow: int)
    requires c.Sound() && Linked(s) && e == Entry(key, m, now, now + Lifetime(c, m))
    ensures Linked(InsertSection(s, e))
    ensures SetSection(s, c, key, m, now, evictNow)
            == if m.rcode == NAME_ERROR then s else EvictSection(InsertSection(s, e), evictNow, c.maxSize)
  {
    hide InsertSection, EvictSection, Lifetime, Linked, Config.Sound;
    InsertLinked(s, e);
  }

  lemma LinkedOf(s: State)
    requires Bijective(s)
    ensures Linked(s)
  {
  }

  lemma EvictSteps(s: State, now: int, maxSize: nat)
    requires Bijective(s)
    ensures if |s.items| > maxSize && s.lru != []
            then Bijective(EvictOne(s, now)) && |EvictOne(s, now).lru| < |s.lru|
                 && EvictSection(s, now, maxSize) == EvictSection(EvictOne(s, now), now, maxSize)
            else EvictSection(s, now, maxSize) == s
  {
    hide EvictOne, RemoveAt;
    if |s.items| > maxSize && s.lru != [] {
      EvictOneKeepsBijective(s, now);
    }
  }

  // ----- all interleavings

  /**
   * One section of some Get or Set. The key removed, the entry touched and the entry aged were
   * looked up earlier: by now the entry may be replaced, removed or evicted, so any are allowed.
   */
  datatype Section =
    | Remove(key: Key)
    | Age(id: Id, elapsed: nat)
    | Touch(id: Id)
    | Set(key: Key, message: Message, now: int, evictNow: int)

  function Run(c: Config, s: State, sections: seq<Section>): State
    requires c.Sound() && Inv(s, c.maxSize)
    ensures Inv(Run(c, s, sections), c.maxSize)
    decreases |sections|
  {
    if sections == [] then s
    else
      SectionKeepsInv(c, s, sections[0]);
      Run(c, ApplySection(c, s, sections[0]), sections[1..])
  }

  function ApplySection(c: Config, s: State, a: Section): State
    requires c.Sound() && Inv(s, c.maxSize)
  {
    match a
    case Remove(key) => RemoveSection(s, key)
    case Age(id, elapsed) => AgeSection(s, id, elapsed)
    case Touch(id) => TouchSection(s, id)
    case Set(key, m, now, evictNow) => SetSection(s, c, key, m, now, evictNow)
  }

  lemma SectionKeepsInv(c: Config, s: State, a: Section)
    requires c.Sound() && Inv(s, c.maxSize)
    ensures Inv(ApplySection(c, s, a), c.maxSize)
  {
    hide RemoveSection, AgeSection, TouchSection, SetSection;
    match a {
      case Remove(key) => UnlinkKeepsBijective(s, key);
      case Age(id, elapsed) => AgeKeepsBijective(s, id, elapsed); AgeKeepsItems(s, id, elapsed);
      case Touch(id) => TouchKeepsBijective(s, id); TouchKeepsItems(s, id);
      case Set(key, m, now, evictNow) => SetKeepsInv(s, c, key, m, now, evictNow);
    }
  }

  lemma AgeKeepsItems(s: State, id: Id, elapsed: nat)
    ensures AgeSection(s, id, elapsed).items == s.items
  {
  }

  lemma TouchKeepsItems(s: State, id: Id)
    ensures TouchSection(s, id).items == s.items
  {
  }

  /**
   * After any interleaving of sections of any Gets and Sets, starting from an empty cache:
   * one list element per map entry, keys matching, and never more than the configured size.
   */
  lemma InterleavingsSafe(c: Config, sections: seq<Section>, key: Key)
    requires c.Sound()
    ensures Inv(Empty, c.maxSize)
    ensures var s := Run(c, Empty, sections);
            && |s.items| == |s.lru| <= c.maxSize
            && (key in s.items ==> s.items[key] in s.lru && s.entries[s.items[key]].key == key)
  {
    hide Run;
    assert Inv(Empty, c.maxSize);
    RunInv(c, Empty, sections);
    SameSize(Run(c, Empty, sections));
  }

  lemma RunInv(c: Config, s: State, sections: seq<Section>)
    requires c.Sound() && Inv(s, c.maxSize)
    ensures Inv(Run(c, s, sections), c.maxSize)
  {
  }
}
