/**
 * The response cache as data: a map from keys to entries, a list of the same entries in
 * recency order, and what each separately locked section does to them. Entries are named
 * by the order of their creation, so a reference may outlive its entry.
 */
module CacheModel {
  import opened Bytes

  const SECOND: int := 1_000_000_000  // times are in nanoseconds
  const NAME_ERROR: nat := 3

  type Key = bytes
  type Id = nat

  datatype Record = Record(owner: bytes, rrtype: nat, ttl: uint32, data: bytes)
  datatype Message = Message(rcode: nat, authoritative: bool,
                             answer: seq<Record>, ns: seq<Record>, extra: seq<Record>)
  datatype Entry = Entry(key: Key, message: Message, storedAt: int, expiresAt: int)

  datatype Config = Config(ttl: int, negativeTtl: int, maxSize: nat) {
    predicate Sound() { 0 < ttl < 0x1_0000_0000 * SECOND && 0 < negativeTtl && 0 < maxSize }
  }

  /** Non-positive settings are replaced by the defaults. */
  function NewConfig(size: int, ttl: int, negativeTtl: int): (c: Config)
    ensures ttl < 0x1_0000_0000 * SECOND ==> c.Sound()
  {
    Config(if ttl <= 0 then 300 * SECOND else ttl, if negativeTtl <= 0 then 30 * SECOND else negativeTtl,
           if size <= 0 then 2048 else size)
  }

  datatype State = State(items: map<Key, Id>, lru: seq<Id>, entries: seq<Entry>)

  const Empty: State := State(map[], [], [])

  // ----- sequences

  function RemoveAt<T>(s: seq<T>, i: nat): (r: seq<T>)
    requires i < |s|
    ensures |r| == |s| - 1
    ensures forall j | 0 <= j < |r| :: r[j] == s[if j < i then j else j + 1]
  {
    s[..i] + s[i + 1..]
  }

  /** list.Remove and list.MoveToFront do nothing for an element that is no longer in the list. */
  function Unlink(lru: seq<Id>, id: Id): seq<Id> {
    if id in lru then RemoveAt(lru, IndexOf(lru, id)) else lru
  }

  function MoveToFront(lru: seq<Id>, id: Id): seq<Id> {
    if id in lru then [id] + Unlink(lru, id) else lru
  }

  // ----- ageing and lifetimes

  function Aged(ttl: uint32, elapsed: nat): uint32 {
    if ttl <= elapsed then 0 else ttl - elapsed
  }

  function AgedRecords(rs: seq<Record>, elapsed: nat): (aged: seq<Record>)
    ensures |aged| == |rs|
    ensures forall i | 0 <= i < |rs| :: aged[i] == rs[i].(ttl := Aged(rs[i].ttl, elapsed))
  {
    if rs == [] then [] else [rs[0].(ttl := Aged(rs[0].ttl, elapsed))] + AgedRecords(rs[1..], elapsed)
  }

  /** The stored message itself is aged; `storedAt` stays. */
  function AgedMessage(m: Message, elapsed: nat): Message {
    Message(m.rcode, m.authoritative,
            AgedRecords(m.answer, elapsed), AgedRecords(m.ns, elapsed), AgedRecords(m.extra, elapsed))
  }

  function ElapsedSeconds(e: Entry, now: int): nat {
    if now < e.storedAt then 0 else (now - e.storedAt) / SECOND
  }

  function MinTtl(rs: seq<Record>, bound: nat): (m: nat)
    ensures m <= bound && (forall r <- rs :: m <= r.ttl) && (m == bound || exists r <- rs :: m == r.ttl)
  {
    if rs == [] then bound
    else MinTtl(rs[1..], Min(bound, rs[0].ttl))
  }

  /** How long Set keeps a message: whole seconds of the smallest answer TTL, capped, never zero. */
  function Lifetime(c: Config, m: Message): int
    requires c.Sound()
  {
    var computed :=
      if m.answer == [] then c.negativeTtl
      else
        var minimum := MinTtl(m.answer, c.ttl / SECOND);
        if minimum * SECOND < c.ttl then minimum * SECOND else c.ttl;
    if computed <= 0 then c.negativeTtl else computed
  }

  // ----- the locked sections

  predicate Expired(e: Entry, now: int) { now > e.expiresAt }

  function EntryOf(s: State, key: Key): Option<Id> {
    if key in s.items then Some(s.items[key]) else None
  }

  function Without<K, V>(m: map<K, V>, key: K): map<K, V> { map k | k in m && k != key :: m[k] }

  function RemoveSection(s: State, key: Key): State {
    if key in s.items then s.(lru := Unlink(s.lru, s.items[key]), items := Without(s.items, key)) else s
  }

  function TouchSection(s: State, id: Id): State { s.(lru := MoveToFront(s.lru, id)) }

  function AgeSection(s: State, id: Id, elapsed: nat): State {
    if id < |s.entries|
    then s.(entries := s.entries[id := s.entries[id].(message := AgedMessage(s.entries[id].message, elapsed))])
    else s
  }

  function InsertSection(s: State, e: Entry): State {
    var id := |s.entries|;
    var lru := if e.key in s.items then Unlink(s.lru, s.items[e.key]) else s.lru;
    State(s.items[e.key := id], [id] + lru, s.entries + [e])
  }

  /** The list as the entries themselves, most recently used first. */
  function Listed(lru: seq<Id>, entries: seq<Entry>): (view: seq<Entry>)
    requires forall i | 0 <= i < |lru| :: lru[i] < |entries|
    ensures |view| == |lru| && forall i | 0 <= i < |lru| :: view[i] == entries[lru[i]]
  {
    if lru == [] then [] else [entries[lru[0]]] + Listed(lru[1..], entries)
  }

  /** The expired entry nearest the back among the first `n`. */
  function LastExpired(view: seq<Entry>, n: nat, now: int): (r: Option<nat>)
    requires n <= |view|
    ensures r.Some? ==> r.value < n && Expired(view[r.value], now)
                        && forall j | r.value < j < n :: !Expired(view[j], now)
    ensures r.None? ==> forall j | 0 <= j < n :: !Expired(view[j], now)
  {
    if n == 0 then None
    else if Expired(view[n - 1], now) then Some(n - 1)
    else LastExpired(view, n - 1, now)
  }

  /** Which place of the list is evicted. */
  function Victim(view: seq<Entry>, now: int): (i: nat)
    requires view != []
    ensures i < |view|
  {
    match LastExpired(view, |view|, now)
    case Some(i) => i
    case None => |view| - 1
  }

  /** The expired place with no expired one behind it, or else the last place. */
  lemma VictimIs(view: seq<Entry>, now: int, i: nat)
    requires i < |view|
    ensures Victim(view, now) == i <==>
              if exists j | 0 <= j < |view| :: Expired(view[j], now)
              then Expired(view[i], now) && forall j | i < j < |view| :: !Expired(view[j], now)
              else i == |view| - 1
  {
    var r := LastExpired(view, |view|, now);
    hide LastExpired, Expired;
    LastExpiredIs(view, now);
  }

  lemma LastExpiredIs(view: seq<Entry>, now: int)
    ensures match LastExpired(view, |view|, now)
            case Some(i) => i < |view| && Expired(view[i], now) && forall j | i < j < |view| :: !Expired(view[j], now)
            case None => forall j | 0 <= j < |view| :: !Expired(view[j], now)
  {
    hide Expired;
  }

  predicate Linked(s: State) { forall i | 0 <= i < |s.lru| :: s.lru[i] < |s.entries| }

  function EvictOne(s: State, now: int): State
    requires Linked(s) && s.lru != []
  {
    var i := Victim(Listed(s.lru, s.entries), now);
    s.(lru := RemoveAt(s.lru, i), items := Without(s.items, s.entries[s.lru[i]].key))
  }

  function EvictSection(s: State, now: int, maxSize: nat): State
    requires Linked(s)
    decreases |s.lru|
  {
    if |s.items| > maxSize && s.lru != [] then EvictSection(EvictOne(s, now), now, maxSize) else s
  }

  /** Set is one locked section; eviction reads the clock again, later than the entry's own time. */
  function SetSection(s: State, c: Config, key: Key, m: Message, now: int, evictNow: int): State
    requires c.Sound() && Linked(s)
  {
    if m.rcode == NAME_ERROR then s
    else
      InsertLinked(s, Entry(key, m, now, now + Lifetime(c, m)));
      EvictSection(InsertSection(s, Entry(key, m, now, now + Lifetime(c, m))), evictNow, c.maxSize)
  }

  lemma InsertLinked(s: State, e: Entry)
    requires Linked(s)
    ensures Linked(InsertSection(s, e))
  {
  }

  /** Get with nothing in between its sections. */
  function GetState(s: State, key: Key, now: int): State
    requires Linked(s)
  {
    match EntryOf(s, key)
    case None => s
    case Some(id) =>
      if id >= |s.entries| then s
      else if Expired(s.entries[id], now) then RemoveSection(s, key)
      else TouchSection(AgeSection(s, id, ElapsedSeconds(s.entries[id], now)), id)
  }

  function GetResult(s: State, key: Key, now: int): Option<Message> {
    match EntryOf(s, key)
    case None => None
    case Some(id) =>
      if id >= |s.entries| || Expired(s.entries[id], now) then None
      else Some(AgedMessage(s.entries[id].message, ElapsedSeconds(s.entries[id], now)))
  }

  // ----- the invariant of every interleaving

  /** Map entries and list elements correspond one to one, and their keys match. */
  predicate Bijective(s: State) {
    && Linked(s) && Distinct(s.lru)
    && (forall i | 0 <= i < |s.lru| ::
          s.entries[s.lru[i]].key in s.items && s.items[s.entries[s.lru[i]].key] == s.lru[i])
    && (forall k <- s.items :: s.items[k] in s.lru && s.items[k] < |s.entries| && s.entries[s.items[k]].key == k)
  }

  predicate Inv(s: State, maxSize: nat) { Bijective(s) && |s.items| <= maxSize }

  /** Corresponding one to one, map and list have the same size. */
  lemma {:induction false} SameSize(s: State)
    requires Bijective(s)
    ensures |s.items| == |s.lru|
    decreases |s.lru|
  {
    if s.lru == [] {
      assert s.items == map[];
    } else {
      var n := |s.lru| - 1;
      var key := s.entries[s.lru[n]].key;
      DropKeepsBijective(s, n);
      assert RemoveAt(s.lru, n) == s.lru[..n];
      SameSize(s.(lru := RemoveAt(s.lru, n), items := Without(s.items, key)));
      WithoutSize(s.items, key);
    }
  }

  lemma WithoutSize<K, V>(m: map<K, V>, key: K)
    ensures |Without(m, key)| == if key in m then |m| - 1 else |m|
  {
    assert Without(m, key).Keys == m.Keys - {key};
    assert |Without(m, key)| == |Without(m, key).Keys|;
  }

  lemma RemoveAtMembers(ids: seq<Id>, i: nat)
    requires i < |ids| && Distinct(ids)
    ensures Distinct(RemoveAt(ids, i))
    ensures forall id :: id in RemoveAt(ids, i) <==> id in ids && id != ids[i]
  {
    var r := RemoveAt(ids, i);
    forall id | id in ids && id != ids[i] ensures id in r {
      var j := IndexOf(ids, id);
      assert r[if j < i then j else j - 1] == id;
    }
  }

  /** Bijective, in terms of membership only. */
  lemma BijectiveMembers(s: State)
    requires Distinct(s.lru)
    ensures Bijective(s) <==>
              && (forall id <- s.lru :: id < |s.entries| && s.entries[id].key in s.items
                                        && s.items[s.entries[id].key] == id)
              && (forall k <- s.items :: s.items[k] in s.lru && s.items[k] < |s.entries|
                                         && s.entries[s.items[k]].key == k)
  {
    hide Distinct;
    if forall id <- s.lru :: id < |s.entries| && s.entries[id].key in s.items && s.items[s.entries[id].key] == id {
      forall i | 0 <= i < |s.lru|
        ensures s.lru[i] < |s.entries| && s.entries[s.lru[i]].key in s.items
                && s.items[s.entries[s.lru[i]].key] == s.lru[i]
      {
        assert s.lru[i] in s.lru;
      }
    }
  }

  lemma DropKeepsBijective(s: State, i: nat)
    requires Bijective(s) && i < |s.lru|
    ensures Bijective(s.(lru := RemoveAt(s.lru, i), items := Without(s.items, s.entries[s.lru[i]].key)))
  {
    var s' := s.(lru := RemoveAt(s.lru, i), items := Without(s.items, s.entries[s.lru[i]].key));
    RemoveAtMembers(s.lru, i);
    BijectiveMembers(s);
    BijectiveMembers(s');
    hide RemoveAt, Bijective, Distinct;
  }
}
