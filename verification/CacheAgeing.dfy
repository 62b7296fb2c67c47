/** In every history: which TTLs a hit returns, and how long an answer can be hit at all. */
module CacheAgeing {
  import opened Bytes
  import opened CacheModel
  import opened CacheRefinement
  import opened CacheHistory

  /** The last operation before n that stored something under the key. */
  function LastSet(ops: seq<Op>, n: nat, key: Key): (r: Option<nat>)
    requires n <= |ops|
    ensures r.Some? ==> r.value < n && ops[r.value].Stores() && ops[r.value].key == key
    ensures forall i | (if r.Some? then r.value + 1 else 0) <= i < n :: !(ops[i].Stores() && ops[i].key == key)
  {
    if n == 0 then None
    else if ops[n - 1].Stores() && ops[n - 1].key == key then Some(n - 1)
    else LastSet(ops, n - 1, key)
  }

  /** Whole seconds from one time to another, none if the second comes first. */
  function Seconds(since: int, now: int): nat { if now < since then 0 else (now - since) / SECOND }

  /** The seconds since the last Set of the key, summed over the hits of the key after that Set and before n. */
  function Spent(c: Config, ops: seq<Op>, n: nat, key: Key): nat
    requires c.Sound() && n <= |ops|
  {
    match LastSet(ops, n, key)
    case None => 0
    case Some(s) => SpentSince(c, ops, n, key, s)
  }

  function SpentSince(c: Config, ops: seq<Op>, n: nat, key: Key, s: nat): nat
    requires c.Sound() && s < n <= |ops|
    decreases n
  {
    if n == s + 1 then 0
    else
      SpentSince(c, ops, n - 1, key, s)
      + if IsHit(c, ops, n - 1, key) then Seconds(ops[s].now, ops[n - 1].now) else 0
  }

  predicate IsHit(c: Config, ops: seq<Op>, n: nat, key: Key)
    requires c.Sound() && n < |ops|
  {
    ops[n].Get? && ops[n].key == key && Hits(c, ops, n)
  }

  function Returned(c: Config, ops: seq<Op>, n: nat): Option<Message>
    requires c.Sound() && n < |ops| && ops[n].Get?
  {
    ListGet(Before(c, ops, n), ops[n].key, ops[n].now).1
  }

  // ----- what the list holds

  /** An entry is what was stored last, aged by the seconds spent on it. */
  predicate AgedFrom(c: Config, ops: seq<Op>, e: Entry, last: Option<nat>, spent: nat)
    requires c.Sound()
  {
    last.Some? && last.value < |ops| && ops[last.value].Set?
    && e == ops[last.value].Stored(c).(message := AgedMessage(ops[last.value].message, spent))
  }

  predicate HeldAged(c: Config, ops: seq<Op>, n: nat, key: Key)
    requires c.Sound() && n <= |ops|
  {
    var held := Holds(Before(c, ops, n), key);
    held.Some? ==> AgedFrom(c, ops, held.value, LastSet(ops, n, key), Spent(c, ops, n, key))
  }

  lemma AgedOnceMore(c: Config, ops: seq<Op>, e: Entry, last: Option<nat>, spent: nat, now: int)
    requires c.Sound() && AgedFrom(c, ops, e, last, spent)
    ensures AgedFrom(c, ops, e.(message := AgedMessage(e.message, ElapsedSeconds(e, now))), last,
                     spent + Seconds(ops[last.value].now, now))
  {
    hide AgedMessage, Seconds, ElapsedSeconds, Lifetime;
    SameSeconds(e, now);
    AgedMessageTwice(ops[last.value].message, spent, ElapsedSeconds(e, now));
  }

  /** A Get ages what it hits and changes no other entry. */
  lemma GetHolds(view: View, key: Key, now: int, other: Key)
    requires DistinctKeys(view)
    ensures var (after, hit) := ListGet(view, key, now);
            var held := Holds(view, key);
            && (hit.Some? <==> held.Some? && !Expired(held.value, now))
            && (hit.Some? ==> hit.value == AgedMessage(held.value.message, ElapsedSeconds(held.value, now)))
            && (Holds(after, other).Some? ==>
                  if other == key then hit.Some? && Holds(after, other) == Some(held.value.(message := hit.value))
                  else Holds(after, other) == Holds(view, other))
  {
    hide RemoveAt, AgedMessage, DistinctKeys, ElapsedSeconds;
    match Find(view, key) {
      case None =>
      case Some(i) =>
        HoldsRemoveAt(view, i, other);
        HoldsRemoveAt(view, i, key);
        var e := view[i].(message := AgedMessage(view[i].message, ElapsedSeconds(view[i], now)));
        HoldsCons(e, RemoveAt(view, i), other);
    }
  }

  lemma SpentIs(c: Config, ops: seq<Op>, n: nat, key: Key)
    requires c.Sound() && 0 < n <= |ops|
    ensures var op := ops[n - 1];
            if op.Stores() && op.key == key then LastSet(ops, n, key) == Some(n - 1) && Spent(c, ops, n, key) == 0
            else
              && LastSet(ops, n, key) == LastSet(ops, n - 1, key)
              && Spent(c, ops, n, key)
                 == Spent(c, ops, n - 1, key)
                    + if LastSet(ops, n, key).Some? && IsHit(c, ops, n - 1, key)
                      then Seconds(ops[LastSet(ops, n, key).value].now, op.now) else 0
  {
    hide IsHit, Seconds;
  }

  lemma {:induction false} HeldIsAged(c: Config, ops: seq<Op>, n: nat, key: Key)
    requires c.Sound() && n <= |ops|
    ensures DistinctKeys(Before(c, ops, n)) && HeldAged(c, ops, n, key)
    decreases n
  {
    hide *;
    FateHolds(c, ops, n, key);
    if n == 0 {
      NothingHeldYet(c, ops, key);
    } else {
      HeldIsAged(c, ops, n - 1, key);
      if ops[n - 1].Get? {
        GetAges(c, ops, n, key);
      } else {
        SetAges(c, ops, n, key);
      }
    }
  }

  lemma NothingHeldYet(c: Config, ops: seq<Op>, key: Key)
    requires c.Sound()
    ensures HeldAged(c, ops, 0, key)
  {
    NothingHeld(key);
  }

  lemma HeldAgedIs(c: Config, ops: seq<Op>, n: nat, key: Key)
    requires c.Sound() && n <= |ops|
    ensures var held := Holds(Before(c, ops, n), key);
            HeldAged(c, ops, n, key) <==>
              (held.Some? ==> AgedFrom(c, ops, held.value, LastSet(ops, n, key), Spent(c, ops, n, key)))
  {
    hide Before, Holds, LastSet, Spent, AgedFrom;
  }

  lemma StoredFresh(c: Config, ops: seq<Op>, n: nat)
    requires c.Sound() && n < |ops| && ops[n].Set?
    ensures AgedFrom(c, ops, ops[n].Stored(c), Some(n), 0)
  {
    hide AgedMessage, Lifetime;
    NotAged(ops[n].message);
  }

  lemma SetAges(c: Config, ops: seq<Op>, n: nat, key: Key)
    requires c.Sound() && 0 < n <= |ops| && ops[n - 1].Set?
    requires DistinctKeys(Before(c, ops, n - 1)) && HeldAged(c, ops, n - 1, key)
    ensures HeldAged(c, ops, n, key)
  {
    hide *;
    HeldAgedIs(c, ops, n - 1, key);
    HeldAgedIs(c, ops, n, key);
    SpentIs(c, ops, n, key);
    SetStepIs(c, ops, n, key);
    HoldsSet(Before(c, ops, n - 1), c, ops[n - 1], key);
    StoredFresh(c, ops, n - 1);
  }

  lemma SetStepIs(c: Config, ops: seq<Op>, n: nat, key: Key)
    requires c.Sound() && 0 < n <= |ops| && ops[n - 1].Set?
    ensures Before(c, ops, n) == Step(c, Before(c, ops, n - 1), ops[n - 1]) && !IsHit(c, ops, n - 1, key)
  {
    hide Step;
  }

  lemma GetAges(c: Config, ops: seq<Op>, n: nat, key: Key)
    requires c.Sound() && 0 < n <= |ops| && ops[n - 1].Get?
    requires DistinctKeys(Before(c, ops, n - 1)) && HeldAged(c, ops, n - 1, key)
    ensures HeldAged(c, ops, n, key)
  {
    hide *;
    var view, op := Before(c, ops, n - 1), ops[n - 1];
    HeldAgedIs(c, ops, n - 1, key);
    HeldAgedIs(c, ops, n, key);
    SpentIs(c, ops, n, key);
    GetStepIs(c, ops, n, key);
    GetHolds(view, op.key, op.now, key);
    var held, after := Holds(view, key), Holds(Before(c, ops, n), key);
    if after.Some? && op.key == key {
      LastIs(c, ops, held.value, LastSet(ops, n, key), Spent(c, ops, n - 1, key));
      AgedOnceMore(c, ops, held.value, LastSet(ops, n, key), Spent(c, ops, n - 1, key), op.now);
    }
  }

  lemma LastIs(c: Config, ops: seq<Op>, e: Entry, last: Option<nat>, spent: nat)
    requires c.Sound() && AgedFrom(c, ops, e, last, spent)
    ensures last.Some? && last.value < |ops|
  {
  }

  lemma GetStepIs(c: Config, ops: seq<Op>, n: nat, key: Key)
    requires c.Sound() && 0 < n <= |ops| && ops[n - 1].Get?
    ensures var op := ops[n - 1];
            var (after, hit) := ListGet(Before(c, ops, n - 1), op.key, op.now);
            && !op.Stores() && Before(c, ops, n) == after
            && (IsHit(c, ops, n - 1, key) <==> op.key == key && hit.Some?)
  {
    hide ListGet;
  }

  // ----- what a hit returns

  /**
   * In every history, a hit returns the message last stored under its key, aged by the seconds
   * since that Set once for this hit and once more for each earlier hit since.
   */
  lemma HitsAddUp(c: Config, ops: seq<Op>, n: nat)
    requires c.Sound() && n < |ops| && ops[n].Get? && Hits(c, ops, n)
    ensures var key := ops[n].key;
            var s := LastSet(ops, n, key);
            && s.Some?
            && Returned(c, ops, n) == Some(AgedMessage(ops[s.value].message,
                                                       Spent(c, ops, n, key) + Seconds(ops[s.value].now, ops[n].now)))
            && ops[n].now <= ops[s.value].now + Lifetime(c, ops[s.value].message)
  {
    hide *;
    var key := ops[n].key;
    HeldIsAged(c, ops, n, key);
    var e, s := HitEntry(c, ops, n);
    AgedMessageTwice(ops[s].message, Spent(c, ops, n, key), Seconds(ops[s].now, ops[n].now));
  }

  /** The entry that is hit, and the Set that stored it. */
  lemma HitEntry(c: Config, ops: seq<Op>, n: nat) returns (e: Entry, s: nat)
    requires c.Sound() && n < |ops| && ops[n].Get? && Hits(c, ops, n)
    requires DistinctKeys(Before(c, ops, n)) && HeldAged(c, ops, n, ops[n].key)
    ensures LastSet(ops, n, ops[n].key) == Some(s) && ops[s].Set? && ops[s].Stores()
    ensures e.message == AgedMessage(ops[s].message, Spent(c, ops, n, ops[n].key))
    ensures Returned(c, ops, n) == Some(AgedMessage(e.message, Seconds(ops[s].now, ops[n].now)))
    ensures ops[n].now <= ops[s].now + Lifetime(c, ops[s].message)
  {
    var view, key := Before(c, ops, n), ops[n].key;
    GetHolds(view, key, ops[n].now, key);
    hide Before, Holds, LastSet, Spent, DistinctKeys, ListGet, Lifetime, AgedMessage, Seconds, ElapsedSeconds;
    e := Holds(view, key).value;
    s := LastSet(ops, n, key).value;
    SameSeconds(e, ops[n].now);
  }

  lemma SameSeconds(e: Entry, now: int)
    ensures ElapsedSeconds(e, now) == Seconds(e.storedAt, now)
  {
  }

  /** A returned section: the stored records, no TTL above its due, and exactly due under one condition. */
  predicate WithinDue(returned: seq<Record>, stored: seq<Record>, earlier: nat, elapsed: nat) {
    |returned| == |stored| &&
    forall i | 0 <= i < |stored| ::
      && returned[i] == stored[i].(ttl := returned[i].ttl)
      && returned[i].ttl <= Max(0, stored[i].ttl - elapsed)
      && (returned[i].ttl == Max(0, stored[i].ttl - elapsed) <==> earlier == 0 || stored[i].ttl <= elapsed)
  }

  lemma AgedWithinDue(stored: seq<Record>, earlier: nat, elapsed: nat)
    ensures WithinDue(AgedRecords(stored, earlier + elapsed), stored, earlier, elapsed)
  {
  }

  /**
   * In every history, no TTL that a hit returns is above the stored one less the whole seconds
   * since the last Set, or zero; and it is exactly that if and only if the earlier hits since
   * that Set add up to less than a second, or it has run out.
   */
  lemma ReturnedTtl(c: Config, ops: seq<Op>, n: nat)
    requires c.Sound() && n < |ops| && ops[n].Get? && Hits(c, ops, n)
    ensures var key := ops[n].key;
            var s, r := LastSet(ops, n, key), Returned(c, ops, n);
            && s.Some? && r.Some?
            && var m, earlier, elapsed := ops[s.value].message, Spent(c, ops, n, key), Seconds(ops[s.value].now, ops[n].now);
               && r.value.rcode == m.rcode && r.value.authoritative == m.authoritative
               && WithinDue(r.value.answer, m.answer, earlier, elapsed)
               && WithinDue(r.value.ns, m.ns, earlier, elapsed)
               && WithinDue(r.value.extra, m.extra, earlier, elapsed)
  {
    hide Hits, LastSet, Spent, Returned, AgedRecords, WithinDue;
    HitsAddUp(c, ops, n);
    var s := LastSet(ops, n, ops[n].key).value;
    var m, earlier, elapsed := ops[s].message, Spent(c, ops, n, ops[n].key), Seconds(ops[s].now, ops[n].now);
    AgedWithinDue(m.answer, earlier, elapsed);
    AgedWithinDue(m.ns, earlier, elapsed);
    AgedWithinDue(m.extra, earlier, elapsed);
  }

  /** Stored with a TTL of 100 seconds, hit after 10 and after 20 seconds: the second hit says 70, not 80. */
  lemma AgedTooFast()
    ensures var m := Message(0, false, [Record([], 1, 100, [])], [], []);
            var c := Config(300 * SECOND, 30 * SECOND, 2048);
            var ops := [Set([], m, 0, 0), Get([], 10 * SECOND), Get([], 20 * SECOND)];
            && c.Sound() && Clocked(ops) && Hits(c, ops, 2)
            && Returned(c, ops, 2).value.answer == [Record([], 1, 70, [])]
  {
    var m := Message(0, false, [Record([], 1, 100, [])], [], []);
    var c := Config(300 * SECOND, 30 * SECOND, 2048);
    var ops := [Set([], m, 0, 0), Get([], 10 * SECOND), Get([], 20 * SECOND)];
    var e := Entry([], m, 0, 100 * SECOND);
    LifetimeOf100(c, m);
    hide Lifetime, AgedMessage, ElapsedSeconds;
    assert Before(c, ops, 0) == [];
    assert ListInsert([], e) == [e] && ListEvict([e], 0, c.maxSize) == [e];
    assert Before(c, ops, 1) == [e];
    var aged := e.(message := AgedMessage(m, ElapsedSeconds(e, 10 * SECOND)));
    assert Before(c, ops, 2) == [aged];
    SameSeconds(e, 10 * SECOND);
    SameSeconds(aged, 20 * SECOND);
    AgedMessageTwice(m, 10, 20);
    AgedBy30(m);
  }

  lemma LifetimeOf100(c: Config, m: Message)
    requires c.Sound() && c.ttl == 300 * SECOND && m.answer == [Record([], 1, 100, [])]
    ensures Lifetime(c, m) == 100 * SECOND
  {
    assert MinTtl(m.answer[1..], 100) == 100;
  }

  lemma AgedBy30(m: Message)
    requires m.answer == [Record([], 1, 100, [])]
    ensures AgedMessage(m, 30).answer == [Record([], 1, 70, [])]
  {
  }

  // ----- how long an answer is hit

  /** The smallest TTL and the configured one reach a second, or the negative TTL is short enough. */
  predicate SmallestTtlRules(c: Config, m: Message) {
    var smallest := MinTtl(m.answer, MAX_TTL);
    (smallest >= 1 && c.ttl >= SECOND) || c.negativeTtl <= smallest * SECOND
  }

  /** No hit of what was stored as `m`, in any history, comes later than its smallest answer TTL allows. */
  ghost predicate NeverHitLate(c: Config, m: Message)
    requires c.Sound()
  {
    forall ops: seq<Op>, n: nat | n < |ops| && ops[n].Get? && Hits(c, ops, n) && StoredAs(ops, n, m) ::
      ops[n].now <= ops[LastSet(ops, n, ops[n].key).value].now + MinTtl(m.answer, MAX_TTL) * SECOND
  }

  predicate StoredAs(ops: seq<Op>, n: nat, m: Message)
    requires n < |ops|
  {
    var s := LastSet(ops, n, ops[n].key);
    s.Some? && ops[s.value].message == m
  }

  /** Exactly the answers whose smallest TTL rules their lifetime are never hit after it has run out. */
  lemma NeverHitLateExactly(c: Config, m: Message)
    requires c.Sound() && m.answer != [] && m.rcode != NAME_ERROR
    ensures NeverHitLate(c, m) <==> SmallestTtlRules(c, m)
  {
    ExpiresWithSmallestTtl(c, m);
    hide LastSet, Hits, Lifetime, MinTtl;
    if SmallestTtlRules(c, m) {
      forall ops: seq<Op>, n: nat | n < |ops| && ops[n].Get? && Hits(c, ops, n) && StoredAs(ops, n, m)
        ensures ops[n].now <= ops[LastSet(ops, n, ops[n].key).value].now + MinTtl(m.answer, MAX_TTL) * SECOND
      {
        HitsAddUp(c, ops, n);
      }
    } else {
      var ops := LateHit(c, m);
      HitsAtExpiry(c, m);
      assert !NeverHitLate(c, m);
    }
  }

  /** Store, and ask again at the last moment. */
  function LateHit(c: Config, m: Message): (ops: seq<Op>)
    requires c.Sound()
    ensures |ops| == 2
  {
    [Set([], m, 0, 0), Get([], Lifetime(c, m))]
  }

  lemma HitsAtExpiry(c: Config, m: Message)
    requires c.Sound() && m.rcode != NAME_ERROR
    ensures var ops := LateHit(c, m);
            && ops[1].Get? && Clocked(ops) && Hits(c, ops, 1)
            && LastSet(ops, 1, []) == Some(0) && StoredAs(ops, 1, m)
  {
    var ops, e := LateHit(c, m), Entry([], m, 0, Lifetime(c, m));
    LifetimePositive(c, m);
    hide Lifetime, AgedMessage;
    assert Before(c, ops, 0) == [];
    assert ListInsert([], e) == [e];
    assert ListEvict([e], 0, c.maxSize) == [e];
    assert Before(c, ops, 1) == [e];
  }

  lemma LifetimePositive(c: Config, m: Message)
    requires c.Sound()
    ensures Lifetime(c, m) > 0
  {
    if m.answer != [] {
      ExpiresWithSmallestTtl(c, m);
    }
  }
}
