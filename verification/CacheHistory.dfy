/** What a history of Gets and Sets decides: when a Get hits, and which TTLs it returns. */
module CacheHistory {
  import opened Bytes
  import opened CacheModel
  import opened CacheRefinement

  // ----- when a Get hits

  datatype Op =
    | Get(key: Key, now: int)
    | Set(key: Key, message: Message, now: int, evictNow: int)
  {
    function End(): int { if Set? then evictNow else now }

    /** NXDOMAIN responses are not cached. */
    predicate Stores() { Set? && message.rcode != NAME_ERROR }

    function Stored(c: Config): Entry
      requires c.Sound() && Set?
    {
      Entry(key, message, now, now + Lifetime(c, message))
    }
  }

  /** The clock never runs backwards. */
  predicate Clocked(ops: seq<Op>) {
    && (forall i | 0 <= i < |ops| :: ops[i].now <= ops[i].End())
    && (forall i, j | 0 <= i < j < |ops| :: ops[i].End() <= ops[j].now)
  }

  function Step(c: Config, view: View, op: Op): View
    requires c.Sound()
  {
    match op
    case Get(key, now) => ListGet(view, key, now).0
    case Set(key, m, now, evictNow) => ListSet(view, c, key, m, now, evictNow)
  }

  /** The list before operation n, starting empty. */
  function Before(c: Config, ops: seq<Op>, n: nat): View
    requires c.Sound() && n <= |ops|
  {
    if n == 0 then [] else Step(c, Before(c, ops, n - 1), ops[n - 1])
  }

  predicate Hits(c: Config, ops: seq<Op>, n: nat)
    requires c.Sound() && n < |ops| && ops[n].Get?
  {
    ListGet(Before(c, ops, n), ops[n].key, ops[n].now).1.Some?
  }

  /** Operation n made room by evicting the entry of `key`. */
  predicate Evicts(c: Config, ops: seq<Op>, n: nat, key: Key)
    requires c.Sound() && n < |ops|
  {
    ops[n].Stores()
    && Holds(ListInsert(Before(c, ops, n), ops[n].Stored(c)), key).Some?
    && Holds(Before(c, ops, n + 1), key).None?
  }

  /**
   * When the last Set for `key` expires, or None if there was none or its entry was evicted
   * since. Gets do not appear in it at all.
   */
  function Fate(c: Config, ops: seq<Op>, n: nat, key: Key): Option<int>
    requires c.Sound() && n <= |ops|
  {
    if n == 0 then None
    else if Evicts(c, ops, n - 1, key) then None
    else if ops[n - 1].Stores() && ops[n - 1].key == key then Some(ops[n - 1].Stored(c).expiresAt)
    else Fate(c, ops, n - 1, key)
  }

  lemma HoldsGet(view: View, key: Key, now: int, other: Key)
    requires DistinctKeys(view)
    ensures var after := ListGet(view, key, now).0;
            && DistinctKeys(after)
            && (ListGet(view, key, now).1.Some? <==> Holds(view, key).Some? && !Expired(Holds(view, key).value, now))
            && (Holds(after, other).Some? ==>
                  Holds(view, other).Some? && Holds(after, other).value.expiresAt == Holds(view, other).value.expiresAt)
            && (Holds(after, other).None? && Holds(view, other).Some? ==>
                  other == key && Expired(Holds(view, other).value, now))
  {
    hide RemoveAt, AgedMessage, DistinctKeys, ElapsedSeconds;
    match Find(view, key) {
      case None =>
      case Some(i) =>
        HoldsRemoveAt(view, i, other);
        HoldsRemoveAt(view, i, key);
        var e := view[i].(message := AgedMessage(view[i].message, ElapsedSeconds(view[i], now)));
        HoldsCons(e, RemoveAt(view, i), other);
    }
  }

  lemma HoldsSet(view: View, c: Config, op: Op, other: Key)
    requires DistinctKeys(view) && c.Sound() && op.Set?
    ensures var after := Step(c, view, op);
            && DistinctKeys(after)
            && (!op.Stores() ==> after == view)
            && (op.Stores() ==>
                  var inserted := Holds(ListInsert(view, op.Stored(c)), other);
                  && inserted == (if op.key == other then Some(op.Stored(c)) else Holds(view, other))
                  && (Holds(after, other) == inserted || Holds(after, other).None?))
  {
    hide ListInsert, ListEvict, DistinctKeys, Holds, Lifetime;
    if op.Stores() {
      HoldsInsert(view, op.Stored(c), other);
      HoldsEvict(ListInsert(view, op.Stored(c)), op.evictNow, c.maxSize, other);
    }
  }

  /** An entry in the list expires as fated; one that is missing though fated had expired at an earlier Get. */
  ghost predicate FateKept(c: Config, ops: seq<Op>, n: nat, key: Key)
    requires c.Sound() && n <= |ops|
  {
    var held, fate := Holds(Before(c, ops, n), key), Fate(c, ops, n, key);
    && (held.Some? ==> fate == Some(held.value.expiresAt))
    && (held.None? && fate.Some? ==> exists g :: 0 <= g < n && ops[g].Get? && ops[g].now > fate.value)
  }

  lemma {:induction false} FateHolds(c: Config, ops: seq<Op>, n: nat, key: Key)
    requires c.Sound() && n <= |ops|
    ensures DistinctKeys(Before(c, ops, n)) && FateKept(c, ops, n, key)
    decreases n
  {
    hide Holds, DistinctKeys, ListGet, ListSet, ListInsert, Lifetime;
    if n == 0 {
      NothingHeld(key);
    } else {
      FateHolds(c, ops, n - 1, key);
      var view, op := Before(c, ops, n - 1), ops[n - 1];
      match op {
        case Get(k, now) =>
          HoldsGet(view, k, now, key);
        case Set(_, _, _, _) =>
          HoldsSet(view, c, op, key);
      }
    }
  }

  lemma NothingHeld(key: Key)
    ensures Holds([], key).None? && DistinctKeys([])
  {
  }

  /**
   * A Get hits exactly when the last Set for its key has not expired and its entry has not been
   * evicted since. Other Gets and other keys matter only through eviction.
   */
  lemma GetHitsExactly(c: Config, ops: seq<Op>, n: nat)
    requires c.Sound() && Clocked(ops) && n < |ops| && ops[n].Get?
    ensures var fate := Fate(c, ops, n, ops[n].key);
            Hits(c, ops, n) <==> fate.Some? && ops[n].now <= fate.value
  {
    hide Holds, DistinctKeys, ListGet, Before, Fate;
    FateHolds(c, ops, n, ops[n].key);
    HoldsGet(Before(c, ops, n), ops[n].key, ops[n].now, ops[n].key);
  }

  // ----- lifetimes

  const MAX_TTL: nat := 0x1_0000_0000

  lemma MinTtlBounded(rs: seq<Record>, a: nat, b: nat)
    requires rs != [] && b >= MAX_TTL
    ensures MinTtl(rs, a) == Min(a, MinTtl(rs, b)) && MinTtl(rs, b) < MAX_TTL
  {
    if |rs| > 1 {
      MinTtlBounded(rs[1..], Min(a, rs[0].ttl), b);
      MinTtlBounded(rs[1..], Min(b, rs[0].ttl), b);
    } else {
      assert rs[1..] == [];
    }
  }

  /**
   * A cached answer expires no later than its smallest TTL, except in one case: when that TTL,
   * or the configured one, is below a second, the negative TTL is used instead.
   */
  lemma ExpiresWithSmallestTtl(c: Config, m: Message)
    requires c.Sound() && m.answer != []
    ensures var smallest := MinTtl(m.answer, MAX_TTL);
            Lifetime(c, m) <= smallest * SECOND
            <==> (smallest >= 1 && c.ttl >= SECOND) || c.negativeTtl <= smallest * SECOND
    ensures 0 < Lifetime(c, m) <= Max(c.ttl, c.negativeTtl)
  {
    MinTtlBounded(m.answer, c.ttl / SECOND, MAX_TTL);
  }

  // ----- ageing

  lemma AgedTwice(ttl: uint32, a: nat, b: nat)
    ensures Aged(Aged(ttl, a), b) == Aged(ttl, a + b)
  {
  }

  lemma AgedRecordsTwice(rs: seq<Record>, a: nat, b: nat)
    ensures AgedRecords(AgedRecords(rs, a), b) == AgedRecords(rs, a + b)
  {
    var x, y := AgedRecords(AgedRecords(rs, a), b), AgedRecords(rs, a + b);
    forall i | 0 <= i < |rs| ensures x[i] == y[i] {
      AgedTwice(rs[i].ttl, a, b);
    }
  }

  lemma AgedMessageTwice(m: Message, a: nat, b: nat)
    ensures AgedMessage(AgedMessage(m, a), b) == AgedMessage(m, a + b)
  {
    AgedRecordsTwice(m.answer, a, b);
    AgedRecordsTwice(m.ns, a, b);
    AgedRecordsTwice(m.extra, a, b);
  }

  /** No time, no ageing. */
  lemma NotAged(m: Message)
    ensures AgedMessage(m, 0) == m
  {
    assert AgedRecords(m.answer, 0) == m.answer;
    assert AgedRecords(m.ns, 0) == m.ns;
    assert AgedRecords(m.extra, 0) == m.extra;
  }
}
