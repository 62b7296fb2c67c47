/** What a resolver's cache makes of earlier answers, over whole runs. */
module ResolverReuse {
  import opened Bytes
  import opened Text
  import opened CacheModel
  import opened Records
  import opened CacheRefinement
  import opened Resolver
  import CacheHistory
  import CacheAgeing
  import CacheRecency
  import QueryCodec

  // ----- asked once, answered from the cache

  predicate CacheShaped(v: Server, cache: View) { DistinctKeys(cache) && |cache| <= v.config.maxSize }

  lemma GetShape(v: Server, s: History, q: Question, now: int)
    requires v.config.Sound() && CacheShaped(v, s.cache)
    ensures CacheShaped(v, CacheGet(v, s, q, now).0)
  {
    hide ListGet, DistinctKeys, CacheKey;
    if v.caching {
      CacheHistory.HoldsGet(s.cache, CacheKey(v.tables, q), now, []);
      CacheRecency.GetSize(s.cache, CacheKey(v.tables, q), now);
    }
  }

  lemma SetShape(v: Server, s: History, q: Question, m: Message, w: Moment)
    requires v.Sound() && CacheShaped(v, s.cache)
    ensures CacheShaped(v, CacheSet(v, s, q, m, w).cache)
  {
    hide ListSet, DistinctKeys, CacheKey;
    if v.caching {
      var key := CacheKey(v.tables, q);
      CacheHistory.HoldsSet(s.cache, v.config, CacheHistory.Set(key, m, w.now, w.evictNow), []);
      CacheRecency.SetSize(s.cache, v.config, key, m, w.now, w.evictNow);
    }
  }

  lemma ResolveShape(v: Server, s: History, q: Query, w: Moment)
    requires v.Sound() && CacheShaped(v, s.cache)
    ensures CacheShaped(v, Resolve(v, s, q, w).0.cache)
  {
    hide CacheShaped, CacheGet, CacheSet, Lookup, Delivered;
    if q.question.Some? {
      var question := q.question.value;
      GetShape(v, s, question, w.now);
      var s1 := s.(cache := CacheGet(v, s, question, w.now).0);
      match Lookup(v.store, question) {
        case Some(records) =>
          SetShape(v, s1, question, OwnAnswer(records), w);
        case None =>
          AskedAndCached(v, s1, q, w);
          if FinalAnswer(w).Reply? {
            SetShape(v, s1, question, Delivered(q, FinalAnswer(w).message), w);
          }
          hide AskUpstream;
      }
    }
  }

  lemma {:induction false} RunShape(v: Server, steps: seq<(Query, Moment)>)
    requires v.Sound()
    ensures CacheShaped(v, Run(v, steps).cache)
  {
    hide Resolve, CacheShaped;
    if steps == [] {
      assert CacheShaped(v, Start.cache) by { EmptyShape(v); }
    } else {
      RunShape(v, steps[..|steps| - 1]);
      ResolveShape(v, Run(v, steps[..|steps| - 1]), steps[|steps| - 1].0, steps[|steps| - 1].1);
    }
  }

  lemma EmptyShape(v: Server)
    ensures CacheShaped(v, [])
  {
  }

  /** A stored message is found under every question with its key until it expires. */
  lemma StoredIsFound(v: Server, s: History, q: Question, m: Message, w: Moment, p: Question, now: int)
    requires v.Sound() && v.caching && CacheShaped(v, s.cache) && m.rcode != NAME_ERROR
    requires CacheKey(v.tables, p) == CacheKey(v.tables, q)
    requires w.evictNow <= w.now + Lifetime(v.config, m) && now <= w.now + Lifetime(v.config, m)
    ensures CacheGet(v, CacheSet(v, s, q, m, w), p, now).1
            == Some(AgedMessage(m, CacheAgeing.Seconds(w.now, now)))
  {
    var key := CacheKey(v.tables, q);
    var op := CacheHistory.Set(key, m, w.now, w.evictNow);
    var view := ListSet(s.cache, v.config, key, m, w.now, w.evictNow);
    CacheHistory.HoldsSet(s.cache, v.config, op, key);
    ListKeepsStored(s.cache, v.config, key, m, w.now, w.evictNow);
    CacheAgeing.GetHolds(view, key, now, key);
    CacheAgeing.SameSeconds(op.Stored(v.config), now);
    hide CacheKey, DistinctKeys, ListGet, ListSet, ListInsert, Drop, Lifetime, Find, AgedMessage, ElapsedSeconds,
         CacheAgeing.Seconds, SomeListedExpired;
  }

  /** The resolution gives the store's answer or a whole one of an upstream, and not out of the cache. */
  predicate Obtains(v: Server, s: History, q: Query, w: Moment) {
    q.question.Some? && CacheGet(v, s, q.question.value, w.now).1.None?
    && (Lookup(v.store, q.question.value).Some?
        || (w.hasUpstreams && FinalAnswer(w).Reply? && !FinalAnswer(w).truncated))
  }

  /**
   * In every run: what a resolution obtains, unless it is NXDOMAIN, answers every question with the
   * same cache key until it expires, aged and without asking upstream again.
   */
  lemma AnsweredAgain(v: Server, steps: seq<(Query, Moment)>, q: Query, w: Moment, p: Query, w': Moment)
    requires v.Sound() && v.caching && Obtains(v, Run(v, steps), q, w) && p.question.Some?
    requires CacheKey(v.tables, p.question.value) == CacheKey(v.tables, q.question.value)
    ensures var (s1, m) := Resolve(v, Run(v, steps), q, w);
            var expiry := w.now + Lifetime(v.config, m);
            m.rcode != NAME_ERROR && w.evictNow <= expiry && w'.now <= expiry ==>
              var (s2, r) := Resolve(v, s1, p, w');
              && r == AgedMessage(m, CacheAgeing.Seconds(w.now, w'.now))
              && s2.asked == s1.asked && s2.received == s1.received
  {
    RunShape(v, steps);
    var s, question := Run(v, steps), q.question.value;
    GetShape(v, s, question, w.now);
    ObtainedStored(v, s, q, w);
    var m := Resolve(v, s, q, w).1;
    var s0 := s.(cache := CacheGet(v, s, question, w.now).0);
    hide Resolve, CacheGet, CacheSet, CacheShaped, CacheKey, Lifetime, AgedMessage, Run, Obtains;
    if m.rcode != NAME_ERROR && w.evictNow <= w.now + Lifetime(v.config, m) && w'.now <= w.now + Lifetime(v.config, m) {
      StoredIsFound(v, s0, question, m, w, p.question.value, w'.now);
      SameCacheSameGet(v, CacheSet(v, s0, question, m, w), Resolve(v, s, q, w).0, p.question.value, w'.now);
      HitResolves(v, Resolve(v, s, q, w).0, p, w');
    }
  }

  lemma ObtainedStored(v: Server, s: History, q: Query, w: Moment)
    requires v.Sound() && Obtains(v, s, q, w)
    ensures var (s1, m) := Resolve(v, s, q, w);
            var s0 := s.(cache := CacheGet(v, s, q.question.value, w.now).0);
            s1.cache == CacheSet(v, s0, q.question.value, m, w).cache
  {
    hide CacheGet, Lookup, CacheSet, Delivered;
    var s0 := s.(cache := CacheGet(v, s, q.question.value, w.now).0);
    AskedAndCached(v, s0, q, w);
  }

  lemma SameCacheSameGet(v: Server, s: History, s': History, q: Question, now: int)
    requires s.cache == s'.cache
    ensures CacheGet(v, s, q, now) == CacheGet(v, s', q, now)
  {
  }

  lemma HitResolves(v: Server, s: History, q: Query, w: Moment)
    requires v.Sound() && q.question.Some? && CacheGet(v, s, q.question.value, w.now).1.Some?
    ensures var (s', r) := Resolve(v, s, q, w);
            r == CacheGet(v, s, q.question.value, w.now).1.value && s'.asked == s.asked && s'.received == s.received
  {
    hide CacheGet;
  }

  // ----- whose answer it is

  /**
   * In every run: what the cache answers to a question that is not the store's own was once received
   * for that very name, type and class, if the DNS library has names for the type and the class.
   */
  lemma HitWasAsked(v: Server, steps: seq<(Query, Moment)>, q: Question, now: int) returns (i: nat, age: nat)
    requires v.Sound() && Lookup(v.store, q).None? && q.qtype in v.tables.types && q.qclass in v.tables.classes
    requires CacheGet(v, Run(v, steps), q, now).1.Some?
    ensures var received := Run(v, steps).received;
            && i < |received|
            && Lower(QueryCodec.Fqdn(received[i].question.name)) == Lower(QueryCodec.Fqdn(q.name))
            && received[i].question.qtype == q.qtype && received[i].question.qclass == q.qclass
            && CacheGet(v, Run(v, steps), q, now).1.value == AgedMessage(received[i].message, age)
  {
    RunKeepsInv(v, steps);
    GetKeepsInv(v, Run(v, steps), q, now);
    var s := Run(v, steps);
    var m := CacheGet(v, s, q, now).1.value;
    var e := Entry(CacheKey(v.tables, q), m, 0, 0);
    HitTruthful(v, s.received, q, e);
    hide Run, CacheGet, CacheKey, AgedMessage, Lookup, EntryOk, Lower, QueryCodec.Fqdn;
    i, age :| 0 <= i < |s.received| && CacheKey(v.tables, s.received[i].question) == CacheKey(v.tables, q)
              && m == AgedMessage(s.received[i].message, age);
    CacheKeyExact(v.tables, s.received[i].question, q);
  }

  /** A question for one unnamed type gets the answer obtained for another. */
  lemma UnnamedTypesShare(v: Server, steps: seq<(Query, Moment)>, q: Query, w: Moment, other: nat, w': Moment)
    requires v.Sound() && v.caching && Obtains(v, Run(v, steps), q, w)
    requires q.question.value.qtype !in v.tables.types && other !in v.tables.types
    ensures var (s1, m) := Resolve(v, Run(v, steps), q, w);
            var expiry := w.now + Lifetime(v.config, m);
            m.rcode != NAME_ERROR && w.evictNow <= expiry && w'.now <= expiry ==>
              var (s2, r) := Resolve(v, s1, q.(question := Some(q.question.value.(qtype := other))), w');
              r == AgedMessage(m, CacheAgeing.Seconds(w.now, w'.now)) && s2.asked == s1.asked
  {
    var p := q.question.value.(qtype := other);
    CacheKeyExact(v.tables, p, q.question.value);
    hide *;
    AnsweredAgain(v, steps, q, w, q.(question := Some(p)), w');
  }

  // ----- OPT records out of the cache

  predicate HasOpt(m: Message) { exists r <- m.extra :: r.rrtype == TYPE_OPT }

  lemma {:induction false} StrippedHasNone(rs: seq<Record>)
    ensures forall r <- StripOpt(rs) :: r.rrtype != TYPE_OPT
  {
    if rs != [] {
      StrippedHasNone(rs[1..]);
    }
  }

  lemma AgedHasOpt(m: Message, age: nat)
    ensures HasOpt(AgedMessage(m, age)) <==> HasOpt(m)
  {
    var aged := AgedRecords(m.extra, age);
    if HasOpt(m) {
      var i :| 0 <= i < |m.extra| && m.extra[i].rrtype == TYPE_OPT;
      assert aged[i] in aged;
    }
    if r :| r in aged && r.rrtype == TYPE_OPT {
      var i :| 0 <= i < |aged| && aged[i] == r;
      assert m.extra[i] in m.extra;
    }
  }

  /** What is obtained carries an OPT record exactly if the upstream's answer does and the client sent one. */
  lemma ObtainedOpt(v: Server, s: History, q: Query, w: Moment)
    requires v.Sound() && Obtains(v, s, q, w)
    ensures HasOpt(Resolve(v, s, q, w).1) <==>
              Lookup(v.store, q.question.value).None? && q.opts != [] && HasOpt(FinalAnswer(w).message)
  {
    hide CacheGet, Lookup, CacheSet, StripOpt;
    var question := q.question.value;
    var s0 := s.(cache := CacheGet(v, s, question, w.now).0);
    AskedAndCached(v, s0, q, w);
    if Lookup(v.store, question).None? && q.opts == [] {
      StrippedHasNone(FinalAnswer(w).message.extra);
    }
  }

  /** Step n of a run puts its answer into the cache under this key. */
  predicate Stores(v: Server, steps: seq<(Query, Moment)>, n: nat, key: Key)
    requires v.Sound() && n < |steps|
  {
    var (q, w) := steps[n];
    && v.caching && Obtains(v, Run(v, steps[..n]), q, w) && CacheKey(v.tables, q.question.value) == key
    && Resolve(v, Run(v, steps[..n]), q, w).1.rcode != NAME_ERROR
  }

  /** The last of the first n steps that did. */
  function LastStored(v: Server, steps: seq<(Query, Moment)>, n: nat, key: Key): (r: Option<nat>)
    requires v.Sound() && n <= |steps|
    ensures r.Some? ==> r.value < n && Stores(v, steps, r.value, key)
  {
    if n == 0 then None
    else if Stores(v, steps, n - 1, key) then Some(n - 1)
    else LastStored(v, steps, n - 1, key)
  }

  /** An upstream's OPT record was stored for a client that had sent one. */
  predicate StoredOpt(v: Server, steps: seq<(Query, Moment)>, i: nat)
    requires i < |steps| && steps[i].0.question.Some?
  {
    && Lookup(v.store, steps[i].0.question.value).None? && steps[i].0.opts != []
    && FinalAnswer(steps[i].1).Reply? && HasOpt(FinalAnswer(steps[i].1).message)
  }

  predicate HeldOpt(v: Server, steps: seq<(Query, Moment)>, n: nat, key: Key)
    requires v.Sound() && n <= |steps|
  {
    var held := Holds(Run(v, steps[..n]).cache, key);
    held.Some? ==> LastStored(v, steps, n, key).Some?
                   && (HasOpt(held.value.message) <==> StoredOpt(v, steps, LastStored(v, steps, n, key).value))
  }

  /** What a cache step leaves under a key is what was there, perhaps aged. */
  predicate SameOpt(before: View, after: View, key: Key) {
    Holds(after, key).Some? ==>
      Holds(before, key).Some? && (HasOpt(Holds(after, key).value.message) <==> HasOpt(Holds(before, key).value.message))
  }

  lemma GetSameOpt(v: Server, s: History, q: Question, now: int, key: Key)
    requires CacheShaped(v, s.cache)
    ensures SameOpt(s.cache, CacheGet(v, s, q, now).0, key)
  {
    hide ListGet, DistinctKeys, CacheKey, Holds, AgedMessage, HasOpt, ElapsedSeconds;
    if v.caching {
      var asked := CacheKey(v.tables, q);
      CacheAgeing.GetHolds(s.cache, asked, now, key);
      if Holds(s.cache, asked).Some? {
        AgedHasOpt(Holds(s.cache, asked).value.message, ElapsedSeconds(Holds(s.cache, asked).value, now));
      }
    }
  }

  lemma SetHolds(v: Server, s: History, q: Question, m: Message, w: Moment, key: Key)
    requires v.Sound() && CacheShaped(v, s.cache)
    ensures var after := Holds(CacheSet(v, s, q, m, w).cache, key);
            if v.caching && m.rcode != NAME_ERROR && CacheKey(v.tables, q) == key
            then after.Some? ==> after.value.message == m
            else after.Some? ==> after == Holds(s.cache, key)
  {
    hide ListSet, ListInsert, DistinctKeys, CacheKey, Holds, Lifetime;
    if v.caching {
      CacheHistory.HoldsSet(s.cache, v.config, CacheHistory.Set(CacheKey(v.tables, q), m, w.now, w.evictNow), key);
    }
  }

  /** A resolution that stores nothing under the key leaves it as it was. */
  lemma ResolveHolds(v: Server, s: History, q: Query, w: Moment, key: Key)
    requires v.Sound() && CacheShaped(v, s.cache)
    ensures var (s', m) := Resolve(v, s, q, w);
            if v.caching && Obtains(v, s, q, w) && CacheKey(v.tables, q.question.value) == key && m.rcode != NAME_ERROR
            then Holds(s'.cache, key).Some? ==> Holds(s'.cache, key).value.message == m
            else SameOpt(s.cache, s'.cache, key)
  {
    if q.question.Some? {
      var question := q.question.value;
      var s0 := s.(cache := CacheGet(v, s, question, w.now).0);
      GetSameOpt(v, s, question, w.now, key);
      GetShape(v, s, question, w.now);
      if Obtains(v, s, q, w) {
        ObtainedStored(v, s, q, w);
        SetHolds(v, s0, question, Resolve(v, s, q, w).1, w, key);
        hide Resolve, CacheGet, CacheSet, CacheKey, Holds, HasOpt, Obtains;
      } else {
        NothingStored(v, s, q, w);
        hide Resolve, CacheGet, Holds, HasOpt, Obtains;
      }
    }
  }

  lemma NothingStored(v: Server, s: History, q: Query, w: Moment)
    requires v.Sound() && q.question.Some? && !Obtains(v, s, q, w)
    ensures Resolve(v, s, q, w).0.cache == CacheGet(v, s, q.question.value, w.now).0
  {
    hide CacheGet, Lookup, CacheSet, Delivered;
    var s0 := s.(cache := CacheGet(v, s, q.question.value, w.now).0);
    AskedAndCached(v, s0, q, w);
  }

  lemma {:induction false} RunHeldOpt(v: Server, steps: seq<(Query, Moment)>, n: nat, key: Key)
    requires v.Sound() && n <= |steps|
    ensures HeldOpt(v, steps, n, key)
  {
    if n == 0 {
      NothingHeldYet(v, steps, key);
    } else {
      RunHeldOpt(v, steps, n - 1, key);
      HeldOptStep(v, steps, n - 1, key);
    }
  }

  lemma NothingHeldYet(v: Server, steps: seq<(Query, Moment)>, key: Key)
    requires v.Sound()
    ensures HeldOpt(v, steps, 0, key)
  {
    assert steps[..0] == [];
    CacheHistory.NothingHeld(key);
    hide HasOpt, Holds;
  }

  lemma HeldOptStep(v: Server, steps: seq<(Query, Moment)>, n: nat, key: Key)
    requires v.Sound() && n < |steps| && HeldOpt(v, steps, n, key)
    ensures HeldOpt(v, steps, n + 1, key)
  {
    var s, q, w := Run(v, steps[..n]), steps[n].0, steps[n].1;
    RunShape(v, steps[..n]);
    RunNext(v, steps, n);
    ResolveHolds(v, s, q, w, key);
    if Stores(v, steps, n, key) {
      ObtainedOpt(v, s, q, w);
      ObtainedFrom(v, s, q, w);
    }
    hide Run, Resolve, Holds, HasOpt, Obtains, CacheKey, Lookup, CacheShaped;
  }

  lemma ObtainedFrom(v: Server, s: History, q: Query, w: Moment)
    requires Obtains(v, s, q, w)
    ensures q.question.Some? && (Lookup(v.store, q.question.value).None? ==> FinalAnswer(w).Reply?)
  {
    hide CacheGet, Lookup;
  }

  lemma RunNext(v: Server, steps: seq<(Query, Moment)>, n: nat)
    requires v.Sound() && n < |steps|
    ensures Run(v, steps[..n + 1]) == Resolve(v, Run(v, steps[..n]), steps[n].0, steps[n].1).0
  {
    assert steps[..n + 1][..n] == steps[..n];
    hide Resolve;
  }

  /**
   * In every run: the response to a query without OPT records carries one if and only if it comes
   * from the cache, and its key was last stored for a client that sent one, with an upstream's.
   */
  lemma PlainGetsOptExactly(v: Server, steps: seq<(Query, Moment)>, q: Query, w: Moment)
    requires v.Sound() && q.opts == []
    ensures HasOpt(Resolve(v, Run(v, steps), q, w).1) <==>
              && q.question.Some? && CacheGet(v, Run(v, steps), q.question.value, w.now).1.Some?
              && var stored := LastStored(v, steps, |steps|, CacheKey(v.tables, q.question.value));
                 stored.Some? && StoredOpt(v, steps, stored.value)
  {
    var s := Run(v, steps);
    if q.question.None? {
    } else if CacheGet(v, s, q.question.value, w.now).1.None? {
      MissHasNone(v, s, q, w);
    } else {
      var key := CacheKey(v.tables, q.question.value);
      RunShape(v, steps);
      RunHeldOpt(v, steps, |steps|, key);
      assert steps[..|steps|] == steps;
      HitResolves(v, s, q, w);
      HitHasOpt(v, s, q.question.value, w.now);
      hide Run, Resolve, CacheGet, Holds, HasOpt, CacheKey, LastStored, StoredOpt;
    }
  }

  lemma HitHasOpt(v: Server, s: History, q: Question, now: int)
    requires CacheShaped(v, s.cache) && CacheGet(v, s, q, now).1.Some?
    ensures var held := Holds(s.cache, CacheKey(v.tables, q));
            held.Some? && (HasOpt(CacheGet(v, s, q, now).1.value) <==> HasOpt(held.value.message))
  {
    var key := CacheKey(v.tables, q);
    CacheAgeing.GetHolds(s.cache, key, now, key);
    hide ListGet, DistinctKeys, CacheKey, Holds, AgedMessage, HasOpt, ElapsedSeconds;
    var e := Holds(s.cache, key).value;
    AgedHasOpt(e.message, ElapsedSeconds(e, now));
  }

  lemma MissHasNone(v: Server, s: History, q: Query, w: Moment)
    requires v.Sound() && q.opts == [] && q.question.Some? && CacheGet(v, s, q.question.value, w.now).1.None?
    ensures !HasOpt(Resolve(v, s, q, w).1)
  {
    hide CacheGet, Lookup, CacheSet, StripOpt;
    var question := q.question.value;
    var s0 := s.(cache := CacheGet(v, s, question, w.now).0);
    AskedAndCached(v, s0, q, w);
    if FinalAnswer(w).Reply? {
      StrippedHasNone(FinalAnswer(w).message.extra);
    }
  }

  /** So a plain query repeated after one with an OPT record gets the upstream's OPT record. */
  lemma PlainAfterEdns(v: Server, steps: seq<(Query, Moment)>, q: Query, w: Moment, w': Moment)
    requires v.Sound() && v.caching && Obtains(v, Run(v, steps), q, w) && q.opts != []
    requires Lookup(v.store, q.question.value).None? && HasOpt(FinalAnswer(w).message)
    ensures var (s1, m) := Resolve(v, Run(v, steps), q, w);
            var expiry := w.now + Lifetime(v.config, m);
            m.rcode != NAME_ERROR && w.evictNow <= expiry && w'.now <= expiry ==>
              HasOpt(Resolve(v, s1, q.(opts := []), w').1)
  {
    hide *;
    var m := Resolve(v, Run(v, steps), q, w).1;
    ObtainedFrom(v, Run(v, steps), q, w);
    AnsweredAgain(v, steps, q, w, q.(opts := []), w');
    ObtainedOpt(v, Run(v, steps), q, w);
    AgedHasOpt(m, CacheAgeing.Seconds(w.now, w'.now));
  }
}
