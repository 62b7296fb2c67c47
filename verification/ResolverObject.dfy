/** The resolver as the source runs it: one method over the cache object and the record store. */
module ResolverObject {
  import opened Bytes
  import opened CacheModel
  import opened Resolver
  import CacheRefinement
  import CacheRecency
  import Cache
  import Records

  class Instance {
    const server: Server
    const cacheStore: Cache.Store
    ghost var asked: seq<Asked>
    ghost var received: seq<Received>

    ghost predicate Valid()
      reads this, cacheStore
    {
      server.Sound() && cacheStore.config == server.config && CacheModel.Inv(cacheStore.State(), server.config.maxSize)
    }

    /** The history so far, with the cache seen as the list it refines. */
    ghost function Now(): History
      reads this, cacheStore
      requires Valid()
    {
      History(CacheRefinement.ViewOf(cacheStore.State()), asked, received)
    }

    constructor (server: Server, cacheStore: Cache.Store)
      requires server.Sound() && cacheStore.config == server.config && cacheStore.State() == Empty
      ensures this.server == server && this.cacheStore == cacheStore && Valid() && Now() == Start
    {
      this.server := server;
      this.cacheStore := cacheStore;
      asked, received := [], [];
    }

    method CacheGet(q: Records.Question, now: int) returns (hit: Option<Message>)
      requires Valid()
      modifies cacheStore
      ensures Valid()
      ensures (Now().cache, hit) == Resolver.CacheGet(server, old(Now()), q, now)
    {
      hide CacheRefinement.ListGet, CacheKey, GetState, GetResult, CacheRefinement.ViewOf;
      if server.caching {
        var key := CacheKey(server.tables, q);
        CacheRefinement.GetRefines(cacheStore.State(), key, now);
        CacheRecency.GetKeepsInv(cacheStore.State(), key, now, server.config.maxSize);
        hit := cacheStore.Get(key, now);
      } else {
        hit := None;
      }
    }

    method CacheSet(q: Records.Question, m: Message, w: Moment)
      requires Valid()
      modifies cacheStore
      ensures Valid()
      ensures Now() == Resolver.CacheSet(server, old(Now()), q, m, w)
    {
      hide CacheRefinement.ListSet, CacheKey, SetSection, CacheRefinement.ViewOf;
      if server.caching {
        var key := CacheKey(server.tables, q);
        CacheRefinement.SetRefines(cacheStore.State(), server.config, key, m, w.now, w.evictNow);
        cacheStore.Set(key, m, w.now, w.evictNow);
      }
    }

    /** Drops the EDNS records from a message for a client that sent none. */
    method StripOPT(m: Message) returns (stripped: Message)
      ensures stripped == m.(extra := StripOpt(m.extra))
    {
      var filtered: seq<Record> := [];
      for index := 0 to |m.extra|
        invariant filtered == StripOpt(m.extra[..index])
      {
        assert m.extra[..index + 1] == m.extra[..index] + [m.extra[index]];
        StripOptAppend(m.extra[..index], m.extra[index]);
        if m.extra[index].rrtype != TYPE_OPT {
          filtered := filtered + [m.extra[index]];
        }
      }
      assert m.extra[..|m.extra|] == m.extra;
      stripped := m.(extra := filtered);
    }

    /** Every resolution does what the histories say it does. */
    method Resolve(q: Query, w: Moment) returns (r: Message)
      requires Valid()
      modifies this, cacheStore
      ensures Valid()
      ensures (Now(), r) == Resolver.Resolve(server, old(Now()), q, w)
    {
      hide Resolver.CacheGet, Resolver.CacheSet, Records.Lookup, StripOpt, FirstOpts, RetryOpts, CacheModel.Inv;
      if q.question.None? {
        return Failure(FORMAT_ERROR);
      }
      var question := q.question.value;
      var hit := CacheGet(question, w.now);
      if hit.Some? {
        return hit.value;
      }
      var records := Records.LookupRecords(server.store, question);
      if records.Some? {
        var m := OwnAnswer(records.value);
        CacheSet(question, m, w);
        return m;
      }
      if !w.hasUpstreams {
        return Failure(SERVER_FAILURE);
      }
      asked := asked + [Asked(question, q.opts, FirstOpts(q.opts))];
      var answer := w.first;
      if answer.Reply? && answer.truncated {
        asked := asked + [Asked(question, q.opts, RetryOpts(q.opts))];
        answer := w.retry;
      }
      if answer.Unavailable? {
        return Failure(SERVER_FAILURE);
      }
      var m := answer.message;
      if q.opts == [] {
        m := StripOPT(m);
      }
      received := received + [Received(question, m)];
      if !answer.truncated {
        CacheSet(question, m, w);
      }
      r := m;
    }
  }

  lemma StripOptAppend(rs: seq<Record>, r: Record)
    ensures StripOpt(rs + [r]) == StripOpt(rs) + (if r.rrtype == TYPE_OPT then [] else [r])
  {
    if rs != [] {
      StripOptAppend(rs[1..], r);
      assert (rs + [r])[1..] == rs[1..] + [r];
    }
  }
}
