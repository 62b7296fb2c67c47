/**
 * Resolving a question from the cache, the server's own records and the upstreams, over
 * whole runs. The cache is the recency-ordered list that CacheRefinement proves it to be.
 */
module Resolver {
  import opened Bytes
  import opened Text
  import opened CacheModel
  import opened Records
  import opened CacheRefinement
  import CacheHistory
  import QueryCodec

  const SUCCESS: nat := 0
  const FORMAT_ERROR: nat := 1
  const SERVER_FAILURE: nat := 2
  const TYPE_OPT: nat := 41
  const SLASH: byte := 47

  // ----- cache keys

  /** The DNS library's tables of type and class names. */
  datatype NameTables = NameTables(types: map<nat, bytes>, classes: map<nat, bytes>)

  predicate NamesOk(names: map<nat, bytes>) {
    && (forall n <- names :: names[n] != [] && SLASH !in names[n])
    && (forall m <- names, n <- names | names[m] == names[n] :: m == n)
  }

  predicate TablesOk(t: NameTables) { NamesOk(t.types) && NamesOk(t.classes) && TYPE_CNAME in t.types }

  /** An unknown number has the empty name. */
  function NameIn(names: map<nat, bytes>, n: nat): bytes { if n in names then names[n] else [] }

  function CacheKey(t: NameTables, q: Question): Key {
    Lower(QueryCodec.Fqdn(q.name)) + [SLASH] + NameIn(t.classes, q.qclass) + [SLASH] + NameIn(t.types, q.qtype)
  }

  predicate SameNumber(names: map<nat, bytes>, m: nat, n: nat) { m == n || (m !in names && n !in names) }

  lemma NameInSame(names: map<nat, bytes>, m: nat, n: nat)
    requires NamesOk(names)
    ensures NameIn(names, m) == NameIn(names, n) <==> SameNumber(names, m, n)
    ensures SLASH !in NameIn(names, m)
  {
  }

  function SlashIndex(s: bytes): nat {
    if s == [] then 0
    else if s[|s| - 1] == SLASH then |s| - 1
    else SlashIndex(s[..|s| - 1])
  }

  lemma {:induction false} SlashIndexOf(a: bytes, b: bytes)
    requires SLASH !in b
    ensures SlashIndex(a + [SLASH] + b) == |a|
    decreases |b|
  {
    if b != [] {
      SlashIndexOf(a, b[..|b| - 1]);
      assert (a + [SLASH] + b)[..|a| + |b|] == a + [SLASH] + b[..|b| - 1];
    }
  }

  /** The last slash separates what follows it from what precedes it. */
  lemma LastSlash(a: bytes, b: bytes, c: bytes, d: bytes)
    requires a + [SLASH] + b == c + [SLASH] + d && SLASH !in b && SLASH !in d
    ensures a == c && b == d
  {
    SlashIndexOf(a, b);
    SlashIndexOf(c, d);
    var s, t := a + [SLASH] + b, c + [SLASH] + d;
    assert s[..|a|] == a && t[..|c|] == c;
    assert s[|a| + 1..] == b && t[|c| + 1..] == d;
  }

  /** Two questions share a cache entry exactly when name, class and type agree, unknown types (classes) all being alike. */
  lemma CacheKeyExact(t: NameTables, p: Question, q: Question)
    requires TablesOk(t)
    ensures CacheKey(t, p) == CacheKey(t, q) <==>
              Lower(QueryCodec.Fqdn(p.name)) == Lower(QueryCodec.Fqdn(q.name))
              && SameNumber(t.classes, p.qclass, q.qclass) && SameNumber(t.types, p.qtype, q.qtype)
  {
    hide QueryCodec.Fqdn, Lower, NameIn, SameNumber;
    NameInSame(t.types, p.qtype, q.qtype);
    NameInSame(t.classes, p.qclass, q.qclass);
    NameInSame(t.types, q.qtype, p.qtype);
    NameInSame(t.classes, q.qclass, p.qclass);
    if CacheKey(t, p) == CacheKey(t, q) {
      var pn, qn := Lower(QueryCodec.Fqdn(p.name)), Lower(QueryCodec.Fqdn(q.name));
      var pc, qc := NameIn(t.classes, p.qclass), NameIn(t.classes, q.qclass);
      LastSlash(pn + [SLASH] + pc, NameIn(t.types, p.qtype), qn + [SLASH] + qc, NameIn(t.types, q.qtype));
      LastSlash(pn, pc, qn, qc);
    }
  }

  // ----- ownership depends on the cache key only

  lemma {:induction false} LowerBackslashes(s: bytes)
    ensures QueryCodec.TrailingBackslashes(Lower(s)) == QueryCodec.TrailingBackslashes(s)
  {
    if s != [] {
      LowerBackslashes(s[..|s| - 1]);
      LowerPrefix(s, |s| - 1);
      assert Lower(s)[|s| - 1] == LowerByte(s[|s| - 1]);
    }
  }

  lemma LowerPrefix(s: bytes, n: nat)
    requires n <= |s|
    ensures Lower(s)[..n] == Lower(s[..n])
  {
  }

  lemma LowerFqdn(name: bytes)
    ensures Canonical(name) == Lower(QueryCodec.Fqdn(name))
  {
    hide QueryCodec.TrailingBackslashes;
    if name != [] {
      LowerPrefix(name, |name| - 1);
      LowerBackslashes(name[..|name| - 1]);
      assert Lower(name)[|name| - 1] == LowerByte(name[|name| - 1]);
    }
    var dotted := name + [DOT];
    assert Lower(dotted) == Lower(name) + [DOT] by {
      forall i | 0 <= i < |dotted| ensures Lower(dotted)[i] == (Lower(name) + [DOT])[i] {
      }
    }
  }

  /** The record types of a store all have names: its configuration spells them. */
  predicate StoreNamed(t: NameTables, s: RecordStore) {
    && (forall fqdn <- s.exact, n <- s.exact[fqdn] :: n in t.types)
    && (forall w <- s.wildcards :: w.queryType in t.types)
  }

  predicate SameRecord(a: Record, b: Record) {
    Lower(a.owner) == Lower(b.owner) && a.rrtype == b.rrtype && a.data == b.data
  }

  /** Equal up to TTL and letter case of the owner. */
  predicate SameRecords(a: seq<Record>, b: seq<Record>) {
    |a| == |b| && forall i | 0 <= i < |a| :: SameRecord(a[i], b[i])
  }

  lemma {:induction false} SameCover(t: NameTables, ws: seq<Wildcard>, fqdn: bytes, m: nat, n: nat)
    requires SameNumber(t.types, m, n) && forall w <- ws :: w.queryType in t.types
    ensures FirstCover(ws, fqdn, m) == FirstCover(ws, fqdn, n)
  {
    if ws != [] {
      SameCover(t, ws[1..], fqdn, m, n);
    }
  }

  lemma SameTypes(t: NameTables, types: map<nat, seq<Record>>, m: nat, n: nat)
    requires SameNumber(t.types, m, n) && forall k <- types :: k in t.types
    ensures At(types, m) == At(types, n)
  {
  }

  /** Questions with one cache key are owned alike and answered alike. */
  lemma LookupByKey(t: NameTables, s: RecordStore, p: Question, q: Question)
    requires TablesOk(t) && StoreNamed(t, s) && CacheKey(t, p) == CacheKey(t, q)
    ensures Lookup(s, p).Some? == Lookup(s, q).Some?
    ensures Lookup(s, p).Some? ==> SameRecords(Lookup(s, p).value, Lookup(s, q).value)
  {
    CacheKeyExact(t, p, q);
    LowerFqdn(p.name);
    LowerFqdn(q.name);
    var fqdn := Canonical(p.name);
    hide CacheKey, Lower, QueryCodec.Fqdn, Covers, SameNumber, At, Canonical;
    if fqdn in s.exact {
      SameTypes(t, s.exact[fqdn], p.qtype, q.qtype);
    } else {
      SameCover(t, s.wildcards, fqdn, p.qtype, q.qtype);
    }
  }

  // ----- one resolution

  /** An OPT record: the advertised UDP size and the DO bit. */
  datatype Opt = Opt(size: uint16, dnssec: bool)

  /** A client's query with the OPT records of its additional section, in order. */
  datatype Query = Query(question: Option<Question>, opts: seq<Opt>)

  /** What the upstream pool answers: an error, or a message that may be truncated. */
  datatype Upstream = Unavailable | Reply(message: Message, truncated: bool)

  /** The environment of one resolution: the clock, and the pool's answers to the first try and the retry. */
  datatype Moment = Moment(now: int, evictNow: int, hasUpstreams: bool, first: Upstream, retry: Upstream)

  /** A query sent upstream: the OPT records its client had sent, and the ones it carries itself. */
  datatype Asked = Asked(question: Question, client: seq<Opt>, opts: seq<Opt>)

  datatype Received = Received(question: Question, message: Message)

  /** `asked` and `received` record what went to the upstreams and came back, in order. */
  datatype History = History(cache: View, asked: seq<Asked>, received: seq<Received>)

  datatype Server = Server(tables: NameTables, store: RecordStore, config: Config, caching: bool) {
    predicate Sound() { TablesOk(tables) && StoreNamed(tables, store) && config.Sound() }
  }

  function Failure(rcode: nat): Message { Message(rcode, false, [], [], []) }

  /** The server's own answer. */
  function OwnAnswer(records: seq<Record>): Message { Message(SUCCESS, true, records, [], []) }

  // ----- OPT records

  /** IsEdns0 searches the additional section from its end. */
  function EffectiveOpt(opts: seq<Opt>): Option<Opt> {
    if opts == [] then None else Some(opts[|opts| - 1])
  }

  /** SetEdns0 appends one more OPT record and removes none. */
  function SetEdns0(opts: seq<Opt>, size: uint16, dnssec: bool): seq<Opt> { opts + [Opt(size, dnssec)] }

  /** A large buffer is asked for unless the client names a size; where it sets DO, a record without DO is added. */
  function FirstOpts(opts: seq<Opt>): seq<Opt> {
    match EffectiveOpt(opts)
    case None => SetEdns0(opts, 4096, false)
    case Some(opt) => if opt.dnssec then SetEdns0(opts, opt.size, false) else opts
  }

  function RetryOpts(opts: seq<Opt>): seq<Opt> { SetEdns0(FirstOpts(opts), 65535, false) }

  predicate CarriesDo(opts: seq<Opt>) { exists opt <- opts :: opt.dnssec }

  /**
   * Who reads the OPT record from the end sees no DO; but the client's own records are all there
   * before it, and DO is carried exactly if they carry it.
   */
  predicate OptsOk(a: Asked) {
    && EffectiveOpt(a.opts).Some? && !EffectiveOpt(a.opts).value.dnssec
    && a.client <= a.opts
    && (CarriesDo(a.opts) <==> CarriesDo(a.client))
  }

  lemma AppendOpt(client: seq<Opt>, opts: seq<Opt>, size: uint16)
    requires client <= opts && (CarriesDo(opts) <==> CarriesDo(client))
    ensures var sent := SetEdns0(opts, size, false);
            && client <= sent && EffectiveOpt(sent) == Some(Opt(size, false))
            && (CarriesDo(sent) <==> CarriesDo(client))
  {
    var sent := SetEdns0(opts, size, false);
    assert forall opt <- sent :: opt in opts || opt == Opt(size, false);
    assert forall opt <- opts :: opt in sent;
  }

  /**
   * A first try honours the client's size. It has one record more than the client sent exactly if
   * the client sent none or set DO in its last one; so of a client's single record it makes two
   * exactly if that sets DO.
   */
  lemma FirstTry(q: Question, opts: seq<Opt>)
    ensures var sent := FirstOpts(opts);
            && OptsOk(Asked(q, opts, sent))
            && EffectiveOpt(sent).value.size == (if opts == [] then 4096 else EffectiveOpt(opts).value.size)
            && |sent| == |opts| + (if opts == [] || EffectiveOpt(opts).value.dnssec then 1 else 0)
            && (|opts| == 1 ==> (|sent| == 2 <==> CarriesDo(opts)))
  {
    AppendOpt(opts, opts, if opts == [] then 4096 else EffectiveOpt(opts).value.size);
    if |opts| == 1 {
      assert opts[0] in opts;
    }
    hide CarriesDo;
  }

  /** A retry asks for the largest buffer, and always carries at least two OPT records. */
  lemma RetryAsksTwice(q: Question, opts: seq<Opt>)
    ensures var sent := RetryOpts(opts);
            && OptsOk(Asked(q, opts, sent)) && EffectiveOpt(sent) == Some(Opt(65535, false))
            && |sent| == |FirstOpts(opts)| + 1 >= 2
  {
    FirstTry(q, opts);
    AppendOpt(opts, FirstOpts(opts), 65535);
    hide CarriesDo, FirstOpts;
  }

  /** The OPT record of a query decoded from the tunnel. */
  function TunnelledOpts(q: QueryCodec.Query): seq<Opt> {
    match q.edns case None => [] case Some(size) => [Opt(size, false)]
  }

  /** A query out of the tunnel never makes DO go upstream; its first try has one OPT record, its retry two. */
  lemma TunnelledWithoutDo(q: QueryCodec.Query)
    ensures var opts := TunnelledOpts(q);
            && !CarriesDo(FirstOpts(opts)) && |FirstOpts(opts)| == 1
            && !CarriesDo(RetryOpts(opts)) && |RetryOpts(opts)| == 2
  {
  }

  // ----- the steps of a resolution

  function StripOpt(rs: seq<Record>): seq<Record> {
    if rs == [] then [] else (if rs[0].rrtype == TYPE_OPT then [] else [rs[0]]) + StripOpt(rs[1..])
  }

  function Delivered(q: Query, m: Message): Message {
    if q.opts == [] then m.(extra := StripOpt(m.extra)) else m
  }

  function CacheSet(v: Server, s: History, q: Question, m: Message, w: Moment): History
    requires v.Sound()
  {
    if v.caching then s.(cache := ListSet(s.cache, v.config, CacheKey(v.tables, q), m, w.now, w.evictNow)) else s
  }

  function CacheGet(v: Server, s: History, q: Question, now: int): (View, Option<Message>) {
    if v.caching then ListGet(s.cache, CacheKey(v.tables, q), now) else (s.cache, None)
  }

  function AskUpstream(v: Server, s: History, q: Query, w: Moment): (History, Message)
    requires v.Sound() && q.question.Some?
  {
    var question := q.question.value;
    var s1 := s.(asked := s.asked + [Asked(question, q.opts, FirstOpts(q.opts))]);
    var retries := w.first.Reply? && w.first.truncated;
    var s2 := if retries then s1.(asked := s1.asked + [Asked(question, q.opts, RetryOpts(q.opts))]) else s1;
    var answer := if retries then w.retry else w.first;
    match answer
    case Unavailable => (s2, Failure(SERVER_FAILURE))
    case Reply(m, truncated) =>
      var delivered := Delivered(q, m);
      var s3 := s2.(received := s2.received + [Received(question, delivered)]);
      (if truncated then s3 else CacheSet(v, s3, question, delivered, w), delivered)
  }

  function Resolve(v: Server, s: History, q: Query, w: Moment): (History, Message)
    requires v.Sound()
  {
    if q.question.None? then (s, Failure(FORMAT_ERROR))
    else
      var question := q.question.value;
      var (cache, hit) := CacheGet(v, s, question, w.now);
      var s1 := s.(cache := cache);
      if hit.Some? then (s1, hit.value)
      else
        match Lookup(v.store, question) {
          case Some(records) =>
            var m := OwnAnswer(records);
            (CacheSet(v, s1, question, m, w), m)
          case None =>
            if !w.hasUpstreams then (s1, Failure(SERVER_FAILURE)) else AskUpstream(v, s1, q, w)
        }
  }

  /** The upstreams' last word in this resolution. */
  function FinalAnswer(w: Moment): Upstream {
    if w.first.Reply? && w.first.truncated then w.retry else w.first
  }

  /**
   * Upstreams are asked once, and once more with the largest buffer exactly when the first answer
   * was truncated; only an answer that arrived whole is handed to the cache.
   */
  lemma AskedAndCached(v: Server, s: History, q: Query, w: Moment)
    requires v.Sound() && q.question.Some?
    ensures var (s', r) := AskUpstream(v, s, q, w);
            var question := q.question.value;
            && s'.asked == s.asked + [Asked(question, q.opts, FirstOpts(q.opts))]
                           + (if w.first.Reply? && w.first.truncated
                              then [Asked(question, q.opts, RetryOpts(q.opts))] else [])
            && (forall a <- s'.asked[|s.asked|..] :: OptsOk(a))
            && match FinalAnswer(w)
               case Unavailable => s'.cache == s.cache && s'.received == s.received && r == Failure(SERVER_FAILURE)
               case Reply(m, truncated) =>
                 && r == Delivered(q, m) && s'.received == s.received + [Received(question, r)]
                 && s'.cache == if truncated then s.cache else CacheSet(v, s, question, r, w).cache
  {
    var question := q.question.value;
    FirstTry(question, q.opts);
    RetryAsksTwice(question, q.opts);
    hide ListSet, CacheKey, Delivered, OptsOk, FirstOpts, RetryOpts;
    var first, retry := Asked(question, q.opts, FirstOpts(q.opts)), Asked(question, q.opts, RetryOpts(q.opts));
    assert s.asked + [first] + [] == s.asked + [first];
    assert (s.asked + [first] + [retry])[|s.asked|..] == [first, retry];
    assert (s.asked + [first])[|s.asked|..] == [first];
  }

  // ----- runs

  const Start: History := History([], [], [])

  function Run(v: Server, steps: seq<(Query, Moment)>): History
    requires v.Sound()
  {
    if steps == [] then Start
    else Resolve(v, Run(v, steps[..|steps| - 1]), steps[|steps| - 1].0, steps[|steps| - 1].1).0
  }

  /** The message is what the store says, up to TTLs and the letter case of owners. */
  predicate FromStore(s: RecordStore, q: Question, m: Message) {
    Lookup(s, q).Some? && m.rcode == SUCCESS && m.authoritative && m.ns == [] && m.extra == []
    && SameRecords(m.answer, Lookup(s, q).value)
  }

  /** The message is an upstream's answer to a question with this key, aged. */
  ghost predicate FromUpstream(t: NameTables, received: seq<Received>, key: Key, m: Message) {
    exists i, age :: 0 <= i < |received| && CacheKey(t, received[i].question) == key
                     && m == AgedMessage(received[i].message, age)
  }

  ghost predicate EntryOk(v: Server, received: seq<Received>, e: Entry) {
    && (forall q | CacheKey(v.tables, q) == e.key && Lookup(v.store, q).Some? :: FromStore(v.store, q, e.message))
    && ((exists q :: CacheKey(v.tables, q) == e.key && Lookup(v.store, q).Some?)
        || FromUpstream(v.tables, received, e.key, e.message))
  }

  ghost predicate Inv(v: Server, s: History) {
    && (forall e <- s.cache :: EntryOk(v, s.received, e))
    && (forall a <- s.asked :: Lookup(v.store, a.question).None? && OptsOk(a))
    && (forall r <- s.received :: Lookup(v.store, r.question).None?)
  }

  // ----- entries stay truthful

  lemma SameRecordsAged(a: seq<Record>, b: seq<Record>, age: nat)
    requires SameRecords(a, b)
    ensures SameRecords(AgedRecords(a, age), b)
  {
    var aged := AgedRecords(a, age);
    forall i | 0 <= i < |a| ensures SameRecord(aged[i], b[i]) {
      assert SameRecord(a[i], b[i]);
    }
  }

  lemma FromStoreAged(s: RecordStore, q: Question, m: Message, age: nat)
    requires FromStore(s, q, m)
    ensures FromStore(s, q, AgedMessage(m, age))
  {
    hide Lookup, SameRecords;
    SameRecordsAged(m.answer, Lookup(s, q).value, age);
  }

  lemma FromUpstreamAged(t: NameTables, received: seq<Received>, key: Key, m: Message, age: nat)
    requires FromUpstream(t, received, key, m)
    ensures FromUpstream(t, received, key, AgedMessage(m, age))
  {
    hide CacheKey, AgedMessage;
    var i, a :| 0 <= i < |received| && CacheKey(t, received[i].question) == key
                && m == AgedMessage(received[i].message, a);
    CacheHistory.AgedMessageTwice(received[i].message, a, age);
  }

  lemma EntryAged(v: Server, received: seq<Received>, e: Entry, age: nat)
    requires EntryOk(v, received, e)
    ensures EntryOk(v, received, e.(message := AgedMessage(e.message, age)))
  {
    hide AgedMessage, Lookup, CacheKey, FromStore, FromUpstream;
    forall q | CacheKey(v.tables, q) == e.key && Lookup(v.store, q).Some?
      ensures FromStore(v.store, q, AgedMessage(e.message, age))
    {
      FromStoreAged(v.store, q, e.message, age);
    }
    if FromUpstream(v.tables, received, e.key, e.message) {
      FromUpstreamAged(v.tables, received, e.key, e.message, age);
    }
  }

  lemma EntryKept(v: Server, received: seq<Received>, e: Entry, r: Received)
    requires EntryOk(v, received, e)
    ensures EntryOk(v, received + [r], e)
  {
    hide AgedMessage, Lookup, CacheKey, FromStore;
    if FromUpstream(v.tables, received, e.key, e.message) {
      var i, a :| 0 <= i < |received| && CacheKey(v.tables, received[i].question) == e.key
                  && e.message == AgedMessage(received[i].message, a);
      assert (received + [r])[i] == received[i];
    }
  }

  /** An entry made from the store's answer answers every question it will be found under. */
  lemma StoreEntryOk(v: Server, received: seq<Received>, q: Question, e: Entry)
    requires v.Sound() && Lookup(v.store, q).Some? && e.key == CacheKey(v.tables, q)
    requires e.message == OwnAnswer(Lookup(v.store, q).value)
    ensures EntryOk(v, received, e)
  {
    hide Lookup, CacheKey, SameRecords, TablesOk, StoreNamed;
    forall p | CacheKey(v.tables, p) == e.key && Lookup(v.store, p).Some?
      ensures FromStore(v.store, p, e.message)
    {
      LookupByKey(v.tables, v.store, q, p);
    }
  }

  /** An entry made from an upstream's answer is never found under a question the store owns. */
  lemma UpstreamEntryOk(v: Server, received: seq<Received>, q: Question, e: Entry)
    requires v.Sound() && Lookup(v.store, q).None? && e.key == CacheKey(v.tables, q)
    ensures EntryOk(v, received + [Received(q, e.message)], e)
  {
    hide Lookup, CacheKey, TablesOk, StoreNamed, AgedMessage;
    forall p | CacheKey(v.tables, p) == e.key ensures Lookup(v.store, p).None? {
      LookupByKey(v.tables, v.store, q, p);
    }
    CacheHistory.NotAged(e.message);
    assert (received + [Received(q, e.message)])[|received|] == Received(q, e.message);
  }

  // ----- the cache's own steps

  lemma RemoveAtElements(view: View, i: nat)
    requires i < |view|
    ensures forall e <- RemoveAt(view, i) :: e in view
  {
  }

  lemma {:induction false} EvictElements(view: View, now: int, maxSize: nat)
    ensures forall e <- ListEvict(view, now, maxSize) :: e in view
    decreases |view|
  {
    hide RemoveAt, Victim;
    if |view| > maxSize {
      assert Victim(view, now) < |view| by { VictimBound(view, now); }
      RemoveAtElements(view, Victim(view, now));
      assert |RemoveAt(view, Victim(view, now))| < |view| by { RemoveAtIs(view, Victim(view, now)); }
      EvictElements(RemoveAt(view, Victim(view, now)), now, maxSize);
    }
  }

  lemma SetElements(view: View, c: Config, key: Key, m: Message, now: int, evictNow: int)
    requires c.Sound()
    ensures forall e <- ListSet(view, c, key, m, now, evictNow) ::
              e in view || e == Entry(key, m, now, now + Lifetime(c, m))
  {
    hide RemoveAt, Lifetime, ListEvict;
    var e := Entry(key, m, now, now + Lifetime(c, m));
    match Find(view, key) {
      case Some(i) => RemoveAtElements(view, i);
      case None =>
    }
    EvictElements(ListInsert(view, e), evictNow, c.maxSize);
  }

  /** A hit returns an aged entry of the key, and leaves the other entries alone. */
  lemma GetElements(view: View, key: Key, now: int)
    ensures var (after, hit) := ListGet(view, key, now);
            && (forall e <- after :: e in view
                  || exists f, age :: f in view && e == f.(message := AgedMessage(f.message, age)))
            && (hit.Some? ==> exists f, age :: f in view && f.key == key && hit.value == AgedMessage(f.message, age))
  {
    hide RemoveAt, AgedMessage, ElapsedSeconds;
    match Find(view, key) {
      case None =>
      case Some(i) =>
        RemoveAtElements(view, i);
        assert view[i] in view;
    }
  }

  lemma GetKeepsInv(v: Server, s: History, q: Question, now: int)
    requires v.Sound() && Inv(v, s)
    ensures var (cache, hit) := CacheGet(v, s, q, now);
            && Inv(v, s.(cache := cache))
            && (hit.Some? ==> EntryOk(v, s.received, Entry(CacheKey(v.tables, q), hit.value, 0, 0)))
  {
    hide ListGet, AgedMessage, EntryOk, Lookup, CacheKey;
    if v.caching {
      var key := CacheKey(v.tables, q);
      GetElements(s.cache, key, now);
      var (after, hit) := ListGet(s.cache, key, now);
      forall e <- after ensures EntryOk(v, s.received, e) {
        if e !in s.cache {
          var f, age :| f in s.cache && e == f.(message := AgedMessage(f.message, age));
          EntryAged(v, s.received, f, age);
        }
      }
      if hit.Some? {
        var f, age :| f in s.cache && f.key == key && hit.value == AgedMessage(f.message, age);
        EntryAged(v, s.received, f, age);
        EntryTimes(v, s.received, f.(message := hit.value), Entry(key, hit.value, 0, 0));
      }
    }
  }

  lemma EntryTimes(v: Server, received: seq<Received>, e: Entry, f: Entry)
    requires EntryOk(v, received, e) && f.key == e.key && f.message == e.message
    ensures EntryOk(v, received, f)
  {
    hide Lookup, CacheKey, FromStore, FromUpstream;
  }

  lemma SetKeepsInv(v: Server, s: History, q: Question, m: Message, w: Moment)
    requires v.Sound() && Inv(v, s)
    requires EntryOk(v, s.received, Entry(CacheKey(v.tables, q), m, w.now, w.now + Lifetime(v.config, m)))
    ensures Inv(v, CacheSet(v, s, q, m, w))
  {
    hide ListSet, EntryOk, Lookup, CacheKey, Lifetime;
    if v.caching {
      SetElements(s.cache, v.config, CacheKey(v.tables, q), m, w.now, w.evictNow);
    }
  }

  lemma ReceivedKeepsInv(v: Server, s: History, asked: seq<Asked>, r: Received)
    requires Inv(v, s) && Lookup(v.store, r.question).None?
    requires forall a <- asked :: Lookup(v.store, a.question).None? && OptsOk(a)
    ensures Inv(v, s.(asked := asked, received := s.received + [r]))
  {
    hide EntryOk, Lookup;
    forall e <- s.cache ensures EntryOk(v, s.received + [r], e) {
      EntryKept(v, s.received, e, r);
    }
  }

  lemma AskKeepsInv(v: Server, s: History, q: Query, w: Moment)
    requires v.Sound() && Inv(v, s) && q.question.Some? && Lookup(v.store, q.question.value).None?
    ensures Inv(v, AskUpstream(v, s, q, w).0)
  {
    var question := q.question.value;
    FirstTry(question, q.opts);
    RetryAsksTwice(question, q.opts);
    hide EntryOk, Lookup, CacheSet, CacheKey, Lifetime, Delivered, TablesOk, StoreNamed, OptsOk, FirstOpts, RetryOpts;
    var first, retry := Asked(question, q.opts, FirstOpts(q.opts)), Asked(question, q.opts, RetryOpts(q.opts));
    var retries := w.first.Reply? && w.first.truncated;
    var asked := s.asked + [first] + (if retries then [retry] else []);
    assert s.asked + [first] + [] == s.asked + [first];
    var answer := if retries then w.retry else w.first;
    match answer {
      case Unavailable =>
      case Reply(m, truncated) =>
        var delivered := Delivered(q, m);
        var s3 := s.(asked := asked, received := s.received + [Received(question, delivered)]);
        ReceivedKeepsInv(v, s, asked, Received(question, delivered));
        if !truncated {
          var e := Entry(CacheKey(v.tables, question), delivered, w.now, w.now + Lifetime(v.config, delivered));
          UpstreamEntryOk(v, s.received, question, e);
          SetKeepsInv(v, s3, question, delivered, w);
        }
    }
  }

  // ----- what every resolution gives

  /**
   * A question the store owns gets the store's answer and goes to no upstream; any other answer
   * out of the cache was once received for a question with the same cache key.
   */
  ghost predicate Truthful(v: Server, s: History, q: Question, w: Moment, s': History, r: Message) {
    && (Lookup(v.store, q).Some? ==>
          FromStore(v.store, q, r) && s'.asked == s.asked && s'.received == s.received)
    && (Lookup(v.store, q).None? && CacheGet(v, s, q, w.now).1.Some? ==>
          && s'.asked == s.asked
          && FromUpstream(v.tables, s.received, CacheKey(v.tables, q), r))
  }

  lemma HitTruthful(v: Server, received: seq<Received>, q: Question, e: Entry)
    requires v.Sound() && EntryOk(v, received, e) && e.key == CacheKey(v.tables, q)
    ensures Lookup(v.store, q).Some? ==> FromStore(v.store, q, e.message)
    ensures Lookup(v.store, q).None? ==> FromUpstream(v.tables, received, e.key, e.message)
  {
    hide Lookup, CacheKey, FromStore, FromUpstream, TablesOk, StoreNamed;
    if Lookup(v.store, q).None? {
      forall p | CacheKey(v.tables, p) == e.key ensures Lookup(v.store, p).None? {
        LookupByKey(v.tables, v.store, q, p);
      }
    }
  }

  lemma ResolveStep(v: Server, s: History, q: Query, w: Moment)
    requires v.Sound() && Inv(v, s)
    ensures var (s', r) := Resolve(v, s, q, w);
            Inv(v, s') && (q.question.Some? ==> Truthful(v, s, q.question.value, w, s', r))
  {
    if q.question.Some? {
      var question := q.question.value;
      GetKeepsInv(v, s, question, w.now);
      var (cache, hit) := CacheGet(v, s, question, w.now);
      var s1 := s.(cache := cache);
      hide EntryOk, Inv, Lookup, CacheGet, CacheKey, CacheSet, AskUpstream, Lifetime, SameRecord;
      if hit.Some? {
        HitTruthful(v, s.received, question, Entry(CacheKey(v.tables, question), hit.value, 0, 0));
      } else if Lookup(v.store, question).Some? {
        var m := OwnAnswer(Lookup(v.store, question).value);
        StoreEntryOk(v, s.received, question, Entry(CacheKey(v.tables, question), m, w.now, w.now + Lifetime(v.config, m)));
        SetKeepsInv(v, s1, question, m, w);
        SetKeepsLog(v, s1, question, m, w);
        SameAsItself(m.answer);
      } else if w.hasUpstreams {
        AskKeepsInv(v, s1, q, w);
      }
    }
  }

  lemma SameAsItself(rs: seq<Record>)
    ensures SameRecords(rs, rs)
  {
  }

  lemma SetKeepsLog(v: Server, s: History, q: Question, m: Message, w: Moment)
    requires v.Sound()
    ensures CacheSet(v, s, q, m, w).asked == s.asked && CacheSet(v, s, q, m, w).received == s.received
  {
    hide ListSet;
  }

  lemma {:induction false} RunKeepsInv(v: Server, steps: seq<(Query, Moment)>)
    requires v.Sound()
    ensures Inv(v, Run(v, steps))
  {
    hide Inv, Resolve;
    if steps == [] {
      StartInv(v);
    } else {
      RunKeepsInv(v, steps[..|steps| - 1]);
      ResolveStep(v, Run(v, steps[..|steps| - 1]), steps[|steps| - 1].0, steps[|steps| - 1].1);
    }
  }

  lemma StartInv(v: Server)
    ensures Inv(v, Start)
  {
  }

  /**
   * In every run from an empty cache: no question of the store was ever sent upstream, what was sent
   * carries DO exactly if its client set it, and the next resolution is truthful.
   */
  lemma EveryRunTruthful(v: Server, steps: seq<(Query, Moment)>, q: Query, w: Moment)
    requires v.Sound()
    ensures var s := Run(v, steps);
            && (forall a <- s.asked :: Lookup(v.store, a.question).None? && OptsOk(a))
            && (q.question.Some? ==>
                  var (s', r) := Resolve(v, s, q, w);
                  Truthful(v, s, q.question.value, w, s', r))
  {
    hide Truthful, Resolve, EntryOk;
    RunKeepsInv(v, steps);
    ResolveStep(v, Run(v, steps), q, w);
  }

  /**
   * A client that sends size 512 with DO: both that record and one without DO go upstream, and a
   * retry carries three OPT records.
   */
  lemma DoGoesUpstream(v: Server, question: Question, w: Moment)
    requires v.Sound() && Lookup(v.store, question).None? && w.hasUpstreams
    ensures var s := Resolve(v, Start, Query(Some(question), [Opt(512, true)]), w).0;
            && s.asked != [] && s.asked[0].opts == [Opt(512, true), Opt(512, false)] && CarriesDo(s.asked[0].opts)
            && (w.first.Reply? && w.first.truncated ==>
                  |s.asked| == 2 && s.asked[1].opts == [Opt(512, true), Opt(512, false), Opt(65535, false)])
  {
    hide Lookup, CacheKey, AskUpstream, FirstOpts, RetryOpts;
    var q := Query(Some(question), [Opt(512, true)]);
    var cache := CacheGet(v, Start, question, w.now).0;
    assert CacheGet(v, Start, question, w.now).1.None?;
    AskedAndCached(v, Start.(cache := cache), q, w);
    OptsWithDo();
  }

  lemma OptsWithDo()
    ensures FirstOpts([Opt(512, true)]) == [Opt(512, true), Opt(512, false)]
    ensures RetryOpts([Opt(512, true)]) == [Opt(512, true), Opt(512, false), Opt(65535, false)]
    ensures CarriesDo([Opt(512, true), Opt(512, false)])
  {
    assert Opt(512, true) in [Opt(512, true), Opt(512, false)];
  }
}
