/** The upstream pool: which upstreams an exchange tries, and how their order moves with response times. */
module UpstreamPool {
  import opened Bytes

  /** An upstream as the ordering sees it; a higher priority number is tried earlier. */
  datatype Upstream = Upstream(name: bytes, priority: int)

  type Averages = map<bytes, real>

  // ----- the order

  /** Go's string order. */
  predicate LessBytes(a: bytes, b: bytes) {
    b != [] && (a == [] || a[0] < b[0] || (a[0] == b[0] && LessBytes(a[1..], b[1..])))
  }

  /** Milliseconds; zero for an upstream that has never answered. */
  function Average(e: Averages, u: Upstream): real { if u.name in e then e[u.name] else 0.0 }

  predicate Less(e: Averages, u: Upstream, v: Upstream) {
    if u.priority != v.priority then u.priority > v.priority
    else if Average(e, u) != Average(e, v) then Average(e, u) < Average(e, v)
    else LessBytes(u.name, v.name)
  }

  lemma {:induction false} LessBytesLaws(a: bytes, b: bytes, c: bytes)
    ensures !(LessBytes(a, b) && LessBytes(b, a))
    ensures a != b ==> LessBytes(a, b) || LessBytes(b, a)
    ensures LessBytes(a, b) && LessBytes(b, c) ==> LessBytes(a, c)
  {
    if a != [] && b != [] {
      LessBytesLaws(a[1..], b[1..], if c == [] then [] else c[1..]);
      assert a == [a[0]] + a[1..] && b == [b[0]] + b[1..];
    }
  }

  lemma LessLaws(e: Averages, u: Upstream, v: Upstream, w: Upstream)
    ensures !(Less(e, u, v) && Less(e, v, u))
    ensures u != v ==> Less(e, u, v) || Less(e, v, u)
    ensures Less(e, u, v) && Less(e, v, w) ==> Less(e, u, w)
  {
    hide LessBytes;
    LessBytesLaws(u.name, v.name, w.name);
  }

  predicate Ordered(e: Averages, list: seq<Upstream>) {
    forall i, j | 0 <= i < j < |list| :: !Less(e, list[j], list[i])
  }

  // ----- sorting: any algorithm gives this result

  function Insert(e: Averages, u: Upstream, list: seq<Upstream>): seq<Upstream> {
    if list == [] || Less(e, u, list[0]) then [u] + list else [list[0]] + Insert(e, u, list[1..])
  }

  function Sort(e: Averages, list: seq<Upstream>): seq<Upstream> {
    if list == [] then [] else Insert(e, list[0], Sort(e, list[1..]))
  }

  lemma OrderedCons(e: Averages, u: Upstream, list: seq<Upstream>)
    ensures Ordered(e, [u] + list) <==> Ordered(e, list) && forall v <- list :: !Less(e, v, u)
  {
    hide Less;
    var all := [u] + list;
    assert forall i | 0 <= i < |list| :: all[i + 1] == list[i];
    if Ordered(e, all) {
      forall i, j | 0 <= i < j < |list| ensures !Less(e, list[j], list[i]) {
        assert !Less(e, all[j + 1], all[i + 1]);
      }
      forall v <- list ensures !Less(e, v, u) {
        var k :| 0 <= k < |list| && list[k] == v;
        assert !Less(e, all[k + 1], all[0]);
      }
    } else {
      var i, j :| 0 <= i < j < |all| && Less(e, all[j], all[i]);
      assert all[j] == list[j - 1] && (i > 0 ==> all[i] == list[i - 1]);
    }
  }

  lemma {:induction false} InsertMembers(e: Averages, u: Upstream, list: seq<Upstream>)
    ensures multiset(Insert(e, u, list)) == multiset(list) + multiset{u}
    ensures forall v :: v in Insert(e, u, list) <==> v == u || v in list
  {
    InsertMultiset(e, u, list);
    hide Insert;
    SameElements(Insert(e, u, list), u, list);
  }

  lemma {:induction false} InsertMultiset(e: Averages, u: Upstream, list: seq<Upstream>)
    ensures multiset(Insert(e, u, list)) == multiset(list) + multiset{u}
  {
    hide Less;
    if list != [] && !Less(e, u, list[0]) {
      InsertMultiset(e, u, list[1..]);
      assert list == [list[0]] + list[1..];
    }
  }

  lemma SameElements(all: seq<Upstream>, u: Upstream, list: seq<Upstream>)
    requires multiset(all) == multiset(list) + multiset{u}
    ensures forall v :: v in all <==> v == u || v in list
  {
    forall v ensures v in all <==> v == u || v in list {
      assert v in all <==> v in multiset(all);
      assert v in list <==> v in multiset(list);
    }
  }

  lemma {:induction false} InsertOrdered(e: Averages, u: Upstream, list: seq<Upstream>)
    requires Ordered(e, list)
    ensures Ordered(e, Insert(e, u, list))
  {
    hide Less, Ordered;
    if list == [] {
      OrderedCons(e, u, []);
      assert Ordered(e, []) by { OrderedNone(e); }
    } else {
      var head, tail := list[0], list[1..];
      assert list == [head] + tail;
      OrderedCons(e, head, tail);
      if Less(e, u, head) {
        forall v <- list ensures !Less(e, v, u) {
          LessLaws(e, v, u, head);
          LessLaws(e, head, v, u);
        }
        OrderedCons(e, u, list);
      } else {
        InsertOrdered(e, u, tail);
        InsertMembers(e, u, tail);
        OrderedCons(e, head, Insert(e, u, tail));
      }
    }
  }

  lemma OrderedNone(e: Averages)
    ensures Ordered(e, [])
  {
  }

  /** The result is in order and holds the same upstreams. */
  lemma {:induction false} SortOrders(e: Averages, list: seq<Upstream>)
    ensures Ordered(e, Sort(e, list)) && multiset(Sort(e, list)) == multiset(list)
  {
    OrderedNone(e);
    hide Less, Ordered, Insert;
    if list != [] {
      SortOrders(e, list[1..]);
      InsertOrdered(e, list[0], Sort(e, list[1..]));
      InsertMembers(e, list[0], Sort(e, list[1..]));
      assert list == [list[0]] + list[1..];
    }
  }

  lemma TailMembers(a: seq<Upstream>)
    requires a != []
    ensures multiset(a[1..]) == multiset(a) - multiset{a[0]}
  {
    assert a == [a[0]] + a[1..];
  }

  /** The order is total, so being in order and holding the same upstreams determines the list. */
  lemma {:induction false} OrderDeterminesList(e: Averages, a: seq<Upstream>, b: seq<Upstream>)
    requires Ordered(e, a) && Ordered(e, b) && multiset(a) == multiset(b)
    ensures a == b
  {
    hide Less, Ordered;
    assert |a| == |multiset(a)| == |multiset(b)| == |b|;
    if a != [] {
      FirstsAgree(e, a, b);
      TailMembers(a);
      TailMembers(b);
      assert a == [a[0]] + a[1..] && b == [b[0]] + b[1..];
      OrderedCons(e, a[0], a[1..]);
      OrderedCons(e, b[0], b[1..]);
      OrderDeterminesList(e, a[1..], b[1..]);
    }
  }

  lemma FirstsAgree(e: Averages, a: seq<Upstream>, b: seq<Upstream>)
    requires a != [] && b != [] && Ordered(e, a) && Ordered(e, b) && multiset(a) == multiset(b)
    ensures a[0] == b[0]
  {
    hide Less;
    assert a[0] in multiset(b) && b[0] in multiset(a);
    var i :| 0 <= i < |b| && b[i] == a[0];
    var j :| 0 <= j < |a| && a[j] == b[0];
    LessLaws(e, a[0], b[0], a[0]);
  }

  // ----- one exchange

  datatype Reply = Answered | Failed | Nothing

  datatype State = State(list: seq<Upstream>, averages: Averages, samples: map<bytes, seq<real>>)

  /** 0.3 of the new sample, 0.7 of the past; the first sample counts whole. `samples` records history. */
  function Recorded(s: State, name: bytes, sample: real): State {
    var average := if name in s.averages then 0.3 * sample + 0.7 * s.averages[name] else sample;
    var averages := s.averages[name := average];
    var past := if name in s.samples then s.samples[name] else [];
    State(Sort(averages, s.list), averages, s.samples[name := past + [sample]])
  }

  /**
   * How many upstreams are tried: up to the first answer, the end of the list, or the moment the
   * request is over. `replies[k]` is what the k-th tried upstream would return.
   */
  function Tries(replies: seq<Reply>, limit: nat): nat
    requires limit <= |replies|
  {
    if limit == 0 then 0
    else if replies[0] == Answered then 1
    else 1 + Tries(replies[1..], limit - 1)
  }

  /** The environment of one exchange: replies in list order, and when the context is done. */
  datatype Attempt = Attempt(replies: seq<Reply>, limit: nat, sample: real)

  predicate Possible(s: State, a: Attempt) { a.limit <= |a.replies| == |s.list| }

  function Tried(s: State, a: Attempt): seq<Upstream>
    requires Possible(s, a)
  {
    var n := Tries(a.replies, a.limit);
    if n <= |s.list| then s.list[..n] else s.list
  }

  function Winner(s: State, a: Attempt): Option<Upstream>
    requires Possible(s, a)
  {
    var n := Tries(a.replies, a.limit);
    if 0 < n <= |s.list| && a.replies[n - 1] == Answered then Some(s.list[n - 1]) else None
  }

  function Step(s: State, a: Attempt): State
    requires Possible(s, a)
  {
    match Winner(s, a)
    case Some(u) => Recorded(s, u.name, a.sample)
    case None => s
  }

  lemma {:induction false} TriesExact(replies: seq<Reply>, limit: nat)
    requires limit <= |replies|
    ensures var n := Tries(replies, limit);
            && n <= limit
            && (forall k | 0 <= k < n - 1 :: replies[k] != Answered)
            && (n < limit ==> n > 0 && replies[n - 1] == Answered)
  {
    if limit > 0 && replies[0] != Answered {
      TriesExact(replies[1..], limit - 1);
    }
  }

  /**
   * A tried upstream means that every upstream of a higher priority has been tried and has failed,
   * and the exchange is lost only if all upstreams failed or the request was over.
   */
  lemma HigherTiersFailFirst(s: State, a: Attempt, k: nat, j: nat)
    requires Possible(s, a) && Ordered(s.averages, s.list) && k < |Tried(s, a)| && j < |s.list|
    ensures Tried(s, a)[k] == s.list[k]
    ensures s.list[j].priority > s.list[k].priority ==> j < k && a.replies[j] != Answered
    ensures Winner(s, a).None? ==> |Tried(s, a)| == a.limit && a.replies[k] != Answered
  {
    TriesExact(a.replies, a.limit);
    if s.list[j].priority > s.list[k].priority {
      assert Less(s.averages, s.list[j], s.list[k]);
      assert j != k;
    }
  }

  // ----- runs

  predicate WithinSamples(x: real, samples: seq<real>) {
    && (exists i :: 0 <= i < |samples| && samples[i] <= x)
    && (exists i :: 0 <= i < |samples| && x <= samples[i])
  }

  ghost predicate Inv(original: seq<Upstream>, s: State) {
    && multiset(s.list) == multiset(original)
    && Ordered(s.averages, s.list)
    && s.averages.Keys == s.samples.Keys
    && forall name <- s.averages :: WithinSamples(s.averages[name], s.samples[name])
  }

  function Create(original: seq<Upstream>): State { State(Sort(map[], original), map[], map[]) }

  lemma WeightedMean(sample: real, past: real, samples: seq<real>)
    requires WithinSamples(past, samples)
    ensures WithinSamples(0.3 * sample + 0.7 * past, samples + [sample])
  {
    var mean, all := 0.3 * sample + 0.7 * past, samples + [sample];
    var lo :| 0 <= lo < |samples| && samples[lo] <= past;
    var hi :| 0 <= hi < |samples| && past <= samples[hi];
    assert all[lo] == samples[lo] && all[hi] == samples[hi] && all[|samples|] == sample;
    if sample <= past {
      assert all[|samples|] <= mean <= all[hi];
    } else {
      assert all[lo] <= mean <= all[|samples|];
    }
  }

  lemma RecordedKeepsInv(original: seq<Upstream>, s: State, name: bytes, sample: real)
    requires Inv(original, s)
    ensures Inv(original, Recorded(s, name, sample))
  {
    hide Ordered, Sort;
    var s' := Recorded(s, name, sample);
    SortOrders(s'.averages, s.list);
    if name in s.averages {
      WeightedMean(sample, s.averages[name], s.samples[name]);
    } else {
      assert s'.samples[name][0] == sample;
    }
    hide WithinSamples;
  }

  predicate IsRun(s: State, attempts: seq<Attempt>)
    decreases |attempts|
  {
    attempts == [] || (Possible(s, attempts[0]) && IsRun(Step(s, attempts[0]), attempts[1..]))
  }

  function After(s: State, attempts: seq<Attempt>): State
    requires IsRun(s, attempts)
    decreases |attempts|
  {
    if attempts == [] then s else After(Step(s, attempts[0]), attempts[1..])
  }

  lemma {:induction false} RunKeepsInv(original: seq<Upstream>, s: State, attempts: seq<Attempt>)
    requires Inv(original, s) && IsRun(s, attempts)
    ensures Inv(original, After(s, attempts))
    decreases |attempts|
  {
    hide Inv, Recorded, Possible, Winner;
    if attempts != [] {
      if Winner(s, attempts[0]).Some? {
        RecordedKeepsInv(original, s, Winner(s, attempts[0]).value.name, attempts[0].sample);
      }
      RunKeepsInv(original, Step(s, attempts[0]), attempts[1..]);
    }
  }

  /**
   * After any sequence of exchanges the list is a permutation of the original one, ordered by
   * priority, then average, then name; and each average lies within the samples it came from.
   */
  lemma PoolStaysOrdered(original: seq<Upstream>, attempts: seq<Attempt>)
    requires IsRun(Create(original), attempts)
    ensures Inv(original, After(Create(original), attempts))
  {
    hide Sort, Ordered;
    SortOrders(map[], original);
    RunKeepsInv(original, Create(original), attempts);
  }

  /**
   * So in the next exchange of every run: whatever upstream of the original ones has a higher
   * priority than a tried one has been tried before it, and has failed.
   */
  lemma TiersInEveryRun(original: seq<Upstream>, attempts: seq<Attempt>, a: Attempt, k: nat, u: Upstream)
    requires IsRun(Create(original), attempts) && Possible(After(Create(original), attempts), a)
    requires k < |Tried(After(Create(original), attempts), a)| && u in original
    ensures var tried := Tried(After(Create(original), attempts), a);
            u.priority > tried[k].priority ==> exists j :: 0 <= j < k && tried[j] == u && a.replies[j] != Answered
  {
    var s := After(Create(original), attempts);
    PoolStaysOrdered(original, attempts);
    assert Ordered(s.averages, s.list) && u in multiset(s.list);
    var j :| 0 <= j < |s.list| && s.list[j] == u;
    hide Ordered, After, IsRun, Inv, Create, Tries;
    HigherTiersFailFirst(s, a, k, j);
    if u.priority > s.list[k].priority {
      HigherTiersFailFirst(s, a, j, j);
    }
  }

  // ----- the pool object

  class Pool {
    var upstreamList: seq<Upstream>
    var ewma: Averages
    ghost var history: map<bytes, seq<real>>

    ghost function Now(): State
      reads this
    {
      State(upstreamList, ewma, history)
    }

    constructor (list: seq<Upstream>)
      ensures Now() == Create(list)
    {
      upstreamList, ewma, history := Sort(map[], list), map[], map[];
    }

    method RecordSuccess(u: Upstream, sample: real)
      modifies this
      ensures Now() == Recorded(old(Now()), u.name, sample)
    {
      history := history[u.name := (if u.name in history then history[u.name] else []) + [sample]];
      if u.name in ewma {
        ewma := ewma[u.name := 0.3 * sample + 0.7 * ewma[u.name]];
      } else {
        ewma := ewma[u.name := sample];
      }
      upstreamList := Sort(ewma, upstreamList);
    }

    /** Tries the upstreams of a snapshot in order until one answers or the request is over. */
    method Exchange(a: Attempt) returns (answeredBy: Option<Upstream>)
      requires Possible(Now(), a)
      modifies this
      ensures Now() == Step(old(Now()), a) && answeredBy == Winner(old(Now()), a)
    {
      var snapshot := upstreamList;
      var k := 0;
      while k < |snapshot|
        invariant k <= a.limit <= |snapshot| && Now() == old(Now())
        invariant Tries(a.replies, a.limit) == k + Tries(a.replies[k..], a.limit - k)
        invariant k > 0 ==> a.replies[k - 1] != Answered
      {
        if k == a.limit {
          return None;
        }
        if a.replies[k] == Answered {
          RecordSuccess(snapshot[k], a.sample);
          return Some(snapshot[k]);
        }
        assert a.replies[k..][1..] == a.replies[k + 1..];
        k := k + 1;
      }
      answeredBy := None;
    }
  }
}
