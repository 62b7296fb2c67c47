/** What the client itself brings about: its pings, sent one after the other, complete their query. */
module FragmentDelivery {
  import opened Bytes
  import Addressing
  import opened FragmentProtocol
  import S = FragmentSafety

  /** One query's pieces, arriving in order from connections `base`, `base + 1`, ... at the given times. */
  datatype Sending = Sending(key: Key, pieces: seq<bytes>, times: seq<int>, base: Tid) {
    /** No pause is long enough for the set to be purged. */
    predicate Timely() {
      |times| == |pieces| && forall i | 0 < i < |times| :: times[i] - times[i - 1] <= 2 * FRAGMENT_TIMEOUT
    }

    predicate Steady() { Addressing.MIN_PIECES <= |pieces| <= Addressing.MAX_PIECES && Timely() }

    /** Nothing of this query has arrived yet. */
    predicate Unseen(s: System) { key !in s.sets && forall t <- s.threads :: t < base }

    function Entry(i: nat): (a: Action)
      requires i < |pieces| && |times| == |pieces|
      ensures a.Enter?
    {
      Enter(base + i, key, i + 1, |pieces|, pieces[i], times[i])
    }

    function Arrival(i: nat): seq<Action>
      requires i < |pieces| && |times| == |pieces|
    {
      [Entry(i), Insert(base + i)]
    }

    function Arrivals(n: nat): seq<Action>
      requires n <= |pieces| && |times| == |pieces|
    {
      if n == 0 then [] else Arrivals(n - 1) + Arrival(n - 1)
    }

    /** The set once the first n pieces are in. */
    function SetAfter(n: nat): SetState
      requires 0 < n <= |pieces| && |times| == |pieces|
    {
      SetState(FirstPieces(pieces, n), |pieces|, n == |pieces|, false, None, 0, times[n - 1])
    }

    /** What connection n + 1 finds, touched. */
    function SetFound(n: nat): SetState
      requires n < |pieces| && |times| == |pieces|
    {
      (if n == 0 then EmptySet else SetAfter(n)).(lastSeen := times[n])
    }

    predicate Arrived(s: System, id: nat, n: nat)
      requires n <= |pieces| && |times| == |pieces|
    {
      && (forall t <- s.threads :: t < base + n)
      && if n == 0 then key !in s.sets && id == |s.arena|
         else key in s.sets && s.sets[key] == id < |s.arena| && s.arena[id] == SetAfter(n)
              && base + n - 1 in s.threads
              && (n == |pieces| ==> s.threads[base + n - 1] == Completing(id))
    }
  }

  function FirstPieces(pieces: seq<bytes>, n: nat): map<nat, bytes>
    requires n <= |pieces|
  {
    if n == 0 then map[] else FirstPieces(pieces, n - 1)[n := pieces[n - 1]]
  }

  lemma {:induction false} FirstPiecesAre(pieces: seq<bytes>, n: nat)
    requires n <= |pieces|
    ensures var m := FirstPieces(pieces, n);
            && |m| == n
            && (forall i: nat :: i in m <==> 1 <= i <= n)
            && (forall i: nat <- m :: m[i] == pieces[i - 1])
  {
    if n > 0 {
      FirstPiecesAre(pieces, n - 1);
      assert n !in FirstPieces(pieces, n - 1);
    }
  }

  lemma {:induction false} RunAppend(plan: Plan, s: System, a: seq<Action>, b: seq<Action>)
    requires IsRun(plan, s, a) && IsRun(plan, After(plan, s, a), b)
    ensures IsRun(plan, s, a + b) && After(plan, s, a + b) == After(plan, After(plan, s, a), b)
    decreases |a|
  {
    hide Apply, Enabled, Admissible;
    if a == [] {
      assert a + b == b;
    } else {
      RunAppend(plan, Apply(s, a[0]), a[1..], b);
      assert (a + b)[0] == a[0] && (a + b)[1..] == a[1..] + b;
    }
  }

  lemma RunOne(plan: Plan, s: System, a: Action)
    requires Enabled(s, a) && Admissible(plan, a)
    ensures IsRun(plan, s, [a]) && After(plan, s, [a]) == Apply(s, a)
  {
    hide Apply, Enabled, Admissible;
    assert [a][1..] == [];
    assert IsRun(plan, Apply(s, a), []);
  }

  lemma RunTwo(plan: Plan, s: System, a: Action, b: Action)
    requires Enabled(s, a) && Admissible(plan, a) && Enabled(Apply(s, a), b) && Admissible(plan, b)
    ensures IsRun(plan, s, [a, b]) && After(plan, s, [a, b]) == Apply(Apply(s, a), b)
  {
    hide *;
    RunOne(plan, s, a);
    RunOne(plan, Apply(s, a), b);
    RunAppend(plan, s, [a], [b]);
    assert [a] + [b] == [a, b];
  }

  lemma PieceInserted(d: Sending, n: nat, before: SetState)
    requires d.Steady() && n < |d.pieces| && before == d.SetFound(n)
    ensures InsertPiece(before, n + 1, |d.pieces|, d.pieces[n]) == (d.SetAfter(n + 1), n + 1 == |d.pieces|)
  {
    FirstPiecesAre(d.pieces, n);
    FirstPiecesAre(d.pieces, n + 1);
    assert before.pieces == FirstPieces(d.pieces, n);
    assert FirstPieces(d.pieces, n + 1) == before.pieces[n + 1 := d.pieces[n]];
  }

  /** The set of the earlier pieces is still there, or there is none yet. */
  lemma EnterStep(s: System, d: Sending, id: nat, n: nat)
    requires d.Steady() && n < |d.pieces| && d.Arrived(s, id, n)
    ensures var enter := d.Arrival(n)[0];
            && Enabled(s, enter)
            && var s' := Apply(s, enter);
               && id < |s'.arena| && d.key in s'.sets && s'.sets[d.key] == id && s'.arena[id] == d.SetFound(n)
               && s'.threads == s.threads[d.base + n := Entered(id, n + 1, |d.pieces|, d.pieces[n])]
  {
    hide FirstPieces;
  }

  lemma InsertStep(s: System, d: Sending, id: nat, n: nat, threads: map<Tid, Phase>)
    requires d.Steady() && n < |d.pieces| && forall t <- threads :: t < d.base + n
    requires id < |s.arena| && d.key in s.sets && s.sets[d.key] == id && s.arena[id] == d.SetFound(n)
    requires s.threads == threads[d.base + n := Entered(id, n + 1, |d.pieces|, d.pieces[n])]
    ensures var insert := d.Arrival(n)[1];
            Enabled(s, insert) && d.Arrived(Apply(s, insert), id, n + 1)
  {
    PieceInserted(d, n, s.arena[id]);
    InsertIs(s, d.base + n);
    hide FirstPieces, InsertPiece, Apply, Sending.SetFound;
  }

  lemma InsertIs(s: System, t: Tid)
    requires Enabled(s, Insert(t))
    ensures var p, s' := s.threads[t], Apply(s, Insert(t));
            var (set', completer) := InsertPiece(s.arena[p.id], p.index, p.total, p.piece);
            && s'.arena == s.arena[p.id := set'] && s'.sets == s.sets
            && s'.threads.Keys == s.threads.Keys
            && (completer ==> s'.threads[t] == Completing(p.id))
  {
    hide InsertPiece;
  }

  lemma ArrivalStep(plan: Plan, s: System, d: Sending, id: nat, n: nat)
    requires d.Steady() && n < |d.pieces| && d.Arrived(s, id, n)
    requires d.key in plan ==> plan[d.key] == d.pieces
    ensures IsRun(plan, s, d.Arrival(n)) && d.Arrived(After(plan, s, d.Arrival(n)), id, n + 1)
  {
    var enter, insert := d.Arrival(n)[0], d.Arrival(n)[1];
    EnterStep(s, d, id, n);
    ArrivedThreads(s, d, id, n);
    InsertStep(Apply(s, enter), d, id, n, s.threads);
    assert Admissible(plan, enter) && Admissible(plan, insert);
    assert d.Arrival(n) == [enter, insert];
    hide *;
    RunTwo(plan, s, enter, insert);
  }

  lemma ArrivedThreads(s: System, d: Sending, id: nat, n: nat)
    requires d.Steady() && n <= |d.pieces| && d.Arrived(s, id, n)
    ensures forall t <- s.threads :: t < d.base + n
  {
  }

  lemma {:induction false} AllArrive(plan: Plan, s: System, d: Sending, n: nat)
    requires d.Steady() && d.Unseen(s) && n <= |d.pieces|
    requires d.key in plan ==> plan[d.key] == d.pieces
    ensures IsRun(plan, s, d.Arrivals(n)) && d.Arrived(After(plan, s, d.Arrivals(n)), |s.arena|, n)
  {
    hide Apply, Enabled, Admissible, FirstPieces;
    if n > 0 {
      AllArrive(plan, s, d, n - 1);
      var s' := After(plan, s, d.Arrivals(n - 1));
      ArrivalStep(plan, s', d, |s.arena|, n - 1);
      RunAppend(plan, s, d.Arrivals(n - 1), d.Arrival(n - 1));
    }
  }

  lemma JoinStep(s: System, d: Sending, id: nat)
    requires d.Steady() && d.Arrived(s, id, |d.pieces|)
    ensures var last := d.base + |d.pieces| - 1;
            && Enabled(s, Join(last))
            && var threads := Apply(s, Join(last)).threads;
               last in threads && threads[last] == Resolving(id, Flatten(d.pieces))
  {
    var n := |d.pieces|;
    FirstPiecesAre(d.pieces, n);
    AssembledIsFlatten(d.pieces, FirstPieces(d.pieces, n), n);
    assert d.pieces[..n] == d.pieces;
    hide FirstPieces, Assembled, Flatten;
  }

  /**
   * Whatever went on before under other keys: when the pieces of a query arrive in order and in
   * time, the last connection becomes the completer, with the whole query in its hands.
   */
  lemma LastPieceCompletes(plan: Plan, s: System, d: Sending)
    requires d.Steady() && d.Unseen(s)
    requires d.key in plan ==> plan[d.key] == d.pieces
    ensures var last := d.base + |d.pieces| - 1;
            var actions := d.Arrivals(|d.pieces|) + [Join(last)];
            && IsRun(plan, s, actions)
            && var threads := After(plan, s, actions).threads;
               last in threads && threads[last] == Resolving(|s.arena|, Flatten(d.pieces))
  {
    hide IsRun, After, Apply, Enabled, Flatten, Sending.Arrived, Sending.Arrivals, Sending.Unseen;
    var n, last := |d.pieces|, d.base + |d.pieces| - 1;
    AllArrive(plan, s, d, n);
    JoinStep(After(plan, s, d.Arrivals(n)), d, |s.arena|);
    RunSnoc(plan, s, d.Arrivals(n), Join(last));
  }

  lemma RunSnoc(plan: Plan, s: System, actions: seq<Action>, a: Action)
    requires IsRun(plan, s, actions) && Enabled(After(plan, s, actions), a) && Admissible(plan, a)
    ensures IsRun(plan, s, actions + [a])
    ensures After(plan, s, actions + [a]) == Apply(After(plan, s, actions), a)
  {
    hide *;
    RunOne(plan, After(plan, s, actions), a);
    RunAppend(plan, s, actions, [a]);
  }

  // ----- arrivals among other connections

  /** Nobody's connection arrives more than the retention time after the key's latest one. */
  predicate Unhurried(key: Key, last: Option<int>, actions: seq<Action>)
    decreases |actions|
  {
    actions == [] ||
    (InTime(last, actions[0]) && Unhurried(key, LastArrival(key, last, actions[0]), actions[1..]))
  }

  predicate InTime(last: Option<int>, a: Action) {
    a.Enter? && last.Some? ==> a.now - last.value <= 2 * FRAGMENT_TIMEOUT
  }

  function LastArrival(key: Key, last: Option<int>, a: Action): Option<int> {
    if a.Enter? && a.key == key then Some(a.now) else last
  }

  /** The connections of the key so far, each with the index of its piece. */
  function Connections(key: Key, arrived: map<Tid, nat>, actions: seq<Action>): map<Tid, nat>
    decreases |actions|
  {
    if actions == [] then arrived else Connections(key, Arriving(key, arrived, actions[0]), actions[1..])
  }

  function Arriving(key: Key, arrived: map<Tid, nat>, a: Action): map<Tid, nat> {
    if a.Enter? && a.key == key then arrived[a.tid := a.index] else arrived
  }

  /** A connection of the key: its piece is still to be stored, or is in the set. */
  predicate Accounted(s: System, id: nat, t: Tid, index: nat) {
    t in s.threads && s.threads[t].id == id < |s.arena|
    && if s.threads[t].Entered? then s.threads[t].index == index else index in s.arena[id].pieces
  }

  ghost predicate Gathering(s: System, key: Key, last: Option<int>, arrived: map<Tid, nat>) {
    if last.None? then key !in s.sets && arrived == map[]
    else
      && key in s.sets && s.sets[key] < |s.arena|
      && s.arena[s.sets[key]].lastSeen == last.value
      && forall t <- arrived :: Accounted(s, s.sets[key], t, arrived[t])
  }

  /** Entering in time finds the set of the key where it was; only its own connections touch it. */
  lemma EnterKeepsSet(plan: Plan, s: System, a: Action, key: Key)
    requires a.Enter? && Enabled(s, a) && SetsOk(plan, s) && Live(s, key, a.now)
    ensures var s', id := Apply(s, a), s.sets[key];
            && key in s'.sets && s'.sets[key] == id < |s'.arena| && |s.arena| <= |s'.arena|
            && s'.arena[id] == (if a.key == key then s.arena[id].(lastSeen := a.now) else s.arena[id])
            && s'.threads == s.threads[a.tid := s'.threads[a.tid]]
            && s'.threads[a.tid].Entered? && s'.threads[a.tid].index == a.index
            && (a.key == key ==> s'.threads[a.tid].id == id)
  {
    hide SetProgress, SetFollowsPlan;
  }

  /** The first connection of the key makes the set. */
  lemma EnterMakesSet(s: System, a: Action, key: Key)
    requires a.Enter? && Enabled(s, a) && key !in s.sets
    ensures var s' := Apply(s, a);
            if a.key == key then
              && key in s'.sets && s'.sets[key] < |s'.arena| && s'.arena[s'.sets[key]].lastSeen == a.now
              && a.tid in s'.threads && s'.threads[a.tid] == Entered(s'.sets[key], a.index, a.total, a.piece)
            else key !in s'.sets
  {
  }

  lemma EnterGathers(plan: Plan, s: System, a: Action, key: Key, last: Option<int>, arrived: map<Tid, nat>)
    requires a.Enter? && Enabled(s, a) && SetsOk(plan, s) && Gathering(s, key, last, arrived) && InTime(last, a)
    ensures Gathering(Apply(s, a), key, LastArrival(key, last, a), Arriving(key, arrived, a))
  {
    var s' := Apply(s, a);
    if last.Some? {
      var id := s.sets[key];
      EnterKeepsSet(plan, s, a, key);
      assert a.tid !in s.threads;
      hide Apply, Enabled, SetsOk, Live;
      forall t <- arrived ensures Accounted(s', id, t, arrived[t]) {
        assert Accounted(s, id, t, arrived[t]);
      }
    } else {
      EnterMakesSet(s, a, key);
      hide Apply, Enabled, SetsOk;
    }
  }

  lemma InsertGathers(s: System, a: Action, key: Key, last: Option<int>, arrived: map<Tid, nat>)
    requires a.Insert? && Enabled(s, a) && Gathering(s, key, last, arrived)
    ensures Gathering(Apply(s, a), key, last, arrived)
  {
    var s' := Apply(s, a);
    if last.Some? {
      forall t <- arrived ensures Accounted(s', s.sets[key], t, arrived[t]) {
        assert Accounted(s, s.sets[key], t, arrived[t]);
      }
    }
  }

  lemma LaterGathers(s: System, a: Action, key: Key, last: Option<int>, arrived: map<Tid, nat>)
    requires !a.Enter? && !a.Insert? && Enabled(s, a) && Gathering(s, key, last, arrived)
    ensures Gathering(Apply(s, a), key, last, arrived)
  {
    var s' := Apply(s, a);
    if last.Some? {
      forall t <- arrived ensures Accounted(s', s.sets[key], t, arrived[t]) {
        assert Accounted(s, s.sets[key], t, arrived[t]);
      }
    }
  }

  /** Whatever else goes on in between, the set of the key gathers its pieces and is not purged. */
  lemma {:induction false} RunGathers(plan: Plan, s: System, actions: seq<Action>, key: Key, last: Option<int>,
                                      arrived: map<Tid, nat>)
    returns (last': Option<int>)
    requires Inv(plan, s) && IsRun(plan, s, actions)
    requires Gathering(s, key, last, arrived) && Unhurried(key, last, actions)
    ensures Gathering(After(plan, s, actions), key, last', Connections(key, arrived, actions))
    decreases |actions|
  {
    hide Gathering, Apply, Enabled, Admissible, InTime, LastArrival, Arriving, Inv, SetsOk;
    last' := last;
    if actions != [] {
      var a := actions[0];
      S.StepKeepsInv(plan, s, a);
      if a.Enter? {
        assert SetsOk(plan, s) by { S.UnfoldInv(plan, s); }
        EnterGathers(plan, s, a, key, last, arrived);
      } else {
        NotArriving(key, last, arrived, a);
        if a.Insert? {
          InsertGathers(s, a, key, last, arrived);
        } else {
          LaterGathers(s, a, key, last, arrived);
        }
      }
      last' := RunGathers(plan, Apply(s, a), actions[1..], key, LastArrival(key, last, a), Arriving(key, arrived, a));
    }
  }

  lemma NotArriving(key: Key, last: Option<int>, arrived: map<Tid, nat>, a: Action)
    requires !a.Enter?
    ensures LastArrival(key, last, a) == last && Arriving(key, arrived, a) == arrived
  {
  }

  /** Every piece of the key has a connection that has stored it. */
  ghost predicate AllStored(s: System, n: nat, arrived: map<Tid, nat>) {
    forall i | 1 <= i <= n :: Stored(s, i, arrived)
  }

  ghost predicate Stored(s: System, i: nat, arrived: map<Tid, nat>) {
    exists t <- arrived :: arrived[t] == i && t in s.threads && !s.threads[t].Entered?
  }

  /**
   * In every run, among any other connections: once each piece of a query has been stored by some
   * connection and none was late, a connection is the query's completer, and if it has got as far
   * as reassembling, it has the whole query.
   */
  lemma AllStoredCompletes(plan: Plan, s: System, actions: seq<Action>, key: Key) returns (t: Tid)
    requires Inv(plan, s) && IsRun(plan, s, actions) && key in plan && |plan[key]| > 0
    requires key !in s.sets && Unhurried(key, None, actions)
    requires AllStored(After(plan, s, actions), |plan[key]|, Connections(key, map[], actions))
    ensures var s' := After(plan, s, actions);
            && t in s'.threads && IsCompleter(s'.threads[t])
            && key in s'.sets && s'.threads[t].id == s'.sets[key]
            && (s'.threads[t].Resolving? ==> s'.threads[t].text == Flatten(plan[key]))
  {
    var s' := After(plan, s, actions);
    var arrived := Connections(key, map[], actions);
    S.RunKeepsInv(plan, s, actions);
    var last := RunGathers(plan, s, actions, key, None, map[]);
    hide After, IsRun, Connections, Unhurried;
    t := CompleterOfFull(plan, s', key, last, arrived);
  }

  lemma CompleterOfFull(plan: Plan, s: System, key: Key, last: Option<int>, arrived: map<Tid, nat>)
    returns (t: Tid)
    requires Inv(plan, s) && key in plan && |plan[key]| > 0 && AllStored(s, |plan[key]|, arrived)
    requires Gathering(s, key, last, arrived)
    ensures t in s.threads && IsCompleter(s.threads[t])
    ensures key in s.sets && s.threads[t].id == s.sets[key]
    ensures s.threads[t].Resolving? ==> s.threads[t].text == Flatten(plan[key])
  {
    var pieces := plan[key];
    assert Stored(s, 1, arrived);
    var id := s.sets[key];
    forall i | 1 <= i <= |pieces| ensures i in s.arena[id].pieces {
      assert Stored(s, i, arrived);
      var t0 :| t0 in arrived && arrived[t0] == i && t0 in s.threads && !s.threads[t0].Entered?;
      assert Accounted(s, id, t0, i);
    }
    FullIsStarted(pieces, s.arena[id]);
    assert id in s.completers;
    t := s.completers[id];
    assert ThreadOk(plan, s, t);
  }

  lemma FullIsStarted(pieces: seq<bytes>, s: SetState)
    requires SetFollowsPlan(pieces, s) && SetProgress(s) && |pieces| > 0
    requires forall i | 1 <= i <= |pieces| :: i in s.pieces
    ensures s.started
  {
    assert s.pieces.Keys == Indices(|pieces|);
    StartedWhenFull(pieces, s);
  }
}
