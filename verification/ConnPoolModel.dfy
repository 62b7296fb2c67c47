/**
 * The connection pool of one upstream under arbitrary interleavings of TCP exchanges.
 * Channel operations and mutex sections are the atomic steps.
 */
module ConnPoolModel {
  import opened Bytes

  type Conn = nat
  type Tid = nat

  const IDLE_TIMEOUT: int := 30_000_000_000  // nanoseconds

  datatype Pooled = Pooled(conn: Conn, lastUsed: int)

  predicate Stale(p: Pooled, now: int) { now - p.lastUsed > IDLE_TIMEOUT }

  /** Where an exchange stands; a slot is owed to the pool in the phases that OwesSlot names. */
  datatype Phase =
    | Acquiring                              // at the head of acquire's loop
    | Locking                                // found no idle connection, about to take the mutex
    | Discarding(conn: Conn)                 // closed a stale connection, total not yet decremented
    | Dialing                                // slot reserved
    | DialFailed                             // total not yet decremented
    | Blocked                                // pool full, waiting for an idle connection
    | Holding(conn: Conn, reused: bool)      // exchanging
    | Dropping(conn: Conn, reused: bool)     // closed after a failed exchange, total not yet decremented
    | Overflowing(conn: Conn)                // closed because the idle channel was full
    | Retrying                               // dialing once more, outside the pool
    | RetryHolding(conn: Conn)               // the connection outside the pool
    | Finished(answered: bool)

  /** `acquired` and `released` count what the exchange took from the pool and gave back. */
  datatype Thread = Thread(phase: Phase, acquired: nat, released: nat)

  datatype System = System(idle: seq<Pooled>, total: int, nextConn: Conn, threads: map<Tid, Thread>)

  const Start: System := System([], 0, 0, map[])

  datatype Action =
    | Begin(tid: Tid)
    | TakeIdle(tid: Tid, now: int)
    | FindNone(tid: Tid)
    | Reserve(tid: Tid)
    | Dial(tid: Tid, ok: bool)
    | Decrement(tid: Tid)
    | Wait(tid: Tid)
    | Cancel(tid: Tid)
    | Exchanged(tid: Tid, ok: bool, now: int)
    | RetryDial(tid: Tid, ok: bool)
    | RetryDone(tid: Tid, ok: bool)

  predicate Enabled(s: System, a: Action) {
    if a.Begin? then a.tid !in s.threads
    else
      a.tid in s.threads &&
      var p := s.threads[a.tid].phase;
      match a
      case TakeIdle(_, _) => p.Acquiring? && s.idle != []
      case FindNone(_) => p.Acquiring? && s.idle == []
      case Reserve(_) => p.Locking?
      case Dial(_, _) => p.Dialing?
      case Decrement(_) => p.Discarding? || p.DialFailed? || p.Dropping? || p.Overflowing?
      case Wait(_) => p.Blocked? && s.idle != []
      case Cancel(_) => p.Blocked?
      case Exchanged(_, _, _) => p.Holding?
      case RetryDial(_, _) => p.Retrying?
      case RetryDone(_, _) => p.RetryHolding?
      case Begin(_) => true
  }

  function Moved(s: System, t: Tid, p: Phase): System
    requires t in s.threads
  {
    s.(threads := s.threads[t := s.threads[t].(phase := p)])
  }

  function Acquired(s: System, t: Tid, p: Phase): System
    requires t in s.threads
  {
    s.(threads := s.threads[t := s.threads[t].(phase := p, acquired := s.threads[t].acquired + 1)])
  }

  function Released(s: System, t: Tid, p: Phase): System
    requires t in s.threads
  {
    s.(threads := s.threads[t := s.threads[t].(phase := p, released := s.threads[t].released + 1)])
  }

  /** release(healthy): the connection goes into the idle channel unless that is full. */
  function PutBack(s: System, max: nat, t: Tid, conn: Conn, now: int): System
    requires t in s.threads
  {
    if |s.idle| < max then Released(s.(idle := s.idle + [Pooled(conn, now)]), t, Finished(true))
    else Released(s, t, Overflowing(conn))
  }

  function AfterDecrement(p: Phase): Phase {
    match p
    case Discarding(_) => Acquiring
    case Dropping(_, reused) => if reused then Retrying else Finished(false)
    case Overflowing(_) => Finished(true)
    case _ => Finished(false)
  }

  function Apply(s: System, max: nat, a: Action): System
    requires Enabled(s, a)
  {
    match a
    case Begin(t) => s.(threads := s.threads[t := Thread(Acquiring, 0, 0)])
    case TakeIdle(t, now) =>
      var s' := s.(idle := s.idle[1..]);
      if Stale(s.idle[0], now) then Moved(s', t, Discarding(s.idle[0].conn))
      else Acquired(s', t, Holding(s.idle[0].conn, true))
    case FindNone(t) => Moved(s, t, Locking)
    case Reserve(t) =>
      if s.total < max then Moved(s.(total := s.total + 1), t, Dialing) else Moved(s, t, Blocked)
    case Dial(t, ok) =>
      if ok then Acquired(s.(nextConn := s.nextConn + 1), t, Holding(s.nextConn, false))
      else Moved(s, t, DialFailed)
    case Decrement(t) => Moved(s.(total := s.total - 1), t, AfterDecrement(s.threads[t].phase))
    case Wait(t) => Acquired(s.(idle := s.idle[1..]), t, Holding(s.idle[0].conn, true))
    case Cancel(t) => Moved(s, t, Finished(false))
    case Exchanged(t, ok, now) =>
      var p := s.threads[t].phase;
      if ok then PutBack(s, max, t, p.conn, now) else Released(s, t, Dropping(p.conn, p.reused))
    case RetryDial(t, ok) =>
      if ok then Moved(s.(nextConn := s.nextConn + 1), t, RetryHolding(s.nextConn))
      else Moved(s, t, Finished(false))
    case RetryDone(t, ok) => Moved(s, t, Finished(ok))
  }

  predicate IsRun(s: System, max: nat, actions: seq<Action>)
    decreases |actions|
  {
    actions == [] || (Enabled(s, actions[0]) && IsRun(Apply(s, max, actions[0]), max, actions[1..]))
  }

  function After(s: System, max: nat, actions: seq<Action>): System
    requires IsRun(s, max, actions)
    decreases |actions|
  {
    if actions == [] then s else After(Apply(s, max, actions[0]), max, actions[1..])
  }

  // ----- slots and connections

  predicate IsHeld(p: Phase) { p.Holding? }
  predicate IsDialing(p: Phase) { p.Dialing? || p.DialFailed? }
  predicate IsClosing(p: Phase) { p.Discarding? || p.Dropping? || p.Overflowing? }
  predicate OwesSlot(p: Phase) { IsHeld(p) || IsDialing(p) || IsClosing(p) }

  function Held(s: System): set<Tid> { set t | t in s.threads && IsHeld(s.threads[t].phase) }
  function InDial(s: System): set<Tid> { set t | t in s.threads && IsDialing(s.threads[t].phase) }
  function Closing(s: System): set<Tid> { set t | t in s.threads && IsClosing(s.threads[t].phase) }
  function Owing(s: System): set<Tid> { set t | t in s.threads && OwesSlot(s.threads[t].phase) }

  /** The connections an exchange may still use or is just closing, inside or outside the pool. */
  predicate Uses(p: Phase, conn: Conn) {
    match p
    case Holding(c, _) => c == conn
    case Discarding(c) => c == conn
    case Dropping(c, _) => c == conn
    case Overflowing(c) => c == conn
    case RetryHolding(c) => c == conn
    case _ => false
  }

  predicate Connected(s: System, t: Tid, c: Conn) { t in s.threads && Uses(s.threads[t].phase, c) }

  /** Acquire and release are paired on every path. */
  predicate Paired(th: Thread) {
    match th.phase
    case Holding(_, _) => th.acquired == 1 && th.released == 0
    case Dropping(_, _) => th.acquired == th.released == 1
    case Overflowing(_) => th.acquired == th.released == 1
    case Retrying => th.acquired == th.released == 1
    case RetryHolding(_) => th.acquired == th.released == 1
    case Finished(answered) => th.acquired == th.released <= 1 && (answered ==> th.released == 1)
    case _ => th.acquired == th.released == 0
  }

  predicate Slots(s: System, max: nat) {
    s.total == |s.idle| + |Owing(s)| && s.total <= max
  }

  ghost predicate Connections(s: System) {
    && (forall i | 0 <= i < |s.idle| :: s.idle[i].conn < s.nextConn)
    && (forall i, j | 0 <= i < j < |s.idle| :: s.idle[i].conn != s.idle[j].conn)
    && (forall t: Tid, c: Conn | Connected(s, t, c) :: c < s.nextConn && forall i | 0 <= i < |s.idle| :: s.idle[i].conn != c)
    && (forall t: Tid, u: Tid, c: Conn | Connected(s, t, c) && Connected(s, u, c) :: t == u)
  }

  ghost predicate Inv(s: System, max: nat) {
    && Slots(s, max)
    && Connections(s)
    && (forall t <- s.threads :: Paired(s.threads[t]) && !s.threads[t].phase.Overflowing?)
  }

  // ----- every step

  predicate Owes(s: System, t: Tid) { t in s.threads && OwesSlot(s.threads[t].phase) }

  lemma OwingSplit(s: System, t: Tid)
    ensures |Owing(s)| == |Owing(s) - {t}| + (if Owes(s, t) then 1 else 0)
  {
    hide OwesSlot;
    assert Owes(s, t) ==> Owing(s) == Owing(s) - {t} + {t};
    assert !Owes(s, t) ==> Owing(s) == Owing(s) - {t};
  }

  predicate OnlyMoves(s: System, s': System, t: Tid) {
    && t in s'.threads && s'.threads.Keys == s.threads.Keys + {t}
    && forall u <- s.threads | u != t :: s'.threads[u] == s.threads[u]
  }

  lemma OwingMoves(s: System, s': System, t: Tid)
    requires OnlyMoves(s, s', t)
    ensures |Owing(s')| == |Owing(s)| + (if Owes(s', t) then 1 else 0) - (if Owes(s, t) then 1 else 0)
  {
    OwingSplit(s, t);
    OwingSplit(s', t);
    hide OwesSlot;
    assert Owing(s') - {t} == Owing(s) - {t};
  }

  lemma ApplyMoves(s: System, max: nat, a: Action)
    requires Enabled(s, a)
    ensures OnlyMoves(s, Apply(s, max, a), a.tid)
  {
    hide Stale;
  }

  lemma SlotsStep(s: System, max: nat, a: Action)
    requires Enabled(s, a) && Slots(s, max)
    requires a.tid in s.threads ==> !s.threads[a.tid].phase.Overflowing?
    ensures Slots(Apply(s, max, a), max)
  {
    ApplyMoves(s, max, a);
    OwingMoves(s, Apply(s, max, a), a.tid);
    hide Owing, Stale, OnlyMoves;
  }

  lemma ThreadsStep(s: System, max: nat, a: Action)
    requires Enabled(s, a) && Inv(s, max)
    ensures forall t <- Apply(s, max, a).threads ::
              Paired(Apply(s, max, a).threads[t]) && !Apply(s, max, a).threads[t].phase.Overflowing?
  {
    if a.tid in s.threads && s.threads[a.tid].phase.Holding? {
      RoomForHeld(s, max, a.tid);
    }
    MoverPaired(s, max, a);
    ApplyMoves(s, max, a);
    hide Slots, Connections, Apply, Paired, Enabled;
  }

  lemma MoverPaired(s: System, max: nat, a: Action)
    requires Enabled(s, a)
    requires a.tid in s.threads ==> Paired(s.threads[a.tid]) && !s.threads[a.tid].phase.Overflowing?
    requires a.tid in s.threads && s.threads[a.tid].phase.Holding? ==> |s.idle| < max
    ensures var s' := Apply(s, max, a);
            a.tid in s'.threads && Paired(s'.threads[a.tid]) && !s'.threads[a.tid].phase.Overflowing?
  {
    hide Stale;
  }

  /** A held connection has its slot, so the idle channel has room for it. */
  lemma RoomForHeld(s: System, max: nat, t: Tid)
    requires Slots(s, max) && t in s.threads && s.threads[t].phase.Holding?
    ensures |s.idle| < max
  {
    assert t in Owing(s);
    assert |Owing(s)| >= 1;
  }

  // Connections: an exchange keeps at most what it used, takes the head of the idle channel, gets a
  // connection nobody has seen, or puts its own back.

  lemma OthersConnected(s: System, s': System, t: Tid)
    requires OnlyMoves(s, s', t)
    ensures forall u: Tid, c: Conn | u != t :: Connected(s', u, c) == Connected(s, u, c)
  {
    hide Uses;
  }

  lemma KeepMove(s: System, s': System, t: Tid)
    requires Connections(s) && OnlyMoves(s, s', t) && s'.idle == s.idle && s'.nextConn >= s.nextConn
    requires forall c: Conn | Connected(s', t, c) :: Connected(s, t, c) || s.nextConn <= c < s'.nextConn
    ensures Connections(s')
  {
    hide Uses;
    OthersConnected(s, s', t);
    hide Connected, OnlyMoves;
  }

  lemma TakeMove(s: System, s': System, t: Tid)
    requires Connections(s) && OnlyMoves(s, s', t) && s.idle != [] && s'.idle == s.idle[1..]
    requires s'.nextConn == s.nextConn && forall c: Conn | Connected(s', t, c) :: c == s.idle[0].conn
    ensures Connections(s')
  {
    hide Uses;
    OthersConnected(s, s', t);
    hide Connected, OnlyMoves;
    assert forall i | 0 <= i < |s'.idle| :: s'.idle[i] == s.idle[i + 1];
  }

  lemma PutMove(s: System, s': System, t: Tid, p: Pooled)
    requires Connections(s) && OnlyMoves(s, s', t) && s'.idle == s.idle + [p] && s'.nextConn == s.nextConn
    requires Connected(s, t, p.conn) && forall c: Conn :: !Connected(s', t, c)
    ensures Connections(s')
  {
    hide Uses;
    OthersConnected(s, s', t);
    hide Connected, OnlyMoves;
  }

  lemma ConnectionsStep(s: System, max: nat, a: Action)
    requires Enabled(s, a) && Connections(s)
    ensures Connections(Apply(s, max, a))
  {
    var s', t := Apply(s, max, a), a.tid;
    ApplyMoves(s, max, a);
    hide Connections, Stale, OnlyMoves;
    if a.TakeIdle? || a.Wait? {
      TakeMove(s, s', t);
    } else if a.Exchanged? && a.ok && |s.idle| < max {
      PutMove(s, s', t, Pooled(s.threads[t].phase.conn, a.now));
    } else {
      KeepMove(s, s', t);
    }
  }

  lemma {:induction false} RunKeepsInv(s: System, max: nat, actions: seq<Action>)
    requires Inv(s, max) && IsRun(s, max, actions)
    ensures Inv(After(s, max, actions), max)
    decreases |actions|
  {
    if actions != [] {
      SlotsStep(s, max, actions[0]);
      ThreadsStep(s, max, actions[0]);
      ConnectionsStep(s, max, actions[0]);
      RunKeepsInv(Apply(s, max, actions[0]), max, actions[1..]);
    }
  }

  /**
   * Slot conservation, in every run: each counted slot is an idle connection, a held one, a dial
   * in progress or a connection being closed, and the limit is never exceeded.
   */
  lemma SlotsConserved(max: nat, actions: seq<Action>)
    requires IsRun(Start, max, actions)
    ensures var s := After(Start, max, actions);
            s.total == |s.idle| + |Held(s)| + |InDial(s)| + |Closing(s)| <= max
  {
    StartInv(max);
    RunKeepsInv(Start, max, actions);
    var s := After(Start, max, actions);
    assert Owing(s) == Held(s) + InDial(s) + Closing(s);
  }

  lemma StartInv(max: nat)
    ensures Inv(Start, max)
  {
    assert Owing(Start) == {};
  }

  /** In every run: no connection is in two hands, or in one and in the idle channel. */
  lemma NeverHeldTwice(max: nat, actions: seq<Action>, t: Tid, u: Tid, conn: Conn)
    requires IsRun(Start, max, actions)
    ensures var s := After(Start, max, actions);
            && (Connected(s, t, conn) && Connected(s, u, conn) ==> t == u)
            && (Connected(s, t, conn) ==> forall p <- s.idle :: p.conn != conn)
  {
    StartInv(max);
    RunKeepsInv(Start, max, actions);
  }

  /** In every run: release never finds the idle channel full, so its overflow branch is dead. */
  lemma OverflowUnreachable(max: nat, actions: seq<Action>, t: Tid)
    requires IsRun(Start, max, actions)
    ensures var s := After(Start, max, actions);
            t in s.threads ==> !s.threads[t].phase.Overflowing? && (s.threads[t].phase.Holding? ==> |s.idle| < max)
  {
    StartInv(max);
    RunKeepsInv(Start, max, actions);
    var s := After(Start, max, actions);
    if t in s.threads && s.threads[t].phase.Holding? {
      RoomForHeld(s, max, t);
    }
  }

  /** In every run: a finished exchange has released exactly what it acquired, and an answered one acquired. */
  lemma ReleasedExactlyOnce(max: nat, actions: seq<Action>, t: Tid)
    requires IsRun(Start, max, actions)
    ensures var s := After(Start, max, actions);
            t in s.threads ==>
              && s.threads[t].released <= s.threads[t].acquired <= 1
              && (s.threads[t].phase.Finished? ==> s.threads[t].released == s.threads[t].acquired)
              && (s.threads[t].phase == Finished(true) ==> s.threads[t].acquired == 1)
  {
    StartInv(max);
    RunKeepsInv(Start, max, actions);
  }
}
