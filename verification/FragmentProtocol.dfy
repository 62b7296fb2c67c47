/**
 * Assembly of fragmented queries, as a protocol of interleaved critical sections.
 * A connection first finds or creates the set of its key under the assembler's lock,
 * and only later stores its piece under the set's own lock; purges, other connections
 * and other keys may run in between.
 */
module FragmentProtocol {
  import opened Bytes
  import Addressing

  datatype Key = Key(clientIP: bytes, nonce: bytes)

  /** What the completer stores: the packed response, and whether resolving failed. */
  datatype Answer = Answer(response: bytes, failed: bool)

  datatype SetState = SetState(pieces: map<nat, bytes>, total: nat, started: bool, done: bool,
                               answer: Option<Answer>, closes: nat, lastSeen: int)

  const FRAGMENT_TIMEOUT: int := 5_000_000_000  // nanoseconds

  const EmptySet: SetState := SetState(map[], 0, false, false, None, 0, 0)

  // ----- the critical sections

  predicate Stale(set_: SetState, now: int) { set_.lastSeen < now - 2 * FRAGMENT_TIMEOUT }

  /** Second section of `add`: the first total wins, pieces overwrite, the last missing one completes. */
  function InsertPiece(s: SetState, index: nat, total: nat, piece: bytes): (SetState, bool) {
    var total' := if s.total == 0 then total else s.total;
    var pieces' := s.pieces[index := piece];
    var completer := !s.started && !s.done && |pieces'| == total';
    (s.(total := total', pieces := pieces', started := s.started || completer), completer)
  }

  /** Pieces 1..n in order; a missing one contributes nothing. */
  function Assembled(pieces: map<nat, bytes>, n: nat): bytes {
    if n == 0 then []
    else Assembled(pieces, n - 1) + (if n in pieces then pieces[n] else [])
  }

  function Reassemble(s: SetState): bytes { Assembled(s.pieces, s.total) }

  function StoreAnswer(s: SetState, a: Answer): SetState { s.(answer := Some(a), done := true) }

  function CloseChannel(s: SetState): SetState { s.(closes := s.closes + 1) }

  // ----- connections and the system

  type Tid = nat

  datatype Phase =
    | Entered(id: nat, index: nat, total: nat, piece: bytes)  // between the two sections of add
    | Acknowledged(id: nat)                                   // not the last piece: nothing to wait for
    | Waiting(id: nat)                                        // the last piece, but not the completer
    | Completing(id: nat)                                     // the completer, before reassembling
    | Resolving(id: nat, text: bytes)                         // the completer, with the query text
    | Stored(id: nat, answer: Answer)                         // result stored, channel not yet closed
    | Published(id: nat, answer: Answer)                      // channel closed
    | Received(id: nat, outcome: Option<Answer>)              // a waiter; None after a timeout

  predicate IsCompleter(p: Phase) {
    p.Completing? || p.Resolving? || p.Stored? || p.Published?
  }

  /**
   * `sets` is the assembler's map, holding references into `arena`. Sets stay in the arena
   * after a purge, since connections still hold them. `keys` and `completers` only record
   * history: the key each set was made for, and the connection that started it.
   */
  datatype System = System(sets: map<Key, nat>, arena: seq<SetState>, threads: map<Tid, Phase>,
                           keys: seq<Key>, completers: map<nat, Tid>)

  const Start: System := System(map[], [], map[], [], map[])

  datatype Action =
    | Enter(tid: Tid, key: Key, index: nat, total: nat, piece: bytes, now: int)
    | Insert(tid: Tid)
    | Join(tid: Tid)
    | Store(tid: Tid, answer: Answer)
    | Close(tid: Tid)
    | Receive(tid: Tid)
    | Timeout(tid: Tid)

  /** The pieces of the query sent under each key that is used for a single query. */
  type Plan = map<Key, seq<bytes>>

  /** isFragmented lets a connection in only with 1 <= index <= total and 2 <= total <= 16. */
  predicate Admissible(plan: Plan, a: Action) {
    a.Enter? ==>
      && 1 <= a.index <= a.total && Addressing.MIN_PIECES <= a.total <= Addressing.MAX_PIECES
      && (a.key in plan ==> a.total == |plan[a.key]| && a.piece == plan[a.key][a.index - 1])
  }

  predicate Enabled(s: System, a: Action) {
    match a
    case Enter(tid, _, _, _, _, _) => tid !in s.threads
    case Insert(tid) => tid in s.threads && s.threads[tid].Entered? && s.threads[tid].id < |s.arena|
    case Join(tid) => tid in s.threads && s.threads[tid].Completing? && s.threads[tid].id < |s.arena|
    case Store(tid, _) => tid in s.threads && s.threads[tid].Resolving? && s.threads[tid].id < |s.arena|
    case Close(tid) => tid in s.threads && s.threads[tid].Stored? && s.threads[tid].id < |s.arena|
    case Receive(tid) => tid in s.threads && s.threads[tid].Waiting? && s.threads[tid].id < |s.arena|
                         && s.arena[s.threads[tid].id].closes > 0
    case Timeout(tid) => tid in s.threads && s.threads[tid].Waiting?
  }

  predicate Live(s: System, key: Key, now: int) {
    key in s.sets && s.sets[key] < |s.arena| && !Stale(s.arena[s.sets[key]], now)
  }

  function Purged(s: System, now: int): map<Key, nat> {
    map k | k in s.sets && Live(s, k, now) :: s.sets[k]
  }

  /** First section of `add`: purge, then look the key up or make a new set, then touch it. */
  function EnterSection(s: System, key: Key, now: int): (System, nat) {
    var kept := Purged(s, now);
    if key in kept then
      var id := kept[key];
      (s.(sets := kept, arena := s.arena[id := s.arena[id].(lastSeen := now)]), id)
    else
      var id := |s.arena|;
      (s.(sets := kept[key := id], arena := s.arena + [EmptySet.(lastSeen := now)], keys := s.keys + [key]), id)
  }

  function Apply(s: System, a: Action): System
    requires Enabled(s, a)
  {
    match a
    case Enter(tid, key, index, total, piece, now) =>
      var (s', id) := EnterSection(s, key, now);
      s'.(threads := s.threads[tid := Entered(id, index, total, piece)])
    case Insert(tid) =>
      var p := s.threads[tid];
      var (set', completer) := InsertPiece(s.arena[p.id], p.index, p.total, p.piece);
      var next := if completer then Completing(p.id)
                  else if p.index == p.total then Waiting(p.id) else Acknowledged(p.id);
      s.(arena := s.arena[p.id := set'], threads := s.threads[tid := next],
         completers := if completer then s.completers[p.id := tid] else s.completers)
    case Join(tid) =>
      var p := s.threads[tid];
      s.(threads := s.threads[tid := Resolving(p.id, Reassemble(s.arena[p.id]))])
    case Store(tid, answer) =>
      var p := s.threads[tid];
      s.(arena := s.arena[p.id := StoreAnswer(s.arena[p.id], answer)],
         threads := s.threads[tid := Stored(p.id, answer)])
    case Close(tid) =>
      var p := s.threads[tid];
      s.(arena := s.arena[p.id := CloseChannel(s.arena[p.id])],
         threads := s.threads[tid := Published(p.id, p.answer)])
    case Receive(tid) =>
      var p := s.threads[tid];
      s.(threads := s.threads[tid := Received(p.id, s.arena[p.id].answer)])
    case Timeout(tid) => s.(threads := s.threads[tid := Received(s.threads[tid].id, None)])
  }

  /** A run: every action is enabled where it happens and its connection was let in. */
  predicate IsRun(plan: Plan, s: System, actions: seq<Action>)
    decreases |actions|
  {
    actions == [] ||
    (Enabled(s, actions[0]) && Admissible(plan, actions[0]) && IsRun(plan, Apply(s, actions[0]), actions[1..]))
  }

  function After(plan: Plan, s: System, actions: seq<Action>): System
    requires IsRun(plan, s, actions)
    decreases |actions|
  {
    if actions == [] then s else After(plan, Apply(s, actions[0]), actions[1..])
  }

  // ----- the invariant

  /** Pieces of a planned key are the planned ones, and a started set has them all. */
  predicate SetFollowsPlan(pieces: seq<bytes>, s: SetState) {
    && (s.total == 0 ==> s.pieces == map[])
    && (s.total != 0 ==> s.total == |pieces|)
    && (forall i <- s.pieces :: 1 <= i <= |pieces| && s.pieces[i] == pieces[i - 1])
    && (s.started ==> s.total != 0 && |s.pieces| == |pieces|)
  }

  /** Every set that has been filled up has been started, whatever its key. */
  predicate SetProgress(s: SetState) {
    && (s.pieces != map[] && |s.pieces| == s.total ==> s.started)
    && (s.done ==> s.started && s.answer.Some?)
    && (s.closes > 0 ==> s.done)
  }

  ghost predicate SetsOk(plan: Plan, s: System) {
    && |s.keys| == |s.arena|
    && (forall k <- s.sets :: s.sets[k] < |s.arena| && s.keys[s.sets[k]] == k)
    && (forall id | 0 <= id < |s.arena| :: SetProgress(s.arena[id]))
    && (forall id | 0 <= id < |s.arena| && s.keys[id] in plan :: SetFollowsPlan(plan[s.keys[id]], s.arena[id]))
  }

  ghost predicate CompletersOk(s: System) {
    && (forall id | 0 <= id < |s.arena| :: s.arena[id].started <==> id in s.completers)
    && (forall id <- s.completers :: id < |s.arena| && s.completers[id] in s.threads
          && IsCompleter(s.threads[s.completers[id]]) && s.threads[s.completers[id]].id == id)
    && (forall t <- s.threads | IsCompleter(s.threads[t]) ::
          s.threads[t].id in s.completers && s.completers[s.threads[t].id] == t)
  }

  ghost predicate ThreadOk(plan: Plan, s: System, t: Tid)
    requires t in s.threads
  {
    var p := s.threads[t];
    && p.id < |s.arena| && |s.keys| == |s.arena|
    && var set_, key := s.arena[p.id], s.keys[p.id];
       match p
       case Entered(_, index, total, piece) =>
         && 1 <= index <= total && Addressing.MIN_PIECES <= total
         && (key in plan ==> total == |plan[key]| && piece == plan[key][index - 1])
       case Completing(_) => !set_.done && set_.closes == 0
       case Resolving(_, text) => !set_.done && set_.closes == 0 && (key in plan ==> text == Flatten(plan[key]))
       case Stored(_, answer) => set_.done && set_.closes == 0 && set_.answer == Some(answer)
       case Published(_, answer) => set_.done && set_.closes == 1 && set_.answer == Some(answer)
       case Received(_, outcome) => outcome.Some? ==> set_.done && set_.answer == outcome
       case _ => true
  }

  ghost predicate Inv(plan: Plan, s: System) {
    && SetsOk(plan, s)
    && CompletersOk(s)
    && (forall t <- s.threads :: ThreadOk(plan, s, t))
  }

  // ----- from the count of pieces to the pieces themselves

  function Indices(n: nat): (r: set<nat>)
    ensures |r| == n && forall i :: i in r <==> 1 <= i <= n
  {
    if n == 0 then {} else Indices(n - 1) + {n}
  }

  lemma SameSizeSubset(a: set<nat>, b: set<nat>)
    requires a <= b && |a| == |b|
    ensures a == b
  {
    if a != b {
      var x :| x in b && x !in a;
      assert a <= b - {x};
      SubsetSize(a, b - {x});
    }
  }

  lemma SubsetSize(a: set<nat>, b: set<nat>)
    requires a <= b
    ensures |a| <= |b|
  {
    if a != {} {
      var x :| x in a;
      SubsetSize(a - {x}, b - {x});
    }
  }

  /** As many pieces as the total, all with indices up to it: none is missing. */
  lemma AllPresent(pieces: seq<bytes>, s: SetState)
    requires SetFollowsPlan(pieces, s) && s.started
    ensures s.pieces.Keys == Indices(|pieces|)
  {
    SameSizeSubset(s.pieces.Keys, Indices(|pieces|));
  }

  lemma {:induction false} AssembledIsFlatten(pieces: seq<bytes>, m: map<nat, bytes>, n: nat)
    requires n <= |pieces| && forall i | 1 <= i <= n :: i in m && m[i] == pieces[i - 1]
    ensures Assembled(m, n) == Flatten(pieces[..n])
  {
    if n > 0 {
      AssembledIsFlatten(pieces, m, n - 1);
      assert pieces[..n] == pieces[..n - 1] + [pieces[n - 1]];
      FlattenAppend(pieces[..n - 1], [pieces[n - 1]]);
      FlattenOne(pieces[n - 1]);
    }
  }

  /** A set of a planned key has been started exactly when all its pieces have arrived. */
  lemma StartedWhenFull(pieces: seq<bytes>, s: SetState)
    requires SetFollowsPlan(pieces, s) && SetProgress(s) && |pieces| > 0
    ensures s.started <==> s.pieces.Keys == Indices(|pieces|)
  {
    if s.started {
      AllPresent(pieces, s);
    }
    assert |s.pieces| == |s.pieces.Keys|;
    assert 1 in Indices(|pieces|);
  }

  lemma StartedSetReassembles(pieces: seq<bytes>, s: SetState)
    requires SetFollowsPlan(pieces, s) && s.started
    ensures Reassemble(s) == Flatten(pieces)
  {
    AllPresent(pieces, s);
    AssembledIsFlatten(pieces, s.pieces, |pieces|);
    assert pieces[..|pieces|] == pieces;
  }
}
