/** Every step of the fragment protocol keeps its invariant, and what that means for whole runs. */
module FragmentSafety {
  import opened Bytes
  import Addressing
  import opened FragmentProtocol

  // ----- what a step leaves alone

  /** For the connections that read them, a set keeps its outcome; once it has one, for all. */
  predicate OutcomeKept(p: Phase, before: SetState, after: SetState) {
    && (IsCompleter(p) ==> after.done == before.done && after.closes == before.closes && after.answer == before.answer)
    && (before.done ==> after.done && after.answer == before.answer)
  }

  lemma ThreadKept(plan: Plan, s: System, s': System, t: Tid)
    requires t in s.threads && t in s'.threads && s'.threads[t] == s.threads[t] && ThreadOk(plan, s, t)
    requires |s.arena| <= |s'.arena| == |s'.keys|
    requires var id := s.threads[t].id;
             s'.keys[id] == s.keys[id] && OutcomeKept(s.threads[t], s.arena[id], s'.arena[id])
    ensures ThreadOk(plan, s', t)
  {
  }

  /** All connections but one stay, and their sets keep what they read. */
  lemma OthersKept(plan: Plan, s: System, s': System, t: Tid)
    requires forall u <- s.threads :: ThreadOk(plan, s, u)
    requires s'.threads.Keys == s.threads.Keys + {t} && ThreadOk(plan, s', t)
    requires |s.arena| == |s'.arena| == |s'.keys| && s'.keys == s.keys
    requires forall u <- s.threads | u != t ::
               s'.threads[u] == s.threads[u] && s.threads[u].id < |s.arena|
               && OutcomeKept(s.threads[u], s.arena[s.threads[u].id], s'.arena[s.threads[u].id])
    ensures forall u <- s'.threads :: ThreadOk(plan, s', u)
  {
    hide ThreadOk, OutcomeKept;
    forall u <- s'.threads ensures ThreadOk(plan, s', u) {
      if u != t {
        ThreadSized(plan, s, u);
        ThreadKept(plan, s, s', u);
      }
    }
  }

  /** One set changes; the map may lose entries. */
  lemma SetsKept(plan: Plan, s: System, s': System, id: nat)
    requires SetsOk(plan, s) && id < |s.arena| == |s'.arena| && s'.keys == s.keys
    requires forall k <- s'.sets :: k in s.sets && s'.sets[k] == s.sets[k]
    requires forall i | 0 <= i < |s.arena| && i != id :: s'.arena[i] == s.arena[i]
    requires SetProgress(s'.arena[id]) && (s.keys[id] in plan ==> SetFollowsPlan(plan[s.keys[id]], s'.arena[id]))
    ensures SetsOk(plan, s')
  {
    hide SetProgress, SetFollowsPlan;
  }

  /** Nobody starts a set, or leaves or joins its completers. */
  lemma CompletersKept(s: System, s': System)
    requires CompletersOk(s) && s'.completers == s.completers && |s'.arena| == |s.arena|
    requires forall id | 0 <= id < |s.arena| :: s'.arena[id].started == s.arena[id].started
    requires forall t <- s.threads | IsCompleter(s.threads[t]) ::
               t in s'.threads && IsCompleter(s'.threads[t]) && s'.threads[t].id == s.threads[t].id
    requires forall t <- s'.threads | IsCompleter(s'.threads[t]) ::
               t in s.threads && IsCompleter(s.threads[t]) && s'.threads[t].id == s.threads[t].id
    ensures CompletersOk(s')
  {
    hide IsCompleter;
  }

  /** Purging entries of the map and touching a set changes nothing the invariant speaks of. */
  lemma TouchKeepsInv(plan: Plan, s: System, kept: map<Key, nat>, id: nat, now: int)
    requires Inv(plan, s) && id < |s.arena|
    requires forall k <- kept :: k in s.sets && kept[k] == s.sets[k]
    ensures Inv(plan, s.(sets := kept, arena := s.arena[id := s.arena[id].(lastSeen := now)]))
  {
    var s' := s.(sets := kept, arena := s.arena[id := s.arena[id].(lastSeen := now)]);
    UnfoldInv(plan, s);
    TouchedSet(plan, s, id, now);
    hide SetsOk, CompletersOk, ThreadOk, SetProgress, SetFollowsPlan;
    SetsKept(plan, s, s', id);
    CompletersKept(s, s');
    forall t <- s'.threads ensures ThreadOk(plan, s', t) {
      ThreadSized(plan, s, t);
      ThreadKept(plan, s, s', t);
    }
  }

  lemma TouchedSet(plan: Plan, s: System, id: nat, now: int)
    requires SetsOk(plan, s) && id < |s.arena|
    ensures |s.keys| == |s.arena|
    ensures var touched := s.arena[id].(lastSeen := now);
            SetProgress(touched) && (s.keys[id] in plan ==> SetFollowsPlan(plan[s.keys[id]], touched))
  {
    assert SetProgress(s.arena[id]);
  }

  lemma ThreadSized(plan: Plan, s: System, t: Tid)
    requires t in s.threads && ThreadOk(plan, s, t)
    ensures s.threads[t].id < |s.arena| == |s.keys|
  {
  }

  lemma NewSetKeepsInv(plan: Plan, s: System, kept: map<Key, nat>, key: Key, now: int)
    requires Inv(plan, s)
    requires forall k <- kept :: k in s.sets && kept[k] == s.sets[k]
    ensures Inv(plan, s.(sets := kept[key := |s.arena|], arena := s.arena + [EmptySet.(lastSeen := now)],
                         keys := s.keys + [key]))
  {
    var s' := s.(sets := kept[key := |s.arena|], arena := s.arena + [EmptySet.(lastSeen := now)],
                 keys := s.keys + [key]);
    UnfoldInv(plan, s);
    NewSetKeepsSets(plan, s, kept, key, now);
    NewSetKeepsCompleters(s, s');
    hide SetsOk, CompletersOk, ThreadOk;
    forall t <- s'.threads ensures ThreadOk(plan, s', t) {
      ThreadSized(plan, s, t);
      ThreadKept(plan, s, s', t);
    }
  }

  lemma NewSetKeepsSets(plan: Plan, s: System, kept: map<Key, nat>, key: Key, now: int)
    requires SetsOk(plan, s) && forall k <- kept :: k in s.sets && kept[k] == s.sets[k]
    ensures SetsOk(plan, s.(sets := kept[key := |s.arena|], arena := s.arena + [EmptySet.(lastSeen := now)],
                            keys := s.keys + [key]))
  {
    var fresh_ := EmptySet.(lastSeen := now);
    assert SetProgress(fresh_) && forall pieces: seq<bytes> :: SetFollowsPlan(pieces, fresh_);
    hide SetProgress, SetFollowsPlan;
  }

  lemma NewSetKeepsCompleters(s: System, s': System)
    requires CompletersOk(s) && s'.threads == s.threads && s'.completers == s.completers
    requires |s'.arena| == |s.arena| + 1 && s'.arena[..|s.arena|] == s.arena && !s'.arena[|s.arena|].started
    ensures CompletersOk(s')
  {
    hide IsCompleter;
    assert forall id | 0 <= id < |s.arena| :: s'.arena[id] == s'.arena[..|s.arena|][id] == s.arena[id];
  }

  lemma EnterSectionStep(plan: Plan, s: System, key: Key, now: int)
    requires Inv(plan, s)
    ensures var (s', id) := EnterSection(s, key, now);
            && Inv(plan, s') && id < |s'.arena| && s'.keys[id] == key && s'.threads == s.threads
  {
    hide Inv, Stale;
    assert SetsOk(plan, s) by { UnfoldInv(plan, s); }
    var kept := Purged(s, now);
    if key in kept {
      TouchKeepsInv(plan, s, kept, kept[key], now);
    } else {
      NewSetKeepsInv(plan, s, kept, key, now);
    }
  }

  lemma UnfoldInv(plan: Plan, s: System)
    requires Inv(plan, s)
    ensures SetsOk(plan, s) && CompletersOk(s)
  {
  }

  lemma EnterStep(plan: Plan, s: System, a: Action)
    requires a.Enter? && Enabled(s, a) && Admissible(plan, a) && Inv(plan, s)
    ensures Inv(plan, Apply(s, a))
  {
    EnterSectionStep(plan, s, a.key, a.now);
    var (s1, id) := EnterSection(s, a.key, a.now);
    hide EnterSection, Inv;
    QuietMove(plan, s1, a.tid, Entered(id, a.index, a.total, a.piece));
  }

  /** A connection that is not a completer moves on without becoming one. */
  lemma QuietMove(plan: Plan, s: System, t: Tid, p: Phase)
    requires Inv(plan, s) && !IsCompleter(p) && (t in s.threads ==> !IsCompleter(s.threads[t]))
    requires ThreadOk(plan, s.(threads := s.threads[t := p]), t)
    ensures Inv(plan, s.(threads := s.threads[t := p]))
  {
    var s' := s.(threads := s.threads[t := p]);
    UnfoldInv(plan, s);
    SameSets(plan, s, s');
    hide SetsOk, CompletersOk, ThreadOk;
    CompletersKept(s, s');
    forall u <- s'.threads ensures ThreadOk(plan, s', u) {
      if u != t {
        ThreadSized(plan, s, u);
        ThreadKept(plan, s, s', u);
      }
    }
  }

  lemma SameSets(plan: Plan, s: System, s': System)
    requires SetsOk(plan, s) && s'.sets == s.sets && s'.arena == s.arena && s'.keys == s.keys
    ensures SetsOk(plan, s')
  {
    hide SetProgress, SetFollowsPlan;
  }

  lemma InsertKeepsPlan(pieces: seq<bytes>, s: SetState, index: nat, piece: bytes)
    requires SetFollowsPlan(pieces, s) && SetProgress(s) && |pieces| >= Addressing.MIN_PIECES
    requires 1 <= index <= |pieces| && piece == pieces[index - 1]
    ensures SetFollowsPlan(pieces, InsertPiece(s, index, |pieces|, piece).0)
  {
    var s' := InsertPiece(s, index, |pieces|, piece).0;
    if s.started {
      AllPresent(pieces, s);
      assert s'.pieces.Keys == s.pieces.Keys;
      assert |s'.pieces| == |s'.pieces.Keys| == |s.pieces.Keys| == |s.pieces|;
    }
  }

  lemma InsertStep(plan: Plan, s: System, a: Action)
    requires a.Insert? && Enabled(s, a) && Inv(plan, s)
    ensures Inv(plan, Apply(s, a))
  {
    InsertKeepsSets(plan, s, a);
    InsertKeepsCompleters(plan, s, a);
    InsertKeepsThreads(plan, s, a);
  }

  lemma InsertKeepsSets(plan: Plan, s: System, a: Action)
    requires a.Insert? && Enabled(s, a) && Inv(plan, s)
    ensures SetsOk(plan, Apply(s, a))
  {
    hide InsertPiece, SetFollowsPlan, SetProgress;
    var s' := Apply(s, a);
    var p := s.threads[a.tid];
    assert ThreadOk(plan, s, a.tid);
    InsertProgress(s.arena[p.id], p.index, p.total, p.piece);
    if s.keys[p.id] in plan {
      InsertKeepsPlan(plan[s.keys[p.id]], s.arena[p.id], p.index, p.piece);
    }
  }

  lemma InsertProgress(s: SetState, index: nat, total: nat, piece: bytes)
    requires SetProgress(s)
    ensures SetProgress(InsertPiece(s, index, total, piece).0)
  {
  }

  lemma InsertKeepsCompleters(plan: Plan, s: System, a: Action)
    requires a.Insert? && Enabled(s, a) && Inv(plan, s)
    ensures CompletersOk(Apply(s, a))
  {
    UnfoldInv(plan, s);
    var p := s.threads[a.tid];
    StartsAsCompleter(s.arena[p.id], p.index, p.total, p.piece);
    var (set', completer) := InsertPiece(s.arena[p.id], p.index, p.total, p.piece);
    hide InsertPiece, SetsOk, ThreadOk, Inv, CompletersOk;
    if completer {
      NewCompleter(s, a.tid, Completing(p.id), set');
    } else {
      QuietInsert(s, a.tid, if p.index == p.total then Waiting(p.id) else Acknowledged(p.id), set');
    }
  }

  lemma QuietInsert(s: System, t: Tid, p: Phase, set': SetState)
    requires CompletersOk(s) && t in s.threads && !IsCompleter(s.threads[t]) && !IsCompleter(p)
    requires p.id < |s.arena| && set'.started == s.arena[p.id].started
    ensures CompletersOk(s.(arena := s.arena[p.id := set'], threads := s.threads[t := p]))
  {
    hide CompletersOk, IsCompleter;
    CompletersKept(s, s.(arena := s.arena[p.id := set'], threads := s.threads[t := p]));
  }

  lemma StartsAsCompleter(s: SetState, index: nat, total: nat, piece: bytes)
    ensures var (s', completer) := InsertPiece(s, index, total, piece);
            && s'.started == (s.started || completer) && (completer ==> !s.started)
            && s'.done == s.done && s'.closes == s.closes && s'.answer == s.answer
  {
  }

  lemma NewCompleter(s: System, t: Tid, p: Phase, set': SetState)
    requires CompletersOk(s) && t in s.threads && !IsCompleter(s.threads[t]) && IsCompleter(p)
    requires p.id < |s.arena| && !s.arena[p.id].started && set'.started
    ensures CompletersOk(s.(arena := s.arena[p.id := set'], threads := s.threads[t := p],
                            completers := s.completers[p.id := t]))
  {
    hide IsCompleter;
  }

  lemma InsertKeepsThreads(plan: Plan, s: System, a: Action)
    requires a.Insert? && Enabled(s, a) && Inv(plan, s)
    ensures forall t <- Apply(s, a).threads :: ThreadOk(plan, Apply(s, a), t)
  {
    var s', p := Apply(s, a), s.threads[a.tid];
    UnfoldInv(plan, s);
    StartsAsCompleter(s.arena[p.id], p.index, p.total, p.piece);
    InserterOk(plan, s, a);
    hide SetsOk, CompletersOk, ThreadOk, InsertPiece;
    forall t <- s'.threads ensures ThreadOk(plan, s', t) {
      if t != a.tid {
        ThreadSized(plan, s, t);
        ThreadSized(plan, s, a.tid);
        ThreadKept(plan, s, s', t);
      }
    }
  }

  lemma InserterOk(plan: Plan, s: System, a: Action)
    requires a.Insert? && Enabled(s, a) && Inv(plan, s)
    ensures ThreadOk(plan, Apply(s, a), a.tid)
  {
    assert ThreadOk(plan, s, a.tid);
    var p := s.threads[a.tid];
    assert SetProgress(s.arena[p.id]);
    StartsAsCompleter(s.arena[p.id], p.index, p.total, p.piece);
    hide InsertPiece, SetsOk, CompletersOk;
  }

  /** A completer moves on, changing at most the outcome of its own set. */
  lemma CompleterMove(plan: Plan, s: System, t: Tid, p: Phase, set': SetState)
    requires Inv(plan, s) && t in s.threads && IsCompleter(s.threads[t]) && IsCompleter(p) && p.id == s.threads[t].id
    requires p.id < |s.arena| && SetProgress(set')
    requires var old' := s.arena[p.id];
             && set'.pieces == old'.pieces && set'.total == old'.total && set'.started == old'.started
             && (old'.done ==> set'.done && set'.answer == old'.answer)
    requires ThreadOk(plan, s.(arena := s.arena[p.id := set'], threads := s.threads[t := p]), t)
    ensures Inv(plan, s.(arena := s.arena[p.id := set'], threads := s.threads[t := p]))
  {
    var s' := s.(arena := s.arena[p.id := set'], threads := s.threads[t := p]);
    UnfoldInv(plan, s);
    SamePlan(plan, s, p.id, set');
    LoneCompleter(s, t);
    hide SetsOk, CompletersOk, ThreadOk, SetProgress, SetFollowsPlan;
    SetsKept(plan, s, s', p.id);
    OwnSetChanges(s, t, p, set');
    forall u <- s.threads ensures s.threads[u].id < |s.arena| {
      ThreadSized(plan, s, u);
    }
    OthersKept(plan, s, s', t);
  }

  /** Only its completer reads what the completer changes. */
  lemma OwnSetChanges(s: System, t: Tid, p: Phase, set': SetState)
    requires CompletersOk(s) && t in s.threads && IsCompleter(s.threads[t]) && IsCompleter(p)
    requires p.id == s.threads[t].id < |s.arena| && forall u <- s.threads :: s.threads[u].id < |s.arena|
    requires var old' := s.arena[p.id];
             set'.started == old'.started && (old'.done ==> set'.done && set'.answer == old'.answer)
    ensures CompletersOk(s.(arena := s.arena[p.id := set'], threads := s.threads[t := p]))
    ensures forall u <- s.threads | u != t ::
              var id := s.threads[u].id;
              OutcomeKept(s.threads[u], s.arena[id], s.arena[p.id := set'][id])
  {
    LoneCompleter(s, t);
    hide CompletersOk, IsCompleter;
    CompletersKept(s, s.(arena := s.arena[p.id := set'], threads := s.threads[t := p]));
  }

  lemma SamePlan(plan: Plan, s: System, id: nat, set': SetState)
    requires SetsOk(plan, s) && id < |s.arena|
    requires set'.pieces == s.arena[id].pieces && set'.total == s.arena[id].total && set'.started == s.arena[id].started
    ensures |s.keys| == |s.arena| && (s.keys[id] in plan ==> SetFollowsPlan(plan[s.keys[id]], set'))
  {
  }

  lemma LoneCompleter(s: System, t: Tid)
    requires CompletersOk(s) && t in s.threads && IsCompleter(s.threads[t])
    ensures forall u <- s.threads | IsCompleter(s.threads[u]) && s.threads[u].id == s.threads[t].id :: u == t
  {
  }

  lemma JoinStep(plan: Plan, s: System, a: Action)
    requires a.Join? && Enabled(s, a) && Inv(plan, s)
    ensures Inv(plan, Apply(s, a))
  {
    var p := s.threads[a.tid];
    assert ThreadOk(plan, s, a.tid);
    if s.keys[p.id] in plan {
      StartedSetReassembles(plan[s.keys[p.id]], s.arena[p.id]);
    }
    assert SetProgress(s.arena[p.id]);
    assert s.arena == s.arena[p.id := s.arena[p.id]];
    hide Inv, Reassemble;
    CompleterMove(plan, s, a.tid, Resolving(p.id, Reassemble(s.arena[p.id])), s.arena[p.id]);
  }

  lemma StoreStep(plan: Plan, s: System, a: Action)
    requires a.Store? && Enabled(s, a) && Inv(plan, s)
    ensures Inv(plan, Apply(s, a))
  {
    var p := s.threads[a.tid];
    assert ThreadOk(plan, s, a.tid);
    assert s.arena[p.id].started && SetProgress(s.arena[p.id]);
    hide Inv;
    CompleterMove(plan, s, a.tid, Stored(p.id, a.answer), StoreAnswer(s.arena[p.id], a.answer));
  }

  lemma CloseStep(plan: Plan, s: System, a: Action)
    requires a.Close? && Enabled(s, a) && Inv(plan, s)
    ensures Inv(plan, Apply(s, a))
  {
    var p := s.threads[a.tid];
    assert ThreadOk(plan, s, a.tid);
    assert SetProgress(s.arena[p.id]);
    hide Inv;
    CompleterMove(plan, s, a.tid, Published(p.id, p.answer), CloseChannel(s.arena[p.id]));
  }

  lemma WaiterStep(plan: Plan, s: System, a: Action)
    requires (a.Receive? || a.Timeout?) && Enabled(s, a) && Inv(plan, s)
    ensures Inv(plan, Apply(s, a))
  {
    var p := s.threads[a.tid];
    assert ThreadOk(plan, s, a.tid);
    assert SetProgress(s.arena[p.id]);
    hide Inv;
    QuietMove(plan, s, a.tid, Received(p.id, if a.Receive? then s.arena[p.id].answer else None));
  }

  lemma StepKeepsInv(plan: Plan, s: System, a: Action)
    requires Enabled(s, a) && Admissible(plan, a) && Inv(plan, s)
    ensures Inv(plan, Apply(s, a))
  {
    hide Apply, Inv, Enabled;
    match a {
      case Enter(_, _, _, _, _, _) => EnterStep(plan, s, a);
      case Insert(_) => InsertStep(plan, s, a);
      case Join(_) => JoinStep(plan, s, a);
      case Store(_, _) => StoreStep(plan, s, a);
      case Close(_) => CloseStep(plan, s, a);
      case Receive(_) => WaiterStep(plan, s, a);
      case Timeout(_) => WaiterStep(plan, s, a);
    }
  }

  lemma {:induction false} RunKeepsInv(plan: Plan, s: System, actions: seq<Action>)
    requires Inv(plan, s) && IsRun(plan, s, actions)
    ensures Inv(plan, After(plan, s, actions))
    decreases |actions|
  {
    hide Apply, Inv, Enabled, Admissible;
    if actions != [] {
      StepKeepsInv(plan, s, actions[0]);
      RunKeepsInv(plan, Apply(s, actions[0]), actions[1..]);
    }
  }

  lemma StartInv(plan: Plan)
    ensures Inv(plan, Start)
  {
  }

  /**
   * In every run, whatever the order, duplicates, purges and other keys: a completer of a key
   * used for one query has reassembled exactly that query.
   */
  lemma CompleterHasTheQuery(plan: Plan, actions: seq<Action>, t: Tid)
    requires IsRun(plan, Start, actions)
    ensures var s := After(plan, Start, actions);
            t in s.threads && s.threads[t].Resolving? ==>
              && s.threads[t].id < |s.keys|
              && (s.keys[s.threads[t].id] in plan ==> s.threads[t].text == Flatten(plan[s.keys[s.threads[t].id]]))
  {
    StartInv(plan);
    RunKeepsInv(plan, Start, actions);
    var s := After(plan, Start, actions);
    assert t in s.threads ==> ThreadOk(plan, s, t);
  }

  /** In every run, for all keys: a set has at most one completer. */
  lemma OneCompleter(plan: Plan, actions: seq<Action>, t: Tid, u: Tid)
    requires IsRun(plan, Start, actions)
    ensures var s := After(plan, Start, actions);
            (t in s.threads && u in s.threads && IsCompleter(s.threads[t]) && IsCompleter(s.threads[u])
             && s.threads[t].id == s.threads[u].id) ==> t == u
  {
    StartInv(plan);
    RunKeepsInv(plan, Start, actions);
  }

  /** In every run, for all keys: no result channel is closed twice, and every close finds it open. */
  lemma ClosedOnce(plan: Plan, actions: seq<Action>, id: nat, t: Tid)
    requires IsRun(plan, Start, actions)
    ensures var s := After(plan, Start, actions);
            && (id < |s.arena| ==> s.arena[id].closes <= 1)
            && (Enabled(s, Close(t)) ==> s.arena[s.threads[t].id].closes == 0)
  {
    StartInv(plan);
    RunKeepsInv(plan, Start, actions);
    var s := After(plan, Start, actions);
    assert t in s.threads ==> ThreadOk(plan, s, t);
    if id < |s.arena| && s.arena[id].closes > 0 {
      var c := s.completers[id];
      assert ThreadOk(plan, s, c);
    }
  }

  /** In every run: a waiter that did not time out got what its set's completer published. */
  lemma WaiterGetsTheAnswer(plan: Plan, actions: seq<Action>, w: Tid)
    requires IsRun(plan, Start, actions)
    ensures var s := After(plan, Start, actions);
            w in s.threads && s.threads[w].Received? && s.threads[w].outcome.Some? ==>
              && s.threads[w].id in s.completers && s.completers[s.threads[w].id] in s.threads
              && var c := s.threads[s.completers[s.threads[w].id]];
                 (c.Stored? || c.Published?) && c.id == s.threads[w].id && Some(c.answer) == s.threads[w].outcome
  {
    StartInv(plan);
    RunKeepsInv(plan, Start, actions);
    var s := After(plan, Start, actions);
    if w in s.threads && s.threads[w].Received? && s.threads[w].outcome.Some? {
      assert ThreadOk(plan, s, w);
      var c := s.completers[s.threads[w].id];
      assert ThreadOk(plan, s, c);
    }
  }

  /** In every run: a set of a planned key has a completer exactly when all its pieces have arrived. */
  lemma CompletesWhenFull(plan: Plan, actions: seq<Action>, id: nat)
    requires IsRun(plan, Start, actions)
    ensures var s := After(plan, Start, actions);
            id < |s.arena| && id < |s.keys| && s.keys[id] in plan && |plan[s.keys[id]]| > 0 ==>
              (id in s.completers <==> s.arena[id].pieces.Keys == Indices(|plan[s.keys[id]]|))
  {
    StartInv(plan);
    RunKeepsInv(plan, Start, actions);
    var s := After(plan, Start, actions);
    if id < |s.arena| && id < |s.keys| && s.keys[id] in plan && |plan[s.keys[id]]| > 0 {
      StartedWhenFull(plan[s.keys[id]], s.arena[id]);
    }
  }
}
