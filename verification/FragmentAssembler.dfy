/** The assembler and its sets as objects; each method body is one critical section of the protocol. */
module FragmentAssembler {
  import opened Bytes
  import opened FragmentProtocol

  class FragmentSet {
    var pieces: map<nat, bytes>
    var total: nat
    var started: bool
    var done: bool
    var answer: Option<Answer>
    var closes: nat
    var lastSeen: int

    ghost function State(): SetState
      reads this
    {
      SetState(pieces, total, started, done, answer, closes, lastSeen)
    }

    constructor (now: int)
      ensures State() == EmptySet.(lastSeen := now)
    {
      pieces, total, started, done, answer, closes, lastSeen := map[], 0, false, false, None, 0, now;
    }

    method Insert(index: nat, total: nat, piece: bytes) returns (completer: bool)
      modifies this
      ensures (State(), completer) == InsertPiece(old(State()), index, total, piece)
    {
      completer := false;
      if this.total == 0 {
        this.total := total;
      }
      pieces := pieces[index := piece];
      if !started && !done && |pieces| == this.total {
        started := true;
        completer := true;
      }
    }

    method Reassembled() returns (text: bytes)
      ensures text == Reassemble(State())
    {
      text := [];
      for index := 1 to total + 1
        invariant text == Assembled(pieces, index - 1)
      {
        text := text + (if index in pieces then pieces[index] else []);
      }
    }

    method StoreResult(a: Answer)
      modifies this
      ensures State() == CloseChannel(StoreAnswer(old(State()), a))
    {
      answer := Some(a);
      done := true;
      closes := closes + 1;
    }
  }

  class Assembler {
    var sets: map<Key, FragmentSet>

    constructor ()
      ensures sets == map[]
    {
      sets := map[];
    }

    /** Deletes the sets not seen for twice the timeout, and no others. */
    method PurgeLocked(now: int)
      modifies this
      ensures sets == map k | k in old(sets) && !Stale(old(sets[k].State()), now) :: old(sets)[k]
    {
      var rest := sets.Keys;
      while rest != {}
        invariant rest <= sets.Keys <= old(sets).Keys
        invariant forall k <- sets :: sets[k] == old(sets)[k]
        invariant forall k <- old(sets) :: k in sets <==> k in rest || !Stale(old(sets[k].State()), now)
        decreases rest
      {
        var k :| k in rest;
        rest := rest - {k};
        if sets[k].lastSeen < now - 2 * FRAGMENT_TIMEOUT {
          sets := map j | j in sets && j != k :: sets[j];
        }
      }
    }

    /**
     * First section of `add`: a live set of the key is reused, otherwise a new one takes its place;
     * stale sets of other keys are gone, and every other set is left alone.
     */
    method Lookup(key: Key, now: int) returns (found: FragmentSet)
      modifies this, sets.Values
      ensures sets == (map k | k in old(sets) && !Stale(old(sets[k].State()), now) :: old(sets)[k])[key := found]
      ensures if key in old(sets) && !Stale(old(sets[key].State()), now)
              then found == old(sets)[key] && found.State() == old(sets[key].State()).(lastSeen := now)
              else fresh(found) && found.State() == EmptySet.(lastSeen := now)
      ensures forall other <- old(sets).Values :: other != found ==> other.State() == old(other.State())
    {
      PurgeLocked(now);
      if key in sets {
        found := sets[key];
      } else {
        found := new FragmentSet(now);
        sets := sets[key := found];
      }
      found.lastSeen := now;
    }

    /** Both sections of `add` with nothing in between: only the set of the key changes. */
    method Add(key: Key, index: nat, total: nat, piece: bytes, now: int)
      returns (found: FragmentSet, completer: bool)
      modifies this, sets.Values
      ensures var before := if key in old(sets) && !Stale(old(sets[key].State()), now)
                            then old(sets[key].State()) else EmptySet;
              (found.State(), completer) == InsertPiece(before.(lastSeen := now), index, total, piece)
      ensures sets == (map k | k in old(sets) && !Stale(old(sets[k].State()), now) :: old(sets)[k])[key := found]
      ensures forall other <- old(sets).Values :: other != found ==> other.State() == old(other.State())
    {
      found := Lookup(key, now);
      completer := found.Insert(index, total, piece);
    }
  }
}
