/** The pool object and TCP's use of it, with nothing in between their sections. */
module ConnPool {
  import opened Bytes
  import opened ConnPoolModel

  datatype Outcome = Reused(conn: Conn) | Fresh(conn: Conn) | DialError | MustWait

  /** Stale connections at the head are discarded, then the next one is reused or a new one dialed. */
  function AcquireOutcome(idle: seq<Pooled>, total: int, max: nat, now: int, dialed: Option<Conn>)
    : (seq<Pooled>, int, Outcome)
    decreases |idle|
  {
    if idle == [] then
      if total >= max then (idle, total, MustWait)
      else if dialed.Some? then (idle, total + 1, Fresh(dialed.value))
      else (idle, total, DialError)
    else if Stale(idle[0], now) then AcquireOutcome(idle[1..], total - 1, max, now, dialed)
    else (idle[1..], total, Reused(idle[0].conn))
  }

  /** The first connection that is not stale is taken, and exactly the ones before it are dropped. */
  lemma {:induction false} AcquireTakesFirstUsable(idle: seq<Pooled>, total: int, max: nat, now: int,
                                                   dialed: Option<Conn>, i: nat)
    requires i <= |idle| && forall j | 0 <= j < i :: Stale(idle[j], now)
    requires i < |idle| ==> !Stale(idle[i], now)
    ensures AcquireOutcome(idle, total, max, now, dialed)
            == if i < |idle| then (idle[i + 1..], total - i, Reused(idle[i].conn))
               else if total - i >= max then ([], total - i, MustWait)
               else if dialed.Some? then ([], total - i + 1, Fresh(dialed.value))
               else ([], total - i, DialError)
    decreases i
  {
    hide Stale;
    if i > 0 {
      AcquireTakesFirstUsable(idle[1..], total - 1, max, now, dialed, i - 1);
      assert i < |idle| ==> idle[1..][i..] == idle[i + 1..];
    }
  }

  class Pool {
    const max: nat
    var idle: seq<Pooled>
    var total: int

    constructor (max: int)
      ensures this.max == (if max <= 0 then 4 else max) && idle == [] && total == 0
    {
      this.max := if max <= 0 then 4 else max;
      idle, total := [], 0;
    }

    method Acquire(now: int, dialed: Option<Conn>) returns (o: Outcome)
      modifies this
      ensures (idle, total, o) == AcquireOutcome(old(idle), old(total), max, now, dialed)
    {
      while idle != []
        invariant AcquireOutcome(idle, total, max, now, dialed)
                  == AcquireOutcome(old(idle), old(total), max, now, dialed)
        decreases |idle|
      {
        var pooled := idle[0];
        idle := idle[1..];
        if Stale(pooled, now) {
          total := total - 1;
        } else {
          return Reused(pooled.conn);
        }
      }
      if total < max {
        total := total + 1;
        if dialed.None? {
          total := total - 1;
          return DialError;
        }
        return Fresh(dialed.value);
      }
      o := MustWait;
    }

    method Release(conn: Conn, healthy: bool, now: int)
      modifies this
      ensures if healthy && |old(idle)| < max
              then idle == old(idle) + [Pooled(conn, now)] && total == old(total)
              else idle == old(idle) && total == old(total) - 1
    {
      if !healthy {
        total := total - 1;
        return;
      }
      if |idle| < max {
        idle := idle + [Pooled(conn, now)];
      } else {
        total := total - 1;
      }
    }

    /**
     * One exchange when no other runs: afterwards every counted slot is an idle connection again,
     * and it answers if its connection worked, or if a reused one failed but the retry worked.
     */
    method Exchange(now: int, dialed: Option<Conn>, works: bool, retried: Option<Conn>, retryWorks: bool)
      returns (answered: bool)
      requires total == |idle| <= max
      modifies this
      ensures total == |idle| <= max
      ensures var o := AcquireOutcome(old(idle), old(total), max, now, dialed).2;
              answered <==> ((o.Reused? || o.Fresh?) && works) || (o.Reused? && retried.Some? && retryWorks)
    {
      SlotsKept(idle, total, max, now, dialed);
      var o := Acquire(now, dialed);
      if o.DialError? || o.MustWait? {
        return false;
      }
      if works {
        Release(o.conn, true, now);
        return true;
      }
      Release(o.conn, false, now);
      if !o.Reused? {
        return false;
      }
      answered := retried.Some? && retryWorks;
    }
  }

  lemma {:induction false} SlotsKept(idle: seq<Pooled>, total: int, max: nat, now: int, dialed: Option<Conn>)
    requires total == |idle| <= max
    ensures var (idle', total', o) := AcquireOutcome(idle, total, max, now, dialed);
            total' == |idle'| + (if o.Reused? || o.Fresh? then 1 else 0) <= max
    decreases |idle|
  {
    hide Stale;
    if idle != [] {
      SlotsKept(idle[1..], total - 1, max, now, dialed);
    }
  }
}
