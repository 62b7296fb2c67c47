/** The client's choice of server: round robin over picks, and failover within one resolution. */
module Client {
  import opened Bytes

  /** "127.0.0.1:25565" */
  const LOCAL_SERVER: bytes := [49, 50, 55, 46, 48, 46, 48, 46, 49, 58, 50, 53, 53, 54, 53]

  /** The server a pick takes when the counter stands at `next`. */
  function Choice(servers: nat, next: nat): (i: nat)
    requires servers > 0
    ensures i < servers
  {
    next % servers
  }

  /** How often server i has been picked after n picks. */
  function Usage(servers: nat, i: nat, n: nat): nat
    requires servers > 0
  {
    if n == 0 then 0 else Usage(servers, i, n - 1) + (if Choice(servers, n - 1) == i then 1 else 0)
  }

  lemma NextDivision(n: nat, d: nat)
    requires d > 0
    ensures if n % d + 1 < d then (n + 1) / d == n / d && (n + 1) % d == n % d + 1
            else (n + 1) / d == n / d + 1 && (n + 1) % d == 0
  {
    var q, r := n / d, n % d;
    assert n + 1 == q * d + (r + 1);
    if r + 1 < d {
      DivisionIs(n + 1, d, q, r + 1);
    } else {
      assert (q + 1) * d == q * d + d;
      DivisionIs(n + 1, d, q + 1, 0);
    }
  }

  lemma DivisionIs(n: nat, d: nat, q: nat, r: nat)
    requires r < d && n == q * d + r
    ensures n / d == q && n % d == r
  {
    var k, s := n / d - q, n % d;
    assert n == n / d * d + s && n / d * d == k * d + q * d;
    NoMultipleBetween(k, d, r - s);
  }

  lemma NoMultipleBetween(k: int, d: nat, x: int)
    requires k * d == x && x < d && x + d > 0
    ensures k == 0
  {
    if k >= 1 {
      AtLeastOnce(k, d);
    }
  }

  lemma AtLeastOnce(k: nat, d: nat)
    requires k >= 1
    ensures k * d >= d
  {
    assert k * d == (k - 1) * d + d;
  }

  lemma {:induction false} UsageIs(servers: nat, i: nat, n: nat)
    requires i < servers
    ensures Usage(servers, i, n) == n / servers + (if i < n % servers then 1 else 0)
  {
    if n > 0 {
      UsageIs(servers, i, n - 1);
      NextDivision(n - 1, servers);
    } else {
      DivisionIs(0, servers, 0, 0);
    }
  }

  /** However many picks there have been, from however many callers, no server leads another by more than one. */
  lemma UsageBalanced(servers: nat, i: nat, j: nat, n: nat)
    requires i < servers && j < servers
    ensures Usage(servers, i, n) - Usage(servers, j, n) <= 1
  {
    UsageIs(servers, i, n);
    UsageIs(servers, j, n);
  }

  // ----- failover

  /** A run of consecutive picks no longer than the list takes each server at most once. */
  lemma {:induction false} PicksDiffer(servers: nat, next: nat, a: nat, b: nat)
    requires servers > 0 && a < b < servers
    ensures Choice(servers, next + a) != Choice(servers, next + b)
  {
    var x, y := next + a, next + b;
    if x % servers == y % servers {
      assert y - x == (y / servers - x / servers) * servers;
      if y / servers > x / servers {
        AtLeastOnce(y / servers - x / servers, servers);
      }
    }
  }

  /** The place within the run at which server i is picked. */
  lemma PickedWithin(servers: nat, next: nat, i: nat) returns (k: nat)
    requires i < servers
    ensures k < servers && Choice(servers, next + k) == i
  {
    var r := next % servers;
    k := if i >= r then i - r else i - r + servers;
    assert next == next / servers * servers + r;
    if i >= r {
      DivisionIs(next + k, servers, next / servers, i);
    } else {
      assert (next / servers + 1) * servers == next / servers * servers + servers;
      DivisionIs(next + k, servers, next / servers + 1, i);
    }
  }

  class Failover {
    const servers: seq<bytes>
    var nextServer: nat

    constructor (servers: seq<bytes>)
      ensures this.servers == (if servers == [] then [LOCAL_SERVER] else servers) && nextServer == 0
    {
      this.servers := if servers == [] then [LOCAL_SERVER] else servers;
      nextServer := 0;
    }

    /** With a single server the counter stays put. */
    method PickServer() returns (i: nat)
      requires servers != []
      modifies this
      ensures i < |servers| && i == Choice(|servers|, old(nextServer))
      ensures nextServer == old(nextServer) + (if |servers| == 1 then 0 else 1)
    {
      if |servers| == 1 {
        return 0;
      }
      i := nextServer % |servers|;
      nextServer := nextServer + 1;
    }

    /**
     * Tries servers until one answers. `replies[i]` is what server i would answer, None if it is
     * unreachable. Each server is tried at most once, and the result is an answer exactly when
     * some server would give one.
     */
    method ResolveThroughTunnel<M>(replies: seq<Option<M>>) returns (tried: seq<nat>, answer: Option<M>)
      requires servers != [] && |replies| == |servers|
      modifies this
      ensures forall a | 0 <= a < |tried| :: tried[a] < |servers|
      ensures forall a, b | 0 <= a < b < |tried| :: tried[a] != tried[b]
      ensures forall a | 0 <= a < |tried| ::
                tried[a] == Choice(|servers|, old(nextServer) + a)
                && (a < |tried| - 1 ==> replies[tried[a]].None?)
      ensures answer.Some? <==> exists i :: 0 <= i < |replies| && replies[i].Some?
      ensures answer.Some? ==> |tried| > 0 && answer == replies[tried[|tried| - 1]]
      ensures |servers| > 1 ==> nextServer == old(nextServer) + |tried|
    {
      hide Choice;
      tried := [];
      answer := None;
      ghost var start := nextServer;
      for attempt := 0 to |servers|
        invariant |tried| == attempt && (|servers| > 1 ==> nextServer == start + attempt)
        invariant |servers| == 1 ==> nextServer == start
        invariant forall a | 0 <= a < attempt :: tried[a] < |servers|
        invariant forall a | 0 <= a < attempt ::
                    tried[a] == Choice(|servers|, start + a) && replies[tried[a]].None?
      {
        var i := PickServer();
        OnlyServer(start, i, |servers|);
        tried := tried + [i];
        if replies[i].Some? {
          answer := replies[i];
          AllDiffer(|servers|, start, tried);
          return;
        }
      }
      AllDiffer(|servers|, start, tried);
      forall i | 0 <= i < |replies| ensures replies[i].None? {
        var k := PickedWithin(|servers|, start, i);
        assert tried[k] == i;
      }
    }
  }

  lemma OnlyServer(start: nat, i: nat, servers: nat)
    requires i < servers
    ensures servers == 1 ==> i == Choice(servers, start)
  {
  }

  lemma AllDiffer(servers: nat, start: nat, tried: seq<nat>)
    requires servers > 0 && |tried| <= servers
    requires forall a | 0 <= a < |tried| :: tried[a] == Choice(servers, start + a)
    ensures forall a, b | 0 <= a < b < |tried| :: tried[a] != tried[b]
  {
    hide Choice;
    forall a, b | 0 <= a < b < |tried| ensures tried[a] != tried[b] {
      PicksDiffer(servers, start, a, b);
    }
  }
}
