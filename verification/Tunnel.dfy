/** The whole way of a fragmented query, through any interleaving of connections at the server. */
module Tunnel {
  import opened Bytes
  import opened Text
  import opened QueryCodec
  import opened Addressing
  import opened Transport
  import P = FragmentProtocol
  import S = FragmentSafety
  import D = FragmentDelivery

  /** The connection was let in by one of these pings, as the server received it. */
  ghost predicate CameFrom(a: P.Action, v: Server, pings: seq<Ping>, nonce: bytes)
    requires a.Enter?
  {
    exists j :: 0 <= j < |pings|
      && Reaches(v, pings[j], Fragment(nonce, a.index, a.total, a.piece), [])
  }

  function QueryKey(c: Client, clientIP: bytes): P.Key { P.Key(clientIP, Nonce(c.random)) }

  /** Whatever comes in under this client's address and nonce stems from the query's pings, each any number of times. */
  ghost predicate OnlyPings(c: Client, v: Server, encoded: bytes, clientIP: bytes, actions: seq<P.Action>) {
    c.PingsOf(encoded).Ok? &&
    forall a <- actions | a.Enter? && a.key == QueryKey(c, clientIP) ::
      CameFrom(a, v, c.PingsOf(encoded).value, Nonce(c.random))
  }

  lemma {:induction false} RunUnderPlan(plan: P.Plan, s: P.System, actions: seq<P.Action>)
    requires P.IsRun(map[], s, actions) && forall a <- actions :: P.Admissible(plan, a)
    ensures P.IsRun(plan, s, actions) && P.After(plan, s, actions) == P.After(map[], s, actions)
    decreases |actions|
  {
    hide P.Apply, P.Enabled, P.Admissible;
    if actions != [] {
      RunUnderPlan(plan, P.Apply(s, actions[0]), actions[1..]);
    }
  }

  /** Dispatch alone guarantees the index and total bounds of every admitted connection. */
  lemma {:induction false} RunAdmits(s: P.System, actions: seq<P.Action>)
    requires P.IsRun(map[], s, actions)
    ensures forall a <- actions :: P.Admissible(map[], a)
    decreases |actions|
  {
    hide P.Apply, P.Enabled, P.Admissible;
    if actions != [] {
      RunAdmits(P.Apply(s, actions[0]), actions[1..]);
      assert actions == [actions[0]] + actions[1..];
    }
  }

  /** A connection that stems from the pings brings the piece of its index. */
  lemma FromPing(c: Client, v: Server, encoded: bytes, a: P.Action)
    requires Agree(c, v) && encoded != [] && DOT !in encoded && Addressable(c, encoded) && c.PingsOf(encoded).Ok?
    requires AllUntouched(c, v, encoded)
    requires a.Enter? && CameFrom(a, v, c.PingsOf(encoded).value, Nonce(c.random))
    ensures a.total == |c.PiecesOf(encoded)| && 1 <= a.index <= a.total && a.piece == c.PiecesOf(encoded)[a.index - 1]
  {
    hide *;
    var j := PingOf(a, v, c.PingsOf(encoded).value, Nonce(c.random));
    PieceOfPing(c, v, encoded, j, Fragment(Nonce(c.random), a.index, a.total, a.piece));
  }

  lemma PingOf(a: P.Action, v: Server, pings: seq<Ping>, nonce: bytes) returns (j: nat)
    requires a.Enter? && CameFrom(a, v, pings, nonce)
    ensures j < |pings| && Reaches(v, pings[j], Fragment(nonce, a.index, a.total, a.piece), [])
  {
    hide Reaches;
    j :| 0 <= j < |pings| && Reaches(v, pings[j], Fragment(nonce, a.index, a.total, a.piece), []);
  }

  lemma PieceOfPing(c: Client, v: Server, encoded: bytes, j: nat, route: Route)
    requires Agree(c, v) && encoded != [] && DOT !in encoded && Addressable(c, encoded) && c.PingsOf(encoded).Ok?
    requires AllUntouched(c, v, encoded)
    requires j < |c.PingsOf(encoded).value| && Reaches(v, c.PingsOf(encoded).value[j], route, []) && route.Fragment?
    ensures route.total == |c.PiecesOf(encoded)| && 1 <= route.index <= route.total
    ensures route.piece == c.PiecesOf(encoded)[route.index - 1]
  {
    c.PingsAre(encoded);
    hide Agree, Addressable, Client.PiecesOf, Client.PingsOf, Client.FitsOne, Sent, Received, Server.Accepts,
         FragmentText, Nonce, Untouched, AllUntouched;
    PingShort(c, encoded, j);
    PingUntouched(c, v, encoded, j);
    if c.FitsOne(encoded) {
      DeliveredAtOnce(c, v, encoded, []);
    } else {
      DeliveredInPieces(c, v, encoded, j, []);
    }
  }

  lemma PingUntouched(c: Client, v: Server, encoded: bytes, j: nat)
    requires AllUntouched(c, v, encoded) && c.PingsOf(encoded).Ok? && j < |c.PingsOf(encoded).value|
    ensures Untouched(c, v, c.PingsOf(encoded).value[j])
  {
    hide Untouched;
    assert c.PingsOf(encoded).value[j] in c.PingsOf(encoded).value;
  }

  lemma PingShort(c: Client, encoded: bytes, j: nat)
    requires Addressable(c, encoded) && c.PingsOf(encoded).Ok? && j < |c.PingsOf(encoded).value|
    ensures |c.PingsOf(encoded).value[j].address| < 0x8000_0000
  {
    assert c.PingsOf(encoded).value[j] in c.PingsOf(encoded).value;
  }

  lemma AdmitsUnder(a: P.Action, key: P.Key, pieces: seq<bytes>)
    requires P.Admissible(map[], a)
    requires a.Enter? && a.key == key ==>
               a.total == |pieces| && 1 <= a.index <= |pieces| && a.piece == pieces[a.index - 1]
    ensures P.Admissible(map[key := pieces], a)
  {
  }

  /** Seen from the query, the run follows the plan of its pieces. */
  lemma RunOfPings(c: Client, v: Server, encoded: bytes, clientIP: bytes, actions: seq<P.Action>)
    requires Agree(c, v) && encoded != [] && DOT !in encoded && Addressable(c, encoded) && AllUntouched(c, v, encoded)
    requires P.IsRun(map[], P.Start, actions) && OnlyPings(c, v, encoded, clientIP, actions)
    ensures var plan: P.Plan := map[QueryKey(c, clientIP) := c.PiecesOf(encoded)];
            P.IsRun(plan, P.Start, actions) && P.After(plan, P.Start, actions) == P.After(map[], P.Start, actions)
  {
    var key := QueryKey(c, clientIP);
    hide P.IsRun, P.After, P.Admissible, Agree, Addressable, Client.PiecesOf, Client.PingsOf, CameFrom, QueryKey;
    RunAdmits(P.Start, actions);
    forall a <- actions ensures P.Admissible(map[key := c.PiecesOf(encoded)], a) {
      if a.Enter? && a.key == key {
        FromPing(c, v, encoded, a);
      }
      AdmitsUnder(a, key, c.PiecesOf(encoded));
    }
    RunUnderPlan(map[key := c.PiecesOf(encoded)], P.Start, actions);
  }

  /** Of a planned query's pieces, a completer's text decodes to the query, normalised. */
  lemma AssembledQueryDecodes(tlds: Dictionary, q: Query, pieces: seq<bytes>, key: P.Key, plan: P.Plan,
                              actions: seq<P.Action>, t: P.Tid)
    requires Refusal(q).None? && Flatten(pieces) == EncodedText(tlds, q)
    requires key in plan && plan[key] == pieces && P.IsRun(plan, P.Start, actions)
    ensures var s := P.After(plan, P.Start, actions);
            t in s.threads && s.threads[t].Resolving? && s.threads[t].id < |s.keys|
            && s.keys[s.threads[t].id] == key ==>
              DecodeQuery(tlds, s.threads[t].text, []) == Ok(Normalized(q))
  {
    hide *;
    S.CompleterHasTheQuery(plan, actions, t);
    SentText(tlds, q);
  }

  /**
   * End to end, safety. Whatever connections the server handles, in whatever interleaving: if those
   * under this client's address and nonce stem from the query's pings, the one that completes them
   * decodes the query, normalised.
   */
  lemma TunnelAssembles(tlds: Dictionary, q: Query, c: Client, v: Server, clientIP: bytes, actions: seq<P.Action>, t: P.Tid)
    requires Refusal(q).None? && Agree(c, v) && Addressable(c, EncodedText(tlds, q))
    requires AllUntouched(c, v, EncodedText(tlds, q))
    requires P.IsRun(map[], P.Start, actions) && OnlyPings(c, v, EncodedText(tlds, q), clientIP, actions)
    ensures var s := P.After(map[], P.Start, actions);
            t in s.threads && s.threads[t].Resolving? && s.threads[t].id < |s.keys|
            && s.keys[s.threads[t].id] == QueryKey(c, clientIP) ==>
              DecodeQuery(tlds, s.threads[t].text, []) == Ok(Normalized(q))
  {
    hide *;
    var encoded, key := EncodedText(tlds, q), QueryKey(c, clientIP);
    SentText(tlds, q);
    PiecesWhole(c, encoded);
    RunOfPings(c, v, encoded, clientIP, actions);
    AssembledQueryDecodes(tlds, q, c.PiecesOf(encoded), key, map[key := c.PiecesOf(encoded)], actions, t);
  }

  /**
   * End to end, completion. Among any other connections: once each ping of the query has had its
   * piece stored, and no connection came more than ten seconds after the query's latest, there is
   * a completer, and the text it reassembles decodes to the query, normalised.
   */
  lemma TunnelCompletes(tlds: Dictionary, q: Query, c: Client, v: Server, clientIP: bytes, actions: seq<P.Action>)
    returns (t: P.Tid)
    requires Refusal(q).None? && Agree(c, v) && Addressable(c, EncodedText(tlds, q))
    requires AllUntouched(c, v, EncodedText(tlds, q))
    requires P.IsRun(map[], P.Start, actions) && OnlyPings(c, v, EncodedText(tlds, q), clientIP, actions)
    requires D.Unhurried(QueryKey(c, clientIP), None, actions)
    requires D.AllStored(P.After(map[], P.Start, actions), |c.PiecesOf(EncodedText(tlds, q))|,
                         D.Connections(QueryKey(c, clientIP), map[], actions))
    ensures var s := P.After(map[], P.Start, actions);
            && t in s.threads && P.IsCompleter(s.threads[t])
            && QueryKey(c, clientIP) in s.sets && s.threads[t].id == s.sets[QueryKey(c, clientIP)]
            && (s.threads[t].Resolving? ==> DecodeQuery(tlds, s.threads[t].text, []) == Ok(Normalized(q)))
  {
    hide *;
    var encoded, key := EncodedText(tlds, q), QueryKey(c, clientIP);
    var plan: P.Plan := map[key := c.PiecesOf(encoded)];
    SentText(tlds, q);
    PiecesWhole(c, encoded);
    SomePieces(c.PiecesOf(encoded));
    RunOfPings(c, v, encoded, clientIP, actions);
    S.StartInv(plan);
    assert key !in P.Start.sets by { NoSets(key); }
    t := D.AllStoredCompletes(plan, P.Start, actions, key);
  }

  lemma NoSets(key: P.Key)
    ensures key !in P.Start.sets
  {
  }

  lemma SomePieces(pieces: seq<bytes>)
    requires Flatten(pieces) != []
    ensures |pieces| > 0
  {
  }

  // ----- such runs exist

  /** The pieces of a query, arriving one after the other. */
  function SendingOf(c: Client, encoded: bytes, clientIP: bytes, times: seq<int>, base: P.Tid): D.Sending {
    D.Sending(QueryKey(c, clientIP), c.PiecesOf(encoded), times, base)
  }

  /** Every connection of the sending was let in by its ping. */
  ghost predicate FromPings(d: D.Sending, v: Server, pings: seq<Ping>, nonce: bytes) {
    |d.times| == |d.pieces| && forall i | 0 <= i < |d.pieces| :: CameFrom(d.Entry(i), v, pings, nonce)
  }

  /** The arrivals can happen one after the other, and then the last connection decodes the query. */
  ghost predicate EndsDecoding(tlds: Dictionary, d: D.Sending, s: P.System, q: Query) {
    d.Steady() &&
    var last := d.base + |d.pieces| - 1;
    var actions := d.Arrivals(|d.pieces|) + [P.Join(last)];
    && P.IsRun(map[], s, actions)
    && var threads := P.After(map[], s, actions).threads;
       && last in threads && threads[last].Resolving?
       && DecodeQuery(tlds, threads[last].text, []) == Ok(q)
  }

  /**
   * Whenever a fragmented query is deliverable, whatever went on before under other nonces: its
   * pings can arrive one by one, and if they do so in time the last connection decodes the query.
   */
  lemma PingsAloneComplete(tlds: Dictionary, q: Query, c: Client, v: Server, clientIP: bytes,
                           times: seq<int>, base: P.Tid, s: P.System)
    requires Refusal(q).None? && Agree(c, v) && Addressable(c, EncodedText(tlds, q))
    requires Deliverable(c, v, EncodedText(tlds, q)) && !c.FitsOne(EncodedText(tlds, q))
    requires var d := SendingOf(c, EncodedText(tlds, q), clientIP, times, base);
             d.Timely() && d.Unseen(s)
    ensures var encoded := EncodedText(tlds, q);
            var d := SendingOf(c, encoded, clientIP, times, base);
            && c.PingsOf(encoded).Ok?
            && FromPings(d, v, c.PingsOf(encoded).value, Nonce(c.random))
            && EndsDecoding(tlds, d, s, Normalized(q))
  {
    hide *;
    var encoded := EncodedText(tlds, q);
    var d := SendingOf(c, encoded, clientIP, times, base);
    SentText(tlds, q);
    PiecesWhole(c, encoded);
    SendingIs(c, encoded, clientIP, times, base);
    DeliverablePieces(c, v, encoded);
    EncodedDelivers(c, v, encoded, []);
    SteadyIs(d);
    ArrivalsFrom(c, v, encoded, d);
    AssembledDecodes(tlds, q, d, s);
  }

  lemma DeliverablePieces(c: Client, v: Server, encoded: bytes)
    requires Deliverable(c, v, encoded) && !c.FitsOne(encoded) && encoded != []
    ensures c.PingsOf(encoded).Ok? && 2 <= |c.PiecesOf(encoded)| <= MAX_PIECES
    ensures |c.PingsOf(encoded).value| == |c.PiecesOf(encoded)|
  {
    c.PingsAre(encoded);
    PieceTotal(c, encoded);
    hide Client.PingsOf, Client.PiecesOf, Client.FitsOne, Client.Room, Server.Accepts;
  }

  lemma SendingIs(c: Client, encoded: bytes, clientIP: bytes, times: seq<int>, base: P.Tid)
    ensures var d := SendingOf(c, encoded, clientIP, times, base);
            d.pieces == c.PiecesOf(encoded) && d.base == base && d.times == times && d.key == QueryKey(c, clientIP)
  {
    hide Client.PiecesOf, QueryKey;
  }

  lemma SteadyIs(d: D.Sending)
    requires 2 <= |d.pieces| <= MAX_PIECES && d.Timely()
    ensures d.Steady() && |d.times| == |d.pieces|
  {
  }

  lemma ArrivalsFrom(c: Client, v: Server, encoded: bytes, d: D.Sending)
    requires d.pieces == c.PiecesOf(encoded) && |d.times| == |d.pieces| && !c.FitsOne(encoded)
    requires GetsThrough(c, v, encoded, []) && |c.PingsOf(encoded).value| == |d.pieces|
    ensures FromPings(d, v, c.PingsOf(encoded).value, Nonce(c.random))
  {
    hide Client.PingsOf, Client.PiecesOf, Client.FitsOne, Nonce, Reaches;
    var pings := c.PingsOf(encoded).value;
    forall i | 0 <= i < |d.pieces| ensures CameFrom(d.Entry(i), v, pings, Nonce(c.random)) {
      assert Reaches(v, pings[i], Intended(c, encoded, i), []);
    }
  }

  lemma AssembledDecodes(tlds: Dictionary, q: Query, d: D.Sending, s: P.System)
    requires Refusal(q).None? && d.Steady() && d.Unseen(s) && Flatten(d.pieces) == EncodedText(tlds, q)
    ensures EndsDecoding(tlds, d, s, Normalized(q))
  {
    hide D.Sending.Arrivals, D.Sending.Unseen, P.IsRun, P.After, Flatten, DecodeQuery, EncodedText, Normalized, Refusal;
    D.LastPieceCompletes(map[], s, d);
    SentText(tlds, q);
  }
}
