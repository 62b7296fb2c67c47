/** The way of a query: encoded, addressed, framed, received and routed. */
module Transport {
  import opened Bytes
  import opened Text
  import opened Uvarint
  import opened QueryCodec
  import opened Addressing
  import Base32
  import Framing

  const PROTOCOL: nat := 765
  const STATUS: nat := 1
  const DEFAULT_MAX_FRAME: nat := 4096

  /** Two random bytes in lower-case base32. */
  function Nonce(random: bytes): bytes { Lower(Base32.Encode(random)) }

  /** A client's configuration, and the random bytes of one query. */
  datatype Client = Client(passphrase: bytes, random: bytes, suffix: bytes) {
    function Room(): int { Budget(passphrase, Nonce(random), suffix) }

    function PiecesOf(encoded: bytes): seq<bytes> { Pieces(encoded, MaxPieceLength(Room())) }

    predicate FitsOne(encoded: bytes) { |WithSuffix(AuthPrefix(passphrase) + encoded, suffix)| <= MAX_ADDRESS }

    function PingsOf(encoded: bytes): Result<seq<Ping>, ClientError> {
      Pings(encoded, passphrase, Nonce(random), suffix)
    }

    function FragmentOf(encoded: bytes, i: nat): Ping
      requires i < |PiecesOf(encoded)| <= MAX_PIECES
    {
      FragmentPing(PiecesOf(encoded), i, passphrase, Nonce(random), suffix)
    }

    lemma PingsAre(encoded: bytes)
      ensures FitsOne(encoded) ==>
                PingsOf(encoded) == Ok([Ping(WithSuffix(AuthPrefix(passphrase) + encoded, suffix), QUERY_PORT)])
      ensures !FitsOne(encoded) && |PiecesOf(encoded)| > MAX_PIECES ==> PingsOf(encoded) == Err(TooLarge)
      ensures !FitsOne(encoded) && |PiecesOf(encoded)| <= MAX_PIECES ==>
                && PingsOf(encoded).Ok? && |PingsOf(encoded).value| == |PiecesOf(encoded)|
                && forall i | 0 <= i < |PiecesOf(encoded)| :: PingsOf(encoded).value[i] == FragmentOf(encoded, i)
    {
      var nonce, pieces := Nonce(random), PiecesOf(encoded);
      hide Pieces, MaxPieceLength, Budget, WithSuffix, AuthPrefix, FragmentPings, Nonce, FragmentPing;
      if !FitsOne(encoded) && |pieces| <= MAX_PIECES {
        forall i | 0 <= i < |pieces|
          ensures FragmentPings(pieces, |pieces|, passphrase, nonce, suffix)[i] == FragmentOf(encoded, i)
        {
          FragmentPingsAt(pieces, |pieces|, passphrase, nonce, suffix, i);
        }
      }
    }
  }

  datatype Server = Server(passphrase: bytes, suffix: bytes, maxFrameSize: int) {
    function FrameLimit(): int { if maxFrameSize > 0 then maxFrameSize else DEFAULT_MAX_FRAME }

    /** What the frame reader and ReadString let through. */
    predicate Accepts(p: Ping) {
      |p.address| <= Framing.MAX_STRING && |Framing.FrameBody(HandshakeFrame(p))| <= FrameLimit()
    }
  }

  /** One passphrase without dots, as the configuration demands, and one suffix, or none at the client. */
  predicate Agree(c: Client, v: Server) {
    c.passphrase == v.passphrase && DOT !in c.passphrase && |c.random| == 2
    && (KnownSuffix(c.suffix, v.suffix) || c.suffix == [])
  }

  /** The server takes nothing off an address but the client's suffix. */
  predicate Untouched(c: Client, v: Server, p: Ping) {
    KnownSuffix(c.suffix, v.suffix) || !HasSuffix(Lower(p.address), Lower(v.suffix))
  }

  // ----- one connection

  function HandshakeOf(p: Ping): Framing.Handshake {
    Framing.Handshake(PROTOCOL, p.address, p.port, STATUS)
  }

  function HandshakeFrame(p: Ping): Framing.Frame { Framing.Frame(0, Framing.HandshakePayload(HandshakeOf(p))) }

  /** What a client writes for a ping. */
  function Sent(p: Ping): bytes { Framing.EncodeHandshake(HandshakeOf(p)) + Framing.EncodeStatusRequest() }

  /** Where the server takes a connection, if it gets past a status handshake and a status request. */
  function Received(v: Server, stream: bytes): Option<Route> {
    match Framing.TakeFrame(stream, v.FrameLimit())
    case Err(_) => None
    case Ok((frame, rest)) =>
      if frame.packetID != 0 then None else
        match Framing.ParseHandshake(frame.data) {
          case Err(_) => None
          case Ok(h) =>
            if h.nextState != STATUS then None else
              match Framing.TakeFrame(rest, v.FrameLimit()) {
                case Err(_) => None
                case Ok((request, _)) =>
                  if request.packetID != 0 then None
                  else Some(RouteOf(Ping(h.serverAddress, h.serverPort), v.suffix, v.passphrase))
              }
        }
  }

  /** The same, as the source reads it off the connection. */
  method ReceivePing(v: Server, connection: Framing.Reader) returns (route: Option<Route>)
    modifies connection
    ensures route == Received(v, old(connection.unread))
  {
    hide Framing.TakeFrame, Framing.ParseHandshake, RouteOf;
    var first := connection.ReadFrameLimit(v.FrameLimit());
    if first.Err? || first.value.packetID != 0 {
      return None;
    }
    var parsed := Framing.ParseHandshakePayload(first.value.data);
    if parsed.Err? || parsed.value.nextState != STATUS {
      return None;
    }
    var second := connection.ReadFrameLimit(v.FrameLimit());
    if second.Err? || second.value.packetID != 0 {
      return None;
    }
    route := Some(RouteOf(Ping(parsed.value.serverAddress, parsed.value.serverPort), v.suffix, v.passphrase));
  }

  /** A ping is routed as it was sent exactly if the readers let it through, whatever follows on the stream. */
  lemma PingReceived(v: Server, p: Ping, rest: bytes)
    requires |p.address| < 0x8000_0000
    ensures Received(v, Sent(p) + rest)
            == if v.Accepts(p) then Some(RouteOf(p, v.suffix, v.passphrase)) else None
  {
    var frame, later := HandshakeFrame(p), Framing.EncodeStatusRequest() + rest;
    BodySize(p);
    hide RouteOf, Framing.TakeFrame, Framing.WriteFrame, Framing.ParseHandshake, Framing.HandshakePayload, Framing.FrameBody;
    assert Sent(p) + rest == Framing.WriteFrame(frame) + later;
    Framing.FrameRoundTrip(frame, v.FrameLimit(), later);
    Framing.HandshakeRoundTrip(HandshakeOf(p));
    RequestSize();
    Framing.FrameRoundTrip(Framing.StatusRequest, v.FrameLimit(), rest);
  }

  lemma RequestSize()
    ensures |Framing.FrameBody(Framing.StatusRequest)| == 1
  {
  }

  /** The handshake frame of an address. */
  lemma BodySize(p: Ping)
    ensures var size := |Framing.FrameBody(HandshakeFrame(p))|;
            && |p.address| + 7 <= size <= |p.address| + 11
            && (|p.address| <= MAX_ADDRESS ==> size <= |p.address| + 8)
  {
    FixedSizes();
    AddressSize(|p.address|);
    hide PutUvarint, Framing.WriteVarInt;
  }

  lemma FixedSizes()
    ensures |Framing.WriteVarInt(0)| == 1 && |Framing.WriteVarInt(STATUS)| == 1 && |Framing.WriteVarInt(PROTOCOL)| == 2
  {
  }

  lemma AddressSize(n: nat)
    ensures 1 <= |Framing.WriteVarInt(n)| <= 5 && (n <= MAX_ADDRESS ==> |Framing.WriteVarInt(n)| <= 2)
  {
    Framing.VarIntRoundTrip(n, []);
    assert Pow128(2) == 0x4000 by { assert Pow128(1) == 128; }
    hide PutUvarint;
    if n <= MAX_ADDRESS {
      PutLength(n, 2);
    }
  }

  /** Addresses of at most 255 bytes pass under the default limit, and any limit from 263 on. */
  lemma OrdinaryAccepted(v: Server, p: Ping)
    requires |p.address| <= MAX_ADDRESS && (v.maxFrameSize <= 0 || v.maxFrameSize >= 263)
    ensures v.Accepts(p)
  {
    BodySize(p);
    hide Framing.FrameBody;
  }

  // ----- how long a query can get

  lemma {:induction false} LabelsWireLength(labels: seq<bytes>)
    requires labels != []
    ensures |LabelsWire(labels)| == |Join(labels)| + 1
  {
    if |labels| > 1 {
      LabelsWireLength(labels[1..]);
    }
  }

  lemma NamePartLength(tlds: Dictionary, labels: seq<bytes>)
    requires labels != []
    ensures |NamePart(tlds, labels).1| <= |Join(labels)| + 2
  {
    hide TldCode, Join, LabelsWire;
    var prefix, last := labels[..|labels| - 1], labels[|labels| - 1];
    LabelsWireLength(labels);
    assert labels == prefix + [last];
    if prefix == [] {
      NoLabels();
    } else {
      LabelsWireLength(prefix);
      JoinSnoc(prefix, last);
    }
  }

  lemma NoLabels()
    ensures LabelsWire([]) == []
  {
  }

  lemma QueryWireLength(tlds: Dictionary, q: Query)
    requires Refusal(q).None?
    ensures 0 < |QueryWire(tlds, q)| <= 8 + |TrimSuffix(q.questions[0].name, [DOT])|
  {
    hide NamePart, PutUvarint, Split, Join;
    var question := q.questions[0];
    var domain := Lower(TrimSuffix(question.name, [DOT]));
    JoinSplit(domain);
    NamePartLength(tlds, NameLabels(question.name));
    assert question.qtype < Pow128(3) by { assert Pow128(1) == 128 && Pow128(2) == 0x4000; }
    PutLength(question.qtype, 3);
  }

  /** A name of n characters makes at most n + 8 bytes of query; with n = 253, at most 418 characters. */
  lemma EncodedLength(tlds: Dictionary, q: Query)
    requires Refusal(q).None?
    ensures var n := |TrimSuffix(q.questions[0].name, [DOT])|;
            |QueryWire(tlds, q)| <= n + 8 && 0 < |EncodedText(tlds, q)| <= (8 * n + 68) / 5
  {
    hide *;
    QueryWireLength(tlds, q);
    EncodedTextShape(tlds, q);
  }

  /** The sixteen pieces a client may send suffice exactly up to sixteen times the piece length, hence always up to 640. */
  lemma SixteenPiecesSuffice(c: Client, encoded: bytes)
    requires encoded != []
    ensures 1 <= |c.PiecesOf(encoded)| <= MAX_PIECES <==> |encoded| <= MAX_PIECES * MaxPieceLength(c.Room())
    ensures |encoded| <= 640 ==> 1 <= |c.PiecesOf(encoded)| <= MAX_PIECES && c.PingsOf(encoded).Ok?
  {
    c.PingsAre(encoded);
    var n := MaxPieceLength(c.Room());
    PieceCount(encoded, n);
    assert c.PiecesOf(encoded) == Pieces(encoded, n) && n >= 40;
    hide Pieces, MaxPieceLength, Client.PingsOf, Client.PiecesOf, Client.FitsOne, Client.Room;
    SixteenTimes(|c.PiecesOf(encoded)|, n, |encoded|);
  }

  lemma SixteenTimes(k: nat, n: nat, length: nat)
    requires k >= 1 && (k - 1) * n < length <= k * n
    ensures k <= 16 <==> length <= 16 * n
  {
    if k > 16 {
      ProductAtLeast(k - 1, n, 16, n);
    } else {
      ProductAtLeast(16, n, k, n);
    }
  }

  lemma ProductAtLeast(a: nat, b: nat, x: nat, y: nat)
    requires a >= x && b >= y
    ensures a * b >= x * y
  {
    assert a * b == x * b + (a - x) * b && x * b == x * y + x * (b - y);
  }

  // ----- delivery

  lemma SentText(tlds: Dictionary, q: Query)
    requires Refusal(q).None?
    ensures var text := EncodedText(tlds, q);
            text != [] && DOT !in text && DecodeQuery(tlds, text, []) == Ok(Normalized(q))
  {
    hide *;
    EncodedTextShape(tlds, q);
    QueryRoundTrip(tlds, q, EncodedText(tlds, q));
    QueryWireLength(tlds, q);
  }

  lemma NonceShape(random: bytes)
    requires |random| == 2
    ensures |Nonce(random)| == 4 && DOT !in Nonce(random)
  {
    hide Base32.Encode;
    UpperLowerEncoded(random);
    Base32.EncodeLength(random);
  }

  /** Where a ping is meant to be taken. */
  function Intended(c: Client, encoded: bytes, i: nat): Route
    requires c.FitsOne(encoded) || i < |c.PiecesOf(encoded)|
  {
    if c.FitsOne(encoded) then Direct(encoded)
    else Fragment(Nonce(c.random), i + 1, |c.PiecesOf(encoded)|, c.PiecesOf(encoded)[i])
  }

  /** A query that fits one address: its only ping is routed to the decoder if it is let through untouched. */
  lemma DeliveredAtOnce(c: Client, v: Server, encoded: bytes, rest: bytes)
    requires Agree(c, v) && encoded != [] && DOT !in encoded && c.FitsOne(encoded)
    ensures var pings := c.PingsOf(encoded);
            && pings.Ok? && |pings.value| == 1
            && var p, received := pings.value[0], Received(v, Sent(pings.value[0]) + rest);
               if !v.Accepts(p) then received == None
               else received.Some? && (received.value == Direct(encoded) <==> Untouched(c, v, p))
  {
    c.PingsAre(encoded);
    var text := AuthPrefix(c.passphrase) + encoded;
    var p := Ping(WithSuffix(text, c.suffix), QUERY_PORT);
    hide Received, Sent, RouteOf, Server.Accepts, KnownSuffix, Lower, HasSuffix, Client.PingsOf, AuthPrefix;
    PingReceived(v, p, rest);
    assert c.suffix == [] ==> p.address == text;
    hide WithSuffix;
    if Untouched(c, v, p) {
      SingleRoute(encoded, c.passphrase, c.suffix, v.suffix, v.passphrase);
      if c.passphrase == [] {
        NoPrefix(encoded);
      }
    } else {
      NoneKnown(v.suffix);
      OverstrippedSingle(encoded, c.passphrase, v.suffix);
    }
  }

  lemma NoneKnown(known: bytes)
    ensures known == [] ==> KnownSuffix([], known)
  {
  }

  /**
   * A query that does not fit one address: each ping that is let through untouched is taken for the
   * right fragment, unless it is the only one; then it is taken for a whole query.
   */
  lemma DeliveredInPieces(c: Client, v: Server, encoded: bytes, i: nat, rest: bytes)
    requires Agree(c, v) && encoded != [] && DOT !in encoded && !c.FitsOne(encoded)
    requires i < |c.PiecesOf(encoded)| <= MAX_PIECES && |c.FragmentOf(encoded, i).address| < 0x8000_0000
    ensures var ping := c.FragmentOf(encoded, i);
            var received := Received(v, Sent(ping) + rest);
            if !v.Accepts(ping) then received == None
            else if Untouched(c, v, ping)
            then received == Some(if |c.PiecesOf(encoded)| >= MIN_PIECES then Intended(c, encoded, i)
                                  else Direct(FragmentText(Nonce(c.random), c.PiecesOf(encoded)[i])))
            else received.Some? && received.value != Intended(c, encoded, i)
  {
    var pieces, nonce := c.PiecesOf(encoded), Nonce(c.random);
    var ping := c.FragmentOf(encoded, i);
    NonceShape(c.random);
    PiecesDotFree(c, encoded, i);
    FragmentUnsuffixed(c.passphrase, nonce, pieces[i]);
    hide Received, Sent, RouteOf, Server.Accepts, KnownSuffix, Client.PiecesOf, FragmentAddress, FragmentText, Nonce,
         Lower, HasSuffix, AuthPrefix;
    PingReceived(v, ping, rest);
    if Untouched(c, v, ping) {
      FragmentRoute(nonce, pieces[i], i + 1, |pieces|, c.passphrase, c.suffix, v.suffix, v.passphrase);
    } else {
      NoneKnown(v.suffix);
      OverstrippedFragment(nonce, pieces[i], ping.port, c.passphrase, v.suffix);
    }
  }

  lemma FragmentUnsuffixed(passphrase: bytes, nonce: bytes, piece: bytes)
    ensures FragmentAddress(passphrase, nonce, piece, []) == AuthPrefix(passphrase) + FragmentText(nonce, piece)
  {
    hide AuthPrefix, FragmentText;
  }

  lemma PiecesDotFree(c: Client, encoded: bytes, i: nat)
    requires DOT !in encoded && i < |c.PiecesOf(encoded)|
    ensures c.PiecesOf(encoded)[i] != [] && DOT !in c.PiecesOf(encoded)[i]
  {
    hide Pieces, Client.Room;
    PieceMembers(encoded, MaxPieceLength(c.Room()));
    assert c.PiecesOf(encoded)[i] in c.PiecesOf(encoded);
  }

  /** Go strings of these lengths are 32-bit varints. */
  predicate Addressable(c: Client, encoded: bytes) {
    c.PingsOf(encoded).Ok? ==> forall p <- c.PingsOf(encoded).value :: |p.address| < 0x8000_0000
  }

  /** As they are whenever passphrase, suffix and text are. */
  lemma AddressableWhenShort(c: Client, encoded: bytes)
    requires |c.passphrase| + |c.suffix| + |encoded| < 0x1000_0000 && |c.random| == 2 && encoded != []
    ensures Addressable(c, encoded)
  {
    c.PingsAre(encoded);
    if c.PingsOf(encoded).Ok? {
      var pings := c.PingsOf(encoded).value;
      forall p <- pings ensures |p.address| < 0x8000_0000 {
        var i :| 0 <= i < |pings| && pings[i] == p;
        if !c.FitsOne(encoded) {
          assert |c.PiecesOf(encoded)| <= MAX_PIECES;
          FragmentShort(c, encoded, i);
        }
      }
    }
  }

  lemma FragmentShort(c: Client, encoded: bytes, i: nat)
    requires |c.passphrase| + |c.suffix| + |encoded| < 0x1000_0000 && |c.random| == 2
    requires i < |c.PiecesOf(encoded)| <= MAX_PIECES
    ensures |c.FragmentOf(encoded, i).address| < 0x8000_0000
  {
    var piece, n := c.PiecesOf(encoded)[i], MaxPieceLength(c.Room());
    assert piece in Pieces(encoded, n);
    PieceShort(encoded, n, piece);
    NonceShape(c.random);
    FragmentLength(c.passphrase, Nonce(c.random), piece, c.suffix);
    hide Pieces, FragmentAddress, MaxPieceLength, Nonce;
  }

  lemma {:induction false} PieceShort(text: bytes, n: nat, piece: bytes)
    requires n > 0 && piece in Pieces(text, n)
    ensures 1 <= |piece| <= |text|
    decreases |text|
  {
    if |text| > n && piece != text[..n] {
      PieceShort(text[n..], n, piece);
    }
  }

  predicate Reaches(v: Server, ping: Ping, route: Route, rest: bytes) {
    Received(v, Sent(ping) + rest) == Some(route)
  }

  /** Every ping is taken where it is meant to be. */
  predicate GetsThrough(c: Client, v: Server, encoded: bytes, rest: bytes) {
    var pings := c.PingsOf(encoded);
    && pings.Ok? && (c.FitsOne(encoded) || |pings.value| <= |c.PiecesOf(encoded)|)
    && forall i | 0 <= i < |pings.value| :: Reaches(v, pings.value[i], Intended(c, encoded, i), rest)
  }

  /** One address suffices, or the pieces are two to sixteen; and the readers let all pings through, and nothing is cut off. */
  predicate Deliverable(c: Client, v: Server, encoded: bytes) {
    var pings := c.PingsOf(encoded);
    && (c.FitsOne(encoded) || ((c.Room() >= 41 || |encoded| > 40) && |c.PiecesOf(encoded)| <= MAX_PIECES))
    && pings.Ok? && forall p <- pings.value :: v.Accepts(p) && Untouched(c, v, p)
  }

  /**
   * For every accepted query, passphrase, suffix, nonce and frame limit: its pings all reach the
   * place they are meant for if and only if it is deliverable. What is meant to be decoded decodes
   * to the query, normalised.
   */
  lemma TunnelDelivers(tlds: Dictionary, q: Query, c: Client, v: Server, rest: bytes)
    requires Refusal(q).None? && Agree(c, v) && Addressable(c, EncodedText(tlds, q))
    ensures var encoded := EncodedText(tlds, q);
            && (GetsThrough(c, v, encoded, rest) <==> Deliverable(c, v, encoded))
            && Flatten(c.PiecesOf(encoded)) == encoded
            && DecodeQuery(tlds, encoded, []) == Ok(Normalized(q))
  {
    hide *;
    SentText(tlds, q);
    PiecesWhole(c, EncodedText(tlds, q));
    EncodedDelivers(c, v, EncodedText(tlds, q), rest);
  }

  lemma PiecesWhole(c: Client, encoded: bytes)
    ensures Flatten(c.PiecesOf(encoded)) == encoded
  {
    hide Pieces, Client.Room, Flatten;
    PiecesShape(encoded, MaxPieceLength(c.Room()));
  }

  lemma PingReaches(c: Client, v: Server, encoded: bytes, i: nat, rest: bytes)
    requires Agree(c, v) && encoded != [] && DOT !in encoded && Addressable(c, encoded)
    requires c.PingsOf(encoded).Ok? && i < |c.PingsOf(encoded).value|
    requires c.FitsOne(encoded) || |c.PingsOf(encoded).value| <= |c.PiecesOf(encoded)|
    ensures Reaches(v, c.PingsOf(encoded).value[i], Intended(c, encoded, i), rest) <==>
              v.Accepts(c.PingsOf(encoded).value[i]) && Untouched(c, v, c.PingsOf(encoded).value[i])
              && (c.FitsOne(encoded) || |c.PiecesOf(encoded)| >= MIN_PIECES)
  {
    c.PingsAre(encoded);
    assert c.PingsOf(encoded).value[i] in c.PingsOf(encoded).value;
    hide Received, Sent, Server.Accepts, Agree, Untouched, Client.PiecesOf, Client.PingsOf, Client.FitsOne, Client.Room,
         FragmentText, Nonce;
    if c.FitsOne(encoded) {
      DeliveredAtOnce(c, v, encoded, rest);
    } else {
      DeliveredInPieces(c, v, encoded, i, rest);
    }
  }

  lemma EncodedDelivers(c: Client, v: Server, encoded: bytes, rest: bytes)
    requires Agree(c, v) && encoded != [] && DOT !in encoded && Addressable(c, encoded)
    ensures GetsThrough(c, v, encoded, rest) <==> Deliverable(c, v, encoded)
  {
    hide Reaches, Intended, Untouched, Server.Accepts, Agree, Addressable, Client.PiecesOf, Client.PingsOf, Client.FitsOne, Client.Room;
    c.PingsAre(encoded);
    if !c.FitsOne(encoded) {
      PieceTotal(c, encoded);
    }
    if c.PingsOf(encoded).Ok? && (c.FitsOne(encoded) || |c.PiecesOf(encoded)| <= MAX_PIECES) {
      var pings := c.PingsOf(encoded).value;
      forall i | 0 <= i < |pings|
        ensures Reaches(v, pings[i], Intended(c, encoded, i), rest) <==>
                  v.Accepts(pings[i]) && Untouched(c, v, pings[i]) && (c.FitsOne(encoded) || |c.PiecesOf(encoded)| >= MIN_PIECES)
      {
        PingReaches(c, v, encoded, i, rest);
      }
      assert Reaches(v, pings[0], Intended(c, encoded, 0), rest) <==>
               v.Accepts(pings[0]) && Untouched(c, v, pings[0]) && (c.FitsOne(encoded) || |c.PiecesOf(encoded)| >= MIN_PIECES);
    }
  }

  lemma PieceTotal(c: Client, encoded: bytes)
    requires encoded != [] && !c.FitsOne(encoded)
    ensures |c.PiecesOf(encoded)| >= 1
    ensures |c.PiecesOf(encoded)| >= MIN_PIECES <==> c.Room() >= 41 || |encoded| > 40
  {
    hide WithSuffix, Budget;
    AtLeastTwoPieces(encoded, c.passphrase, Nonce(c.random), c.suffix);
    PieceCount(encoded, MaxPieceLength(c.Room()));
    hide Pieces, MaxPieceLength;
  }

  /** Nothing is cut off any ping, as when the server knows the client's suffix. */
  predicate AllUntouched(c: Client, v: Server, encoded: bytes) {
    c.PingsOf(encoded).Ok? ==> forall p <- c.PingsOf(encoded).value :: Untouched(c, v, p)
  }

  lemma KnownUntouched(c: Client, v: Server, encoded: bytes)
    requires KnownSuffix(c.suffix, v.suffix)
    ensures AllUntouched(c, v, encoded)
  {
    hide KnownSuffix, Client.PingsOf;
  }

  /** Names of at most 391 characters, if nothing is cut off, are deliverable whenever fragments of forty characters fit 255 bytes. */
  lemma OrdinaryDelivered(tlds: Dictionary, q: Query, c: Client, v: Server)
    requires Refusal(q).None? && |TrimSuffix(q.questions[0].name, [DOT])| <= 391
    requires c.Room() >= 40 && (v.maxFrameSize <= 0 || v.maxFrameSize >= 263)
    ensures Deliverable(c, v, EncodedText(tlds, q)) <==> AllUntouched(c, v, EncodedText(tlds, q))
  {
    hide *;
    EncodedLength(tlds, q);
    OrdinaryText(c, v, EncodedText(tlds, q));
  }

  lemma OrdinaryText(c: Client, v: Server, encoded: bytes)
    requires 0 < |encoded| <= 640 && c.Room() >= 40 && (v.maxFrameSize <= 0 || v.maxFrameSize >= 263)
    ensures Deliverable(c, v, encoded) <==> AllUntouched(c, v, encoded)
  {
    SixteenPiecesSuffice(c, encoded);
    c.PingsAre(encoded);
    if !c.FitsOne(encoded) {
      OrdinaryPieces(c, encoded);
    }
    var pings := c.PingsOf(encoded).value;
    hide Client.PiecesOf, Client.Room, FragmentAddress, Server.Accepts, Client.PingsOf, Untouched;
    forall p <- pings ensures v.Accepts(p) {
      var i :| 0 <= i < |pings| && pings[i] == p;
      OrdinaryAccepted(v, p);
    }
  }

  lemma OrdinaryPieces(c: Client, encoded: bytes)
    requires encoded != [] && c.Room() >= 40 && !c.FitsOne(encoded)
    ensures c.Room() >= 41 || |encoded| > 40
    ensures |c.PiecesOf(encoded)| <= MAX_PIECES ==>
              forall i | 0 <= i < |c.PiecesOf(encoded)| :: |c.FragmentOf(encoded, i).address| <= MAX_ADDRESS
  {
    hide Pieces, MaxPieceLength, Budget, Nonce, WithSuffix, FragmentAddress;
    FragmentsFit(encoded, c.passphrase, Nonce(c.random), c.suffix);
    FittingPiecesAreSeveral(encoded, c.passphrase, Nonce(c.random), c.suffix);
    PieceTotal(c, encoded);
    forall i | 0 <= i < |c.PiecesOf(encoded)|
      ensures |FragmentAddress(c.passphrase, Nonce(c.random), c.PiecesOf(encoded)[i], c.suffix)| <= MAX_ADDRESS
    {
      assert c.PiecesOf(encoded)[i] in c.PiecesOf(encoded);
    }
  }

  // ----- what is lost

  /** A lone fragment is taken for a whole query, and does not decode. */
  lemma LoneFragmentLost(tlds: Dictionary, q: Query, c: Client, v: Server, rest: bytes)
    requires Refusal(q).None? && Agree(c, v) && Addressable(c, EncodedText(tlds, q))
    requires !c.FitsOne(EncodedText(tlds, q)) && c.Room() <= 40 && |EncodedText(tlds, q)| <= 40
    ensures var pings := c.PingsOf(EncodedText(tlds, q));
            && pings.Ok? && |pings.value| == 1
            && match Received(v, Sent(pings.value[0]) + rest)
               case None => !v.Accepts(pings.value[0])
               case Some(route) => route.Denied? || (route.Direct? && DecodeQuery(tlds, route.text, []).Err?)
  {
    hide *;
    var encoded := EncodedText(tlds, q);
    SentText(tlds, q);
    PieceTotal(c, encoded);
    c.PingsAre(encoded);
    MinIsTwo();
    var pings := c.PingsOf(encoded).value;
    assert |c.PiecesOf(encoded)| == 1 && |pings| == 1 && pings[0] in pings;
    LoneShort(c, encoded);
    PiecesDotFree(c, encoded, 0);
    LoneRoute(tlds, c, v, encoded, rest);
  }

  lemma LoneRoute(tlds: Dictionary, c: Client, v: Server, encoded: bytes, rest: bytes)
    requires Agree(c, v) && encoded != [] && DOT !in encoded && !c.FitsOne(encoded)
    requires |c.PiecesOf(encoded)| == 1 && |c.FragmentOf(encoded, 0).address| < 0x8000_0000
    ensures match Received(v, Sent(c.FragmentOf(encoded, 0)) + rest)
            case None => !v.Accepts(c.FragmentOf(encoded, 0))
            case Some(route) => route.Denied? || (route.Direct? && DecodeQuery(tlds, route.text, []).Err?)
  {
    var nonce, piece, ping := Nonce(c.random), c.PiecesOf(encoded)[0], c.FragmentOf(encoded, 0);
    PiecesDotFree(c, encoded, 0);
    FragmentUnsuffixed(c.passphrase, nonce, piece);
    assert ping.port == 0x101;
    hide Received, Sent, RouteOf, Server.Accepts, KnownSuffix, Client.PiecesOf, FragmentAddress, FragmentText, Nonce,
         Lower, HasSuffix, AuthPrefix, DecodeQuery;
    if Untouched(c, v, ping) {
      DeliveredInPieces(c, v, encoded, 0, rest);
      FragmentTextFails(tlds, nonce, piece, FragmentText(nonce, piece));
    } else {
      NoneKnown(v.suffix);
      PingReceived(v, ping, rest);
      FragmentTextEnd(nonce, piece);
      var text := OverstrippedRoute(FragmentText(nonce, piece), ping.port, c.passphrase, v.suffix);
      FragmentTextFails(tlds, nonce, piece, text);
      OneOfOne(text);
    }
  }

  lemma OneOfOne(text: bytes)
    ensures Routed(text, 0x101) == Direct(text)
  {
    hide Split;
  }

  lemma MinIsTwo()
    ensures MIN_PIECES == 2 && MAX_PIECES == 16
  {
  }

  lemma LoneShort(c: Client, encoded: bytes)
    requires Addressable(c, encoded) && c.PingsOf(encoded).Ok?
    ensures forall p <- c.PingsOf(encoded).value :: |p.address| < 0x8000_0000
  {
  }

  /** No beginning of a fragment's text decodes. */
  lemma FragmentTextFails(tlds: Dictionary, nonce: bytes, piece: bytes, text: bytes)
    requires text <= FragmentText(nonce, piece)
    ensures DecodeQuery(tlds, text, []).Err?
  {
    if text == [] {
      NothingFails(tlds);
    } else {
      assert text[0] == FragmentText(nonce, piece)[0] == 110;
      assert StripDots(text)[0] == 110;
      hide DecodeQuery, StripDots;
      BeginsWithSeven(tlds, text);
    }
  }

  lemma NothingFails(tlds: Dictionary)
    ensures DecodeQuery(tlds, [], []).Err?
  {
    assert Upper(StripDots(StripSuffix([], []))) == [];
    assert Base32.Decode([]) == Some([]);
  }

  /** With a suffix of 255 bytes every query for a name of at most sixteen characters is lost. */
  lemma LongSuffixLoses(tlds: Dictionary, q: Query, c: Client, v: Server, rest: bytes)
    requires Refusal(q).None? && Agree(c, v) && |c.suffix| >= 255 && Addressable(c, EncodedText(tlds, q))
    requires |TrimSuffix(q.questions[0].name, [DOT])| <= 16
    ensures !GetsThrough(c, v, EncodedText(tlds, q), rest)
    ensures !c.FitsOne(EncodedText(tlds, q)) && c.Room() <= 40 && |EncodedText(tlds, q)| <= 40
  {
    hide *;
    var encoded := EncodedText(tlds, q);
    SentText(tlds, q);
    QueryWireLength(tlds, q);
    EncodedTextShape(tlds, q);
    LongSuffix(c, encoded);
    EncodedDelivers(c, v, encoded, rest);
    NotDeliverable(c, v, encoded);
  }

  lemma LongSuffix(c: Client, encoded: bytes)
    requires |c.suffix| >= 255 && encoded != []
    ensures !c.FitsOne(encoded) && c.Room() <= 40
  {
    hide AuthPrefix, Nonce;
  }

  lemma NotDeliverable(c: Client, v: Server, encoded: bytes)
    requires !c.FitsOne(encoded) && c.Room() <= 40 && |encoded| <= 40
    ensures !Deliverable(c, v, encoded)
  {
    hide Client.FitsOne, Client.Room, Client.PiecesOf, Client.PingsOf;
  }

  function Repeated(c: byte, n: nat): (s: bytes)
    ensures |s| == n
  {
    if n == 0 then [] else Repeated(c, n - 1) + [c]
  }

  /** For example: 255 times the letter m for a suffix, and a query for a.b. */
  lemma LosingInput(tlds: Dictionary)
    ensures var suffix := Repeated(109, 255);
            var q := Query(7, true, [Question([97, 46, 98], 1, CLASS_IN)], None);
            var c, v := Client([], [0, 0], suffix), Server([], suffix, 0);
            && Refusal(q).None? && Agree(c, v) && Addressable(c, EncodedText(tlds, q))
            && !GetsThrough(c, v, EncodedText(tlds, q), [])
  {
    var suffix := Repeated(109, 255);
    var q := Query(7, true, [Question([97, 46, 98], 1, CLASS_IN)], None);
    var c, v := Client([], [0, 0], suffix), Server([], suffix, 0);
    hide *;
    assert |suffix| == 255 by { LengthRepeated(109, 255); }
    ShortNameAccepted(q);
    AgreeAlone(suffix);
    SentText(tlds, q);
    QueryWireLength(tlds, q);
    EncodedTextShape(tlds, q);
    AddressableWhenShort(c, EncodedText(tlds, q));
    LongSuffixLoses(tlds, q, c, v, []);
  }

  lemma LengthRepeated(c: byte, n: nat)
    ensures |Repeated(c, n)| == n
  {
  }

  lemma AgreeAlone(suffix: bytes)
    ensures Agree(Client([], [0, 0], suffix), Server([], suffix, 0))
  {
    SuffixItself(suffix);
    hide KnownSuffix;
  }

  lemma SuffixItself(suffix: bytes)
    ensures KnownSuffix(suffix, suffix)
  {
    if suffix != [] && !HasPrefix(suffix, [DOT]) {
      var dotted := [DOT] + suffix;
      assert SuffixWithDot(suffix) == dotted;
      assert Lower(dotted) == [DOT] + Lower(suffix) by { assert dotted[1..] == suffix; }
    } else if suffix != [] {
      assert suffix == [DOT] + suffix[1..];
    }
  }

  lemma ShortNameAccepted(q: Query)
    requires |q.questions| == 1 && q.questions[0].name == [97, 46, 98] && q.questions[0].qclass == CLASS_IN
    ensures Refusal(q).None? && |TrimSuffix(q.questions[0].name, [DOT])| == 3
  {
    var a: bytes := [97];
    var b: bytes := [98];
    var name := q.questions[0].name;
    assert name == a + [DOT] + b;
    assert name[2..] == [98];
    assert TrimSuffix(name, [DOT]) == name;
    assert Lower(name) == name;
    SplitAtDot(a, b);
    SplitNoDot(a);
    SplitNoDot(b);
    hide Split, Lower;
    assert NameLabels(name) == [a] + [b];
  }
}
