/** Server addresses: how the client writes them, in one ping or several, and how the server routes them. */
module Addressing {
  import opened Bytes
  import opened Text
  import QueryCodec

  const MAX_ADDRESS: nat := 255
  const MAX_PIECES: nat := 16
  const MIN_PIECES: nat := 2
  const LABEL_LENGTH: nat := 60
  const MIN_PIECE_LENGTH: nat := 40
  const QUERY_PORT: uint16 := 25565
  const PASS_MARKER: bytes := [112, 46]   // "p."
  const NONCE_MARKER: bytes := [110, 46]  // "n."

  // ----- the client's side

  function AuthPrefix(passphrase: bytes): bytes {
    if passphrase == [] then [] else PASS_MARKER + passphrase + [DOT]
  }

  function WithSuffix(text: bytes, suffix: bytes): bytes {
    if suffix == [] then text
    else if HasPrefix(suffix, [DOT]) then text + suffix
    else text + [DOT] + suffix
  }

  function SuffixWithDot(suffix: bytes): bytes {
    if suffix == [] then [] else [DOT] + TrimPrefix(suffix, [DOT])
  }

  /** Go's integer division rounds toward zero. */
  function GoDiv(a: int, b: nat): int
    requires b > 0
  {
    if a >= 0 then a / b else -(-a / b)
  }

  /** Room for piece characters and chunking dots; negative when prefix and suffix alone are too long. */
  function Budget(passphrase: bytes, nonce: bytes, suffix: bytes): int {
    MAX_ADDRESS - |AuthPrefix(passphrase)| - (|nonce| + 3) - |SuffixWithDot(suffix)|
  }

  function MaxPieceLength(budget: int): (n: nat)
    ensures n >= MIN_PIECE_LENGTH
  {
    Max(MIN_PIECE_LENGTH, GoDiv(budget * LABEL_LENGTH, LABEL_LENGTH + 1))
  }

  function Pieces(text: bytes, n: nat): (pieces: seq<bytes>)
    requires n > 0
    ensures forall piece <- pieces :: 1 <= |piece| <= n
  {
    if |text| > n then [text[..n]] + Pieces(text[n..], n)
    else if text == [] then [] else [text]
  }

  function Chunked(text: bytes): bytes { Join(Pieces(text, LABEL_LENGTH)) }

  function FragmentAddress(passphrase: bytes, nonce: bytes, piece: bytes, suffix: bytes): bytes {
    AuthPrefix(passphrase) + FragmentText(nonce, piece) + SuffixWithDot(suffix)
  }

  function FragmentText(nonce: bytes, piece: bytes): bytes { NONCE_MARKER + nonce + [DOT] + Chunked(piece) }

  function FragmentPort(index: nat, total: nat): int { index * 0x100 + total }

  datatype Ping = Ping(address: bytes, port: uint16)

  datatype ClientError = Rejected(reason: QueryCodec.EncodeError) | TooLarge

  /** The pings one query turns into: a single one if its address fits, otherwise fragments. */
  function Pings(encoded: bytes, passphrase: bytes, nonce: bytes, suffix: bytes): Result<seq<Ping>, ClientError> {
    var address := WithSuffix(AuthPrefix(passphrase) + encoded, suffix);
    if |address| <= MAX_ADDRESS then Ok([Ping(address, QUERY_PORT)])
    else
      var pieces := Pieces(encoded, MaxPieceLength(Budget(passphrase, nonce, suffix)));
      if |pieces| > MAX_PIECES then Err(TooLarge)
      else Ok(FragmentPings(pieces, |pieces|, passphrase, nonce, suffix))
  }

  function FragmentPing(pieces: seq<bytes>, i: nat, passphrase: bytes, nonce: bytes, suffix: bytes): Ping
    requires i < |pieces| <= MAX_PIECES
  {
    Ping(FragmentAddress(passphrase, nonce, pieces[i], suffix), FragmentPort(i + 1, |pieces|))
  }

  /** The pings for the first `n` pieces. */
  function FragmentPings(pieces: seq<bytes>, n: nat, passphrase: bytes, nonce: bytes, suffix: bytes): (r: seq<Ping>)
    requires n <= |pieces| <= MAX_PIECES
    ensures |r| == n
  {
    if n == 0 then []
    else FragmentPings(pieces, n - 1, passphrase, nonce, suffix) + [FragmentPing(pieces, n - 1, passphrase, nonce, suffix)]
  }

  // ----- the server's side

  /** The remainder after the right passphrase, or None. */
  function ExtractPassphrase(bare: bytes, passphrase: bytes): Option<bytes> {
    if !HasPrefix(bare, PASS_MARKER) then None
    else
      var remainder := bare[|PASS_MARKER|..];
      var i := DotIndex(remainder);
      if i == |remainder| || remainder[..i] != passphrase then None else Some(remainder[i + 1..])
  }

  predicate IsFragmented(bare: bytes, port: uint16) {
    HasPrefix(bare, NONCE_MARKER) &&
    var parts, index, total := Split(bare), port / 0x100, port % 0x100;
    |parts| >= 3 && |parts[1]| == 4 && 1 <= index <= total && MIN_PIECES <= total <= MAX_PIECES
  }

  datatype Route =
    | Denied
    | Direct(text: bytes)
    | Fragment(nonce: bytes, index: nat, total: nat, piece: bytes)

  function Routed(bare: bytes, port: uint16): Route {
    if IsFragmented(bare, port)
    then Fragment(Split(bare)[1], port / 0x100, port % 0x100, Flatten(Split(bare)[2..]))
    else Direct(bare)
  }

  function RouteOf(ping: Ping, suffix: bytes, passphrase: bytes): Route {
    var bare := QueryCodec.StripSuffix(ping.address, suffix);
    if passphrase == [] then Routed(bare, ping.port)
    else
      match ExtractPassphrase(bare, passphrase)
      case None => Denied
      case Some(rest) => Routed(rest, ping.port)
  }

  // ----- pieces

  lemma PiecesShape(text: bytes, n: nat)
    requires n > 0
    ensures Flatten(Pieces(text, n)) == text
    ensures |Join(Pieces(text, n))| == |text| + Max(|Pieces(text, n)| - 1, 0)
  {
    PiecesFlatten(text, n);
    PiecesJoined(text, n);
    hide *;
  }

  lemma {:induction false} PiecesFlatten(text: bytes, n: nat)
    requires n > 0
    ensures Flatten(Pieces(text, n)) == text
    decreases |text|
  {
    if |text| > n {
      PiecesFlatten(text[n..], n);
      var pieces := Pieces(text[n..], n);
      hide Pieces;
      assert ([text[..n]] + pieces)[1..] == pieces;
      assert text[..n] + text[n..] == text;
    } else if text != [] {
      FlattenOne(text);
    }
  }

  lemma {:induction false} PiecesJoined(text: bytes, n: nat)
    requires n > 0
    ensures |Join(Pieces(text, n))| == |text| + Max(|Pieces(text, n)| - 1, 0)
    decreases |text|
  {
    if |text| > n {
      PiecesJoined(text[n..], n);
      var pieces := Pieces(text[n..], n);
      assert |pieces| >= 1;
      assert Pieces(text, n) == [text[..n]] + pieces;
      hide Pieces;
      assert ([text[..n]] + pieces)[1..] == pieces;
    }
  }

  /** The number of pieces is the text length divided by the piece length, rounded up. */
  lemma {:induction false} PieceCount(text: bytes, n: nat)
    requires n > 0 && text != []
    ensures var k := |Pieces(text, n)|;
            k >= 1 && (k - 1) * n < |text| <= k * n
    decreases |text|
  {
    if |text| > n {
      PieceCount(text[n..], n);
      var k := |Pieces(text[n..], n)|;
      assert (k + 1) * n == k * n + n && k * n == (k - 1) * n + n;
    }
  }

  lemma {:induction false} PieceMembers(text: bytes, n: nat)
    requires n > 0
    ensures forall piece <- Pieces(text, n), c <- piece :: c in text
    decreases |text|
  {
    if |text| > n {
      PieceMembers(text[n..], n);
    }
  }

  /** Chunking only adds dots, between non-empty parts. */
  lemma ChunkedShape(piece: bytes)
    requires piece != [] && DOT !in piece
    ensures StripDots(Chunked(piece)) == piece
    ensures Chunked(piece) != [] && Chunked(piece)[|Chunked(piece)| - 1] != DOT
  {
    var parts := Pieces(piece, LABEL_LENGTH);
    PiecesShape(piece, LABEL_LENGTH);
    PieceMembers(piece, LABEL_LENGTH);
    StripDotsJoin(parts);
    StripDotsNone(piece);
    JoinLast(parts);
  }

  lemma {:induction false} StripDotsJoin(parts: seq<bytes>)
    ensures StripDots(Join(parts)) == StripDots(Flatten(parts))
  {
    hide StripDots;
    if |parts| == 1 {
      FlattenOne(parts[0]);
      assert parts == [parts[0]];
    } else if parts != [] {
      StripDotsJoin(parts[1..]);
      StripDotsAppend(parts[0] + [DOT], Join(parts[1..]));
      StripDotsAppend(parts[0], [DOT]);
      StripDotsAppend(parts[0], Flatten(parts[1..]));
      StripOneDot(StripDots(parts[0]));
    }
  }

  lemma StripOneDot(s: bytes)
    ensures s + StripDots([DOT]) == s
  {
    assert StripDots([DOT]) == [];
  }

  lemma {:induction false} JoinLast(parts: seq<bytes>)
    requires parts != [] && DotFree(parts) && [] !in parts
    ensures var t := Join(parts);
            t != [] && t[|t| - 1] != DOT
  {
    if |parts| > 1 {
      assert forall part <- parts[1..] :: part in parts;
      JoinLast(parts[1..]);
    } else {
      assert parts[0] in parts;
    }
  }

  // ----- suffix and passphrase

  lemma SuffixForms(text: bytes, suffix: bytes)
    ensures WithSuffix(text, suffix) == text + SuffixWithDot(suffix)
  {
    if suffix != [] && HasPrefix(suffix, [DOT]) {
      assert suffix == [DOT] + suffix[1..];
    }
  }

  /** The server's suffix is the client's, up to letter case and a dot in front of either. */
  predicate KnownSuffix(suffix: bytes, known: bytes) {
    var sent := Lower(SuffixWithDot(suffix));
    sent == Lower(known) || (known != [] && sent == [DOT] + Lower(known))
  }

  /** What a server makes of a client's suffix: it takes it off, or there was none and the text does not end like its own. */
  predicate Recovers(text: bytes, suffix: bytes, known: bytes) {
    KnownSuffix(suffix, known) || (suffix == [] && !HasSuffix(Lower(text), Lower(known)))
  }

  /** The server recovers the text exactly when it knows the suffix, or none was sent and it takes none. */
  lemma StripsSuffix(text: bytes, suffix: bytes, known: bytes)
    requires text != [] && text[|text| - 1] != DOT
    ensures QueryCodec.StripSuffix(text + SuffixWithDot(suffix), known) == text
            <==> Recovers(text, suffix, known)
  {
    var s := SuffixWithDot(suffix);
    assert s == [] <==> suffix == [];
    assert |s| == |Lower(s)| && |known| == |Lower(known)|;
    StripCases(text, s, known);
    hide SuffixWithDot, QueryCodec.StripSuffix, Lower;
    if s == [] {
      assert text + s == text;
    }
  }

  lemma StripCases(text: bytes, s: bytes, known: bytes)
    requires text != [] && text[|text| - 1] != DOT
    ensures var stripped := QueryCodec.StripSuffix(text + s, known) == text;
            if known == [] then stripped <==> s == []
            else
              && (Lower(s) == Lower(known) || Lower(s) == [DOT] + Lower(known) ==> stripped)
              && (stripped ==> Lower(s) == Lower(known) || Lower(s) == [DOT] + Lower(known)
                               || (s == [] && !HasSuffix(Lower(text), Lower(known))))
              && (s == [] && !HasSuffix(Lower(text), Lower(known)) ==> stripped)
  {
    hide *;
    var address := text + s;
    assert address == text <==> s == [];
    StripIs(address, known);
    if known != [] {
      if HasSuffix(Lower(address), Lower(known)) {
        StripEnding(text, s, known);
      } else {
        LowerParts(text, s, known);
        EndingOf(Lower(text), Lower(s), Lower(known));
      }
    }
  }

  lemma StripIs(address: bytes, known: bytes)
    ensures if known == [] || !HasSuffix(Lower(address), Lower(known)) then QueryCodec.StripSuffix(address, known) == address
            else |known| <= |address|
                 && QueryCodec.StripSuffix(address, known) == TrimSuffix(address[..|address| - |known|], [DOT])
  {
    assert |Lower(known)| == |known| && |Lower(address)| == |address|;
    hide Lower, TrimSuffix;
  }

  /** An ending that is cut off leaves the text when it is all that follows it, but for one dot. */
  lemma StripEnding(text: bytes, s: bytes, known: bytes)
    requires text != [] && text[|text| - 1] != DOT && known != []
    requires |known| <= |text + s| && HasSuffix(Lower(text + s), Lower(known))
    ensures TrimSuffix((text + s)[..|text + s| - |known|], [DOT]) == text
            <==> Lower(s) == Lower(known) || Lower(s) == [DOT] + Lower(known)
  {
    hide *;
    var cut := (text + s)[..|text + s| - |known|];
    CutIs(text, s, |known|);
    EndingIs(text, s, known);
    TrimOneDot(text);
    TrimmedIs(cut, text);
  }

  lemma CutIs(text: bytes, s: bytes, n: nat)
    requires n <= |text + s|
    ensures var cut := (text + s)[..|text + s| - n];
            && (cut == text <==> n == |s|)
            && (cut == text + [DOT] <==> n + 1 == |s| && s[0] == DOT)
  {
    var cut := (text + s)[..|text + s| - n];
    if n + 1 == |s| {
      assert cut == text + [s[0]] && cut[|text|] == s[0];
    }
    if n == |s| {
      assert cut == text;
    }
    assert |cut| == |text| + |s| - n;
  }

  lemma EndingIs(text: bytes, s: bytes, known: bytes)
    requires HasSuffix(Lower(text + s), Lower(known))
    ensures Lower(s) == Lower(known) <==> |known| == |s|
    ensures Lower(s) == [DOT] + Lower(known) <==> |known| + 1 == |s| && s[0] == DOT
  {
    LowerParts(text, s, known);
    hide Lower;
    EndingOf(Lower(text), Lower(s), Lower(known));
  }

  lemma LowerParts(text: bytes, s: bytes, known: bytes)
    ensures Lower(text + s) == Lower(text) + Lower(s)
    ensures |Lower(s)| == |s| && |Lower(known)| == |known|
    ensures s != [] ==> (Lower(s)[0] == DOT <==> s[0] == DOT)
  {
    var lowered := Lower(text) + Lower(s);
    forall i | 0 <= i < |text + s| ensures Lower(text + s)[i] == lowered[i] {
    }
  }

  lemma EndingOf(a: bytes, b: bytes, k: bytes)
    ensures b == k || b == [DOT] + k ==> HasSuffix(a + b, k)
    ensures HasSuffix(a + b, k) ==>
              && (b == k <==> |k| == |b|)
              && (b == [DOT] + k <==> |k| + 1 == |b| && b[0] == DOT)
  {
    var i := |a + b| - |k|;
    if b == k || b == [DOT] + k {
      assert (a + b)[i..] == b[i - |a|..] == k;
    }
    if HasSuffix(a + b, k) && |k| <= |b| {
      assert (a + b)[i..] == b[i - |a|..];
    }
  }

  lemma TrimmedIs(cut: bytes, text: bytes)
    ensures TrimSuffix(cut, [DOT]) == text ==> cut == text || cut == text + [DOT]
  {
  }

  lemma TrimOneDot(text: bytes)
    requires text != [] && text[|text| - 1] != DOT
    ensures TrimSuffix(text, [DOT]) == text && TrimSuffix(text + [DOT], [DOT]) == text
  {
    assert text[|text| - 1..][0] != DOT;
  }

  lemma ExtractsPassphrase(passphrase: bytes, text: bytes, known: bytes)
    requires passphrase != [] && DOT !in passphrase
    ensures ExtractPassphrase(AuthPrefix(passphrase) + text, known)
            == if passphrase == known then Some(text) else None
  {
    var bare := AuthPrefix(passphrase) + text;
    var remainder := bare[2..];
    assert remainder == passphrase + [DOT] + text;
    DotIndexAfter(passphrase, text);
    assert remainder[..|passphrase|] == passphrase && remainder[|passphrase| + 1..] == text;
    assert bare[..2] == PASS_MARKER;
  }

  /**
   * From a written address the server recovers the text if the passphrases agree. A server with a
   * passphrase denies everyone else; one without takes the client's passphrase for part of the text.
   */
  lemma RouteOfWritten(text: bytes, port: uint16, passphrase: bytes, suffix: bytes, knownSuffix: bytes,
                       known: bytes)
    requires text != [] && text[|text| - 1] != DOT && DOT !in passphrase && !HasPrefix(text, PASS_MARKER)
    requires Recovers(AuthPrefix(passphrase) + text, suffix, knownSuffix)
    ensures RouteOf(Ping(AuthPrefix(passphrase) + text + SuffixWithDot(suffix), port), knownSuffix, known)
            == if known == [] then Routed(AuthPrefix(passphrase) + text, port)
               else if passphrase == known then Routed(text, port) else Denied
  {
    hide Routed, QueryCodec.StripSuffix, SuffixWithDot, Recovers;
    var bare := AuthPrefix(passphrase) + text;
    assert bare[|bare| - 1] == text[|text| - 1];
    StripsSuffix(bare, suffix, knownSuffix);
    if passphrase == [] {
      assert bare == text;
    } else {
      hide ExtractPassphrase;
      ExtractsPassphrase(passphrase, text, known);
    }
  }

  // ----- routes

  lemma NoMarker(text: bytes)
    requires DOT !in text
    ensures !HasPrefix(text, NONCE_MARKER) && !HasPrefix(text, PASS_MARKER)
  {
    if |text| >= 2 {
      assert text[1] in text;
    }
  }

  /** A text behind a passphrase is never taken for a fragment. */
  lemma PrefixedRoute(passphrase: bytes, text: bytes, port: uint16)
    requires passphrase != [] || !HasPrefix(text, NONCE_MARKER)
    ensures Routed(AuthPrefix(passphrase) + text, port) == Direct(AuthPrefix(passphrase) + text)
  {
    var bare := AuthPrefix(passphrase) + text;
    if passphrase == [] {
      assert bare == text;
    } else {
      assert bare[0] == 112;
    }
  }

  /** A query that fits one address is never taken for a fragment. */
  lemma SingleRoute(encoded: bytes, passphrase: bytes, suffix: bytes, knownSuffix: bytes, known: bytes)
    requires encoded != [] && DOT !in encoded && DOT !in passphrase
    requires Recovers(AuthPrefix(passphrase) + encoded, suffix, knownSuffix)
    ensures RouteOf(Ping(WithSuffix(AuthPrefix(passphrase) + encoded, suffix), QUERY_PORT), knownSuffix, known)
            == if known == [] then Direct(AuthPrefix(passphrase) + encoded)
               else if passphrase == known then Direct(encoded) else Denied
  {
    hide RouteOf, Recovers, Routed;
    SuffixForms(AuthPrefix(passphrase) + encoded, suffix);
    assert encoded[|encoded| - 1] in encoded;
    NoMarker(encoded);
    RouteOfWritten(encoded, QUERY_PORT, passphrase, suffix, knownSuffix, known);
    PrefixedRoute(passphrase, encoded, QUERY_PORT);
    PrefixedRoute([], encoded, QUERY_PORT);
    assert AuthPrefix([]) + encoded == encoded;
  }

  lemma ThreeParts(a: bytes, b: bytes, c: bytes)
    requires DOT !in a && DOT !in b
    ensures Split(a + [DOT] + b + [DOT] + c) == [a, b] + Split(c)
  {
    hide Split;
    SplitAtDot(a + [DOT] + b, c);
    SplitAtDot(a, b);
    SplitNoDot(a);
    SplitNoDot(b);
  }

  lemma FragmentParts(nonce: bytes, piece: bytes)
    requires DOT !in nonce && piece != [] && DOT !in piece
    ensures var parts := Split(FragmentText(nonce, piece));
            |parts| >= 3 && parts[1] == nonce && Flatten(parts[2..]) == piece
  {
    var marker: bytes := [110];
    assert FragmentText(nonce, piece) == marker + [DOT] + nonce + [DOT] + Chunked(piece) by {
      assert NONCE_MARKER == marker + [DOT];
    }
    ChunkedShape(piece);
    hide *;
    ThreeParts(marker, nonce, Chunked(piece));
    PartsBehind(marker, nonce, Split(Chunked(piece)));
    FlattenSplit(Chunked(piece));
    SomePart(Chunked(piece));
  }

  lemma PartsBehind(a: bytes, b: bytes, parts: seq<bytes>)
    ensures ([a, b] + parts)[1] == b && ([a, b] + parts)[2..] == parts
  {
  }

  lemma SomePart(text: bytes)
    ensures |Split(text)| >= 1
  {
  }

  /** The text of a fragment, wherever the passphrase has been taken off it. */
  lemma FragmentRouted(nonce: bytes, piece: bytes, index: nat, total: nat)
    requires |nonce| == 4 && DOT !in nonce && piece != [] && DOT !in piece && index < 0x100 && total < 0x100
    ensures Routed(FragmentText(nonce, piece), FragmentPort(index, total))
            == if 1 <= index <= total && MIN_PIECES <= total <= MAX_PIECES
               then Fragment(nonce, index, total, piece)
               else Direct(FragmentText(nonce, piece))
  {
    var port := FragmentPort(index, total);
    assert port / 0x100 == index && port % 0x100 == total;
    FragmentParts(nonce, piece);
    FragmentTextStart(nonce, piece);
    hide Split, Flatten, FragmentText, FragmentPort;
  }

  lemma FragmentTextStart(nonce: bytes, piece: bytes)
    ensures HasPrefix(FragmentText(nonce, piece), NONCE_MARKER) && !HasPrefix(FragmentText(nonce, piece), PASS_MARKER)
  {
    hide Chunked;
    var text := FragmentText(nonce, piece);
    assert text[..2] == NONCE_MARKER && text[0] == 110;
  }

  lemma FragmentTextEnd(nonce: bytes, piece: bytes)
    requires piece != [] && DOT !in piece
    ensures var text := FragmentText(nonce, piece);
            text != [] && text[|text| - 1] != DOT
  {
    ChunkedShape(piece);
    hide Chunked;
  }

  /** A fragment is taken for one exactly when its index and total are plausible; if not, for a whole query. */
  lemma FragmentRoute(nonce: bytes, piece: bytes, index: nat, total: nat,
                      passphrase: bytes, suffix: bytes, knownSuffix: bytes, known: bytes)
    requires |nonce| == 4 && DOT !in nonce && piece != [] && DOT !in piece && DOT !in passphrase
    requires Recovers(AuthPrefix(passphrase) + FragmentText(nonce, piece), suffix, knownSuffix)
    requires index < 0x100 && total < 0x100
    ensures RouteOf(Ping(FragmentAddress(passphrase, nonce, piece, suffix), FragmentPort(index, total)), knownSuffix, known)
            == if known == [] && passphrase != [] then Direct(AuthPrefix(passphrase) + FragmentText(nonce, piece))
               else if passphrase != known then Denied
               else if 1 <= index <= total && MIN_PIECES <= total <= MAX_PIECES
               then Fragment(nonce, index, total, piece)
               else Direct(FragmentText(nonce, piece))
  {
    var text, port := FragmentText(nonce, piece), FragmentPort(index, total);
    assert FragmentAddress(passphrase, nonce, piece, suffix) == AuthPrefix(passphrase) + text + SuffixWithDot(suffix);
    assert 0 <= port < 0x1_0000;
    hide *;
    FragmentTextStart(nonce, piece);
    FragmentTextEnd(nonce, piece);
    FragmentRouted(nonce, piece, index, total);
    RouteOfWritten(text, port, passphrase, suffix, knownSuffix, known);
    if passphrase != [] {
      PrefixedRoute(passphrase, text, port);
    } else {
      NoPrefix(text);
    }
  }

  lemma NoPrefix(text: bytes)
    ensures AuthPrefix([]) + text == text
  {
  }

  // ----- a text without suffix that ends like the server's

  /** More is taken off than dots. */
  lemma Overstripped(text: bytes, known: bytes)
    requires text != [] && text[|text| - 1] != DOT && known != [] && HasSuffix(Lower(text), Lower(known))
    ensures var bare := QueryCodec.StripSuffix(text, known);
            bare <= text && |bare| < |text| && |StripDots(bare)| < |StripDots(text)|
  {
    StrippedStart(text, known);
    hide *;
    FewerLetters(text, |QueryCodec.StripSuffix(text, known)|);
  }

  lemma StrippedStart(text: bytes, known: bytes)
    requires known != [] && HasSuffix(Lower(text), Lower(known))
    ensures var bare := QueryCodec.StripSuffix(text, known);
            |bare| < |text| && bare == text[..|bare|]
  {
    assert |Lower(known)| == |known| && |Lower(text)| == |text|;
    hide Lower;
  }

  lemma FewerLetters(text: bytes, n: nat)
    requires n < |text| && text[|text| - 1] != DOT
    ensures |StripDots(text[..n])| < |StripDots(text)|
  {
    hide StripDots;
    var rest := text[n..];
    assert text == text[..n] + rest && rest[|rest| - 1] != DOT;
    StripDotsAppend(text[..n], rest);
    StripDotsEnd(rest);
    NoDots();
  }

  lemma NoDots()
    ensures StripDots([]) == []
  {
  }

  /** Behind an accepted passphrase. */
  lemma ExtractedIs(bare: bytes, passphrase: bytes)
    requires passphrase != []
    ensures var rest := ExtractPassphrase(bare, passphrase);
            rest.Some? ==> bare == AuthPrefix(passphrase) + rest.value
  {
    if HasPrefix(bare, PASS_MARKER) {
      var remainder := bare[2..];
      var i := DotIndex(remainder);
      assert bare == PASS_MARKER + remainder;
      if i < |remainder| && remainder[..i] == passphrase {
        assert remainder == remainder[..i] + [DOT] + remainder[i + 1..];
      }
    }
  }

  /** What is left behind the passphrase then, if it is still accepted. */
  lemma OverstrippedRoute(text: bytes, port: uint16, passphrase: bytes, known: bytes) returns (rest: bytes)
    requires text != [] && text[|text| - 1] != DOT && known != []
    requires HasSuffix(Lower(AuthPrefix(passphrase) + text), Lower(known))
    ensures rest <= text && |rest| < |text| && |StripDots(rest)| < |StripDots(text)|
    ensures var route := RouteOf(Ping(AuthPrefix(passphrase) + text, port), known, passphrase);
            route == Denied || route == Routed(rest, port)
  {
    var prefix := AuthPrefix(passphrase);
    var address := prefix + text;
    assert address[|address| - 1] == text[|text| - 1];
    Overstripped(address, known);
    var bare := QueryCodec.StripSuffix(address, known);
    StripDotsAppend(prefix, text);
    hide StripDots, QueryCodec.StripSuffix, Routed, ExtractPassphrase;
    if passphrase == [] {
      assert address == text;
      rest := bare;
    } else {
      ExtractedIs(bare, passphrase);
      var extracted := ExtractPassphrase(bare, passphrase);
      if extracted.Some? {
        rest := extracted.value;
        StripDotsAppend(prefix, rest);
        assert address[|prefix|..] == text && bare[|prefix|..] == rest;
      } else {
        rest := [];
        StripDotsEnd(text);
      }
    }
  }

  lemma StripDotsEnd(text: bytes)
    requires text != [] && text[|text| - 1] != DOT
    ensures |StripDots([])| < |StripDots(text)|
  {
    var last := text[|text| - 1];
    assert text == text[..|text| - 1] + [last];
    StripDotsAppend(text[..|text| - 1], [last]);
    StripDotsNone([last]);
  }

  /** A whole query is then not taken for what it is. */
  lemma OverstrippedSingle(encoded: bytes, passphrase: bytes, known: bytes)
    requires encoded != [] && DOT !in encoded && known != []
    requires HasSuffix(Lower(AuthPrefix(passphrase) + encoded), Lower(known))
    ensures RouteOf(Ping(AuthPrefix(passphrase) + encoded, QUERY_PORT), known, passphrase) != Direct(encoded)
  {
    assert encoded[|encoded| - 1] in encoded;
    var rest := OverstrippedRoute(encoded, QUERY_PORT, passphrase, known);
    hide RouteOf, IsFragmented;
  }

  /** Nor is a fragment. */
  lemma OverstrippedFragment(nonce: bytes, piece: bytes, port: uint16, passphrase: bytes, known: bytes)
    requires DOT !in nonce && piece != [] && DOT !in piece && known != []
    requires HasSuffix(Lower(AuthPrefix(passphrase) + FragmentText(nonce, piece)), Lower(known))
    ensures var route := RouteOf(Ping(AuthPrefix(passphrase) + FragmentText(nonce, piece), port), known, passphrase);
            route.Fragment? ==> route.nonce != nonce || route.piece != piece
  {
    var text := FragmentText(nonce, piece);
    FragmentTextEnd(nonce, piece);
    var rest := OverstrippedRoute(text, port, passphrase, known);
    FragmentTextSize(nonce, piece);
    hide RouteOf, FragmentText, StripDots;
    if Routed(rest, port).Fragment? {
      FragmentSize(rest, port);
    }
  }

  lemma FragmentTextSize(nonce: bytes, piece: bytes)
    requires DOT !in nonce && piece != [] && DOT !in piece
    ensures |StripDots(FragmentText(nonce, piece))| == 1 + |nonce| + |piece|
  {
    ChunkedShape(piece);
    hide Chunked, StripDots;
    StripDotsAppend(NONCE_MARKER + nonce + [DOT], Chunked(piece));
    StripDotsAppend(NONCE_MARKER + nonce, [DOT]);
    StripDotsAppend(NONCE_MARKER, nonce);
    StripDotsNone(nonce);
    MarkerStripped();
  }

  lemma MarkerStripped()
    ensures StripDots(NONCE_MARKER) == [110] && StripDots([DOT]) == []
  {
    assert NONCE_MARKER[1..] == [DOT] && [DOT][1..] == [];
  }

  /** Marker, nonce and piece are all the characters of a fragment. */
  lemma FragmentSize(text: bytes, port: uint16)
    requires Routed(text, port).Fragment?
    ensures |StripDots(text)| == 1 + |Routed(text, port).nonce| + |Routed(text, port).piece|
  {
    var parts := Split(text);
    var marker: bytes := [110];
    assert text == marker + [DOT] + text[2..];
    SplitAtDot(marker, text[2..]);
    SplitNoDot(marker);
    FlattenSplit(text);
    hide Split, StripDots, IsFragmented;
    assert parts[0] == marker && |parts| >= 3;
    assert Flatten(parts) == parts[0] + Flatten(parts[1..]);
    assert parts[1..][1..] == parts[2..];
  }

  // ----- fragment arithmetic

  lemma FragmentLength(passphrase: bytes, nonce: bytes, piece: bytes, suffix: bytes)
    requires piece != []
    ensures |FragmentAddress(passphrase, nonce, piece, suffix)|
            == MAX_ADDRESS - Budget(passphrase, nonce, suffix) + |piece| + (|piece| - 1) / LABEL_LENGTH
  {
    ChunkedLength(piece);
    hide Chunked, AuthPrefix, SuffixWithDot;
  }

  lemma ChunkedLength(piece: bytes)
    requires piece != []
    ensures |Chunked(piece)| == |piece| + (|piece| - 1) / LABEL_LENGTH
  {
    PiecesShape(piece, LABEL_LENGTH);
    PieceCount(piece, LABEL_LENGTH);
    hide Pieces, Join;
  }

  /** Every fragment address fits 255 bytes exactly when the budget is at least 40. */
  lemma FragmentsFit(encoded: bytes, passphrase: bytes, nonce: bytes, suffix: bytes)
    requires encoded != [] && |WithSuffix(AuthPrefix(passphrase) + encoded, suffix)| > MAX_ADDRESS
    ensures var budget := Budget(passphrase, nonce, suffix);
            (forall piece <- Pieces(encoded, MaxPieceLength(budget)) ::
               |FragmentAddress(passphrase, nonce, piece, suffix)| <= MAX_ADDRESS)
            <==> budget >= 40
  {
    hide FragmentAddress, WithSuffix;
    SuffixForms(AuthPrefix(passphrase) + encoded, suffix);
    var budget := Budget(passphrase, nonce, suffix);
    var n := MaxPieceLength(budget);
    assert |encoded| > budget;
    forall piece <- Pieces(encoded, n)
      ensures |FragmentAddress(passphrase, nonce, piece, suffix)| <= MAX_ADDRESS
              <==> |piece| + (|piece| - 1) / LABEL_LENGTH <= budget
      ensures budget >= 40 ==> |piece| + (|piece| - 1) / LABEL_LENGTH <= budget
    {
      FragmentLength(passphrase, nonce, piece, suffix);
    }
    if budget < 40 {
      var first := Pieces(encoded, n)[0];
      assert first in Pieces(encoded, n) && |first| == Min(|encoded|, n) > budget;
    }
  }

  /** A query that needs fragmenting yields at least two pieces, so that the server can tell, exactly in this case. */
  lemma AtLeastTwoPieces(encoded: bytes, passphrase: bytes, nonce: bytes, suffix: bytes)
    requires |WithSuffix(AuthPrefix(passphrase) + encoded, suffix)| > MAX_ADDRESS
    ensures var budget := Budget(passphrase, nonce, suffix);
            |Pieces(encoded, MaxPieceLength(budget))| >= MIN_PIECES <==> budget >= 41 || |encoded| > 40
  {
    SuffixForms(AuthPrefix(passphrase) + encoded, suffix);
  }

  /** In particular whenever the addresses fit. */
  lemma FittingPiecesAreSeveral(encoded: bytes, passphrase: bytes, nonce: bytes, suffix: bytes)
    requires |WithSuffix(AuthPrefix(passphrase) + encoded, suffix)| > MAX_ADDRESS
    requires Budget(passphrase, nonce, suffix) >= 40
    ensures |Pieces(encoded, MaxPieceLength(Budget(passphrase, nonce, suffix)))| >= MIN_PIECES == 2
  {
    hide Pieces, MaxPieceLength, WithSuffix;
    SuffixForms(AuthPrefix(passphrase) + encoded, suffix);
    AtLeastTwoPieces(encoded, passphrase, nonce, suffix);
  }

  /** Ping i carries piece i. */
  lemma {:induction false} FragmentPingsAt(pieces: seq<bytes>, n: nat, passphrase: bytes, nonce: bytes, suffix: bytes, i: nat)
    requires i < n <= |pieces| <= MAX_PIECES
    ensures FragmentPings(pieces, n, passphrase, nonce, suffix)[i] == FragmentPing(pieces, i, passphrase, nonce, suffix)
  {
    hide FragmentPing;
    if i < n - 1 {
      FragmentPingsAt(pieces, n - 1, passphrase, nonce, suffix, i);
    }
  }

  /** Index and total come back out of the port. */
  lemma PortRoundTrip(index: nat, total: nat)
    requires index <= MAX_PIECES && total <= MAX_PIECES
    ensures var port := FragmentPort(index, total);
            0 <= port < 0x1_0000 && port / 0x100 == index && port % 0x100 == total
  {
  }

  // ----- the loops of the source

  method SplitEncodedPieces(encoded: bytes, maxLength: nat) returns (pieces: seq<bytes>)
    requires maxLength > 0
    ensures pieces == Pieces(encoded, maxLength)
  {
    pieces := [];
    var rest := encoded;
    while |rest| > maxLength
      invariant pieces + Pieces(rest, maxLength) == Pieces(encoded, maxLength)
      decreases |rest|
    {
      assert pieces + Pieces(rest, maxLength) == pieces + [rest[..maxLength]] + Pieces(rest[maxLength..], maxLength);
      pieces := pieces + [rest[..maxLength]];
      rest := rest[maxLength..];
    }
    if |rest| > 0 {
      pieces := pieces + [rest];
    }
  }

  method ChunkLabels(text: bytes) returns (chunked: bytes)
    ensures chunked == Chunked(text)
  {
    if |text| <= LABEL_LENGTH {
      return text;
    }
    var parts := SplitEncodedPieces(text, LABEL_LENGTH);
    chunked := Join(parts);
  }

  /** The client's loop over the pieces, up to the exchanges themselves. */
  method QueryPings(encoded: bytes, passphrase: bytes, nonce: bytes, suffix: bytes)
    returns (r: Result<seq<Ping>, ClientError>)
    ensures r == Pings(encoded, passphrase, nonce, suffix)
  {
    hide Pieces, WithSuffix, AuthPrefix, Chunked, SuffixWithDot, MaxPieceLength;
    var authPrefix := AuthPrefix(passphrase);
    var address := WithSuffix(authPrefix + encoded, suffix);
    if |address| <= MAX_ADDRESS {
      return Ok([Ping(address, QUERY_PORT)]);
    }
    var pieces := SplitEncodedPieces(encoded, MaxPieceLength(Budget(passphrase, nonce, suffix)));
    if |pieces| > MAX_PIECES {
      return Err(TooLarge);
    }
    var pings: seq<Ping> := [];
    for index := 0 to |pieces|
      invariant pings == FragmentPings(pieces, index, passphrase, nonce, suffix)
    {
      var chunked := ChunkLabels(pieces[index]);
      var fragmentAddress := authPrefix + (NONCE_MARKER + nonce + [DOT] + chunked) + SuffixWithDot(suffix);
      pings := pings + [Ping(fragmentAddress, FragmentPort(index + 1, |pieces|))];
    }
    r := Ok(pings);
  }
}
