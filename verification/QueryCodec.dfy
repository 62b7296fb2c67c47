/**
 * Queries as server addresses: magic, optional EDNS byte, TLD code, varint type and
 * name labels, in lower-case unpadded base32.
 */
module QueryCodec {
  import opened Bytes
  import opened Uvarint
  import opened Text
  import Base32

  // ----- queries

  const CLASS_IN: uint16 := 1

  /** Names are presentation text; `edns` is the advertised UDP size of the OPT record, if any. */
  datatype Question = Question(name: bytes, qtype: uint16, qclass: uint16)
  datatype Query = Query(id: uint16, recursionDesired: bool, questions: seq<Question>, edns: Option<uint16>)

  /** The labels of a question name, as the encoder takes them apart. */
  function NameLabels(name: bytes): seq<bytes> {
    Split(Lower(TrimSuffix(name, [DOT])))
  }

  predicate GoodLabels(labels: seq<bytes>) {
    forall part <- labels :: 1 <= |part| <= 63
  }

  datatype EncodeError = NoQuestion | UnsupportedClass | EmptyName | InvalidLabel

  function Refusal(q: Query): Option<EncodeError> {
    if q.questions == [] then Some(NoQuestion)
    else if q.questions[0].qclass != CLASS_IN then Some(UnsupportedClass)
    else if TrimSuffix(q.questions[0].name, [DOT]) == [] then Some(EmptyName)
    else if !GoodLabels(NameLabels(q.questions[0].name)) then Some(InvalidLabel)
    else None
  }

  // ----- labels on the wire

  function LabelWire(part: bytes): bytes { [|part| % 0x100] + part }

  function LabelsWire(labels: seq<bytes>): bytes {
    if labels == [] then [] else LabelWire(labels[0]) + LabelsWire(labels[1..])
  }

  datatype LabelError = Truncated | LabelTooLong | LabelOverflow | TrailingBytes

  function ParseLabels(wire: bytes): Result<seq<bytes>, LabelError> {
    if wire == [] then Err(Truncated)
    else if wire[0] == 0 then if |wire| == 1 then Ok([]) else Err(TrailingBytes)
    else if wire[0] > 63 then Err(LabelTooLong)
    else if 1 + wire[0] > |wire| then Err(LabelOverflow)
    else
      var labels :- ParseLabels(wire[1 + wire[0]..]);
      Ok([wire[1..1 + wire[0]]] + labels)
  }

  lemma {:induction false} ParseLabelsWire(labels: seq<bytes>)
    requires GoodLabels(labels)
    ensures ParseLabels(LabelsWire(labels) + [0]) == Ok(labels)
  {
    if labels != [] {
      var n, rest := |labels[0]|, LabelsWire(labels[1..]) + [0];
      var wire := LabelsWire(labels) + [0];
      assert labels[0] in labels && [labels[0]] + labels[1..] == labels;
      assert wire == [n] + labels[0] + rest;
      assert wire[1 + n..] == rest && wire[1..1 + n] == labels[0];
      ParseLabelsWire(labels[1..]);
    }
  }

  lemma {:induction false} LabelsWireAppend(labels: seq<bytes>, part: bytes)
    ensures LabelsWire(labels + [part]) == LabelsWire(labels) + LabelWire(part)
  {
    if labels == [] {
      assert [part][1..] == [];
    } else {
      assert (labels + [part])[1..] == labels[1..] + [part];
      LabelsWireAppend(labels[1..], part);
    }
  }

  // ----- the TLD dictionary

  const TLD_RAW: byte := 0
  const TLD_RESERVED: byte := 100

  /** The TLDs that have a code; codes from 100 on are reserved. */
  type Dictionary = tlds: seq<bytes> | |tlds| < 100

  function CodeTld(tlds: Dictionary, code: byte): Option<bytes> {
    if 1 <= code <= |tlds| then Some(tlds[code - 1]) else None
  }

  /** The last of the first `n` entries that spells the given label, counted from one. */
  function LastCode(tlds: Dictionary, n: nat, part: bytes): (code: Option<byte>)
    requires n <= |tlds|
    ensures code.Some? ==> 1 <= code.value <= n && CodeTld(tlds, code.value) == Some(part)
  {
    if n == 0 then None
    else if tlds[n - 1] == part then Some(n)
    else LastCode(tlds, n - 1, part)
  }

  function TldCode(tlds: Dictionary, part: bytes): (code: Option<byte>)
    ensures code.Some? ==> 1 <= code.value < TLD_RESERVED && CodeTld(tlds, code.value) == Some(part)
  {
    LastCode(tlds, |tlds|, part)
  }

  /** The code determines the TLD, so no two TLDs share one. */
  lemma TldCodeInjective(tlds: Dictionary, a: bytes, b: bytes)
    requires TldCode(tlds, a).Some? && TldCode(tlds, a) == TldCode(tlds, b)
    ensures a == b
  {
    assert Some(a) == CodeTld(tlds, TldCode(tlds, a).value) == Some(b);
  }

  datatype Tables = Tables(tldToCode: map<bytes, byte>, codeToTld: map<byte, bytes>)

  /** The two maps hold exactly what the dictionary functions say. */
  ghost predicate TablesOf(t: Tables, tlds: Dictionary) {
    && (forall part :: (part in t.tldToCode <==> TldCode(tlds, part).Some?)
                       && (part in t.tldToCode ==> t.tldToCode[part] == TldCode(tlds, part).value))
    && (forall code: byte :: (code in t.codeToTld <==> CodeTld(tlds, code).Some?)
                             && (code in t.codeToTld ==> t.codeToTld[code] == CodeTld(tlds, code).value))
  }

  /** Start-up fills both maps from the list; a repeated entry would keep its last code. */
  method BuildTldTables(tlds: Dictionary) returns (t: Tables)
    ensures TablesOf(t, tlds)
  {
    var tldToCode: map<bytes, byte>, codeToTld: map<byte, bytes> := map[], map[];
    for index := 0 to |tlds|
      invariant forall part :: (part in tldToCode <==> LastCode(tlds, index, part).Some?)
                               && (part in tldToCode ==> tldToCode[part] == LastCode(tlds, index, part).value)
      invariant forall code: byte :: (code in codeToTld <==> 1 <= code <= index)
                                     && (code in codeToTld ==> codeToTld[code] == CodeTld(tlds, code).value)
    {
      var code: byte := index + 1;
      tldToCode := tldToCode[tlds[index] := code];
      codeToTld := codeToTld[code := tlds[index]];
    }
    t := Tables(tldToCode, codeToTld);
  }

  /** A dictionary's maps are inverse to each other exactly when no entry is repeated. */
  lemma TablesInverse(t: Tables, tlds: Dictionary)
    requires TablesOf(t, tlds)
    ensures forall part <- t.tldToCode :: t.tldToCode[part] in t.codeToTld && t.codeToTld[t.tldToCode[part]] == part
    ensures (forall code <- t.codeToTld :: t.codeToTld[code] in t.tldToCode
                                           && t.tldToCode[t.codeToTld[code]] == code)
            <==> Distinct(tlds)
  {
    forall code <- t.codeToTld ensures t.codeToTld[code] in t.tldToCode {
      LastCodeBounds(tlds, |tlds|, code);
    }
    if Distinct(tlds) {
      forall code <- t.codeToTld ensures t.tldToCode[t.codeToTld[code]] == code {
        var again := t.tldToCode[t.codeToTld[code]];
        assert tlds[again - 1] == tlds[code - 1];
      }
    } else {
      var i, j :| 0 <= i < j < |tlds| && tlds[i] == tlds[j];
      var code: byte := i + 1;
      assert code in t.codeToTld && t.codeToTld[code] == tlds[j];
      LastCodeBounds(tlds, |tlds|, j + 1);
      assert t.tldToCode[tlds[j]] >= j + 1;
    }
  }

  /** An entry is found, at its own place or a later one. */
  lemma {:induction false} LastCodeBounds(tlds: Dictionary, n: nat, code: nat)
    requires 1 <= code <= n <= |tlds|
    ensures LastCode(tlds, n, tlds[code - 1]).Some? && LastCode(tlds, n, tlds[code - 1]).value >= code
  {
    if code < n {
      LastCodeBounds(tlds, n - 1, code);
    }
  }

  lemma DistinctCodes(tlds: Dictionary, i: nat)
    requires Distinct(tlds) && i < |tlds|
    ensures TldCode(tlds, tlds[i]) == Some(i + 1)
  {
    LastCodeBounds(tlds, |tlds|, i + 1);
    var code := TldCode(tlds, tlds[i]).value;
    assert tlds[code - 1] == tlds[i];
  }

  // ----- the encoder

  const MAGIC_MINIMAL: byte := 0xFF
  const MAGIC_EDNS: byte := 0xFE

  function EdnsByte(size: uint16): (b: byte)
    ensures 2 <= b
  {
    (if size < 512 then 512 else size) / 256
  }

  function NamePart(tlds: Dictionary, labels: seq<bytes>): (byte, bytes)
    requires |labels| >= 1
  {
    var code := TldCode(tlds, labels[|labels| - 1]);
    if code.Some? then (code.value, LabelsWire(labels[..|labels| - 1]) + [0])
    else (TLD_RAW, LabelsWire(labels) + [0])
  }

  function QueryWire(tlds: Dictionary, q: Query): bytes
    requires Refusal(q).None?
  {
    var (code, name) := NamePart(tlds, NameLabels(q.questions[0].name));
    (if q.edns.Some? then [MAGIC_EDNS, EdnsByte(q.edns.value)] else [MAGIC_MINIMAL])
    + ([code] + (PutUvarint(q.questions[0].qtype) + name))
  }

  /** The text an accepted query is sent as. */
  function EncodedText(tlds: Dictionary, q: Query): bytes
    requires Refusal(q).None?
  {
    Lower(Base32.Encode(QueryWire(tlds, q)))
  }

  function EncodeQuery(tlds: Dictionary, q: Query): Result<bytes, EncodeError> {
    if Refusal(q).Some? then Err(Refusal(q).value) else Ok(EncodedText(tlds, q))
  }

  // ----- the decoder

  datatype DecodeError = BadBase32 | EmptyWire | TooShort | BadMagic | ReservedTld | BadVarint
                       | QtypeRange | NotTerminated | UnknownTld | BadLabels(reason: LabelError)

  /** dns.Fqdn: a final dot is added unless an unescaped one is there. */
  predicate IsFqdn(s: bytes) {
    s != [] && s[|s| - 1] == DOT && TrailingBackslashes(s[..|s| - 1]) % 2 == 0
  }

  function TrailingBackslashes(s: bytes): nat {
    if s == [] || s[|s| - 1] != BACKSLASH then 0 else 1 + TrailingBackslashes(s[..|s| - 1])
  }

  function Fqdn(s: bytes): bytes { if IsFqdn(s) then s else s + [DOT] }

  function DecodeName(tlds: Dictionary, code: byte, name: bytes): Result<bytes, DecodeError> {
    if code == TLD_RAW then
      match ParseLabels(name) {
        case Ok(labels) => Ok(Join(labels))
        case Err(e) => Err(BadLabels(e))
      }
    else if CodeTld(tlds, code).None? then Err(UnknownTld)
    else if |name| <= 1 then Ok(CodeTld(tlds, code).value)
    else
      match ParseLabels(name) {
        case Ok(labels) =>
          var prefix := Join(labels);
          Ok(if prefix == [] then CodeTld(tlds, code).value else prefix + [DOT] + CodeTld(tlds, code).value)
        case Err(e) => Err(BadLabels(e))
      }
  }

  function DecodePayload(tlds: Dictionary, code: byte, edns: Option<uint16>, payload: bytes): Result<Query, DecodeError> {
    if TLD_RESERVED <= code <= 254 then Err(ReservedTld) else
      match ReadUvarint(payload) {
        case Err(_) => Err(BadVarint)
        case Ok((qtype, name)) =>
          if qtype > 65535 then Err(QtypeRange)
          else if name == [] || name[|name| - 1] != 0 then Err(NotTerminated)
          else
            var domain :- DecodeName(tlds, code, name);
            Ok(Query(0, true, [Question(Fqdn(domain), qtype, CLASS_IN)], edns))
      }
  }

  function DecodedEdns(b: byte): Option<uint16> {
    var size: int := b;
    if size == 0 then None else Some(size * 256)
  }

  function DecodeWire(tlds: Dictionary, wire: bytes): Result<Query, DecodeError> {
    if wire == [] then Err(EmptyWire)
    else if wire[0] == MAGIC_MINIMAL then
      if |wire| < 3 then Err(TooShort) else DecodePayload(tlds, wire[1], None, wire[2..])
    else if wire[0] == MAGIC_EDNS then
      if |wire| < 4 then Err(TooShort)
      else DecodePayload(tlds, wire[2], DecodedEdns(wire[1]), wire[3..])
    else Err(BadMagic)
  }

  /** StripSuffix ignores case, and takes one dot off with the suffix. */
  function StripSuffix(address: bytes, suffix: bytes): bytes {
    if suffix != [] && HasSuffix(Lower(address), Lower(suffix))
    then TrimSuffix(address[..|address| - |suffix|], [DOT])
    else address
  }

  function DecodeQuery(tlds: Dictionary, text: bytes, suffix: bytes): Result<Query, DecodeError> {
    match Base32.Decode(Upper(StripDots(StripSuffix(text, suffix))))
    case None => Err(BadBase32)
    case Some(wire) => DecodeWire(tlds, wire)
  }

  // ----- round trip

  /** What the tunnel keeps of a query: name in lower case, type, and the EDNS size in 256-byte steps. */
  function Normalized(q: Query): Query
    requires Refusal(q).None?
  {
    var name := Lower(TrimSuffix(q.questions[0].name, [DOT])) + [DOT];
    Query(0, true, [Question(name, q.questions[0].qtype, CLASS_IN)],
          match q.edns case Some(size) => DecodedEdns(EdnsByte(size)) case None => None)
  }

  /** The decoded size never exceeds what was advertised (or the 512 minimum) and loses less than 256. */
  lemma EdnsSizeBounds(size: uint16)
    ensures var decoded := DecodedEdns(EdnsByte(size));
            decoded.Some? && decoded.value <= Max(512, size) < decoded.value + 256
  {
  }

  lemma DecodeKnown(tlds: Dictionary, code: byte, prefix: seq<bytes>, last: bytes)
    requires CodeTld(tlds, code) == Some(last) && GoodLabels(prefix)
    ensures DecodeName(tlds, code, LabelsWire(prefix) + [0]) == Ok(Join(prefix + [last]))
  {
    hide LabelsWire, ParseLabels, Join, GoodLabels;
    ParseLabelsWire(prefix);
    PrefixShape(prefix);
    if prefix != [] {
      JoinSnoc(prefix, last);
    } else {
      JoinOne(last);
      assert prefix + [last] == [last];
    }
  }

  lemma DecodeRaw(tlds: Dictionary, labels: seq<bytes>)
    requires GoodLabels(labels)
    ensures TLD_RAW < TLD_RESERVED && DecodeName(tlds, TLD_RAW, LabelsWire(labels) + [0]) == Ok(Join(labels))
  {
    hide LabelsWire, ParseLabels, Join, GoodLabels, CodeTld;
    ParseLabelsWire(labels);
  }

  lemma NamePartIs(tlds: Dictionary, labels: seq<bytes>)
    requires |labels| >= 1
    ensures var prefix, code := labels[..|labels| - 1], TldCode(tlds, labels[|labels| - 1]);
            NamePart(tlds, labels) == if code.Some? then (code.value, LabelsWire(prefix) + [0])
                                      else (TLD_RAW, LabelsWire(labels) + [0])
  {
    hide TldCode, LabelsWire;
  }

  lemma GoodPrefix(labels: seq<bytes>, n: nat)
    requires GoodLabels(labels) && n <= |labels|
    ensures GoodLabels(labels[..n])
  {
  }

  lemma NameRoundTrip(tlds: Dictionary, labels: seq<bytes>)
    requires |labels| >= 1 && GoodLabels(labels)
    ensures var (code, name) := NamePart(tlds, labels);
            && code < TLD_RESERVED && |name| >= 1 && name[|name| - 1] == 0
            && DecodeName(tlds, code, name) == Ok(Join(labels))
  {
    hide *;
    var prefix, last := labels[..|labels| - 1], labels[|labels| - 1];
    NamePartIs(tlds, labels);
    if TldCode(tlds, last).Some? {
      TldCodeTables(tlds, last);
      GoodPrefix(labels, |labels| - 1);
      DecodeKnown(tlds, TldCode(tlds, last).value, prefix, last);
      assert labels == prefix + [last];
    } else {
      DecodeRaw(tlds, labels);
    }
  }

  lemma JoinOne(part: bytes)
    ensures Join([part]) == part
  {
  }

  lemma PrefixShape(prefix: seq<bytes>)
    requires GoodLabels(prefix)
    ensures if prefix == [] then LabelsWire(prefix) == [] else |LabelsWire(prefix)| >= 1 && Join(prefix) != []
  {
    if prefix != [] {
      assert prefix[0] in prefix;
      assert |Join(prefix)| >= |prefix[0]|;
    }
  }

  lemma TldCodeTables(tlds: Dictionary, part: bytes)
    requires TldCode(tlds, part).Some?
    ensures 1 <= TldCode(tlds, part).value < TLD_RESERVED && CodeTld(tlds, TldCode(tlds, part).value) == Some(part)
  {
  }

  lemma SplitEndDot(s: bytes)
    requires s == [] || s[|s| - 1] == DOT
    ensures [] in Split(s)
  {
    hide Split;
    SplitNone(Split([]));
    if s != [] {
      var head := s[..|s| - 1];
      assert s == head + [DOT] + [];
      SplitAtDot(head, []);
    }
  }

  lemma LastPartUndotted(s: bytes)
    requires GoodLabels(Split(s))
    ensures s != [] && s[|s| - 1] != DOT
  {
    NoEmptyLabel(Split(s));
    if s == [] || s[|s| - 1] == DOT {
      SplitEndDot(s);
    }
  }

  lemma NoEmptyLabel(labels: seq<bytes>)
    requires GoodLabels(labels)
    ensures [] !in labels
  {
  }

  /** Decoding the wire of an accepted query gives the query back, normalised. */
  lemma WireRoundTrip(tlds: Dictionary, q: Query)
    requires Refusal(q).None?
    ensures DecodeWire(tlds, QueryWire(tlds, q)) == Ok(Normalized(q))
  {
    var question, labels := q.questions[0], NameLabels(q.questions[0].name);
    var domain := Lower(TrimSuffix(question.name, [DOT]));
    assert labels == Split(domain) && GoodLabels(labels);
    JoinSplit(domain);
    LastPartUndotted(domain);
    NameRoundTrip(tlds, labels);
    var (code, name) := NamePart(tlds, labels);
    PayloadDecodes(tlds, code, Normalized(q).edns, question.qtype, name, domain);
    var payload := PutUvarint(question.qtype) + name;
    WireParts(tlds, q, payload);
    hide DecodeName, DecodePayload, NamePart, PutUvarint, Lower, Split, TrimSuffix, QueryWire, Refusal;
  }

  lemma PayloadDecodes(tlds: Dictionary, code: byte, edns: Option<uint16>, qtype: uint16, name: bytes, domain: bytes)
    requires code < TLD_RESERVED && name != [] && name[|name| - 1] == 0
    requires DecodeName(tlds, code, name) == Ok(domain) && domain != [] && domain[|domain| - 1] != DOT
    ensures DecodePayload(tlds, code, edns, PutUvarint(qtype) + name)
            == Ok(Query(0, true, [Question(domain + [DOT], qtype, CLASS_IN)], edns))
  {
    hide DecodeName, ReadUvarint, PutUvarint;
    ReadPut(qtype, name);
  }

  /** Magic, EDNS byte, code and payload, found where the decoder looks for them. */
  lemma WireParts(tlds: Dictionary, q: Query, payload: bytes)
    requires Refusal(q).None?
    requires var (_, name) := NamePart(tlds, NameLabels(q.questions[0].name));
             payload == PutUvarint(q.questions[0].qtype) + name
    ensures var wire, (code, name) := QueryWire(tlds, q), NamePart(tlds, NameLabels(q.questions[0].name));
            if q.edns.Some?
            then |wire| >= 3 && wire[0] == MAGIC_EDNS && wire[1] == EdnsByte(q.edns.value) && wire[2] == code
                 && wire[3..] == payload
            else |wire| >= 2 && wire[0] == MAGIC_MINIMAL && wire[1] == code && wire[2..] == payload
    ensures |payload| >= 1
  {
    hide NamePart, NameLabels, EdnsByte;
    assert |PutUvarint(q.questions[0].qtype)| >= 1;
    hide PutUvarint;
  }

  lemma UpperLowerEncoded(b: bytes)
    ensures Upper(Lower(Base32.Encode(b))) == Base32.Encode(b)
    ensures DOT !in Base32.Encode(b) && DOT !in Lower(Base32.Encode(b))
  {
    var t := Base32.Encode(b);
    forall i | 0 <= i < |t| ensures t[i] != DOT && UpperByte(LowerByte(t[i])) == t[i] && LowerByte(t[i]) != DOT {
      assert t[i] == Base32.Symbol(Base32.Digits(b)[i]);
    }
  }

  /**
   * Whatever dots are inserted into the encoded text, and whatever case its letters
   * arrive in, the normalised query is decoded.
   */
  lemma QueryRoundTrip(tlds: Dictionary, q: Query, text: bytes)
    requires Refusal(q).None?
    requires Lower(StripDots(text)) == EncodedText(tlds, q)
    ensures DecodeQuery(tlds, text, []) == Ok(Normalized(q))
  {
    hide Refusal, QueryWire, DecodeWire, Normalized, StripDots, Base32.Encode, Base32.Decode;
    var encoded := Base32.Encode(QueryWire(tlds, q));
    UpperLowerEncoded(QueryWire(tlds, q));
    var bare := StripDots(text);
    assert Upper(bare) == encoded by {
      forall i | 0 <= i < |bare| ensures UpperByte(bare[i]) == encoded[i] {
        assert LowerByte(bare[i]) == Lower(encoded)[i];
        assert encoded[i] == Upper(Lower(encoded))[i];
      }
    }
    Base32.EncodeDecode(QueryWire(tlds, q));
    WireRoundTrip(tlds, q);
  }

  lemma LowerTwice(s: bytes)
    ensures Lower(Lower(s)) == Lower(s)
  {
  }

  /** The encoded text is lower case and has no dots; its length is that of base32. */
  lemma EncodedTextShape(tlds: Dictionary, q: Query)
    requires Refusal(q).None?
    ensures var text := EncodedText(tlds, q);
            && DOT !in text && StripDots(text) == text && Lower(text) == text
            && |text| == (8 * |QueryWire(tlds, q)| + 4) / 5
  {
    hide StripDots, QueryWire, Base32.Encode, Refusal;
    UpperLowerEncoded(QueryWire(tlds, q));
    StripDotsNone(EncodedText(tlds, q));
    LowerTwice(Base32.Encode(QueryWire(tlds, q)));
    Base32.EncodeLength(QueryWire(tlds, q));
  }

  /** Only a text that begins with the digit seven decodes: both magic bytes begin with five set bits. */
  lemma BeginsWithSeven(tlds: Dictionary, text: bytes)
    requires StripDots(text) != [] && StripDots(text)[0] != Base32.NEWLINE && StripDots(text)[0] != Base32.RETURN
    ensures DecodeQuery(tlds, text, []).Ok? ==> StripDots(text)[0] == 55
  {
    var t := Upper(StripDots(text));
    assert t[0] == UpperByte(StripDots(text)[0]);
    hide Base32.Decode, Upper, StripDots, DecodePayload;
    if DecodeQuery(tlds, text, []).Ok? {
      Base32.FirstDigit(t);
      assert Base32.SymbolValue(t[0]) == Some(31);
    }
  }

  /** Equal texts mean equal queries, up to what normalisation drops. */
  lemma EncodingInjective(tlds: Dictionary, q1: Query, q2: Query)
    requires Refusal(q1).None? && Refusal(q2).None? && EncodedText(tlds, q1) == EncodedText(tlds, q2)
    ensures Normalized(q1) == Normalized(q2)
  {
    hide *;
    var text := EncodedText(tlds, q1);
    EncodedTextShape(tlds, q1);
    QueryRoundTrip(tlds, q1, text);
    QueryRoundTrip(tlds, q2, text);
  }

  // ----- the loops of the source

  method PackLabels(labels: seq<bytes>) returns (buffer: bytes)
    ensures buffer == LabelsWire(labels) + [0]
  {
    if |labels| == 0 {
      return [0];
    }
    buffer := [];
    for index := 0 to |labels|
      invariant buffer == LabelsWire(labels[..index])
    {
      LabelsWireAppend(labels[..index], labels[index]);
      assert labels[..index + 1] == labels[..index] + [labels[index]];
      buffer := buffer + LabelWire(labels[index]);
    }
    assert labels[..|labels|] == labels;
    buffer := buffer + [0];
  }

  function After(done: seq<bytes>, r: Result<seq<bytes>, LabelError>): Result<seq<bytes>, LabelError> {
    match r
    case Ok(labels) => Ok(done + labels)
    case Err(e) => Err(e)
  }

  method UnpackLabels(wire: bytes) returns (r: Result<bytes, LabelError>)
    ensures match ParseLabels(wire)
            case Ok(labels) => r == Ok(Join(labels))
            case Err(e) => r == Err(e)
  {
    if |wire| == 0 {
      return Err(Truncated);
    }
    var labels: seq<bytes> := [];
    var position := 0;
    assert wire[0..] == wire;
    AfterNone(ParseLabels(wire));
    while true
      invariant position <= |wire|
      invariant ParseLabels(wire) == After(labels, ParseLabels(wire[position..]))
      decreases |wire| - position
    {
      if position >= |wire| {
        return Err(Truncated);
      }
      ghost var rest := wire[position..];
      var length := wire[position];
      position := position + 1;
      if length == 0 {
        break;
      }
      if length > 63 {
        return Err(LabelTooLong);
      }
      if position + length > |wire| {
        return Err(LabelOverflow);
      }
      AfterStep(labels, rest);
      assert rest[1..1 + length] == wire[position..position + length];
      assert rest[1 + length..] == wire[position + length..];
      labels := labels + [wire[position..position + length]];
      position := position + length;
    }
    if position != |wire| {
      return Err(TrailingBytes);
    }
    assert labels + [] == labels;
    r := Ok(Join(labels));
  }

  lemma AfterNone(r: Result<seq<bytes>, LabelError>)
    ensures After([], r) == r
  {
    if r.Ok? {
      assert [] + r.value == r.value;
    }
  }

  lemma AfterStep(done: seq<bytes>, rest: bytes)
    requires rest != [] && 0 < rest[0] <= 63 && 1 + rest[0] <= |rest|
    ensures After(done, ParseLabels(rest))
            == After(done + [rest[1..1 + rest[0]]], ParseLabels(rest[1 + rest[0]..]))
  {
    var part, later := rest[1..1 + rest[0]], ParseLabels(rest[1 + rest[0]..]);
    if later.Ok? {
      assert done + ([part] + later.value) == done + [part] + later.value;
    }
  }

  /** The encoder as the source runs it: checks in order, then the buffer is written field by field. */
  method EncodeQueryText(tlds: Dictionary, t: Tables, q: Query) returns (r: Result<bytes, EncodeError>)
    requires TablesOf(t, tlds)
    ensures r == EncodeQuery(tlds, q)
  {
    hide TldCode, NamePart, Split, PutUvarint, TablesOf, Base32.Encode, Lower, TrimSuffix, EdnsByte, LabelsWire;
    if |q.questions| == 0 {
      return Err(NoQuestion);
    }
    var question := q.questions[0];
    if question.qclass != CLASS_IN {
      return Err(UnsupportedClass);
    }
    var domain := Lower(TrimSuffix(question.name, [DOT]));
    if domain == [] {
      return Err(EmptyName);
    }
    var labels := Split(domain);
    for index := 0 to |labels|
      invariant GoodLabels(labels[..index])
    {
      if |labels[index]| == 0 || |labels[index]| > 63 {
        assert labels[index] in labels;
        return Err(InvalidLabel);
      }
    }
    assert labels[..|labels|] == labels;
    var part := PackName(tlds, t, labels);
    var buffer: bytes := [];
    if q.edns.Some? {
      buffer := buffer + [MAGIC_EDNS];
      buffer := buffer + [EdnsByte(q.edns.value)];
    } else {
      buffer := buffer + [MAGIC_MINIMAL];
    }
    ghost var head := buffer;
    buffer := buffer + [part.0];
    buffer := buffer + PutUvarint(question.qtype);
    buffer := buffer + part.1;
    assert buffer == head + ([part.0] + (PutUvarint(question.qtype) + part.1));
    assert Refusal(q).None?;
    assert NamePart(tlds, labels) == part;
    assert buffer == QueryWire(tlds, q);
    r := Ok(Lower(Base32.Encode(buffer)));
  }

  method PackName(tlds: Dictionary, t: Tables, labels: seq<bytes>) returns (part: (byte, bytes))
    requires |labels| >= 1
    requires TablesOf(t, tlds)
    ensures part == NamePart(tlds, labels)
  {
    var last := labels[|labels| - 1];
    if last in t.tldToCode {
      var prefix := PackLabels(labels[..|labels| - 1]);
      part := (t.tldToCode[last], prefix);
    } else {
      var whole := PackLabels(labels);
      part := (TLD_RAW, whole);
    }
  }

  /** The decoder as the source runs it: strip, decode, then take the fields off one by one. */
  method DecodeQueryText(tlds: Dictionary, t: Tables, text: bytes, suffix: bytes)
    returns (r: Result<Query, DecodeError>)
    requires TablesOf(t, tlds)
    ensures r == DecodeQuery(tlds, text, suffix)
  {
    hide CodeTld, ParseLabels, ReadUvarint, StripDots, StripSuffix, Upper;
    var decoded := Base32.Decode(Upper(StripDots(StripSuffix(text, suffix))));
    if decoded.None? {
      return Err(BadBase32);
    }
    var wire := decoded.value;
    if |wire| == 0 {
      return Err(EmptyWire);
    }
    var code: byte, edns: Option<uint16>, payloadStart: nat;
    if wire[0] == MAGIC_MINIMAL {
      if |wire| < 3 {
        return Err(TooShort);
      }
      code, edns, payloadStart := wire[1], None, 2;
    } else if wire[0] == MAGIC_EDNS {
      if |wire| < 4 {
        return Err(TooShort);
      }
      code, edns, payloadStart := wire[2], DecodedEdns(wire[1]), 3;
    } else {
      return Err(BadMagic);
    }
    if TLD_RESERVED <= code <= 254 {
      return Err(ReservedTld);
    }
    var read := ReadUvarint(wire[payloadStart..]);
    if read.Err? {
      return Err(BadVarint);
    }
    var (qtype, name) := read.value;
    if qtype > 65535 {
      return Err(QtypeRange);
    }
    if |name| == 0 || name[|name| - 1] != 0 {
      return Err(NotTerminated);
    }
    var domain :- UnpackName(tlds, t, code, name);
    r := Ok(Query(0, true, [Question(Fqdn(domain), qtype, CLASS_IN)], edns));
  }

  method UnpackName(tlds: Dictionary, t: Tables, code: byte, name: bytes) returns (r: Result<bytes, DecodeError>)
    requires TablesOf(t, tlds)
    ensures r == DecodeName(tlds, code, name)
  {
    hide CodeTld, ParseLabels, Join;
    if code == TLD_RAW {
      var whole := UnpackLabels(name);
      return if whole.Ok? then Ok(whole.value) else Err(BadLabels(whole.error));
    }
    if code !in t.codeToTld {
      return Err(UnknownTld);
    }
    if |name| <= 1 {
      return Ok(t.codeToTld[code]);
    }
    var prefix := UnpackLabels(name);
    if prefix.Err? {
      return Err(BadLabels(prefix.error));
    }
    r := Ok(if prefix.value == [] then t.codeToTld[code] else prefix.value + [DOT] + t.codeToTld[code]);
  }
}
