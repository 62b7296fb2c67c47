/**
 * The compact response layout as functions: the message, its plain uncompressed
 * wire form (section 4.1 of RFC 1035), and what the encoder and the decoder compute.
 */
module CompactSpec {
  import opened Bytes
  import opened Uvarint
  import opened WireNames

  // ----- the message and its plain wire form

  type nibble = x: int | 0 <= x < 16

  /** The header fields of a response; the last two have no place in the compact layout. */
  datatype Flags = Flags(authoritative: bool, recursionAvailable: bool, recursionDesired: bool,
                         truncated: bool, authenticatedData: bool, checkingDisabled: bool,
                         opcode: nibble, zero: bool)
  {
    predicate Standard() { opcode == 0 && !zero }

    /** What the compact layout keeps. */
    function Kept(): Flags { this.(opcode := 0, zero := false) }
  }

  /** Names are uncompressed wire names; RDATA is opaque. */
  datatype Question = Question(name: bytes, qtype: uint16, qclass: uint16)
  datatype Record = Record(owner: bytes, rrtype: uint16, rrclass: uint16, ttl: uint32, rdata: bytes)
  datatype Message = Message(rcode: uint64, flags: Flags, questions: seq<Question>,
                             answer: seq<Record>, ns: seq<Record>, extra: seq<Record>)
  {
    function Records(): seq<Record> { answer + ns + extra }

    /** The message with opcode and Z bit cleared. */
    function Kept(): Message { this.(flags := flags.Kept()) }

    /** The names fit the wire, and counts and RDATA lengths fit their 16-bit fields. */
    predicate Packable() {
      && (forall q <- questions :: IsWireName(q.name))
      && (forall r <- Records() :: IsWireName(r.owner) && |r.rdata| < 0x1_0000)
      && |questions| < 0x1_0000 && |answer| < 0x1_0000 && |ns| < 0x1_0000 && |extra| < 0x1_0000
    }
  }

  function Bit(b: bool, weight: nat): nat { if b then weight else 0 }

  /** Second header word: QR OPCODE AA TC RD RA Z AD CD RCODE, from the high bit down. */
  function HeaderWord(f: Flags, rcode: uint64): uint16 {
    0x8000 + f.opcode * 0x800
    + Bit(f.authoritative, 0x400) + Bit(f.truncated, 0x200) + Bit(f.recursionDesired, 0x100)
    + Bit(f.recursionAvailable, 0x80) + Bit(f.zero, 0x40) + Bit(f.authenticatedData, 0x20)
    + Bit(f.checkingDisabled, 0x10) + rcode % 16
  }

  function PlainHeader(word: uint16, qd: nat, an: nat, ns: nat, ar: nat): (b: bytes)
    ensures |b| == 12
  {
    [0, 0] + BigEndian16(word) + BigEndian16(qd % 0x1_0000) + BigEndian16(an % 0x1_0000)
    + BigEndian16(ns % 0x1_0000) + BigEndian16(ar % 0x1_0000)
  }

  function QuestionWire(q: Question): bytes {
    q.name + BigEndian16(q.qtype) + BigEndian16(q.qclass)
  }

  function RecordTail(r: Record): bytes {
    BigEndian16(r.rrtype) + BigEndian16(r.rrclass) + BigEndian32(r.ttl)
    + BigEndian16(|r.rdata| % 0x1_0000) + r.rdata
  }

  function RecordWire(r: Record): bytes { r.owner + RecordTail(r) }

  function QuestionsWire(qs: seq<Question>): bytes {
    if qs == [] then [] else QuestionWire(qs[0]) + QuestionsWire(qs[1..])
  }

  function RecordsWire(rs: seq<Record>): bytes {
    if rs == [] then [] else RecordWire(rs[0]) + RecordsWire(rs[1..])
  }

  function PlainWire(m: Message): bytes {
    PlainHeader(HeaderWord(m.flags, m.rcode), |m.questions|, |m.answer|, |m.ns|, |m.extra|)
    + QuestionsWire(m.questions) + RecordsWire(m.Records())
  }

  // ----- the name dictionary both sides keep

  const RESPONSE_MAGIC: byte := 0xD1
  const TOKEN_QNAME: byte := 0
  const TOKEN_PREVIOUS: byte := 1
  const TOKEN_TABLE: byte := 2
  const TOKEN_LITERAL: byte := 3

  datatype Token = Qname | Previous | Table(index: nat) | Literal

  /** Empty names stand for "not set", as nil slices do in the source. */
  datatype Dict = Dict(qname: bytes, previous: bytes, table: seq<bytes>)

  /** How the encoder refers to `w`: the first of the four ways that applies. */
  function TokenFor(d: Dict, w: bytes): Token {
    if d.qname != [] && w == d.qname then Qname
    else if d.previous != [] && w == d.previous then Previous
    else if w in d.table then Table(IndexOf(d.table, w))
    else Literal
  }

  function TokenBytes(t: Token, w: bytes): (b: bytes)
    ensures |b| >= 1
  {
    match t
    case Qname => [TOKEN_QNAME]
    case Previous => [TOKEN_PREVIOUS]
    case Table(i) => [TOKEN_TABLE] + PutUvarint(i)
    case Literal => [TOKEN_LITERAL] + w
  }

  function Learn(d: Dict, t: Token, w: bytes): Dict {
    if t.Literal? then d.(table := d.table + [w]) else d
  }

  /** The dictionary after a record owned by `w` has been written. */
  function AfterRecord(d: Dict, w: bytes): Dict {
    Learn(d, TokenFor(d, w), w).(previous := w)
  }

  // ----- the encoder

  function PackFlags(f: Flags): byte {
    Bit(f.authoritative, 1) + Bit(f.recursionAvailable, 2) + Bit(f.recursionDesired, 4)
    + Bit(f.truncated, 8) + Bit(f.authenticatedData, 16) + Bit(f.checkingDisabled, 32)
  }

  function PackQuestions(qs: seq<Question>): bytes {
    if qs == [] then []
    else PackQuestion(qs[0]) + PackQuestions(qs[1..])
  }

  function PackQuestion(q: Question): bytes {
    [TOKEN_LITERAL] + (q.name + (PutUvarint(q.qtype) + PutUvarint(q.qclass)))
  }

  function PackTail(r: Record): bytes {
    PutUvarint(r.rrtype) + (PutUvarint(r.rrclass) + (PutUvarint(r.ttl) + (PutUvarint(|r.rdata|) + r.rdata)))
  }

  function PackRecord(d: Dict, r: Record): bytes {
    TokenBytes(TokenFor(d, r.owner), r.owner) + PackTail(r)
  }

  function PackRecords(d: Dict, rs: seq<Record>): bytes
    decreases |rs|
  {
    if rs == [] then []
    else PackRecord(d, rs[0]) + PackRecords(AfterRecord(d, rs[0].owner), rs[1..])
  }

  /** The encoder seeds its table with the first question only. */
  function EncoderDict(qs: seq<Question>): Dict {
    if qs == [] then Dict([], [], []) else Dict(qs[0].name, [], [qs[0].name])
  }

  function PackHeader(m: Message): bytes {
    [RESPONSE_MAGIC] + (PutUvarint(m.rcode) + ([PackFlags(m.flags)] + PackCounts(m)))
  }

  function PackCounts(m: Message): bytes {
    PutUvarint(|m.questions|) + (PutUvarint(|m.answer|) + (PutUvarint(|m.ns|) + PutUvarint(|m.extra|)))
  }

  function Pack(m: Message): bytes {
    PackHeader(m) + PackQuestions(m.questions) + PackRecords(EncoderDict(m.questions), m.Records())
  }

  // ----- the decoder

  datatype Error = UnexpectedEnd | BadMagic | BadVarint(varint: VarintError) | BadName(name: NameError)
                 | NoQname | NoPrevious | TableRange | UnknownToken | RdataTooLong

  function TakeByte(s: bytes): (r: Result<(byte, bytes), Error>)
    ensures r.Ok? ==> |r.value.1| == |s| - 1
  {
    if s == [] then Err(UnexpectedEnd) else Ok((s[0], s[1..]))
  }

  function TakeUvarint(s: bytes): (r: Result<(nat, bytes), Error>)
    ensures r.Ok? ==> |r.value.1| < |s| && r.value.0 < 0x1_0000_0000_0000_0000
  {
    match ReadUvarint(s)
    case Ok(vr) => Ok(vr)
    case Err(e) => Err(BadVarint(e))
  }

  /** The name a token stands for, the dictionary after it, and the unread bytes. */
  function TakeOwner(d: Dict, s: bytes): (r: Result<(bytes, Dict, bytes), Error>)
    ensures r.Ok? ==> |r.value.2| < |s|
  {
    var (token, s1) :- TakeByte(s);
    if token == TOKEN_QNAME then
      if d.qname == [] then Err(NoQname) else Ok((d.qname, d, s1))
    else if token == TOKEN_PREVIOUS then
      if d.previous == [] then Err(NoPrevious) else Ok((d.previous, d, s1))
    else if token == TOKEN_TABLE then
      var (i, s2) :- TakeUvarint(s1);
      if i >= |d.table| then Err(TableRange) else Ok((d.table[i], d, s2))
    else if token == TOKEN_LITERAL then
      match TakeName(s1) {
        case Err(e) => Err(BadName(e))
        case Ok((w, s2)) => Ok((w, d.(table := d.table + [w]), s2))
      }
    else Err(UnknownToken)
  }

  /** One question: the bytes rebuilt for it, the dictionary, the unread bytes. */
  function TakeQuestion(first: bool, d: Dict, s: bytes): (r: Result<(bytes, Dict, bytes), Error>)
    ensures r.Ok? ==> |r.value.2| < |s|
  {
    var (w, d1, s1) :- TakeOwner(d, s);
    var (qtype, s2) :- TakeUvarint(s1);
    var (qclass, s3) :- TakeUvarint(s2);
    Ok((w + BigEndian16(qtype % 0x1_0000) + BigEndian16(qclass % 0x1_0000),
        if first then d1.(qname := w) else d1, s3))
  }

  function TakeQuestions(first: bool, d: Dict, n: nat, s: bytes): Result<(bytes, Dict, bytes), Error>
    decreases n
  {
    if n == 0 then Ok(([], d, s)) else
      var (w, d1, s1) :- TakeQuestion(first, d, s);
      var (ws, d2, s2) :- TakeQuestions(false, d1, n - 1, s1);
      Ok((w + ws, d2, s2))
  }

  /** What follows the owner of one record: the bytes rebuilt for it and the unread bytes. */
  function TakeTail(s: bytes): (r: Result<(bytes, bytes), Error>)
    ensures r.Ok? ==> |r.value.1| < |s|
  {
    var (rrtype, s1) :- TakeUvarint(s);
    var (rrclass, s2) :- TakeUvarint(s1);
    var (ttl, s3) :- TakeUvarint(s2);
    var (length, s4) :- TakeUvarint(s3);
    if length > |s4| then Err(RdataTooLong) else
      Ok((BigEndian16(rrtype % 0x1_0000) + BigEndian16(rrclass % 0x1_0000) + BigEndian32(ttl % 0x1_0000_0000)
          + BigEndian16(length % 0x1_0000) + s4[..length], s4[length..]))
  }

  function TakeRecord(d: Dict, s: bytes): (r: Result<(bytes, Dict, bytes), Error>)
    ensures r.Ok? ==> |r.value.2| < |s|
  {
    var (w, d1, s1) :- TakeOwner(d, s);
    var (tail, s2) :- TakeTail(s1);
    Ok((w + tail, d1.(previous := w), s2))
  }

  function TakeRecords(d: Dict, n: nat, s: bytes): Result<bytes, Error>
    decreases n
  {
    if n == 0 then Ok([]) else
      var (w, d1, s1) :- TakeRecord(d, s);
      var ws :- TakeRecords(d1, n - 1, s1);
      Ok(w + ws)
  }

  /** The source tests one bit of the flags byte at a time. */
  predicate BitSet(flags: byte, weight: nat)
    requires weight > 0
  {
    flags / weight % 2 == 1
  }

  function UnpackFlags(flags: byte, rcode: uint64): uint16 {
    0x8000 + Bit(BitSet(flags, 1), 0x400) + Bit(BitSet(flags, 2), 0x80) + Bit(BitSet(flags, 4), 0x100)
    + Bit(BitSet(flags, 8), 0x200) + Bit(BitSet(flags, 16), 0x20) + Bit(BitSet(flags, 32), 0x10)
    + rcode % 16
  }

  datatype Header = Header(rcode: uint64, flags: byte, qd: nat, an: nat, ns: nat, ar: nat)

  function TakeHeader(payload: bytes): (r: Result<(Header, bytes), Error>)
    ensures r.Ok? ==> |r.value.1| <= |payload| - 7
  {
    var (magic, s0) :- TakeByte(payload);
    if magic != RESPONSE_MAGIC then Err(BadMagic) else
      var (rcode, s1) :- TakeUvarint(s0);
      var (flags, s2) :- TakeByte(s1);
      var (counts, s3) :- TakeCounts(s2);
      Ok((Header(rcode, flags, counts.0, counts.1, counts.2, counts.3), s3))
  }

  function TakeCounts(s: bytes): (r: Result<((nat, nat, nat, nat), bytes), Error>)
    ensures r.Ok? ==> |r.value.1| <= |s| - 4
  {
    var (qd, s1) :- TakeUvarint(s);
    var (an, s2) :- TakeUvarint(s1);
    var (ns, s3) :- TakeUvarint(s2);
    var (ar, s4) :- TakeUvarint(s3);
    Ok(((qd, an, ns, ar), s4))
  }

  /** The rebuilt plain wire; bytes after the last record are ignored. */
  function Unpack(payload: bytes): Result<bytes, Error> {
    var (h, s) :- TakeHeader(payload);
    var (qs, d, s1) :- TakeQuestions(true, Dict([], [], []), h.qd, s);
    var rs :- TakeRecords(d, h.an + h.ns + h.ar, s1);
    Ok(PlainHeader(UnpackFlags(h.flags, h.rcode), h.qd, h.an, h.ns, h.ar) + qs + rs)
  }
}
