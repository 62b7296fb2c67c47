/** What decoding a packed message gives, and bounds on decoding arbitrary payloads. */
module CompactRoundTrip {
  import opened Bytes
  import opened Uvarint
  import opened WireNames
  import opened CompactSpec

  function Names(qs: seq<Question>): (ws: seq<bytes>)
    ensures |ws| == |qs| && forall i | 0 <= i < |qs| :: ws[i] == qs[i].name
  {
    if qs == [] then [] else [qs[0].name] + Names(qs[1..])
  }

  // ----- when encoder and decoder tables name the same owners

  /**
   * A table reference is safe with at most one question. With more, the decoder's
   * table holds every question name where the encoder's holds only the first.
   */
  predicate ReferenceAgrees(names: seq<bytes>, t: Token, w: bytes) {
    t.Table? ==> |names| <= 1 || (t.index < |names| && names[t.index] == w)
  }

  predicate ReferencesAgree(names: seq<bytes>, d: Dict, rs: seq<Record>)
    decreases |rs|
  {
    rs == [] ||
    (ReferenceAgrees(names, TokenFor(d, rs[0].owner), rs[0].owner)
     && ReferencesAgree(names, AfterRecord(d, rs[0].owner), rs[1..]))
  }

  /** Checkable before packing: only the message is looked at. */
  predicate TableSafe(m: Message) {
    ReferencesAgree(Names(m.questions), EncoderDict(m.questions), m.Records())
  }

  lemma {:induction false} OneQuestionAgrees(names: seq<bytes>, d: Dict, rs: seq<Record>)
    requires |names| <= 1
    ensures ReferencesAgree(names, d, rs)
    decreases |rs|
  {
    if rs != [] {
      OneQuestionAgrees(names, AfterRecord(d, rs[0].owner), rs[1..]);
    }
  }

  // ----- the relation between the two dictionaries

  /** `learned` is what both sides appended after their seeds. */
  ghost predicate InStep(names: seq<bytes>, learned: seq<bytes>, e: Dict, d: Dict) {
    && e.qname == d.qname == (if names == [] then [] else names[0])
    && e.previous == d.previous
    && e.table == (if names == [] then [] else names[..1]) + learned
    && d.table == names + learned
    && Distinct(e.table)
    && (forall w <- d.table :: IsWireName(w))
    && (d.previous != [] ==> IsWireName(d.previous))
  }

  /** The name the decoder reads where the encoder meant `w`. */
  function Resolved(d: Dict, t: Token, w: bytes): bytes
    requires t.Table? ==> t.index < |d.table|
  {
    if t.Table? then d.table[t.index] else w
  }

  lemma TokenRoundTrip(d: Dict, t: Token, w: bytes, rest: bytes)
    requires match t
             case Qname => d.qname == w != []
             case Previous => d.previous == w != []
             case Table(i) => i < |d.table| && i < 0x1_0000_0000_0000_0000
             case Literal => IsWireName(w)
    ensures TakeOwner(d, TokenBytes(t, w) + rest) == Ok((Resolved(d, t, w), Learn(d, t, w), rest))
  {
    hide TakeUvarint, PutUvarint, TakeName, IsWireName;
    var s := TokenBytes(t, w) + rest;
    match t {
      case Qname => assert s[1..] == rest;
      case Previous => assert s[1..] == rest;
      case Literal =>
        assert s[1..] == w + rest;
        TakeWireName(w, rest);
      case Table(i) =>
        assert s[1..] == PutUvarint(i) + rest;
        ReadUvarintBack(i, rest);
    }
  }

  lemma ReadUvarintBack(v: uint64, rest: bytes)
    ensures TakeUvarint(PutUvarint(v) + rest) == Ok((v, rest))
  {
    ReadPut(v, rest);
  }

  lemma OwnerStep(names: seq<bytes>, learned: seq<bytes>, e: Dict, d: Dict, w: bytes, rest: bytes)
    requires InStep(names, learned, e, d) && IsWireName(w)
    requires |e.table| < 0x1_0000_0000_0000_0000
    ensures var t := TokenFor(e, w);
            && (t.Table? ==> t.index < |d.table|)
            && TakeOwner(d, TokenBytes(t, w) + rest) == Ok((Resolved(d, t, w), Learn(d, t, w), rest))
            && IsWireName(Resolved(d, t, w))
            && (Resolved(d, t, w) == w <==> ReferenceAgrees(names, t, w))
  {
    hide TakeOwner, TokenBytes, IsWireName;
    var t := TokenFor(e, w);
    if t.Table? && |names| >= 2 && t.index >= |names| {
      // The decoder's entry is an earlier learned name, and learned names differ.
      assert d.table[t.index] == e.table[t.index - |names| + 1];
    }
    TokenRoundTrip(d, t, w, rest);
  }

  lemma LearnStep(names: seq<bytes>, learned: seq<bytes>, e: Dict, d: Dict, w: bytes)
    returns (learned': seq<bytes>)
    requires InStep(names, learned, e, d) && IsWireName(w)
    ensures InStep(names, learned', AfterRecord(e, w), Learn(d, TokenFor(e, w), w).(previous := w))
  {
    learned' := learned;
    if TokenFor(e, w).Literal? {
      learned' := learned + [w];
      assert AfterRecord(e, w).table == (if names == [] then [] else names[..1]) + learned';
      assert d.table + [w] == names + learned';
    }
  }

  // ----- records

  lemma ReadPutThen(v: uint64, s: bytes, rest: bytes)
    ensures TakeUvarint(PutUvarint(v) + s + rest) == Ok((v, s + rest))
  {
    ReadPut(v, s + rest);
    assert PutUvarint(v) + s + rest == PutUvarint(v) + (s + rest);
  }

  lemma TailRoundTrip(r: Record, rest: bytes)
    requires |r.rdata| < 0x1_0000
    ensures TakeTail(PackTail(r) + rest) == Ok((RecordTail(r), rest))
  {
    hide TakeUvarint, PutUvarint, BigEndian16, BigEndian32;
    var t4 := r.rdata;
    var t3 := PutUvarint(|r.rdata|) + t4;
    var t2 := PutUvarint(r.ttl) + t3;
    var t1 := PutUvarint(r.rrclass) + t2;
    ReadPutThen(r.rrtype, t1, rest);
    ReadPutThen(r.rrclass, t2, rest);
    ReadPutThen(r.ttl, t3, rest);
    ReadPutThen(|r.rdata|, t4, rest);
    var s4 := t4 + rest;
    assert s4[..|r.rdata|] == r.rdata && s4[|r.rdata|..] == rest;
  }

  lemma RecordStep(names: seq<bytes>, learned: seq<bytes>, e: Dict, d: Dict, r: Record, rest: bytes)
    requires InStep(names, learned, e, d) && IsWireName(r.owner) && |r.rdata| < 0x1_0000
    requires |e.table| < 0x1_0000_0000_0000_0000
    ensures var t := TokenFor(e, r.owner);
            && (t.Table? ==> t.index < |d.table|)
            && var w := Resolved(d, t, r.owner);
               TakeRecord(d, PackRecord(e, r) + rest)
               == Ok((w + RecordTail(r), Learn(d, t, r.owner).(previous := w), rest))
  {
    var t := TokenFor(e, r.owner);
    assert PackRecord(e, r) + rest == TokenBytes(t, r.owner) + (PackTail(r) + rest);
    OwnerStep(names, learned, e, d, r.owner, PackTail(r) + rest);
    TailRoundTrip(r, rest);
  }

  /** The decoder rebuilds the plain records exactly when every table reference agrees. */
  lemma {:induction false} RecordsRoundTrip(names: seq<bytes>, learned: seq<bytes>, e: Dict, d: Dict,
                                            rs: seq<Record>)
    requires InStep(names, learned, e, d)
    requires forall r <- rs :: IsWireName(r.owner) && |r.rdata| < 0x1_0000
    requires |e.table| + |rs| < 0x1_0000_0000_0000_0000
    ensures TakeRecords(d, |rs|, PackRecords(e, rs)) == Ok(RecordsWire(rs))
            <==> ReferencesAgree(names, e, rs)
    decreases |rs|
  {
    hide TakeRecord, PackRecord, TokenFor, RecordTail, IsWireName, Resolved, TokenBytes, TakeOwner;
    if rs != [] {
      var r, e' := rs[0], AfterRecord(e, rs[0].owner);
      var t, rest := TokenFor(e, r.owner), PackRecords(e', rs[1..]);
      RecordStep(names, learned, e, d, r, rest);
      OwnerStep(names, learned, e, d, r.owner, []);
      var w := Resolved(d, t, r.owner);
      var d' := Learn(d, t, r.owner).(previous := w);
      var tail := TakeRecords(d', |rs| - 1, rest);
      if ReferenceAgrees(names, t, r.owner) {
        var learned' := LearnStep(names, learned, e, d, r.owner);
        RecordsRoundTrip(names, learned', e', d', rs[1..]);
        if tail.Ok? {
          SameStart(r.owner, RecordTail(r), tail.value, RecordsWire(rs[1..]));
        }
      } else if tail.Ok? {
        OtherStart(w, r.owner, RecordTail(r), tail.value, RecordsWire(rs[1..]));
      }
    }
  }

  lemma SameStart(owner: bytes, tail: bytes, a: bytes, b: bytes)
    ensures owner + tail + a == owner + tail + b <==> a == b
  {
    assert (owner + tail + a)[|owner + tail|..] == a && (owner + tail + b)[|owner + tail|..] == b;
  }

  /** A different wire name was rebuilt, so the rebuilt bytes differ there already. */
  lemma OtherStart(v: bytes, w: bytes, tail: bytes, a: bytes, b: bytes)
    requires IsWireName(v) && IsWireName(w) && v != w
    ensures v + tail + a != w + tail + b
  {
    hide IsWireName;
    assert v + tail + a == v + (tail + a) && w + tail + b == w + (tail + b);
    if v + tail + a == w + tail + b {
      WireNamesPrefixFree(v, w, tail + a, tail + b);
    }
  }

  function LearnNames(d: Dict, first: bool, qs: seq<Question>): Dict {
    Dict(if first && qs != [] then qs[0].name else d.qname, d.previous, d.table + Names(qs))
  }

  lemma QuestionStep(first: bool, d: Dict, q: Question, rest: bytes)
    requires IsWireName(q.name)
    ensures TakeQuestion(first, d, PackQuestion(q) + rest)
            == Ok((QuestionWire(q), LearnNames(d, first, [q]), rest))
  {
    hide TakeUvarint, PutUvarint, BigEndian16, TakeName, NameSpan;
    var t2 := PutUvarint(q.qclass);
    var t1 := PutUvarint(q.qtype) + t2;
    var s := PackQuestion(q) + rest;
    assert s[1..] == q.name + (t1 + rest);
    TakeWireName(q.name, t1 + rest);
    ReadPutThen(q.qtype, t2, rest);
    ReadUvarintBack(q.qclass, rest);
    assert Names([q]) == [q.name];
  }

  lemma {:induction false} QuestionsRoundTrip(first: bool, d: Dict, qs: seq<Question>, rest: bytes)
    requires forall q <- qs :: IsWireName(q.name)
    ensures TakeQuestions(first, d, |qs|, PackQuestions(qs) + rest)
            == Ok((QuestionsWire(qs), LearnNames(d, first, qs), rest))
    decreases |qs|
  {
    hide TakeQuestion, PackQuestion, QuestionWire, LearnNames;
    LearnNamesStep(first, d, qs);
    if qs == [] {
      assert PackQuestions(qs) + rest == rest;
    } else {
      var q, rest0 := qs[0], PackQuestions(qs[1..]) + rest;
      assert PackQuestions(qs) + rest == PackQuestion(q) + rest0;
      QuestionStep(first, d, q, rest0);
      QuestionsRoundTrip(false, LearnNames(d, first, [q]), qs[1..], rest);
    }
  }

  lemma LearnNamesStep(first: bool, d: Dict, qs: seq<Question>)
    ensures qs == [] ==> LearnNames(d, first, qs) == d
    ensures qs != [] ==> LearnNames(LearnNames(d, first, [qs[0]]), false, qs[1..]) == LearnNames(d, first, qs)
  {
    if qs != [] {
      assert d.table + Names([qs[0]]) + Names(qs[1..]) == d.table + Names(qs);
    }
  }

  lemma HeaderRoundTrip(m: Message, rest: bytes)
    requires m.Packable()
    ensures TakeHeader(PackHeader(m) + rest)
            == Ok((Header(m.rcode, PackFlags(m.flags), |m.questions|, |m.answer|, |m.ns|, |m.extra|), rest))
  {
    hide TakeUvarint, PutUvarint, PackCounts, TakeCounts, PackFlags;
    var t3 := PackCounts(m);
    var t2 := [PackFlags(m.flags)] + t3;
    var t1 := PutUvarint(m.rcode) + t2;
    assert (PackHeader(m) + rest)[1..] == t1 + rest;
    ReadPutThen(m.rcode, t2, rest);
    assert (t2 + rest)[1..] == t3 + rest;
    CountsRoundTrip(m, rest);
  }

  lemma CountsRoundTrip(m: Message, rest: bytes)
    requires m.Packable()
    ensures TakeCounts(PackCounts(m) + rest) == Ok(((|m.questions|, |m.answer|, |m.ns|, |m.extra|), rest))
  {
    var t3 := PutUvarint(|m.extra|);
    var t2 := PutUvarint(|m.ns|) + t3;
    ReadPutThen(|m.questions|, PutUvarint(|m.answer|) + t2, rest);
    ReadPutThen(|m.answer|, t2, rest);
    ReadPutThen(|m.ns|, t3, rest);
    ReadPut(|m.extra|, rest);
  }

  /**
   * The flags byte carries six header bits; the word keeps them and the low four rcode bits. It is
   * the word of the header exactly if opcode and Z bit are clear.
   */
  lemma FlagsRoundTrip(f: Flags, rcode: uint64)
    ensures UnpackFlags(PackFlags(f), rcode) == HeaderWord(f.Kept(), rcode)
    ensures HeaderWord(f.Kept(), rcode) == HeaderWord(f, rcode) <==> f.Standard()
  {
    FlagBits(f);
    KeptWord(f, rcode);
    hide PackFlags, BitSet;
  }

  lemma FlagBits(f: Flags)
    ensures var b := PackFlags(f);
            && (BitSet(b, 1) <==> f.authoritative) && (BitSet(b, 2) <==> f.recursionAvailable)
            && (BitSet(b, 4) <==> f.recursionDesired) && (BitSet(b, 8) <==> f.truncated)
            && (BitSet(b, 16) <==> f.authenticatedData) && (BitSet(b, 32) <==> f.checkingDisabled)
  {
    var b5 := Bit(f.checkingDisabled, 1);
    var b4 := Peel(f.authenticatedData, b5);
    var b3 := Peel(f.truncated, b4);
    var b2 := Peel(f.recursionDesired, b3);
    var b1 := Peel(f.recursionAvailable, b2);
    var b0 := Peel(f.authoritative, b1);
    assert PackFlags(f) == b0;
    FlagsQuotients(b0, b1, b2, b3, b4, b5);
    hide PackFlags;
  }

  lemma KeptWord(f: Flags, rcode: uint64)
    ensures HeaderWord(f, rcode) == HeaderWord(f.Kept(), rcode) + f.opcode * 0x800 + Bit(f.zero, 0x40)
  {
  }

  lemma FlagsQuotients(b0: nat, b1: nat, b2: nat, b3: nat, b4: nat, b5: nat)
    requires b0 / 2 == b1 && b1 / 2 == b2 && b2 / 2 == b3 && b3 / 2 == b4 && b4 / 2 == b5
    ensures b0 / 2 == b1 && b0 / 4 == b2 && b0 / 8 == b3 && b0 / 16 == b4 && b0 / 32 == b5
  {
  }

  /** One binary digit below `high`. */
  lemma Peel(bit: bool, high: nat) returns (n: nat)
    ensures n == Bit(bit, 1) + 2 * high && n / 2 == high && (n % 2 == 1 <==> bit)
  {
    n := Bit(bit, 1) + 2 * high;
  }

  /** The decoder's dictionary once the questions have been read: every name is in its table. */
  function DecoderDict(qs: seq<Question>): Dict {
    LearnNames(Dict([], [], []), true, qs)
  }

  function PlainHead(m: Message): bytes {
    PlainHeader(HeaderWord(m.flags, m.rcode), |m.questions|, |m.answer|, |m.ns|, |m.extra|)
    + QuestionsWire(m.questions)
  }

  lemma HeadRoundTrip(m: Message)
    requires m.Packable()
    ensures Unpack(Pack(m))
            == match TakeRecords(DecoderDict(m.questions), |m.Records()|,
                                 PackRecords(EncoderDict(m.questions), m.Records()))
               case Ok(w) => Ok(PlainHead(m.Kept()) + w)
               case Err(e) => Err(e)
  {
    hide TakeHeader, PackHeader, TakeQuestions, PackQuestions, PlainHeader, HeaderWord, UnpackFlags, PackFlags;
    hide TakeRecords, PackRecords, LearnNames, EncoderDict;
    var rs := PackRecords(EncoderDict(m.questions), m.Records());
    assert Pack(m) == PackHeader(m) + (PackQuestions(m.questions) + rs);
    HeaderRoundTrip(m, PackQuestions(m.questions) + rs);
    QuestionsRoundTrip(true, Dict([], [], []), m.questions, rs);
    FlagsRoundTrip(m.flags, m.rcode);
  }

  /**
   * Decoding a packed message rebuilds its plain uncompressed wire, byte for byte, exactly when
   * the message is table-safe and its opcode and Z bit are clear. These apart, when it is table-safe.
   */
  lemma PackedMessageRoundTrip(m: Message)
    requires m.Packable()
    ensures Unpack(Pack(m)) == Ok(PlainWire(m.Kept())) <==> TableSafe(m)
    ensures Unpack(Pack(m)) == Ok(PlainWire(m)) <==> TableSafe(m) && m.flags.Standard()
  {
    hide Unpack, Pack, PlainHead, TakeRecords, PackRecords, ReferencesAgree, IsWireName, RecordsWire;
    var names, rs := Names(m.questions), m.Records();
    var e, d := EncoderDict(m.questions), DecoderDict(m.questions);
    assert d.table == names + [] && e.table == (if names == [] then [] else names[..1]) + [];
    assert InStep(names, [], e, d);
    HeadRoundTrip(m);
    RecordsRoundTrip(names, [], e, d, rs);
    var unpacked := TakeRecords(d, |rs|, PackRecords(e, rs));
    PlainWireSplit(m);
    PlainWireSplit(m.Kept());
    if unpacked.Ok? {
      SameHead(PlainHead(m.Kept()), unpacked.value, RecordsWire(rs));
      OtherHead(m, unpacked.value, RecordsWire(rs));
    }
  }

  lemma SameHead(head: bytes, a: bytes, b: bytes)
    ensures head + a == head + b <==> a == b
  {
    assert (head + a)[|head|..] == a && (head + b)[|head|..] == b;
  }

  /** Clearing opcode and Z bit changes the header unless they were clear. */
  lemma OtherHead(m: Message, a: bytes, b: bytes)
    ensures m.flags.Standard() ==> m.Kept() == m
    ensures !m.flags.Standard() ==> PlainHead(m.Kept()) + a != PlainHead(m) + b
  {
    FlagsRoundTrip(m.flags, m.rcode);
    var x, y := PlainHead(m.Kept()) + a, PlainHead(m) + b;
    HeadAt(m.Kept(), a);
    HeadAt(m, b);
    hide PlainHead, HeaderWord;
    assert x == y ==> x[2] == y[2] && x[3] == y[3];
  }

  lemma HeadAt(m: Message, rest: bytes)
    ensures var x, word := PlainHead(m) + rest, HeaderWord(m.flags, m.rcode);
            |x| >= 4 && x[2] as int == word / 0x100 && x[3] as int == word % 0x100
  {
    hide HeaderWord, QuestionsWire;
  }

  lemma PlainWireSplit(m: Message)
    ensures PlainWire(m) == PlainHead(m) + RecordsWire(m.Records())
  {
  }

  /** With at most one question, as the resolver always answers, nothing but opcode and Z bit is lost. */
  lemma OneQuestionRoundTrip(m: Message)
    requires m.Packable() && |m.questions| <= 1
    ensures Unpack(Pack(m)) == Ok(PlainWire(m.Kept()))
    ensures Unpack(Pack(m)) == Ok(PlainWire(m)) <==> m.flags.Standard()
  {
    OneQuestionAgrees(Names(m.questions), EncoderDict(m.questions), m.Records());
    PackedMessageRoundTrip(m);
  }

  /** For example an empty response to a NOTIFY, opcode 4. */
  lemma OpcodeLost()
    ensures var m := Message(0, Flags(false, false, false, false, false, false, 4, false), [], [], [], []);
            m.Packable() && Unpack(Pack(m)) != Ok(PlainWire(m))
  {
    hide Unpack, Pack, PlainWire;
    OneQuestionRoundTrip(Message(0, Flags(false, false, false, false, false, false, 4, false), [], [], [], []));
  }

  // ----- arbitrary payloads

  predicate NamesWithinLimit(d: Dict) {
    && |d.qname| <= MAX_NAME && |d.previous| <= MAX_NAME
    && forall w <- d.table :: |w| <= MAX_NAME
  }

  lemma OwnerBound(d: Dict, s: bytes)
    requires NamesWithinLimit(d) && TakeOwner(d, s).Ok?
    ensures var (w, d', rest) := TakeOwner(d, s).value;
            |w| <= MAX_NAME && NamesWithinLimit(d') && |rest| < |s|
  {
  }

  lemma QuestionBound(first: bool, d: Dict, s: bytes)
    requires NamesWithinLimit(d) && TakeQuestion(first, d, s).Ok?
    ensures var (w, d', rest) := TakeQuestion(first, d, s).value;
            |w| <= 259 && NamesWithinLimit(d') && |rest| <= |s| - 3
  {
    OwnerBound(d, s);
  }

  lemma TailBound(s: bytes)
    requires TakeTail(s).Ok?
    ensures var (w, rest) := TakeTail(s).value;
            |rest| <= |s| - 4 && |w| <= 10 + (|s| - 4 - |rest|)
  {
  }

  lemma RecordBound(d: Dict, s: bytes)
    requires NamesWithinLimit(d) && TakeRecord(d, s).Ok?
    ensures var (w, d', rest) := TakeRecord(d, s).value;
            |rest| <= |s| - 5 && |w| <= 265 + (|s| - 5 - |rest|) && NamesWithinLimit(d')
  {
    OwnerBound(d, s);
    TailBound(TakeOwner(d, s).value.2);
  }

  lemma {:induction false} QuestionsBound(first: bool, d: Dict, n: nat, s: bytes)
    requires NamesWithinLimit(d) && TakeQuestions(first, d, n, s).Ok?
    ensures var (w, d', rest) := TakeQuestions(first, d, n, s).value;
            && NamesWithinLimit(d')
            && 3 * n + |rest| <= |s|
            && |w| <= 87 * (|s| - |rest|)
    decreases n
  {
    hide TakeQuestion;
    if n > 0 {
      var (w, d1, s1) := TakeQuestion(first, d, s).value;
      QuestionBound(first, d, s);
      QuestionsBound(false, d1, n - 1, s1);
    }
  }

  lemma {:induction false} RecordsBound(d: Dict, n: nat, s: bytes)
    requires NamesWithinLimit(d) && TakeRecords(d, n, s).Ok?
    ensures 5 * n <= |s| && |TakeRecords(d, n, s).value| <= 53 * |s|
    decreases n
  {
    hide TakeRecord;
    if n > 0 {
      var (w, d1, s1) := TakeRecord(d, s).value;
      RecordBound(d, s);
      RecordsBound(d1, n - 1, s1);
    }
  }

  /**
   * Whatever the payload, a successful decode has read every counted entry from it,
   * and rebuilds at most 87 bytes per payload byte after the header.
   */
  lemma UnpackBound(payload: bytes)
    requires Unpack(payload).Ok?
    ensures |Unpack(payload).value| <= 12 + 87 * (|payload| - 7)
    ensures var h := TakeHeader(payload).value.0;
            3 * h.qd + 5 * (h.an + h.ns + h.ar) <= |payload| - 7
  {
    hide TakeHeader, UnpackFlags, TakeQuestions, TakeRecords, PlainHeader;
    var (h, s) := TakeHeader(payload).value;
    QuestionsBound(true, Dict([], [], []), h.qd, s);
    var (qs, d, s1) := TakeQuestions(true, Dict([], [], []), h.qd, s).value;
    RecordsBound(d, h.an + h.ns + h.ar, s1);
  }
}
