/** The encoder and decoder as the source runs them: buffers, a name table and a previous owner updated in place. */
module CompactCodec {
  import opened Bytes
  import opened Uvarint
  import opened WireNames
  import opened CompactSpec

  // ----- encoder

  /** The dictionary after a section has been written. */
  function DictAfter(d: Dict, rs: seq<Record>): Dict
    decreases |rs|
  {
    if rs == [] then d else DictAfter(AfterRecord(d, rs[0].owner), rs[1..])
  }

  /** Sections written one after the other are one run over all their records. */
  lemma {:induction false} PackSections(d: Dict, a: seq<Record>, b: seq<Record>)
    ensures PackRecords(d, a + b) == PackRecords(d, a) + PackRecords(DictAfter(d, a), b)
    ensures DictAfter(d, a + b) == DictAfter(DictAfter(d, a), b)
    decreases |a|
  {
    hide PackRecord, AfterRecord;
    if a == [] {
      assert a + b == b;
    } else {
      assert (a + b)[1..] == a[1..] + b;
      PackSections(AfterRecord(d, a[0].owner), a[1..], b);
    }
  }

  class Encoder {
    const qname: bytes
    var previousOwner: bytes
    var nameTable: seq<bytes>
    var buffer: bytes

    ghost function State(): Dict
      reads this
    {
      Dict(qname, previousOwner, nameTable)
    }

    constructor (questions: seq<Question>, header: bytes)
      ensures State() == EncoderDict(questions) && buffer == header
    {
      qname := if questions == [] then [] else questions[0].name;
      nameTable := if questions == [] then [] else [questions[0].name];
      previousOwner := [];
      buffer := header;
    }

    method Write(b: bytes)
      modifies this`buffer
      ensures buffer == old(buffer) + b
    {
      buffer := buffer + b;
    }

    /** Refers to a name in the cheapest of the four ways, learning it when it is new. */
    method EncodeName(w: bytes)
      modifies this`buffer, this`nameTable
      ensures buffer == old(buffer) + TokenBytes(TokenFor(old(State()), w), w)
      ensures State() == Learn(old(State()), TokenFor(old(State()), w), w)
    {
      if qname != [] && w == qname {
        buffer := buffer + [TOKEN_QNAME];
        return;
      }
      if previousOwner != [] && w == previousOwner {
        buffer := buffer + [TOKEN_PREVIOUS];
        return;
      }
      for index := 0 to |nameTable|
        invariant forall j | 0 <= j < index :: nameTable[j] != w
        invariant buffer == old(buffer) && nameTable == old(nameTable)
      {
        if nameTable[index] == w {
          FirstIndex(nameTable, w, index);
          Write([TOKEN_TABLE] + PutUvarint(index));
          return;
        }
      }
      Write([TOKEN_LITERAL] + w);
      nameTable := nameTable + [w];
    }

    /** Writes one section; the previous owner and the table carry over to the next. */
    method EncodeSection(section: seq<Record>)
      modifies this
      ensures buffer == old(buffer) + PackRecords(old(State()), section)
      ensures State() == DictAfter(old(State()), section)
    {
      hide PackRecords, DictAfter, Learn, TokenFor, TokenBytes, PackTail;
      PackNone(old(State()));
      assert section[..0] == [];
      for index := 0 to |section|
        invariant buffer == old(buffer) + PackRecords(old(State()), section[..index])
        invariant State() == DictAfter(old(State()), section[..index])
      {
        var r := section[index];
        assert section[..index + 1] == section[..index] + [r];
        PackNext(old(State()), section[..index], r);
        EncodeName(r.owner);
        Write(PackTail(r));
        previousOwner := r.owner;
      }
      assert section[..|section|] == section;
    }
  }

  lemma PackNone(d: Dict)
    ensures PackRecords(d, []) == [] && DictAfter(d, []) == d
  {
  }

  lemma PackNext(d: Dict, rs: seq<Record>, r: Record)
    ensures PackRecords(d, rs + [r]) == PackRecords(d, rs) + PackRecord(DictAfter(d, rs), r)
    ensures DictAfter(d, rs + [r]) == AfterRecord(DictAfter(d, rs), r.owner)
  {
    hide PackRecord, AfterRecord;
    PackSections(d, rs, [r]);
    assert [r][1..] == [];
    var last := PackRecord(DictAfter(d, rs), r);
    assert last + [] == last;
  }

  lemma FirstIndex(table: seq<bytes>, w: bytes, i: nat)
    requires i < |table| && table[i] == w && forall j | 0 <= j < i :: table[j] != w
    ensures IndexOf(table, w) == i
  {
  }

  lemma PackQuestionsAppend(qs: seq<Question>, q: Question)
    ensures PackQuestions(qs + [q]) == PackQuestions(qs) + PackQuestion(q)
  {
    hide PackQuestion;
    if qs == [] {
      assert [q][1..] == [];
    } else {
      PackQuestionsAppend(qs[1..], q);
      assert (qs + [q])[1..] == qs[1..] + [q];
    }
  }

  method PackCompactResponse(m: Message) returns (payload: bytes)
    ensures payload == Pack(m)
  {
    hide PackQuestion, PackHeader, PackRecords, AfterRecord;
    var encoder := new Encoder(m.questions, PackHeader(m));
    for index := 0 to |m.questions|
      invariant encoder.buffer == PackHeader(m) + PackQuestions(m.questions[..index])
      invariant encoder.State() == EncoderDict(m.questions)
      invariant fresh(encoder)
    {
      assert m.questions[..index + 1] == m.questions[..index] + [m.questions[index]];
      PackQuestionsAppend(m.questions[..index], m.questions[index]);
      encoder.Write(PackQuestion(m.questions[index]));
    }
    assert m.questions[..|m.questions|] == m.questions;
    PackSections(EncoderDict(m.questions), m.answer, m.ns);
    PackSections(EncoderDict(m.questions), m.answer + m.ns, m.extra);
    encoder.EncodeSection(m.answer);
    encoder.EncodeSection(m.ns);
    encoder.EncodeSection(m.extra);
    payload := encoder.buffer;
  }

  // ----- decoder

  function Then(prefix: bytes, r: Result<bytes, Error>): Result<bytes, Error> {
    match r
    case Ok(w) => Ok(prefix + w)
    case Err(e) => Err(e)
  }

  class Decoder {
    var unread: bytes
    var qname: bytes
    var previousOwner: bytes
    var nameTable: seq<bytes>
    var wire: bytes

    ghost function State(): Dict
      reads this
    {
      Dict(qname, previousOwner, nameTable)
    }

    constructor (payload: bytes)
      ensures unread == payload && State() == Dict([], [], []) && wire == []
    {
      unread := payload;
      qname, previousOwner, nameTable, wire := [], [], [], [];
    }

    method ReadByte() returns (r: Result<byte, Error>)
      modifies this`unread
      ensures match TakeByte(old(unread))
              case Ok((b, rest)) => r == Ok(b) && unread == rest
              case Err(e) => r == Err(e)
    {
      if unread == [] {
        return Err(UnexpectedEnd);
      }
      r := Ok(unread[0]);
      unread := unread[1..];
    }

    method ReadUvarint() returns (r: Result<nat, Error>)
      modifies this`unread
      ensures match TakeUvarint(old(unread))
              case Ok((v, rest)) => r == Ok(v) && unread == rest
              case Err(e) => r == Err(e)
    {
      var taken :- TakeUvarint(unread);
      unread := taken.1;
      r := Ok(taken.0);
    }

    method ReadHeader() returns (r: Result<Header, Error>)
      modifies this`unread
      ensures match TakeHeader(old(unread))
              case Ok((h, rest)) => r == Ok(h) && unread == rest
              case Err(e) => r == Err(e)
    {
      hide TakeByte, TakeUvarint;
      var magic :- ReadByte();
      if magic != RESPONSE_MAGIC {
        return Err(BadMagic);
      }
      var rcode :- ReadUvarint();
      var flags :- ReadByte();
      var qd :- ReadUvarint();
      var an :- ReadUvarint();
      var ns :- ReadUvarint();
      var ar :- ReadUvarint();
      r := Ok(Header(rcode, flags, qd, an, ns, ar));
    }

    /** Reads labels one by one; the length limit is checked once the terminator has been read. */
    method ReadWireName() returns (r: Result<bytes, NameError>)
      modifies this`unread
      ensures match TakeName(old(unread))
              case Ok((w, rest)) => r == Ok(w) && unread == rest
              case Err(e) => r == Err(e)
    {
      hide NameSpan;
      ghost var s := unread;
      var name: bytes := [];
      while true
        invariant |name| <= |s| && name == s[..|name|] && unread == s[|name|..]
        invariant NameSpan(s) == LongerBy(|name|, NameSpan(unread))
        decreases |unread|
      {
        NameSpanStep(unread);
        if unread == [] {
          return Err(NameEnd);
        }
        var length := unread[0];
        if length == 0 {
          name, unread := name + [length], unread[1..];
          break;
        }
        if length > MAX_LABEL {
          return Err(LabelTooLong);
        }
        if length > |unread| - 1 {
          return Err(LabelOverrun);
        }
        name, unread := name + unread[..1 + length], unread[1 + length..];
      }
      assert name == s[..|name|] && unread == s[|name|..];
      if |name| > MAX_NAME {
        return Err(NameTooLong);
      }
      r := Ok(name);
    }

    method ReadName() returns (r: Result<bytes, Error>)
      modifies this`unread, this`nameTable
      ensures match TakeOwner(old(State()), old(unread))
              case Ok((w, d, rest)) => r == Ok(w) && State() == d && unread == rest
              case Err(e) => r == Err(e)
    {
      var token :- ReadByte();
      if token == TOKEN_QNAME {
        r := if qname == [] then Err(NoQname) else Ok(qname);
      } else if token == TOKEN_PREVIOUS {
        r := if previousOwner == [] then Err(NoPrevious) else Ok(previousOwner);
      } else if token == TOKEN_TABLE {
        var index :- ReadUvarint();
        r := if index >= |nameTable| then Err(TableRange) else Ok(nameTable[index]);
      } else if token == TOKEN_LITERAL {
        var name := ReadWireName();
        if name.Err? {
          return Err(BadName(name.error));
        }
        nameTable := nameTable + [name.value];
        r := Ok(name.value);
      } else {
        r := Err(UnknownToken);
      }
    }

    method ReadQuestion(first: bool) returns (r: Result<(), Error>)
      modifies this
      ensures previousOwner == old(previousOwner)
      ensures match TakeQuestion(first, old(State()), old(unread))
              case Ok((w, d, rest)) => r.Ok? && wire == old(wire) + w && State() == d && unread == rest
              case Err(e) => r == Err(e)
    {
      hide TakeOwner, TakeUvarint, BigEndian16;
      var name :- ReadName();
      if first {
        qname := name;
      }
      var qtype :- ReadUvarint();
      var qclass :- ReadUvarint();
      wire := wire + (name + BigEndian16(qtype % 0x1_0000) + BigEndian16(qclass % 0x1_0000));
      r := Ok(());
    }

    method ReadRecord() returns (r: Result<(), Error>)
      modifies this
      ensures match TakeRecord(old(State()), old(unread))
              case Ok((w, d, rest)) => r.Ok? && wire == old(wire) + w && State() == d && unread == rest
              case Err(e) => r == Err(e)
    {
      hide TakeOwner, TakeUvarint, BigEndian16, BigEndian32;
      var owner :- ReadName();
      previousOwner := owner;
      var rrtype :- ReadUvarint();
      var rrclass :- ReadUvarint();
      var ttl :- ReadUvarint();
      var length :- ReadUvarint();
      if length > |unread| {
        return Err(RdataTooLong);
      }
      var rdata := unread[..length];
      unread := unread[length..];
      wire := wire + (owner + (BigEndian16(rrtype % 0x1_0000) + BigEndian16(rrclass % 0x1_0000)
                               + BigEndian32(ttl % 0x1_0000_0000) + BigEndian16(length % 0x1_0000) + rdata));
      r := Ok(());
    }

    /** However large the count, unread bytes bound the number of rounds. */
    method ReadQuestions(count: nat) returns (r: Result<(), Error>)
      modifies this
      ensures match TakeQuestions(true, old(State()), count, old(unread))
              case Ok((w, d, rest)) => r.Ok? && wire == old(wire) + w && State() == d && unread == rest
              case Err(e) => r == Err(e)
    {
      hide TakeQuestion;
      var index := 0;
      ghost var added: bytes := [];
      ghost var all := TakeQuestions(true, State(), count, unread);
      assert all.Ok? ==> [] + all.value.0 == all.value.0;
      while index < count
        invariant index <= count
        invariant wire == old(wire) + added
        invariant TakeQuestions(true, old(State()), count, old(unread))
                  == match TakeQuestions(index == 0, State(), count - index, unread)
                     case Ok((w, d, rest)) => Ok((added + w, d, rest))
                     case Err(e) => Err(e)
        decreases |unread|
      {
        ghost var step := TakeQuestion(index == 0, State(), unread);
        var _ :- ReadQuestion(index == 0);
        ghost var w := step.value.0;
        ghost var later := TakeQuestions(false, State(), count - index - 1, unread);
        if later.Ok? {
          assert added + w + later.value.0 == added + (w + later.value.0);
        }
        added := added + w;
        index := index + 1;
      }
      r := Ok(());
    }

    /** Reads one section; `later` counts the records of the sections after it. */
    method ReadSection(count: nat, ghost later: nat) returns (r: Result<(), Error>)
      modifies this
      ensures Then(old(wire), TakeRecords(old(State()), count + later, old(unread)))
              == if r.Ok? then Then(wire, TakeRecords(State(), later, unread)) else Err(r.error)
    {
      hide TakeRecord;
      var index := 0;
      while index < count
        invariant index <= count
        invariant Then(old(wire), TakeRecords(old(State()), count + later, old(unread)))
                  == Then(wire, TakeRecords(State(), count - index + later, unread))
        decreases |unread|
      {
        ghost var step, before := TakeRecord(State(), unread), wire;
        var _ :- ReadRecord();
        ghost var rest := TakeRecords(State(), count - index - 1 + later, unread);
        if rest.Ok? {
          assert before + (step.value.0 + rest.value) == wire + rest.value;
        }
        index := index + 1;
      }
      r := Ok(());
    }
  }

  /** Rebuilds the plain wire, or reports the first error, for any payload whatever. */
  method UnpackCompactResponse(payload: bytes) returns (r: Result<bytes, Error>)
    ensures r == Unpack(payload)
  {
    hide TakeHeader, PlainHeader, TakeQuestions, TakeRecords, UnpackFlags;
    var decoder := new Decoder(payload);
    var h :- decoder.ReadHeader();
    decoder.wire := PlainHeader(UnpackFlags(h.flags, h.rcode), h.qd, h.an, h.ns, h.ar);
    var _ :- decoder.ReadQuestions(h.qd);
    var _ :- decoder.ReadSection(h.an, h.ns + h.ar);
    var _ :- decoder.ReadSection(h.ns, h.ar);
    var _ :- decoder.ReadSection(h.ar, 0);
    NoRecords(decoder.State(), decoder.unread);
    assert decoder.wire + [] == decoder.wire;
    r := Ok(decoder.wire);
  }

  lemma NoRecords(d: Dict, s: bytes)
    ensures TakeRecords(d, 0, s) == Ok([])
  {
  }
}
