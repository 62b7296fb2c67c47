/** Which messages with several questions survive the compact codec, in terms of their owner names alone. */
module CompactOwners {
  import opened Bytes
  import opened WireNames
  import opened CompactSpec
  import opened CompactRoundTrip

  function Owners(rs: seq<Record>): (ws: seq<bytes>)
    ensures |ws| == |rs| && forall i | 0 <= i < |rs| :: ws[i] == rs[i].owner
  {
    if rs == [] then [] else [rs[0].owner] + Owners(rs[1..])
  }

  /** The different owners other than the question name, in the order of their first appearance. */
  function NewOwners(qname: bytes, ws: seq<bytes>): seq<bytes> {
    if ws == [] then []
    else
      var before, w := NewOwners(qname, ws[..|ws| - 1]), ws[|ws| - 1];
      if w == qname || w in before then before else before + [w]
  }

  /** The k-th owner was used before, but it is neither the question name nor the previous owner. */
  predicate Returns(qname: bytes, ws: seq<bytes>, k: nat)
    requires k < |ws|
  {
    k > 0 && ws[k] != qname && ws[k] != ws[k - 1] && ws[k] in ws[..k]
  }

  /** The k-th owner is the n-th new owner and happens to be the name of question n, counted from zero. */
  predicate AlsoAsked(names: seq<bytes>, ws: seq<bytes>, k: nat)
    requires names != [] && k < |ws|
  {
    var news := NewOwners(names[0], ws[..k]);
    ws[k] in news && var n := 1 + IndexOf(news, ws[k]); n < |names| && names[n] == ws[k]
  }

  /** With one question always; with more, when every owner that returns is also asked for in its place. */
  predicate ReturnersAsked(names: seq<bytes>, ws: seq<bytes>) {
    |names| <= 1 || forall k | 0 <= k < |ws| && Returns(names[0], ws, k) :: AlsoAsked(names, ws, k)
  }

  /**
   * With one question every message survives whose opcode and Z bit are clear. With more, exactly those do in which no owner
   * returns, except one that stands among the questions where it stands among the new owners.
   */
  lemma SurvivesExactly(m: Message)
    requires m.Packable()
    ensures Unpack(Pack(m)) == Ok(PlainWire(m)) <==>
              ReturnersAsked(Names(m.questions), Owners(m.Records())) && m.flags.Standard()
  {
    hide Unpack, Pack, PlainWire, Returns, AlsoAsked, ReferencesAgree, IsWireName;
    var names, rs := Names(m.questions), m.Records();
    PackedMessageRoundTrip(m);
    if |names| <= 1 {
      OneQuestionAgrees(names, EncoderDict(m.questions), rs);
    } else {
      NonEmptyNames(m);
      assert names[0] in names;
      var ws := Owners(rs);
      assert ws[..0] == [] && rs[0..] == rs && NewOwners(names[0], []) == [];
      AgreeFrom(names, rs, 0, EncoderDict(m.questions));
    }
  }

  lemma NonEmptyNames(m: Message)
    requires m.Packable()
    ensures (forall w <- Names(m.questions) :: w != []) && forall r <- m.Records() :: r.owner != []
  {
    assert !IsWireName([]);
    hide IsWireName;
  }

  lemma {:induction false} NewOwnersMembers(qname: bytes, ws: seq<bytes>, w: bytes)
    ensures w in NewOwners(qname, ws) <==> w in ws && w != qname
  {
    if ws != [] {
      NewOwnersMembers(qname, ws[..|ws| - 1], w);
      assert ws == ws[..|ws| - 1] + [ws[|ws| - 1]];
    }
  }

  /** What the encoder remembers once the first n owners have been written. */
  predicate Remembers(d: Dict, qname: bytes, ws: seq<bytes>, n: nat)
    requires n <= |ws|
  {
    && d.qname == qname
    && d.previous == (if n == 0 then [] else ws[n - 1])
    && d.table == [qname] + NewOwners(qname, ws[..n])
  }

  lemma TokenIs(d: Dict, qname: bytes, ws: seq<bytes>, n: nat)
    requires n < |ws| && Remembers(d, qname, ws, n) && qname != [] && forall w <- ws :: w != []
    ensures var t, news := TokenFor(d, ws[n]), NewOwners(qname, ws[..n]);
            && (t.Table? <==> Returns(qname, ws, n))
            && (t.Table? ==> ws[n] in news && t.index == 1 + IndexOf(news, ws[n]))
            && (t.Literal? <==> ws[n] !in news && ws[n] != qname)
  {
    hide NewOwners, IndexOf;
    var w, news := ws[n], NewOwners(qname, ws[..n]);
    NewOwnersMembers(qname, ws[..n], w);
    assert if n == 0 then ws[..n] == [] else ws[..n][n - 1] == ws[n - 1] && ws[n - 1] in ws;
    assert w in d.table <==> w == qname || w in news;
    if w != qname && w in news {
      IndexInTail(qname, news, w);
    }
  }

  lemma IndexInTail(first: bytes, rest: seq<bytes>, w: bytes)
    requires w != first && w in rest
    ensures IndexOf([first] + rest, w) == 1 + IndexOf(rest, w)
  {
    assert ([first] + rest)[1..] == rest;
  }

  lemma RemembersNext(d: Dict, qname: bytes, ws: seq<bytes>, n: nat)
    requires n < |ws| && Remembers(d, qname, ws, n) && qname != [] && forall w <- ws :: w != []
    ensures Remembers(AfterRecord(d, ws[n]), qname, ws, n + 1)
  {
    TokenIs(d, qname, ws, n);
    assert ws[..n + 1][..n] == ws[..n];
    hide TokenFor, IndexOf, Returns;
  }

  lemma {:induction false} AgreeFrom(names: seq<bytes>, rs: seq<Record>, n: nat, d: Dict)
    requires |names| >= 2 && n <= |rs| && names[0] != [] && forall r <- rs :: r.owner != []
    requires Remembers(d, names[0], Owners(rs), n)
    ensures ReferencesAgree(names, d, rs[n..]) <==>
              forall k | n <= k < |rs| && Returns(names[0], Owners(rs), k) :: AlsoAsked(names, Owners(rs), k)
    decreases |rs| - n
  {
    hide Remembers, AfterRecord, TokenFor, NewOwners, IndexOf, Returns, Owners;
    if n < |rs| {
      var ws := Owners(rs);
      OwnersNonEmpty(rs);
      TokenIs(d, names[0], ws, n);
      RemembersNext(d, names[0], ws, n);
      assert rs[n..][1..] == rs[n + 1..];
      AgreeFrom(names, rs, n + 1, AfterRecord(d, ws[n]));
      assert ReferenceAgrees(names, TokenFor(d, ws[n]), ws[n])
        <==> (Returns(names[0], ws, n) ==> AlsoAsked(names, ws, n));
    }
  }

  lemma OwnersNonEmpty(rs: seq<Record>)
    requires forall r <- rs :: r.owner != []
    ensures |Owners(rs)| == |rs| && (forall i | 0 <= i < |rs| :: Owners(rs)[i] == rs[i].owner)
    ensures forall w <- Owners(rs) :: w != []
  {
  }

  // ----- a message that does not survive

  function NameOf(letter: byte): bytes { [1, letter, 0] }

  /** Two questions a and b, three records owned by x, y and x again. */
  function Returning(a: bytes, b: bytes, x: bytes, y: bytes): Message {
    var address: bytes := [10, 0, 0, 1];
    Message(0, Flags(false, false, false, false, false, false, 0, false), [Question(a, 1, 1), Question(b, 1, 1)],
            [Record(x, 1, 1, 60, address), Record(y, 1, 1, 60, address), Record(x, 1, 1, 60, address)], [], [])
  }

  /** The wrong owner is rebuilt, whichever four names these are. */
  lemma ReturningOwnerLost(a: bytes, b: bytes, x: bytes, y: bytes)
    requires IsWireName(a) && IsWireName(b) && IsWireName(x) && IsWireName(y)
    requires x != a && x != b && x != y && y != a
    ensures var m := Returning(a, b, x, y);
            m.Packable() && Unpack(Pack(m)) != Ok(PlainWire(m))
  {
    hide Unpack, Pack, PlainWire, IsWireName, Owners, NewOwners, IndexOf;
    var m := Returning(a, b, x, y);
    var rs, ws, names := m.Records(), Owners(m.Records()), Names(m.questions);
    assert |rs| == 3 && rs[0].owner == x && rs[1].owner == y && rs[2].owner == x;
    assert ws[..2] == [x, y] && [x, y][0] == x;
    TwoNewOwners(a, x, y);
    assert |names| == 2 && 2 < |ws|;
    assert Returns(names[0], ws, 2) && !AlsoAsked(names, ws, 2);
    assert !ReturnersAsked(names, ws);
    hide ReturnersAsked;
    SurvivesExactly(m);
  }

  lemma TwoNewOwners(a: bytes, x: bytes, y: bytes)
    requires x != a && x != y && y != a
    ensures NewOwners(a, [x, y]) == [x, y] && IndexOf([x, y], x) == 0
  {
    assert [x, y][..1] == [x] && [x][..0] == [];
    assert NewOwners(a, [x]) == [x];
  }

  /** For example, the one-letter names from a to d. */
  lemma TwoQuestionsLoseAnOwner()
    ensures var m := Returning(NameOf(97), NameOf(98), NameOf(99), NameOf(100));
            m.Packable() && Unpack(Pack(m)) != Ok(PlainWire(m))
  {
    hide Unpack, Pack, PlainWire, Returning;
    forall n: byte ensures IsWireName(NameOf(n)) && NameOf(n)[1] == n {
      assert NameOf(n)[2..] == [0];
      assert NameSpan(NameOf(n)[2..]) == Ok(1);
    }
    ReturningOwnerLost(NameOf(97), NameOf(98), NameOf(99), NameOf(100));
  }
}
