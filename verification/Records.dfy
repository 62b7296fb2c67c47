/** The server's own records: exact names, a CNAME fallback, and wildcards. */
module Records {
  import opened Bytes
  import opened Text
  import opened CacheModel
  import QueryCodec

  const TYPE_CNAME: nat := 5

  datatype Question = Question(name: bytes, qtype: nat, qclass: nat)

  datatype Wildcard = Wildcard(suffix: bytes, queryType: nat, records: seq<Record>)

  datatype RecordStore = RecordStore(exact: map<bytes, map<nat, seq<Record>>>, wildcards: seq<Wildcard>)

  /** The name a question is looked up under: lower case, with its final dot. */
  function Canonical(name: bytes): bytes { QueryCodec.Fqdn(Lower(name)) }

  function Owned(records: seq<Record>, name: bytes): (r: seq<Record>)
    ensures |r| == |records| && forall i | 0 <= i < |r| :: r[i] == records[i].(owner := name)
  {
    if records == [] then [] else [records[0].(owner := name)] + Owned(records[1..], name)
  }

  function At(types: map<nat, seq<Record>>, qtype: nat): seq<Record> {
    if qtype in types then types[qtype] else []
  }

  predicate Covers(w: Wildcard, fqdn: bytes, qtype: nat) {
    (w.queryType == qtype || w.queryType == TYPE_CNAME) && HasSuffix(fqdn, w.suffix) && w.records != []
  }

  /** The first wildcard that covers the name and has records. */
  function FirstCover(ws: seq<Wildcard>, fqdn: bytes, qtype: nat): Option<Wildcard> {
    if ws == [] then None
    else if Covers(ws[0], fqdn, qtype) then Some(ws[0])
    else FirstCover(ws[1..], fqdn, qtype)
  }

  /** Wildcards are tried in configuration order. */
  lemma {:induction false} FirstCoverWins(ws: seq<Wildcard>, fqdn: bytes, qtype: nat, i: nat)
    requires i < |ws| && Covers(ws[i], fqdn, qtype) && forall j | 0 <= j < i :: !Covers(ws[j], fqdn, qtype)
    ensures FirstCover(ws, fqdn, qtype) == Some(ws[i])
  {
    if i > 0 {
      FirstCoverWins(ws[1..], fqdn, qtype, i - 1);
    }
  }

  lemma {:induction false} NoCover(ws: seq<Wildcard>, fqdn: bytes, qtype: nat)
    ensures FirstCover(ws, fqdn, qtype).None? <==> forall w <- ws :: !Covers(w, fqdn, qtype)
  {
    if ws != [] {
      NoCover(ws[1..], fqdn, qtype);
      assert ws == [ws[0]] + ws[1..];
    }
  }

  /** None when the store does not own the name; an owned name may have no records of the type. */
  function Lookup(s: RecordStore, q: Question): Option<seq<Record>> {
    var fqdn := Canonical(q.name);
    if fqdn in s.exact then
      var types := s.exact[fqdn];
      if At(types, q.qtype) != [] then Some(At(types, q.qtype))
      else Some(At(types, TYPE_CNAME))
    else
      match FirstCover(s.wildcards, fqdn, q.qtype)
      case Some(w) => Some(Owned(w.records, QueryCodec.Fqdn(q.name)))
      case None => None
  }

  /**
   * The store owns a name if it has an exact entry or a wildcard covers it; an exact entry hides
   * every wildcard, and answers with a CNAME when it has no record of the asked type.
   */
  lemma LookupOwnership(s: RecordStore, q: Question)
    ensures var fqdn := Canonical(q.name);
            && (Lookup(s, q).Some? <==>
                  fqdn in s.exact || exists w <- s.wildcards :: Covers(w, fqdn, q.qtype))
            && (fqdn in s.exact ==>
                  forall r <- Lookup(s, q).value :: exists n <- s.exact[fqdn] ::
                    r in s.exact[fqdn][n] && (n == q.qtype || (n == TYPE_CNAME && At(s.exact[fqdn], q.qtype) == [])))
            && (fqdn in s.exact ==>
                  && (forall r <- At(s.exact[fqdn], q.qtype) :: r in Lookup(s, q).value)
                  && (Lookup(s, q).value == [] <==>
                        At(s.exact[fqdn], q.qtype) == [] && At(s.exact[fqdn], TYPE_CNAME) == []))
            && (fqdn !in s.exact && Lookup(s, q).Some? ==>
                  Lookup(s, q).value != [] && forall r <- Lookup(s, q).value :: r.owner == QueryCodec.Fqdn(q.name))
  {
    hide Canonical, QueryCodec.Fqdn, Covers;
    var fqdn := Canonical(q.name);
    NoCover(s.wildcards, fqdn, q.qtype);
    if fqdn !in s.exact && Lookup(s, q).Some? {
      CoverHasRecords(s.wildcards, fqdn, q.qtype);
    }
  }

  lemma {:induction false} CoverHasRecords(ws: seq<Wildcard>, fqdn: bytes, qtype: nat)
    ensures FirstCover(ws, fqdn, qtype).Some? ==> FirstCover(ws, fqdn, qtype).value.records != []
  {
    if ws != [] {
      CoverHasRecords(ws[1..], fqdn, qtype);
    }
  }

  /** The lookup as the source runs it, copying record by record. */
  method LookupRecords(s: RecordStore, q: Question) returns (r: Option<seq<Record>>)
    ensures r == Lookup(s, q)
  {
    var fqdn := Canonical(q.name);
    if fqdn in s.exact {
      var types := s.exact[fqdn];
      if q.qtype in types && |types[q.qtype]| > 0 {
        var copied := CopyRecords(types[q.qtype]);
        return Some(copied);
      }
      if TYPE_CNAME in types && |types[TYPE_CNAME]| > 0 && q.qtype != TYPE_CNAME {
        var copied := CopyRecords(types[TYPE_CNAME]);
        return Some(copied);
      }
      return Some([]);
    }
    for index := 0 to |s.wildcards|
      invariant FirstCover(s.wildcards, fqdn, q.qtype) == FirstCover(s.wildcards[index..], fqdn, q.qtype)
    {
      var w := s.wildcards[index];
      assert s.wildcards[index..][1..] == s.wildcards[index + 1..];
      if w.queryType != q.qtype && w.queryType != TYPE_CNAME {
        continue;
      }
      if HasSuffix(fqdn, w.suffix) || fqdn == w.suffix {
        var result: seq<Record> := [];
        for i := 0 to |w.records|
          invariant result == Owned(w.records, QueryCodec.Fqdn(q.name))[..i]
        {
          result := result + [w.records[i].(owner := QueryCodec.Fqdn(q.name))];
        }
        assert result == Owned(w.records, QueryCodec.Fqdn(q.name));
        if |result| > 0 {
          return Some(result);
        }
      }
    }
    r := None;
  }

  method CopyRecords(records: seq<Record>) returns (copied: seq<Record>)
    ensures copied == records
  {
    copied := [];
    for i := 0 to |records|
      invariant copied == records[..i]
    {
      copied := copied + [records[i]];
    }
  }

  // ----- which names a wildcard answers for

  /** A wildcard is meant for its suffix and what is below it; everything is below the root. */
  predicate Meant(fqdn: bytes, suffix: bytes) {
    suffix == [DOT] || fqdn == suffix || HasSuffix(fqdn, [DOT] + suffix)
  }

  /** A wildcard's suffix is in lower case with its final dot. */
  predicate CanonicalSuffix(suffix: bytes) { Lower(suffix) == suffix && QueryCodec.IsFqdn(suffix) }

  /** Whatever the store: one more letter in front of the suffix, and no dot, still gets the answer. */
  lemma WildcardCrossesLabels(s: RecordStore, w: Wildcard, c: byte, qclass: nat)
    requires w in s.wildcards && w.records != [] && CanonicalSuffix(w.suffix) && w.suffix != [DOT]
    requires LowerByte(c) == c && c != DOT && c != BACKSLASH && [c] + w.suffix !in s.exact
    ensures var answer := Lookup(s, Question([c] + w.suffix, w.queryType, qclass));
            answer.Some? && answer.value != [] && !Meant([c] + w.suffix, w.suffix)
  {
    var name, q := [c] + w.suffix, Question([c] + w.suffix, w.queryType, qclass);
    OneMoreLetter(w.suffix, c);
    assert name[1..] == w.suffix;
    hide Canonical, CanonicalSuffix;
    LookupOwnership(s, q);
    assert Covers(w, name, w.queryType);
  }

  lemma OneMoreLetter(suffix: bytes, c: byte)
    requires CanonicalSuffix(suffix) && LowerByte(c) == c && c != BACKSLASH
    ensures Canonical([c] + suffix) == [c] + suffix
  {
    var name := [c] + suffix;
    var head := suffix[..|suffix| - 1];
    assert name[..|name| - 1] == [c] + head;
    SameBackslashes(c, head);
    assert Lower(name) == name by {
      forall i | 0 <= i < |name| ensures Lower(name)[i] == name[i] {
        assert i > 0 ==> suffix[i - 1] == Lower(suffix)[i - 1];
      }
    }
    hide QueryCodec.TrailingBackslashes;
  }

  lemma {:induction false} SameBackslashes(c: byte, s: bytes)
    requires c != BACKSLASH
    ensures QueryCodec.TrailingBackslashes([c] + s) == QueryCodec.TrailingBackslashes(s)
  {
    if s != [] {
      assert ([c] + s)[..|s|] == [c] + s[..|s| - 1];
      SameBackslashes(c, s[..|s| - 1]);
    } else {
      assert ([c] + s)[..0] == [];
    }
  }

  function OneWildcard(w: Wildcard): RecordStore { RecordStore(map[], [w]) }

  ghost predicate KeepsToItsNames(w: Wildcard) {
    forall q: Question :: Lookup(OneWildcard(w), q).Some? ==> Meant(Canonical(q.name), w.suffix)
  }

  /**
   * A wildcard with records answers for everything it is meant for. It keeps to that exactly if it
   * is the wildcard of the root: any other one also answers for names that merely end like its suffix.
   */
  lemma WildcardOverreaches(w: Wildcard)
    requires CanonicalSuffix(w.suffix) && w.records != []
    ensures forall q: Question | q.qtype == w.queryType && Meant(Canonical(q.name), w.suffix) ::
              Lookup(OneWildcard(w), q).Some?
    ensures KeepsToItsNames(w) <==> w.suffix == [DOT]
  {
    forall q: Question | q.qtype == w.queryType && Meant(Canonical(q.name), w.suffix)
      ensures Lookup(OneWildcard(w), q).Some?
    {
      MeantCovered(q.name, w.suffix);
      LookupOwnership(OneWildcard(w), q);
      assert Covers(w, Canonical(q.name), q.qtype);
    }
    if w.suffix != [DOT] {
      var c: byte := 97;
      WildcardCrossesLabels(OneWildcard(w), w, c, 1);
      OneMoreLetter(w.suffix, c);
      var q := Question([c] + w.suffix, w.queryType, 1);
      assert Lookup(OneWildcard(w), q).Some? && !Meant(Canonical(q.name), w.suffix);
    }
  }

  lemma MeantCovered(name: bytes, suffix: bytes)
    requires Meant(Canonical(name), suffix)
    ensures HasSuffix(Canonical(name), suffix)
  {
    var fqdn := Canonical(name);
    assert QueryCodec.IsFqdn(fqdn) || fqdn[|fqdn| - 1] == DOT;
    if suffix != [DOT] && fqdn != suffix {
      var i := |fqdn| - |suffix|;
      assert fqdn[i..] == fqdn[i - 1..][1..] == suffix;
    } else if suffix == [DOT] {
      assert fqdn[|fqdn| - 1..] == [DOT];
    }
  }
}
