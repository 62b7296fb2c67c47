/** The parts of Go's strings package that the addresses and names go through, on ASCII bytes. */
module Text {
  import opened Bytes

  const DOT: byte := 46
  const BACKSLASH: byte := 92

  function Ascii(s: string): (b: bytes)
    ensures |b| == |s| && forall i | 0 <= i < |s| :: b[i] == (s[i] as int) % 0x100
  {
    if s == [] then [] else [(s[0] as int) % 0x100] + Ascii(s[1..])
  }

  function LowerByte(c: byte): byte { if 65 <= c <= 90 then c + 32 else c }
  function UpperByte(c: byte): byte { if 97 <= c <= 122 then c - 32 else c }

  function Lower(s: bytes): (t: bytes)
    ensures |t| == |s| && forall i | 0 <= i < |s| :: t[i] == LowerByte(s[i])
  {
    if s == [] then [] else [LowerByte(s[0])] + Lower(s[1..])
  }

  function Upper(s: bytes): (t: bytes)
    ensures |t| == |s| && forall i | 0 <= i < |s| :: t[i] == UpperByte(s[i])
  {
    if s == [] then [] else [UpperByte(s[0])] + Upper(s[1..])
  }

  predicate HasPrefix(s: bytes, p: bytes) { p <= s }

  predicate HasSuffix(s: bytes, p: bytes) { |p| <= |s| && s[|s| - |p|..] == p }

  function TrimSuffix(s: bytes, p: bytes): bytes {
    if HasSuffix(s, p) then s[..|s| - |p|] else s
  }

  function TrimPrefix(s: bytes, p: bytes): bytes {
    if HasPrefix(s, p) then s[|p|..] else s
  }

  /** strings.Split(s, ".") */
  function Split(s: bytes): (parts: seq<bytes>)
    ensures |parts| >= 1
  {
    if s == [] then [[]]
    else
      var parts := Split(s[1..]);
      if s[0] == DOT then [[]] + parts else [[s[0]] + parts[0]] + parts[1..]
  }

  /** strings.Join(parts, ".") */
  function Join(parts: seq<bytes>): bytes {
    if parts == [] then []
    else if |parts| == 1 then parts[0]
    else parts[0] + [DOT] + Join(parts[1..])
  }

  /** strings.ReplaceAll(s, ".", "") */
  function StripDots(s: bytes): (t: bytes)
    ensures DOT !in t && |t| <= |s|
  {
    if s == [] then [] else (if s[0] == DOT then [] else [s[0]]) + StripDots(s[1..])
  }

  predicate DotFree(parts: seq<bytes>) { forall p <- parts :: DOT !in p }

  lemma {:induction false} SplitNoDot(s: bytes)
    requires DOT !in s
    ensures Split(s) == [s]
  {
    if s != [] {
      SplitNoDot(s[1..]);
      assert [s[0]] + s[1..] == s;
    }
  }

  /** The parts of `s` with one more byte in front. */
  function ConsPart(c: byte, parts: seq<bytes>): seq<bytes>
    requires |parts| >= 1
  {
    if c == DOT then [[]] + parts else [[c] + parts[0]] + parts[1..]
  }

  lemma SplitCons(c: byte, s: bytes)
    ensures Split([c] + s) == ConsPart(c, Split(s))
  {
    assert ([c] + s)[1..] == s;
  }

  lemma SplitNone(parts: seq<bytes>)
    requires |parts| >= 1
    ensures Split([]) == [[]] && ConsPart(DOT, parts) == Split([]) + parts
  {
  }

  lemma SplitAtDotStep(c: byte, parts: seq<bytes>, more: seq<bytes>)
    requires |parts| >= 1
    ensures ConsPart(c, parts + more) == ConsPart(c, parts) + more
  {
    assert (parts + more)[1..] == parts[1..] + more;
  }

  /** Splitting at a dot that stands between two parts splits both parts on their own. */
  lemma {:induction false} SplitAtDot(a: bytes, b: bytes)
    ensures Split(a + [DOT] + b) == Split(a) + Split(b)
  {
    hide Split, ConsPart;
    var s := a + [DOT] + b;
    if a == [] {
      assert s == [DOT] + b;
      SplitCons(DOT, b);
      SplitNone(Split(b));
    } else {
      SplitAtDot(a[1..], b);
      SplitCons(a[0], a[1..]);
      SplitCons(a[0], a[1..] + [DOT] + b);
      assert a == [a[0]] + a[1..] && s == [a[0]] + (a[1..] + [DOT] + b);
      SplitAtDotStep(a[0], Split(a[1..]), Split(b));
    }
  }

  lemma {:induction false} JoinSplit(s: bytes)
    ensures Join(Split(s)) == s
  {
    if s != [] {
      JoinSplit(s[1..]);
      var parts := Split(s[1..]);
      if s[0] == DOT {
        assert ([[]] + parts)[1..] == parts;
        assert Join(Split(s)) == [] + [DOT] + Join(parts);
      } else {
        var joined := [[s[0]] + parts[0]] + parts[1..];
        assert joined[1..] == parts[1..];
        assert Join(joined) == [s[0]] + Join(parts);
      }
    }
  }

  /** Joining the parts without a separator leaves exactly the bytes that are not dots. */
  lemma {:induction false} FlattenSplit(s: bytes)
    ensures Flatten(Split(s)) == StripDots(s)
  {
    if s != [] {
      FlattenSplit(s[1..]);
      var parts := Split(s[1..]);
      if s[0] == DOT {
        assert ([[]] + parts)[1..] == parts;
      } else {
        var joined := [[s[0]] + parts[0]] + parts[1..];
        assert joined[1..] == parts[1..];
      }
    }
  }

  lemma {:induction false} StripDotsNone(s: bytes)
    requires DOT !in s
    ensures StripDots(s) == s
  {
    if s != [] { StripDotsNone(s[1..]); }
  }

  lemma {:induction false} StripDotsAppend(a: bytes, b: bytes)
    ensures StripDots(a + b) == StripDots(a) + StripDots(b)
  {
    if a == [] {
      assert a + b == b;
    } else {
      assert (a + b)[1..] == a[1..] + b;
      StripDotsAppend(a[1..], b);
    }
  }

  lemma {:induction false} JoinSnoc(parts: seq<bytes>, last: bytes)
    requires parts != []
    ensures Join(parts + [last]) == Join(parts) + [DOT] + last
  {
    if |parts| == 1 {
      assert (parts + [last])[1..] == [last];
    } else {
      assert (parts + [last])[1..] == parts[1..] + [last];
      JoinSnoc(parts[1..], last);
    }
  }

  /** `strings.IndexByte(s, '.')`, with |s| for "not there". */
  function DotIndex(s: bytes): (i: nat)
    ensures i <= |s| && DOT !in s[..i] && (i < |s| ==> s[i] == DOT)
  {
    if s == [] || s[0] == DOT then 0 else
      var i := 1 + DotIndex(s[1..]);
      assert s[..i] == [s[0]] + s[1..][..i - 1];
      i
  }

  lemma {:induction false} DotIndexAfter(a: bytes, b: bytes)
    requires DOT !in a
    ensures DotIndex(a + [DOT] + b) == |a|
  {
    if a != [] {
      assert (a + [DOT] + b)[1..] == a[1..] + [DOT] + b;
      DotIndexAfter(a[1..], b);
    }
  }
}
