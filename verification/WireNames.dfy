/** Domain names in wire form: length-prefixed labels and a zero terminator. */
module WireNames {
  import opened Bytes

  datatype NameError = NameEnd | LabelTooLong | LabelOverrun | NameTooLong

  const MAX_LABEL: nat := 63
  const MAX_NAME: nat := 255

  /** Number of bytes of the name at the start of `s`, terminator included. */
  function NameSpan(s: bytes): (r: Result<nat, NameError>)
    ensures r.Ok? ==> 1 <= r.value <= |s|
  {
    if s == [] then Err(NameEnd)
    else if s[0] == 0 then Ok(1)
    else if s[0] > MAX_LABEL then Err(LabelTooLong)
    else if s[0] > |s| - 1 then Err(LabelOverrun)
    else
      var n :- NameSpan(s[1 + s[0]..]);
      Ok(1 + s[0] + n)
  }

  /** The name at the start of `s` and the bytes after it; the 255-byte limit comes last. */
  function TakeName(s: bytes): (r: Result<(bytes, bytes), NameError>)
    ensures r.Ok? ==> r.value.0 + r.value.1 == s && 1 <= |r.value.0| <= MAX_NAME
  {
    var n :- NameSpan(s);
    if n > MAX_NAME then Err(NameTooLong) else Ok((s[..n], s[n..]))
  }

  function LongerBy(k: nat, r: Result<nat, NameError>): Result<nat, NameError> {
    match r
    case Ok(n) => Ok(k + n)
    case Err(e) => Err(e)
  }

  /** One label of a name, as the reading loop takes it. */
  lemma NameSpanStep(s: bytes)
    ensures NameSpan(s) == if s == [] then Err(NameEnd)
                           else if s[0] == 0 then Ok(1)
                           else if s[0] > MAX_LABEL then Err(LabelTooLong)
                           else if s[0] > |s| - 1 then Err(LabelOverrun)
                           else LongerBy(1 + s[0], NameSpan(s[1 + s[0]..]))
  {
  }

  predicate IsWireName(w: bytes) {
    NameSpan(w) == Ok(|w|) && |w| <= MAX_NAME
  }

  lemma {:induction false} NameSpanExtends(w: bytes, rest: bytes)
    requires NameSpan(w).Ok?
    ensures NameSpan(w + rest) == NameSpan(w)
  {
    if w[0] != 0 {
      NameSpanExtends(w[1 + w[0]..], rest);
      assert (w + rest)[1 + w[0]..] == w[1 + w[0]..] + rest;
    }
  }

  lemma {:induction false} NameSpanCut(s: bytes)
    requires NameSpan(s).Ok?
    ensures NameSpan(s[..NameSpan(s).value]) == NameSpan(s)
  {
    if s[0] != 0 {
      var k := 1 + s[0];
      NameSpanCut(s[k..]);
      assert s[..NameSpan(s).value][k..] == s[k..][..NameSpan(s[k..]).value];
    }
  }

  /** A wire name is read back whole, whatever follows it. */
  lemma TakeWireName(w: bytes, rest: bytes)
    requires IsWireName(w)
    ensures TakeName(w + rest) == Ok((w, rest))
  {
    NameSpanExtends(w, rest);
    assert (w + rest)[..|w|] == w && (w + rest)[|w|..] == rest;
  }

  /** What TakeName returns is a wire name. */
  lemma TakenIsWireName(s: bytes)
    requires TakeName(s).Ok?
    ensures IsWireName(TakeName(s).value.0)
  {
    NameSpanCut(s);
  }

  /** No wire name is a proper prefix of another. */
  lemma WireNamesPrefixFree(v: bytes, w: bytes, x: bytes, y: bytes)
    requires IsWireName(v) && IsWireName(w) && v + x == w + y
    ensures v == w && x == y
  {
    TakeWireName(v, x);
    TakeWireName(w, y);
  }
}
