/** Unpadded base32 (section 6 of RFC 4648): bytes regrouped into 5-bit digits and back. */
module Base32 {
  import opened Bytes

  type digit = x: int | 0 <= x < 32

  const NEWLINE: byte := 10
  const RETURN: byte := 13

  function Symbol(d: digit): byte { if d < 26 then 65 + d else 24 + d }

  function SymbolValue(c: byte): Option<digit> {
    if 65 <= c <= 90 then Some(c - 65) else if 50 <= c <= 55 then Some(c - 24) else None
  }

  /** The i-th value of a group, zero past its end. */
  function At(s: seq<int>, i: nat): int { if i < |s| then s[i] else 0 }

  /** Up to 5 bytes as 8 digits, missing bytes being zero. */
  function Regroup(b: bytes): (q: seq<digit>)
    requires |b| <= 5
    ensures |q| == 8
  {
    var b0, b1, b2, b3, b4 := At(b, 0), At(b, 1), At(b, 2), At(b, 3), At(b, 4);
    [b0 / 8, b0 % 8 * 4 + b1 / 64, b1 / 2 % 32, b1 % 2 * 16 + b2 / 16,
     b2 % 16 * 2 + b3 / 128, b3 / 4 % 32, b3 % 4 * 8 + b4 / 32, b4 % 32]
  }

  /** Up to 8 digits as 5 bytes; bits shifted out of a byte are dropped. */
  function Ungroup(q: seq<digit>): (b: bytes)
    requires |q| <= 8
    ensures |b| == 5
  {
    var q0, q1, q2, q3 := At(q, 0), At(q, 1), At(q, 2), At(q, 3);
    var q4, q5, q6, q7 := At(q, 4), At(q, 5), At(q, 6), At(q, 7);
    [q0 * 8 + q1 / 4, q1 % 4 * 64 + q2 * 2 + q3 / 16, q3 % 16 * 16 + q4 / 2,
     q4 % 2 * 128 + q5 * 4 + q6 / 8, q6 % 8 * 32 + q7]
  }

  /** Digits written for a last group of n bytes. */
  function DigitCount(n: nat): nat { (8 * n + 4) / 5 }

  /** Bytes written for a last group of n digits; the odd sizes write none. */
  function ByteCount(n: nat): (k: nat)
    ensures k <= 4
  {
    if n == 7 then 4 else if n == 5 then 3 else if n == 4 then 2 else if n == 2 then 1 else 0
  }

  function Digits(b: bytes): seq<digit> {
    if |b| < 5 then Regroup(b)[..DigitCount(|b|)]
    else Regroup(b[..5]) + Digits(b[5..])
  }

  function Undigits(q: seq<digit>): bytes {
    if |q| < 8 then Ungroup(q)[..ByteCount(|q|)]
    else Ungroup(q[..8]) + Undigits(q[8..])
  }

  function Symbols(q: seq<digit>): (t: bytes)
    ensures |t| == |q| && forall i | 0 <= i < |q| :: t[i] == Symbol(q[i])
  {
    if q == [] then [] else [Symbol(q[0])] + Symbols(q[1..])
  }

  function Encode(b: bytes): bytes { Symbols(Digits(b)) }

  function StripNewlines(t: bytes): bytes {
    if t == [] then []
    else (if t[0] == NEWLINE || t[0] == RETURN then [] else [t[0]]) + StripNewlines(t[1..])
  }

  function Values(t: bytes): Option<seq<digit>> {
    if t == [] then Some([])
    else
      match (SymbolValue(t[0]), Values(t[1..]))
      case (Some(d), Some(q)) => Some([d] + q)
      case _ => None
  }

  /** None stands for the corrupt-input error of a byte outside the alphabet. */
  function Decode(t: bytes): Option<bytes> {
    match Values(StripNewlines(t))
    case Some(q) => Some(Undigits(q))
    case None => None
  }

  lemma Halves(x: int, y: int)
    ensures 0 <= y < 2 ==> (x * 2 + y) / 2 == x && (x * 2 + y) % 2 == y
    ensures 0 <= y < 4 ==> (x * 4 + y) / 4 == x && (x * 4 + y) % 4 == y
    ensures 0 <= y < 8 ==> (x * 8 + y) / 8 == x && (x * 8 + y) % 8 == y
    ensures 0 <= y < 16 ==> (x * 16 + y) / 16 == x && (x * 16 + y) % 16 == y
  {
  }

  lemma RegroupIs(b: bytes)
    requires |b| <= 5
    ensures var b0, b1, b2, b3, b4 := At(b, 0), At(b, 1), At(b, 2), At(b, 3), At(b, 4);
            var q := Regroup(b);
            && At(q, 0) == b0 / 8 && At(q, 1) / 4 == b0 % 8 && At(q, 1) % 4 == b1 / 64
            && At(q, 2) == b1 / 2 % 32 && At(q, 3) / 16 == b1 % 2 && At(q, 3) % 16 == b2 / 16
            && At(q, 4) / 2 == b2 % 16 && At(q, 4) % 2 == b3 / 128
            && At(q, 5) == b3 / 4 % 32 && At(q, 6) / 8 == b3 % 4 && At(q, 6) % 8 == b4 / 32 && At(q, 7) == b4 % 32
  {
    var b0, b1, b2, b3, b4 := At(b, 0), At(b, 1), At(b, 2), At(b, 3), At(b, 4);
    Halves(b0 % 8, b1 / 64);
    Halves(b1 % 2, b2 / 16);
    Halves(b2 % 16, b3 / 128);
    Halves(b3 % 4, b4 / 32);
  }

  lemma UngroupIs(q: seq<digit>)
    requires |q| == 8
    ensures var u := Ungroup(q);
            && u[0] == At(q, 0) * 8 + At(q, 1) / 4
            && u[1] == At(q, 1) % 4 * 64 + At(q, 2) * 2 + At(q, 3) / 16
            && u[2] == At(q, 3) % 16 * 16 + At(q, 4) / 2
            && u[3] == At(q, 4) % 2 * 128 + At(q, 5) * 4 + At(q, 6) / 8
            && u[4] == At(q, 6) % 8 * 32 + At(q, 7)
  {
  }

  lemma UngroupRegroup(b: bytes)
    requires |b| <= 5
    ensures forall i | 0 <= i < |b| :: Ungroup(Regroup(b))[i] == b[i]
  {
    RegroupIs(b);
    UngroupIs(Regroup(b));
    SecondByte(At(b, 1));
    FourthByte(At(b, 3));
    hide Regroup, Ungroup;
    forall i | 0 <= i < |b| ensures Ungroup(Regroup(b))[i] == At(b, i) {
    }
  }

  lemma SecondByte(x: int)
    ensures x / 64 * 64 + x / 2 % 32 * 2 + x % 2 == x
  {
    var y, low := x / 2, x % 2;
    var z, middle := y / 32, y % 32;
    assert x == 64 * z + (2 * middle + low);
    assert x / 64 == z;
  }

  lemma FourthByte(x: int)
    ensures x / 128 * 128 + x / 4 % 32 * 4 + x % 4 == x
  {
    var y, low := x / 4, x % 4;
    var z, middle := y / 32, y % 32;
    assert x == 128 * z + (4 * middle + low);
    assert x / 128 == z;
  }

  /** The digits left out of a short last group are zero, so leaving them out changes nothing. */
  lemma LastGroup(b: bytes)
    requires |b| < 5
    ensures var n := DigitCount(|b|);
            n < 8 && ByteCount(n) == |b| && Ungroup(Regroup(b)[..n]) == Ungroup(Regroup(b))
  {
    var q, n := Regroup(b), DigitCount(|b|);
    forall i: nat | i < 8 ensures At(q[..n], i) == At(q, i) {
      assert i >= n ==> q[i] == 0;
    }
  }

  lemma {:induction false} UndigitsDigits(b: bytes)
    ensures Undigits(Digits(b)) == b
  {
    hide Regroup, Ungroup;
    if |b| < 5 {
      LastGroup(b);
      UngroupRegroup(b);
    } else {
      UngroupRegroup(b[..5]);
      UndigitsDigits(b[5..]);
      assert Digits(b)[..8] == Regroup(b[..5]) && Digits(b)[8..] == Digits(b[5..]);
      assert Ungroup(Regroup(b[..5])) == b[..5];
    }
  }

  /** n bytes take ceil(8n/5) characters. */
  lemma {:induction false} EncodeLength(b: bytes)
    ensures |Encode(b)| == (8 * |b| + 4) / 5
  {
    if |b| >= 5 {
      EncodeLength(b[5..]);
    }
  }

  lemma {:induction false} ValuesSymbols(q: seq<digit>)
    ensures Values(Symbols(q)) == Some(q) && StripNewlines(Symbols(q)) == Symbols(q)
  {
    if q != [] {
      ValuesSymbols(q[1..]);
      assert Symbols(q)[1..] == Symbols(q[1..]);
      assert [q[0]] + q[1..] == q;
      assert [Symbol(q[0])] + Symbols(q[1..]) == Symbols(q);
    }
  }

  lemma EncodeDecode(b: bytes)
    ensures Decode(Encode(b)) == Some(b)
  {
    ValuesSymbols(Digits(b));
    UndigitsDigits(b);
  }

  /** The first character is the upper five bits of the first byte. */
  lemma FirstDigit(t: bytes)
    requires t != [] && t[0] != NEWLINE && t[0] != RETURN
    requires Decode(t).Some? && Decode(t).value != []
    ensures SymbolValue(t[0]) == Some(Decode(t).value[0] / 8)
  {
    var stripped := StripNewlines(t);
    assert stripped[0] == t[0];
    var q := Values(stripped).value;
    hide StripNewlines;
    assert q[0] == SymbolValue(t[0]).value;
    assert Undigits(q)[0] == At(q, 0) * 8 + At(q, 1) / 4;
  }
}
