/** Unsigned base-128 varints: binary.PutUvarint and binary.ReadUvarint. */
module Uvarint {
  import opened Bytes

  datatype VarintError = VarintEnd | VarintOverflow

  const MAX_VARINT_LEN: nat := 10

  function Pow128(n: nat): (p: nat)
    ensures p >= 1
  {
    if n == 0 then 1 else 128 * Pow128(n - 1)
  }

  /** The values that still fit in 64 bits when `i` of the ten bytes have been used. */
  function Room(i: nat): nat
    requires i <= 9
  {
    2 * Pow128(9 - i)
  }

  function PutUvarint(v: nat): (b: bytes)
    ensures |b| >= 1
  {
    if v < 128 then [v] else [128 + v % 128] + PutUvarint(v / 128)
  }

  function ReadUvarintFrom(s: bytes, i: nat): (r: Result<(nat, bytes), VarintError>)
    requires i <= MAX_VARINT_LEN
    ensures r.Ok? ==> i < MAX_VARINT_LEN && r.value.0 < Room(i) && |r.value.1| < |s|
    decreases MAX_VARINT_LEN - i
  {
    if i == MAX_VARINT_LEN then Err(VarintOverflow)
    else if s == [] then Err(VarintEnd)
    else if s[0] < 128 then
      if i == 9 && s[0] > 1 then Err(VarintOverflow) else
        assert Room(i) >= 2 && (i < 9 ==> Room(i) >= 128);
        Ok((s[0], s[1..]))
    else
      var (v, rest) :- ReadUvarintFrom(s[1..], i + 1);
      Ok((s[0] - 128 + 128 * v, rest))
  }

  function ReadUvarint(s: bytes): (r: Result<(nat, bytes), VarintError>)
    ensures r.Ok? ==> r.value.0 < 0x1_0000_0000_0000_0000 && |r.value.1| < |s|
  {
    assert Room(0) == 0x1_0000_0000_0000_0000 by { RoomZero(); }
    ReadUvarintFrom(s, 0)
  }

  lemma RoomZero()
    ensures Room(0) == 0x1_0000_0000_0000_0000
  {
    assert Pow128(1) == 128;
    assert Pow128(2) == 0x4000;
    assert Pow128(3) == 0x20_0000;
    assert Pow128(4) == 0x1000_0000;
    assert Pow128(5) == 0x8_0000_0000;
    assert Pow128(6) == 0x400_0000_0000;
    assert Pow128(7) == 0x2_0000_0000_0000;
    assert Pow128(8) == 0x100_0000_0000_0000;
  }

  /** The first byte of a longer varint, and the others. */
  lemma PutSplit(v: nat, rest: bytes)
    ensures var s := PutUvarint(v) + rest;
            if v < 128 then s[0] as int == v && s[1..] == rest
            else s[0] as int == v % 128 + 128 && s[1..] == PutUvarint(v / 128) + rest
  {
  }

  lemma RoomStep(i: nat)
    requires i <= 9
    ensures if i == 9 then Room(i) == 2 else Room(i) == 128 * Room(i + 1)
  {
    assert Pow128(0) == 1;
  }

  lemma {:induction false} ReadPutFrom(v: nat, i: nat, rest: bytes)
    requires i <= 9 && v < Room(i)
    ensures ReadUvarintFrom(PutUvarint(v) + rest, i) == Ok((v, rest))
    decreases v
  {
    hide PutUvarint, Room;
    PutSplit(v, rest);
    RoomStep(i);
    if v >= 128 {
      ReadPutFrom(v / 128, i + 1, rest);
    }
  }

  /** Reading back a written 64-bit value consumes exactly its bytes. */
  lemma ReadPut(v: nat, rest: bytes)
    requires v < 0x1_0000_0000_0000_0000
    ensures ReadUvarint(PutUvarint(v) + rest) == Ok((v, rest))
  {
    RoomZero();
    ReadPutFrom(v, 0, rest);
  }

  /** A value below 128^n takes at most n bytes. */
  lemma {:induction false} PutLength(v: nat, n: nat)
    requires n >= 1 && v < Pow128(n)
    ensures |PutUvarint(v)| <= n
  {
    if v >= 128 {
      assert n > 1 by { assert Pow128(1) == 128; }
      PutLength(v / 128, n - 1);
    }
  }
}
