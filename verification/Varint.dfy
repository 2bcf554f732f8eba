/** Base 128 varints, and the integers of the wire format as two's complement. */
module Varint {
  import opened Wrappers
  import opened Utf8
  import Decimal

  type Bytes = seq<Byte>

  const TWO32: nat := 0x1_0000_0000
  const TWO64: nat := 0x1_0000_0000_0000_0000
  const MAX_VARINT_BYTES: nat := 10

  datatype WireError = PrematureEof | InvalidVarint | UnsupportedWireType | IllegalTag | InvalidEndGroup

  /** Seven bits a byte, low bits first, the top bit set on all bytes but the last. */
  function Put(n: nat): (s: Bytes)
    ensures |s| > 0
  {
    if n < 128 then [n] else [128 + n % 128] + Put(n / 128)
  }

  /** The value and what follows; at most ten bytes are read. */
  function Get(s: Bytes, read: nat): (r: Result<(nat, Bytes), WireError>)
    requires read <= MAX_VARINT_BYTES
    ensures r.Ok? ==> |r.value.1| < |s|
    decreases MAX_VARINT_BYTES - read
  {
    if read == MAX_VARINT_BYTES then Err(InvalidVarint)
    else if |s| == 0 then Err(PrematureEof)
    else if s[0] < 128 then Ok((s[0], s[1..]))
    else match Get(s[1..], read + 1)
      case Err(e) => Err(e)
      case Ok((high, rest)) => Ok((s[0] - 128 + 128 * high, rest))
  }

  function Pow128(k: nat): nat {
    if k == 0 then 1 else 128 * Pow128(k - 1)
  }

  lemma {:induction false} GetPut(n: nat, tail: Bytes, read: nat)
    requires read < MAX_VARINT_BYTES && n < Pow128(MAX_VARINT_BYTES - read)
    ensures Get(Put(n) + tail, read) == Ok((n, tail))
    decreases n
  {
    var s := Put(n) + tail;
    if n < 128 {
      assert s[1..] == tail;
    } else {
      var low := n % 128;
      assert s[0] == 128 + low && s[1..] == Put(n / 128) + tail;
      GetPut(n / 128, tail, read + 1);
      assert n == low + 128 * (n / 128);
    }
  }

  lemma TenSevens()
    ensures Pow128(MAX_VARINT_BYTES) > TWO64
  {
    assert Pow128(2) == 128 * 128 && Pow128(4) == 128 * 128 * Pow128(2) && Pow128(6) == 128 * 128 * Pow128(4);
    assert Pow128(8) == 128 * 128 * Pow128(6) && Pow128(10) == 128 * 128 * Pow128(8);
  }

  /** Every value of up to 64 bits comes back, and nothing after it is touched. */
  lemma RoundTrip(n: nat, tail: Bytes)
    requires n < TWO64
    ensures Get(Put(n) + tail, 0) == Ok((n, tail))
  {
    TenSevens();
    GetPut(n, tail, 0);
  }

  /** What the bytes say, seven bits each, the low ones first. */
  function Sevens(s: Bytes): nat {
    if |s| == 0 then 0 else s[|s| - 1] % 128 * Pow128(|s| - 1) + Sevens(s[..|s| - 1])
  }

  lemma {:induction false} SevensCons(b: Byte, s: Bytes)
    ensures Sevens([b] + s) == b % 128 + 128 * Sevens(s)
  {
    if |s| == 0 {
      assert [b][..0] == [] && Pow128(0) == 1;
    } else {
      var n := |s| - 1;
      SevensCons(b, s[..n]);
      assert ([b] + s)[..n + 1] == [b] + s[..n];
      ShiftSeven(s[n] % 128, Pow128(n));
    }
  }

  lemma ShiftSeven(d: nat, p: nat)
    ensures d * (128 * p) == 128 * (d * p)
  {}

  /** All bytes but the last have the top bit set. */
  predicate OneNumber(s: Bytes) {
    |s| > 0 && s[|s| - 1] < 128 && forall i :: 0 <= i < |s| - 1 ==> s[i] >= 128
  }

  /** A number is written in as few bytes as spell it. */
  lemma {:induction false} PutSpells(n: nat)
    ensures OneNumber(Put(n)) && Sevens(Put(n)) == n && (|Put(n)| > 1 ==> Put(n)[|Put(n)| - 1] != 0)
  {
    if n < 128 {
      assert [n][..0] == [];
    } else {
      PutSpells(n / 128);
      SevensCons(128 + n % 128, Put(n / 128));
    }
  }

  /** Reading: the first k bytes all go on. A byte after them that does not ends the number, whether or not
      fewer bytes would have done; without one the text is too short, or the number too long. */
  lemma {:induction false} GetReads(s: Bytes, k: nat, read: nat)
    requires read + k <= 10 && k <= |s| && forall i :: 0 <= i < k ==> s[i] >= 128
    ensures read + k == 10 ==> Get(s, read) == Err(InvalidVarint)
    ensures read + k < 10 && k == |s| ==> Get(s, read) == Err(PrematureEof)
    ensures read + k < 10 && k < |s| && s[k] < 128 ==>
              Get(s, read) == Ok((Sevens(s[..k + 1]), s[k + 1..]))
    decreases k
  {
    if k > 0 {
      GetReads(s[1..], k - 1, read + 1);
      if k < |s| {
        assert s[..k + 1] == [s[0]] + s[1..][..k];
        SevensCons(s[0], s[1..][..k]);
      }
    } else if |s| > 0 {
      assert s[..1] == [] + [s[0]] && s[..1][..0] == [] && Pow128(0) == 1;
    }
  }

  // ---------------------------------------------------------------- integers

  predicate Int64(n: int) { -0x8000_0000_0000_0000 <= n < 0x8000_0000_0000_0000 }

  predicate Int32(n: int) { -0x8000_0000 <= n < 0x8000_0000 }

  /** Signed integers are written as 64-bit two's complement, 32-bit ones sign-extended. */
  function Raw(n: int): nat
    requires Int64(n)
  {
    if n < 0 then n + TWO64 else n
  }

  function Uint32(raw: nat): nat { raw % TWO32 }

  function ToInt64(raw: nat): (n: int)
    ensures Int64(n)
  {
    var low := raw % TWO64;
    if low < TWO64 / 2 then low else low - TWO64
  }

  function ToInt32(raw: nat): (n: int)
    ensures Int32(n)
  {
    var low := raw % TWO32;
    if low < TWO32 / 2 then low else low - TWO32
  }

  function ToBool(raw: nat): bool { raw % TWO64 != 0 }

  lemma IntegersComeBack(n: int)
    requires Int64(n)
    ensures Raw(n) < TWO64 && ToInt64(Raw(n)) == n
    ensures Int32(n) ==> ToInt32(Raw(n)) == n
  {}

  /** Whatever number is read, an integer is its remainder modulo the width, within the type. */
  lemma ReadModulo(raw: nat)
    ensures (raw - ToInt64(raw)) % 0x1_0000_0000_0000_0000 == 0
    ensures (raw - ToInt32(raw)) % 0x1_0000_0000 == 0
    ensures (raw - Uint32(raw)) % 0x1_0000_0000 == 0 && 0 <= Uint32(raw) < 0x1_0000_0000
  {}

  /** Reading as 32 bits ignores the upper bits, so that a 64-bit value reads as its remainder. */
  lemma Int32Truncates(n: int)
    requires Int64(n)
    ensures (n - ToInt32(Raw(n))) % TWO32 == 0
  {}

  // ---------------------------------------------------------------- 64-bit integers as decimal strings

  predicate Canonical(s: string) {
    Int64(Decimal.Parse(s)) && Decimal.Format(Decimal.Parse(s)) == s
  }

  /** What is written for a 64-bit integer held as a string. */
  function RawOf(s: string): nat
    requires Canonical(s)
  {
    Raw(Decimal.Parse(s))
  }

  /** What a 64-bit integer is held as once it has been read. */
  function Numeral(raw: nat): string {
    Decimal.Format(ToInt64(raw))
  }

  /** Canonical strings come back, and only canonical ones are ever read. */
  lemma NumeralsComeBack(s: string, raw: nat)
    ensures Canonical(s) ==> RawOf(s) < TWO64 && Numeral(RawOf(s)) == s
    ensures Canonical(Numeral(raw))
  {
    if Canonical(s) { IntegersComeBack(Decimal.Parse(s)); }
    Decimal.ParseFormat(ToInt64(raw));
  }
}
