/** Strings as bytes, decoded rune by rune: a byte that begins no well-formed sequence stands for the
    replacement character, by itself. */
module Utf8 {

  type Byte = n: nat | n < 256

  type Rune = n: nat | n < 0x11_0000

  const REPLACEMENT: Rune := 0xFFFD

  predicate Scalar(r: Rune) {
    !(0xD800 <= r < 0xE000)
  }

  predicate Continuation(b: Byte) {
    0x80 <= b < 0xC0
  }

  /** The six bits a continuation byte carries. */
  function Low(b: Byte): (n: nat)
    requires Continuation(b)
    ensures n < 64
  {
    b - 0x80
  }

  /** One decoded rune; ok tells a well-formed sequence from a stray byte. */
  datatype Decoded = Decoded(rune: Rune, width: nat, ok: bool)

  const STRAY := Decoded(REPLACEMENT, 1, false)

  /** The second byte of a longer sequence is bounded so that overlong forms, surrogates and values
      beyond the last code point are not well-formed. */
  predicate SecondOk(b0: Byte, b1: Byte) {
    && Continuation(b1)
    && (b0 == 0xE0 ==> b1 >= 0xA0) && (b0 == 0xED ==> b1 < 0xA0)
    && (b0 == 0xF0 ==> b1 >= 0x90) && (b0 == 0xF4 ==> b1 < 0x90)
  }

  function Two(a: nat, b: nat): nat { a * 64 + b }

  function Three(a: nat, b: nat, c: nat): nat { a * 4096 + b * 64 + c }

  function Four(a: nat, b: nat, c: nat, d: nat): nat { a * 262144 + b * 4096 + c * 64 + d }

  /** How long a sequence its first byte announces; 0 when no sequence begins with it. */
  function Length(b0: Byte): (n: nat)
    ensures n <= 4
  {
    if b0 < 0x80 then 1
    else if 0xC2 <= b0 < 0xE0 then 2
    else if 0xE0 <= b0 < 0xF0 then 3
    else if 0xF0 <= b0 < 0xF5 then 4
    else 0
  }

  predicate TailOk(s: seq<Byte>, n: nat)
    requires 1 <= n <= |s|
  {
    && (n > 1 ==> SecondOk(s[0], s[1])) && (n > 2 ==> Continuation(s[2])) && (n > 3 ==> Continuation(s[3]))
  }

  function Value(s: seq<Byte>): (r: Rune)
    requires |s| > 0 && 1 <= Length(s[0]) <= |s| && TailOk(s, Length(s[0]))
    ensures Scalar(r)
  {
    if s[0] < 0x80 then s[0]
    else if s[0] < 0xE0 then Two(s[0] - 0xC0, Low(s[1]))
    else if s[0] < 0xF0 then Three(s[0] - 0xE0, Low(s[1]), Low(s[2]))
    else Four(s[0] - 0xF0, Low(s[1]), Low(s[2]), Low(s[3]))
  }

  function Decode(s: seq<Byte>): (d: Decoded)
    requires |s| > 0
    ensures 1 <= d.width <= |s| && d.width <= 4 && Scalar(d.rune)
  {
    var n := Length(s[0]);
    if 1 <= n <= |s| && TailOk(s, n) then Decoded(Value(s), n, true) else STRAY
  }

  function Runes(s: seq<Byte>): (r: seq<Rune>) {
    if |s| == 0 then [] else [Decode(s).rune] + Runes(s[Decode(s).width..])
  }

  function RuneCount(s: seq<Byte>): nat {
    |Runes(s)|
  }

  function Encode(r: Rune): (s: seq<Byte>)
    ensures 1 <= |s| <= 4
  {
    if !Scalar(r) then [0xEF, 0xBF, 0xBD]
    else if r < 0x80 then [r]
    else if r < 0x800 then [0xC0 + r / 64, 0x80 + r % 64]
    else if r < 0x1_0000 then [0xE0 + r / 4096, 0x80 + r / 64 % 64, 0x80 + r % 64]
    else [0xF0 + r / 262144, 0x80 + r / 4096 % 64, 0x80 + r / 64 % 64, 0x80 + r % 64]
  }

  function EncodeAll(rs: seq<Rune>): seq<Byte> {
    if |rs| == 0 then [] else Encode(rs[0]) + EncodeAll(rs[1..])
  }

  predicate Valid(s: seq<Byte>) {
    |s| == 0 || (Decode(s).ok && Valid(s[Decode(s).width..]))
  }

  /** k is where decoding begins a rune, or the end. */
  predicate Boundary(s: seq<Byte>, k: nat)
    decreases |s|
  {
    k == 0 || (|s| > 0 && Decode(s).width <= k && Boundary(s[Decode(s).width..], k - Decode(s).width))
  }

  // ---------------------------------------------------------------- round trips

  lemma Digits(r: Rune)
    ensures r == Two(r / 64, r % 64) == Three(r / 4096, r / 64 % 64, r % 64)
    ensures r == Four(r / 262144, r / 4096 % 64, r / 64 % 64, r % 64)
  {
    assert r / 64 == (r / 4096) * 64 + r / 64 % 64;
    assert r / 4096 == (r / 262144) * 64 + r / 4096 % 64;
  }

  /** One rune of each length, and one that cannot be encoded. */
  lemma Encoded()
    ensures Encode(0x41) == [0x41] && Encode(0xE9) == [0xC3, 0xA9] && Encode(0x20AC) == [0xE2, 0x82, 0xAC]
    ensures Encode(0x1F600) == [0xF0, 0x9F, 0x98, 0x80] && Encode(0xD800) == Encode(0xFFFD) == [0xEF, 0xBF, 0xBD]
  {}

  /** An overlong form, a sequence cut short, and a surrogate: each byte is a rune of its own. */
  lemma IllFormed()
    ensures Runes([0xC0, 0x80]) == [0xFFFD, 0xFFFD] && Runes([0xE2, 0x82]) == [0xFFFD, 0xFFFD]
    ensures Runes([0xED, 0xA0, 0x80]) == [0xFFFD, 0xFFFD, 0xFFFD]
  {
    Stray([0xC0, 0x80], [0x80]);
    Stray([0xE2, 0x82], [0x82]);
    Stray([0xED, 0xA0, 0x80], [0xA0, 0x80]);
    Stray([0xA0, 0x80], [0x80]);
    Stray([0x80], []);
    Stray([0x82], []);
  }

  lemma Stray(s: seq<Byte>, rest: seq<Byte>)
    requires |s| > 0 && s == [s[0]] + rest && !Decode(s).ok
    ensures Runes(s) == [0xFFFD] + Runes(rest)
  {
    assert s[1..] == rest;
  }

  lemma Prefix(a: seq<Byte>, b: seq<Byte>)
    ensures |a + b| >= |a| && forall i :: 0 <= i < |a| ==> (a + b)[i] == a[i]
  {}

  lemma DecodeEncode(r: Rune, rest: seq<Byte>)
    requires Scalar(r)
    ensures Decode(Encode(r) + rest) == Decoded(r, |Encode(r)|, true)
  {
    Prefix(Encode(r), rest);
    Digits(r);
    var s := Encode(r) + rest;
    if r < 0x80 {
      assert s[0] == r;
    } else if r < 0x800 {
      assert s[0] == 0xC0 + r / 64 && s[1] == 0x80 + r % 64;
    } else if r < 0x1_0000 {
      assert s[0] == 0xE0 + r / 4096 && s[1] == 0x80 + r / 64 % 64 && s[2] == 0x80 + r % 64;
    } else {
      assert s[0] == 0xF0 + r / 262144 && s[1] == 0x80 + r / 4096 % 64;
      assert s[2] == 0x80 + r / 64 % 64 && s[3] == 0x80 + r % 64;
    }
  }

  lemma EncodeDecode(s: seq<Byte>)
    requires |s| > 0 && Decode(s).ok
    ensures Encode(Decode(s).rune) == s[..Decode(s).width]
  {
    var d := Decode(s);
    if d.width == 2 {
      Split2(s[0] - 0xC0, Low(s[1]));
    } else if d.width == 3 {
      Split3(s[0] - 0xE0, Low(s[1]), Low(s[2]));
    } else if d.width == 4 {
      Split4(s[0] - 0xF0, Low(s[1]), Low(s[2]), Low(s[3]));
    }
  }

  lemma Split2(a: nat, b: nat)
    requires b < 64
    ensures Two(a, b) / 64 == a && Two(a, b) % 64 == b
  {}

  lemma Split3(a: nat, b: nat, c: nat)
    requires b < 64 && c < 64
    ensures var r := Three(a, b, c); r / 4096 == a && r / 64 % 64 == b && r % 64 == c
  {
    Split2(Two(a, b), c);
    Split2(a, b);
    DivTwice(Three(a, b, c));
  }

  lemma Split4(a: nat, b: nat, c: nat, d: nat)
    requires b < 64 && c < 64 && d < 64
    ensures var r := Four(a, b, c, d); r / 262144 == a && r / 4096 % 64 == b && r / 64 % 64 == c && r % 64 == d
  {
    Split2(Three(a, b, c), d);
    Split3(a, b, c);
    DivTwice(Four(a, b, c, d));
  }

  lemma DivTwice(r: nat)
    ensures r / 64 / 64 == r / 4096 && r / 64 / 4096 == r / 262144
  {}

  predicate Scalars(rs: seq<Rune>) {
    forall i :: 0 <= i < |rs| ==> Scalar(rs[i])
  }

  lemma {:induction false} RunesAreScalar(s: seq<Byte>)
    ensures Scalars(Runes(s))
  {
    if |s| > 0 { RunesAreScalar(s[Decode(s).width..]); }
  }

  /** Decoding what was encoded gives the runes back. */
  lemma {:induction false} RunesOfEncoded(rs: seq<Rune>)
    requires Scalars(rs)
    ensures Runes(EncodeAll(rs)) == rs && Valid(EncodeAll(rs))
  {
    if |rs| > 0 {
      var rest := EncodeAll(rs[1..]);
      DecodeEncode(rs[0], rest);
      assert (Encode(rs[0]) + rest)[|Encode(rs[0])|..] == rest;
      RunesOfEncoded(rs[1..]);
    }
  }

  lemma EncodeCons(r: Rune, rs: seq<Rune>)
    ensures EncodeAll([r] + rs) == Encode(r) + EncodeAll(rs)
  {
    assert ([r] + rs)[1..] == rs;
  }

  lemma EncodedFront(s: seq<Byte>, x: Rune, w: nat, rs: seq<Rune>)
    requires w <= |s| && Encode(x) == s[..w] && EncodeAll(rs) == s[w..]
    ensures EncodeAll([x] + rs) == s
  {
    EncodeCons(x, rs);
    assert s == s[..w] + s[w..];
  }

  /** Encoding the runes of valid text gives the text back. */
  lemma {:induction false} EncodedRunes(s: seq<Byte>)
    requires Valid(s)
    ensures EncodeAll(Runes(s)) == s
  {
    if |s| > 0 {
      EncodedRunes(s[Decode(s).width..]);
      EncodeDecode(s);
      EncodedFront(s, Decode(s).rune, Decode(s).width, Runes(s[Decode(s).width..]));
    }
  }

  lemma {:induction false} EncodeConcat(a: seq<Rune>, b: seq<Rune>)
    ensures EncodeAll(a + b) == EncodeAll(a) + EncodeAll(b)
  {
    if |a| == 0 {
      assert a + b == b;
    } else {
      assert (a + b)[1..] == a[1..] + b;
      EncodeConcat(a[1..], b);
    }
  }

  // ---------------------------------------------------------------- cutting at rune boundaries

  /** Decoding looks no further than the rune it returns, well-formed or stray. */
  lemma DecodePrefix(s: seq<Byte>, p: seq<Byte>)
    requires |s| > 0 && p <= s && Decode(s).width <= |p|
    ensures Decode(p) == Decode(s)
  {
    assert forall i :: 0 <= i < |p| ==> p[i] == s[i];
  }

  lemma RunesCons(s: seq<Byte>, d: Decoded, t: seq<Byte>)
    requires |s| > 0 && d == Decode(s) && t == s[d.width..]
    ensures Runes(s) == [d.rune] + Runes(t)
  {}

  lemma CutParts(s: seq<Byte>, w: nat, k: nat)
    requires 0 < w <= k <= |s|
    ensures s[..k][w..] == s[w..][..k - w] && s[w..][k - w..] == s[k..] && s[..k] <= s
  {}

  lemma CutStep(s: seq<Byte>, p: seq<Byte>, d: Decoded, t: seq<Byte>, tp: seq<Byte>, rest: seq<Byte>)
    requires |s| > 0 && d == Decode(s) && p <= s && d.width <= |p| && t == s[d.width..] && tp == p[d.width..]
    requires Runes(t) == Runes(tp) + Runes(rest)
    ensures Runes(s) == Runes(p) + Runes(rest)
  {
    DecodePrefix(s, p);
    RunesCons(s, d, t);
    RunesCons(p, d, tp);
    ConsJoin(d.rune, Runes(t), Runes(tp), Runes(rest));
  }

  lemma ConsJoin(x: Rune, all: seq<Rune>, a: seq<Rune>, b: seq<Rune>)
    requires all == a + b
    ensures [x] + all == [x] + a + b
  {}

  /** Cutting a text at a boundary, valid or not, cuts its runes in two. */
  lemma {:induction false} CutRunes(s: seq<Byte>, k: nat)
    requires Boundary(s, k)
    ensures k <= |s| && Runes(s) == Runes(s[..k]) + Runes(s[k..])
    decreases |s|
  {
    if k == 0 {
      assert s[..0] == [] && s[0..] == s;
    } else {
      var w := Decode(s).width;
      CutRunes(s[w..], k - w);
      CutParts(s, w, k);
      CutStep(s, s[..k], Decode(s), s[w..], s[w..][..k - w], s[k..]);
    }
  }

  lemma {:induction false} CutValid(s: seq<Byte>, k: nat)
    requires Boundary(s, k) && Valid(s)
    ensures k <= |s| && Valid(s[..k])
    decreases |s|
  {
    if k > 0 {
      var w := Decode(s).width;
      CutValid(s[w..], k - w);
      CutParts(s, w, k);
      DecodePrefix(s, s[..k]);
    }
  }

  lemma TakeRunes(a: seq<Rune>, b: seq<Rune>)
    ensures |a| <= |a + b| && (a + b)[..|a|] == a
  {}

  /** The bytes before a boundary of valid text are the encoding of as many of its runes. */
  lemma RunesUpTo(s: seq<Byte>, k: nat)
    requires Boundary(s, k) && Valid(s)
    ensures k <= |s| && RuneCount(s[..k]) <= RuneCount(s)
    ensures EncodeAll(Runes(s)[..RuneCount(s[..k])]) == s[..k]
  {
    CutRunes(s, k);
    CutValid(s, k);
    TakeRunes(Runes(s[..k]), Runes(s[k..]));
    EncodedRunes(s[..k]);
  }

  /** An earlier boundary is a boundary of the text before a later one. */
  lemma {:induction false} BoundaryWithin(s: seq<Byte>, a: nat, b: nat)
    requires Boundary(s, a) && Boundary(s, b) && a <= b
    ensures b <= |s| && Boundary(s[..b], a)
    decreases |s|
  {
    CutRunes(s, b);
    if a > 0 {
      var w := Decode(s).width;
      BoundaryWithin(s[w..], a - w, b - w);
      CutParts(s, w, b);
      DecodePrefix(s, s[..b]);
    }
  }

  lemma CountsOrdered(s: seq<Byte>, a: nat, b: nat)
    requires Boundary(s, a) && Boundary(s, b) && a <= b
    ensures b <= |s| && RuneCount(s[..a]) <= RuneCount(s[..b]) <= RuneCount(s)
  {
    BoundaryWithin(s, a, b);
    CutRunes(s, b);
    CutRunes(s[..b], a);
    assert s[..b][..a] == s[..a];
  }
}
