/** The bit-serial CRC-8 of the frame checksum (polynomial 0x07, initial value 0), the same
    register read as eight bits, and what it computes: a remainder of polynomials over GF(2). */
module Crc8 {

  type Byte = bv8
  type Bits = seq<bool>  // most significant bit first; a polynomial, highest power first

  // ---------------------------------------------------------------- the source's register

  /** One turn of the inner loop: shift left, and reduce when a one falls out. */
  function ShiftStep(c: Byte): Byte {
    if c & 0x80 != 0 then (c << 1) ^ 0x07 else c << 1
  }

  function Shifts(c: Byte, n: nat): Byte {
    if n == 0 then c else ShiftStep(Shifts(c, n - 1))
  }

  function Crc(data: seq<Byte>): Byte {
    if data == [] then 0 else Shifts(Crc(data[..|data| - 1]) ^ data[|data| - 1], 8)
  }

  // ---------------------------------------------------------------- the register as eight bits

  /** The register, b7 the most significant bit. */
  datatype Reg = Reg(b7: bool, b6: bool, b5: bool, b4: bool, b3: bool, b2: bool, b1: bool, b0: bool)
  {
    predicate At(i: nat)
      requires i < 8
    {
      if i == 0 then b7 else if i == 1 then b6 else if i == 2 then b5 else if i == 3 then b4
      else if i == 4 then b3 else if i == 5 then b2 else if i == 6 then b1 else b0
    }
  }

  const EMPTY := Reg(false, false, false, false, false, false, false, false)

  /** Bit i of a byte, counted from the most significant one. */
  predicate Bit(c: Byte, i: nat)
    decreases i
  {
    if i == 0 then c & 0x80 != 0 else Bit(c << 1, i - 1)
  }

  function RegOf(c: Byte): Reg {
    Reg(Bit(c, 0), Bit(c, 1), Bit(c, 2), Bit(c, 3), Bit(c, 4), Bit(c, 5), Bit(c, 6), Bit(c, 7))
  }

  function XorReg(r: Reg, s: Reg): Reg {
    Reg(r.b7 != s.b7, r.b6 != s.b6, r.b5 != s.b5, r.b4 != s.b4,
        r.b3 != s.b3, r.b2 != s.b2, r.b1 != s.b1, r.b0 != s.b0)
  }

  /** Feed one message bit into the register at its high end. */
  function Feed(r: Reg, b: bool): Reg {
    var t := r.b7 != b;
    Reg(r.b6, r.b5, r.b4, r.b3, r.b2, r.b1 != t, r.b0 != t, t)
  }

  function FeedAll(r: Reg, m: Bits): Reg {
    if m == [] then r else Feed(FeedAll(r, m[..|m| - 1]), m[|m| - 1])
  }

  function CrcBits(m: Bits): Reg {
    FeedAll(EMPTY, m)
  }

  function RegBits(r: Reg): (m: Bits)
    ensures |m| == 8 && forall i :: 0 <= i < 8 ==> m[i] == r.At(i)
  {
    seq(8, i requires 0 <= i < 8 => r.At(i))
  }

  function BitsOf(data: seq<Byte>): (m: Bits)
    ensures |m| == 8 * |data|
  {
    if data == [] then [] else BitsOf(data[..|data| - 1]) + RegBits(RegOf(data[|data| - 1]))
  }

  // ---------------------------------------------------------------- bytes and bits agree

  lemma TopBitXor(a: Byte, b: Byte)
    ensures ((a ^ b) & 0x80 != 0) == ((a & 0x80 != 0) != (b & 0x80 != 0))
  {}

  lemma ShiftXor(a: Byte, b: Byte)
    ensures (a ^ b) << 1 == (a << 1) ^ (b << 1)
  {}

  lemma {:induction false} BitXor(a: Byte, b: Byte, i: nat)
    ensures Bit(a ^ b, i) == (Bit(a, i) != Bit(b, i))
    decreases i
  {
    if i == 0 {
      TopBitXor(a, b);
    } else {
      ShiftXor(a, b);
      BitXor(a << 1, b << 1, i - 1);
    }
  }

  lemma RegOfXor(a: Byte, b: Byte)
    ensures RegOf(a ^ b) == XorReg(RegOf(a), RegOf(b))
  {
    BitXor(a, b, 0); BitXor(a, b, 1); BitXor(a, b, 2); BitXor(a, b, 3);
    BitXor(a, b, 4); BitXor(a, b, 5); BitXor(a, b, 6); BitXor(a, b, 7);
  }

  lemma RegOfShift(c: Byte)
    ensures RegOf(c << 1) == Feed(RegOf(c).(b7 := false), false)
  {
    BitMasks(c << 1);
    assert (c << 1) & 0x01 == 0;
  }

  lemma ShiftMask(c: Byte, m: Byte)
    requires m & 0x80 == 0
    ensures ((c << 1) & (m << 1) != 0) == (c & m != 0)
  {}

  lemma BitMasks(c: Byte)
    ensures Bit(c, 7) == (c & 0x01 != 0)
  {
    var c1 := c << 1;
    var c2 := c1 << 1;
    var c3 := c2 << 1;
    var c4 := c3 << 1;
    var c5 := c4 << 1;
    var c6 := c5 << 1;
    ShiftMask(c, 0x01); ShiftMask(c1, 0x02); ShiftMask(c2, 0x04); ShiftMask(c3, 0x08);
    ShiftMask(c4, 0x10); ShiftMask(c5, 0x20); ShiftMask(c6, 0x40);
    assert Bit(c, 7) == Bit(c1, 6) == Bit(c2, 5) == Bit(c3, 4) == Bit(c4, 3) == Bit(c5, 2) == Bit(c6, 1);
  }

  lemma PolyReg()
    ensures RegOf(0x07) == Reg(false, false, false, false, false, true, true, true)
  {
    assert Bit(0x80, 0);
    assert Bit(0xc0, 1) == Bit(0x80, 0) && Bit(0xc0, 0);
    assert Bit(0xe0, 2) == Bit(0xc0, 1) && Bit(0xe0, 1) == Bit(0xc0, 0) && Bit(0xe0, 0);
    assert !Bit(0x70, 0) && !Bit(0x38, 0) && !Bit(0x1c, 0) && !Bit(0x0e, 0) && !Bit(0x07, 0);
    assert Bit(0x07, 1) == Bit(0x0e, 0) && Bit(0x07, 2) == Bit(0x0e, 1) == Bit(0x1c, 0);
    assert Bit(0x07, 3) == Bit(0x0e, 2) == Bit(0x1c, 1) == Bit(0x38, 0);
    assert Bit(0x07, 4) == Bit(0x0e, 3) == Bit(0x1c, 2) == Bit(0x38, 1) == Bit(0x70, 0);
    assert Bit(0x07, 5) == Bit(0x0e, 4) == Bit(0x1c, 3) == Bit(0x38, 2) == Bit(0x70, 1) == Bit(0xe0, 0);
    assert Bit(0x07, 6) == Bit(0x0e, 5) == Bit(0x1c, 4) == Bit(0x38, 3) == Bit(0x70, 2) == Bit(0xe0, 1);
    assert Bit(0x07, 7) == Bit(0x0e, 6) == Bit(0x1c, 5) == Bit(0x38, 4) == Bit(0x70, 3) == Bit(0xe0, 2);
  }

  lemma ShiftStepIsFeed(c: Byte)
    ensures RegOf(ShiftStep(c)) == Feed(RegOf(c), false)
  {
    RegOfShift(c);
    if c & 0x80 != 0 {
      RegOfXor(c << 1, 0x07);
      PolyReg();
    }
  }

  function Idle(r: Reg, n: nat): Reg {
    if n == 0 then r else Feed(Idle(r, n - 1), false)
  }

  lemma {:induction false} ShiftsAreIdle(c: Byte, n: nat)
    ensures RegOf(Shifts(c, n)) == Idle(RegOf(c), n)
  {
    if n > 0 {
      ShiftsAreIdle(c, n - 1);
      ShiftStepIsFeed(Shifts(c, n - 1));
    }
  }

  lemma FeedAllSnoc(r: Reg, m: Bits, b: bool)
    ensures FeedAll(r, m + [b]) == Feed(FeedAll(r, m), b)
  {
    assert (m + [b])[..|m|] == m;
  }

  lemma FeedAllTake(r: Reg, m: Bits, k: nat)
    requires k < |m|
    ensures FeedAll(r, m[..k + 1]) == Feed(FeedAll(r, m[..k]), m[k])
  {
    assert m[..k + 1][..k] == m[..k];
  }

  lemma {:induction false} FeedAllConcat(r: Reg, m: Bits, n: Bits)
    ensures FeedAll(r, m + n) == FeedAll(FeedAll(r, m), n)
  {
    if n == [] {
      assert m + n == m;
    } else {
      var k := |n| - 1;
      FeedAllConcat(r, m, n[..k]);
      FeedAllSnoc(r, m + n[..k], n[k]);
      assert m + n == m + n[..k] + [n[k]];
    }
  }

  function Up(u: Reg): Reg {
    Reg(u.b6, u.b5, u.b4, u.b3, u.b2, u.b1, u.b0, false)
  }

  /** The bits of a byte still waiting once its k highest ones have been fed. */
  function Rest(v: Reg, k: nat): Reg {
    if k == 0 then v else Up(Rest(v, k - 1))
  }

  lemma UpAt(u: Reg, i: nat)
    requires i < 8
    ensures Up(u).At(i) == (i < 7 && u.At(i + 1))
  {}

  lemma {:induction false} RestAt(v: Reg, k: nat, i: nat)
    requires i < 8
    ensures Rest(v, k).At(i) == (i + k < 8 && v.At(i + k))
  {
    if k > 0 {
      UpAt(Rest(v, k - 1), i);
      if i < 7 { RestAt(v, k - 1, i + 1); }
    }
  }

  lemma FeedUp(r: Reg, u: Reg)
    ensures Feed(XorReg(r, u), false) == XorReg(Feed(r, u.At(0)), Up(u))
  {}

  lemma IdleStep(x: Reg, k: nat, p: Reg, u: Reg)
    requires Idle(x, k) == XorReg(p, u)
    ensures Idle(x, k + 1) == XorReg(Feed(p, u.At(0)), Up(u))
  {
    FeedUp(p, u);
  }

  lemma {:induction false} InjectFirst(r: Reg, v: Reg, k: nat)
    requires k <= 8
    ensures Idle(XorReg(r, v), k) == XorReg(FeedAll(r, RegBits(v)[..k]), Rest(v, k))
  {
    var m := RegBits(v);
    if k == 0 {
      assert m[..0] == [];
    } else {
      var p, u := FeedAll(r, m[..k - 1]), Rest(v, k - 1);
      InjectFirst(r, v, k - 1);
      IdleStep(XorReg(r, v), k - 1, p, u);
      RestAt(v, k - 1, 0);
      FeedAllTake(r, m, k - 1);
    }
  }

  lemma RestDone(v: Reg)
    ensures Rest(v, 8) == EMPTY
  {
    RestAt(v, 8, 0); RestAt(v, 8, 1); RestAt(v, 8, 2); RestAt(v, 8, 3);
    RestAt(v, 8, 4); RestAt(v, 8, 5); RestAt(v, 8, 6); RestAt(v, 8, 7);
  }

  lemma XorEmpty(r: Reg)
    ensures XorReg(r, EMPTY) == r
  {}

  lemma TakeAll(m: Bits)
    ensures m[..|m|] == m
  {}

  /** Eight bits fed one at a time act like one byte exclusive-ored in at once. */
  lemma Inject(r: Reg, v: Reg)
    ensures FeedAll(r, RegBits(v)) == Idle(XorReg(r, v), 8)
  {
    InjectFirst(r, v, 8);
    RestDone(v);
    TakeAll(RegBits(v));
    XorEmpty(FeedAll(r, RegBits(v)));
  }

  /** The byte-at-a-time register of the source computes the bit-at-a-time one. */
  lemma {:induction false} CrcIsCrcBits(data: seq<Byte>)
    ensures RegOf(Crc(data)) == CrcBits(BitsOf(data))
  {
    if data != [] {
      var n := |data| - 1;
      var c, v := Crc(data[..n]), data[n];
      CrcIsCrcBits(data[..n]);
      ShiftsAreIdle(c ^ v, 8);
      RegOfXor(c, v);
      Inject(RegOf(c), RegOf(v));
      FeedAllConcat(EMPTY, BitsOf(data[..n]), RegBits(RegOf(v)));
    }
  }

  // ---------------------------------------------------------------- a polynomial remainder

  function Zeros(n: nat): (m: Bits)
    ensures |m| == n && forall i :: 0 <= i < n ==> !m[i]
  {
    seq(n, i => false)
  }

  function XorBits(a: Bits, b: Bits): (m: Bits)
    requires |a| == |b|
    ensures |m| == |a| && forall i :: 0 <= i < |m| ==> m[i] == (a[i] != b[i])
  {
    seq(|a|, i requires 0 <= i < |a| => a[i] != b[i])
  }

  /** x^8 + x^2 + x + 1 */
  function Generator(): (g: Bits)
    ensures |g| == 9 && forall i :: 0 <= i < 9 ==> g[i] == (i == 0 || i >= 6)
  {
    seq(9, i => i == 0 || i >= 6)
  }

  /** Product of polynomials over GF(2), by Horner's rule on the first factor. */
  function Times(p: Bits, g: Bits): (m: Bits)
    requires |g| > 0
    ensures |m| == |p| + |g| - 1
  {
    if p == [] then Zeros(|g| - 1)
    else
      var k := |p| - 1;
      XorBits(Times(p[..k], g) + [false], Zeros(k) + (if p[k] then g else Zeros(|g|)))
  }

  /** x^8 * m == q * generator + r, with r below degree eight. */
  ghost predicate Divides(m: Bits, q: Bits, r: Bits) {
    |q| == |m| && |r| == 8 && m + Zeros(8) == XorBits(Times(q, Generator()), Zeros(|m|) + r)
  }

  lemma DivisionStep(m: Bits, q: Bits, r: Reg, b: bool)
    requires Divides(m, q, RegBits(r))
    ensures Divides(m + [b], q + [r.b7 != b], RegBits(Feed(r, b)))
  {
    var q', r' := q + [r.b7 != b], RegBits(Feed(r, b));
    assert q'[..|q|] == q;
    var lhs, rhs := m + [b] + Zeros(8), XorBits(Times(q', Generator()), Zeros(|m| + 1) + r');
    forall i | 0 <= i < |m| + 9 ensures lhs[i] == rhs[i] {
      if i < |m| + 8 { DividesAt(m, q, RegBits(r), i); }
      if i >= |m| { FeedAt(r, b, i - |m|); }
    }
    assert lhs == rhs;
  }

  lemma DividesAt(m: Bits, q: Bits, r: Bits, i: nat)
    requires Divides(m, q, r)
    requires i < |m| + 8
    ensures Times(q, Generator())[i] == ((m + Zeros(8))[i] != (Zeros(|m|) + r)[i])
  {
    assert (m + Zeros(8))[i] == XorBits(Times(q, Generator()), Zeros(|m|) + r)[i];
  }

  lemma FeedAt(r: Reg, b: bool, i: nat)
    requires i <= 8
    ensures i == 0 ==> (r.At(0) != (r.b7 != b)) == b
    ensures i > 0 ==> Feed(r, b).At(i - 1) == ((i < 8 && r.At(i)) != ((r.b7 != b) && (i == 0 || i >= 6)))
  {}

  lemma {:induction false} CrcIsARemainder(m: Bits) returns (q: Bits)
    ensures Divides(m, q, RegBits(CrcBits(m)))
  {
    if m == [] {
      q := [];
    } else {
      var n := |m| - 1;
      var r := CrcBits(m[..n]);
      var q' := CrcIsARemainder(m[..n]);
      q := q' + [r.b7 != m[n]];
      DivisionStep(m[..n], q', r, m[n]);
      assert m == m[..n] + [m[n]];
    }
  }

  lemma {:induction false} TimesZero(q: Bits)
    requires forall j :: 0 <= j < |q| ==> !q[j]
    ensures Times(q, Generator()) == Zeros(|q| + 8)
  {
    if q != [] { TimesZero(q[..|q| - 1]); }
  }

  /** A nonzero multiple of the generator keeps a one above the last eight places. */
  lemma {:induction false} LeadingOne(q: Bits, i: nat)
    requires i < |q| && q[i] && forall j :: 0 <= j < i ==> !q[j]
    ensures Times(q, Generator())[i]
  {
    var k := |q| - 1;
    if i < k {
      LeadingOne(q[..k], i);
    } else {
      TimesZero(q[..k]);
    }
  }

  lemma {:induction false} TimesLinear(p: Bits, q: Bits)
    requires |p| == |q|
    ensures Times(XorBits(p, q), Generator()) == XorBits(Times(p, Generator()), Times(q, Generator()))
  {
    if p != [] {
      var k := |p| - 1;
      assert XorBits(p, q)[..k] == XorBits(p[..k], q[..k]);
      TimesLinear(p[..k], q[..k]);
    }
  }

  lemma {:induction false} FirstOne(d: Bits, i: nat) returns (first: nat)
    requires i < |d| && d[i]
    ensures first <= i && d[first] && forall j :: 0 <= j < first ==> !d[j]
  {
    if j :| 0 <= j < i && d[j] {
      first := FirstOne(d, j);
    } else {
      first := i;
    }
  }

  /** Only one string of eight bits is a remainder, so the checksum register is exactly the
      remainder of x^8 * m by x^8 + x^2 + x + 1. */
  lemma CrcIsTheRemainder(m: Bits, r: Bits)
    ensures r == RegBits(CrcBits(m)) <==> exists q :: Divides(m, q, r)
  {
    var q' := CrcIsARemainder(m);
    var r' := RegBits(CrcBits(m));
    if q :| Divides(m, q, r) {
      var d, n := XorBits(q, q'), |m|;
      TimesLinear(q, q');
      forall i | 0 <= i < n + 8
        ensures Times(d, Generator())[i] == ((Zeros(n) + r)[i] != (Zeros(n) + r')[i])
      {
        DividesAt(m, q, r, i);
        DividesAt(m, q', r', i);
      }
      if i :| 0 <= i < n && d[i] {
        var first := FirstOne(d, i);
        LeadingOne(d, first);
        assert false;
      }
      TimesZero(d);
      forall i | 0 <= i < 8 ensures r[i] == r'[i] {
        assert !Times(d, Generator())[n + i];
      }
    }
  }

  // ---------------------------------------------------------------- linearity and bursts

  lemma FeedLinear(r: Reg, s: Reg, b: bool, c: bool)
    ensures Feed(XorReg(r, s), b != c) == XorReg(Feed(r, b), Feed(s, c))
  {}

  lemma {:induction false} CrcLinear(m: Bits, n: Bits)
    requires |m| == |n|
    ensures CrcBits(XorBits(m, n)) == XorReg(CrcBits(m), CrcBits(n))
  {
    if m != [] {
      var k := |m| - 1;
      assert XorBits(m, n)[..k] == XorBits(m[..k], n[..k]);
      CrcLinear(m[..k], n[..k]);
      FeedLinear(CrcBits(m[..k]), CrcBits(n[..k]), m[k], n[k]);
    }
  }

  lemma FeedForgetsNothing(r: Reg)
    requires Feed(r, false) == EMPTY
    ensures r == EMPTY
  {}

  lemma {:induction false} IdleForgetsNothing(r: Reg, n: nat)
    requires Idle(r, n) == EMPTY
    ensures r == EMPTY
  {
    if n > 0 {
      FeedForgetsNothing(Idle(r, n - 1));
      IdleForgetsNothing(r, n - 1);
    }
  }

  lemma {:induction false} FeedZeros(r: Reg, n: nat)
    ensures FeedAll(r, Zeros(n)) == Idle(r, n)
  {
    if n > 0 {
      FeedZeros(r, n - 1);
      assert Zeros(n)[..n - 1] == Zeros(n - 1);
    }
  }

  lemma {:induction false} IdleEmpty(n: nat)
    ensures Idle(EMPTY, n) == EMPTY
  {
    if n > 0 { IdleEmpty(n - 1); }
  }

  function PackReg(w: Bits): (v: Reg)
    requires |w| == 8
    ensures RegBits(v) == w
  {
    var v := Reg(w[0], w[1], w[2], w[3], w[4], w[5], w[6], w[7]);
    assert forall i :: 0 <= i < 8 ==> v.At(i) == w[i];
    v
  }

  /** Eight bits, not all zero, leave a nonzero register whatever zeros surround them. */
  lemma PaddedBurst(before: nat, w: Bits, one: nat, after: nat)
    requires one < |w| == 8 && w[one]
    ensures CrcBits(Zeros(before) + w + Zeros(after)) != EMPTY
  {
    FeedAllConcat(EMPTY, Zeros(before) + w, Zeros(after));
    FeedAllConcat(EMPTY, Zeros(before), w);
    FeedZeros(EMPTY, before);
    IdleEmpty(before);
    var v := PackReg(w);
    Inject(EMPTY, v);
    XorEmpty(v);
    assert XorReg(EMPTY, v) == v;
    FeedZeros(Idle(v, 8), after);
    assert v.At(one) == w[one];
    if Idle(Idle(v, 8), after) == EMPTY {
      IdleForgetsNothing(Idle(v, 8), after);
      IdleForgetsNothing(v, 8);
    }
  }

  /** Every one of m lies in the eight places from p on. */
  predicate Burst(m: Bits, p: nat) {
    forall i :: 0 <= i < |m| && m[i] ==> p <= i < p + 8
  }

  /** A nonzero burst within eight consecutive bits never has remainder zero, however long the
      message is and wherever in it the burst starts. */
  lemma BurstDetected(m: Bits, p: nat, one: nat)
    requires |m| >= 8
    requires Burst(m, p)
    requires one < |m| && m[one]
    ensures CrcBits(m) != EMPTY
  {
    var start := if p + 8 <= |m| then p else |m| - 8;
    var w := m[start..start + 8];
    assert m == Zeros(start) + w + Zeros(|m| - start - 8);
    assert w[one - start];
    PaddedBurst(start, w, one - start, |m| - start - 8);
  }

  // ---------------------------------------------------------------- parity

  function Ones(m: Bits): nat {
    if m == [] then 0 else Ones(m[..|m| - 1]) + if m[|m| - 1] then 1 else 0
  }

  predicate Odd(m: Bits) {
    Ones(m) % 2 == 1
  }

  predicate OddReg(r: Reg) {
    ((((((r.b7 != r.b6) != r.b5) != r.b4) != r.b3) != r.b2) != r.b1) != r.b0
  }

  lemma {:induction false} OddXor(a: Bits, b: Bits)
    requires |a| == |b|
    ensures Odd(XorBits(a, b)) == (Odd(a) != Odd(b))
  {
    if a != [] {
      var k := |a| - 1;
      assert XorBits(a, b)[..k] == XorBits(a[..k], b[..k]);
      OddXor(a[..k], b[..k]);
    }
  }

  lemma FeedParity(r: Reg, b: bool)
    ensures OddReg(Feed(r, b)) == (OddReg(r) != b)
  {}

  /** The generator has the factor x + 1, so the checksum carries the parity of the message. */
  lemma {:induction false} CrcParity(m: Bits)
    ensures OddReg(CrcBits(m)) == Odd(m)
  {
    if m != [] {
      CrcParity(m[..|m| - 1]);
      FeedParity(CrcBits(m[..|m| - 1]), m[|m| - 1]);
    }
  }

  lemma OddTake(m: Bits, k: nat)
    requires k < |m|
    ensures Odd(m[..k + 1]) == (Odd(m[..k]) != m[k])
  {
    assert m[..k + 1][..k] == m[..k];
  }

  lemma OddRegIsOdd(r: Reg)
    ensures OddReg(r) == Odd(RegBits(r))
  {
    var m := RegBits(r);
    OddTake(m, 0); OddTake(m, 1); OddTake(m, 2); OddTake(m, 3);
    OddTake(m, 4); OddTake(m, 5); OddTake(m, 6); OddTake(m, 7);
    TakeAll(m);
  }

  lemma {:induction false} OnesConcat(a: Bits, b: Bits)
    ensures Ones(a + b) == Ones(a) + Ones(b)
  {
    if b == [] {
      assert a + b == a;
    } else {
      var k := |b| - 1;
      assert (a + b)[..|a| + k] == a + b[..k];
      OnesConcat(a, b[..k]);
    }
  }

  // ---------------------------------------------------------------- bytes laid out as bits

  lemma {:induction false} BitsAt(data: seq<Byte>, i: nat, j: nat)
    requires i < |data| && j < 8
    ensures BitsOf(data)[8 * i + j] == RegOf(data[i]).At(j)
  {
    var n := |data| - 1;
    if i < n {
      BitsAt(data[..n], i, j);
    } else {
      assert BitsOf(data) == BitsOf(data[..n]) + RegBits(RegOf(data[n]));
    }
  }

  lemma {:induction false} BitsConcat(a: seq<Byte>, b: seq<Byte>)
    ensures BitsOf(a + b) == BitsOf(a) + BitsOf(b)
  {
    if b == [] {
      assert a + b == a;
    } else {
      var k := |b| - 1;
      assert (a + b)[..|a| + k] == a + b[..k];
      BitsConcat(a, b[..k]);
    }
  }

  lemma BitsOne(c: Byte)
    ensures BitsOf([c]) == RegBits(RegOf(c))
  {
    assert [c][..0] == [];
  }

  /** Bytes that differ differ in one of their eight bits. */
  lemma DifferentBit(a: Byte, b: Byte) returns (j: nat)
    requires a != b
    ensures j < 8 && RegOf(a).At(j) != RegOf(b).At(j)
  {
    assert a ^ b != 0;
    j := SomeBit(a ^ b);
    BitXor(a, b, j);
    RegAt(a, j);
    RegAt(b, j);
  }

  lemma RegAt(c: Byte, i: nat)
    requires i < 8
    ensures RegOf(c).At(i) == Bit(c, i)
  {
    if i == 0 {} else if i == 1 {} else if i == 2 {} else if i == 3 {}
    else if i == 4 {} else if i == 5 {} else if i == 6 {}
  }

  lemma SomeBit(c: Byte) returns (k: nat)
    requires c != 0
    ensures k < 8 && Bit(c, k)
  {
    if c & 0x80 != 0 { return 0; }
    var c1 := c << 1;
    if c1 & 0x80 != 0 { assert Bit(c1, 0); return 1; }
    var c2 := c1 << 1;
    if c2 & 0x80 != 0 { assert Bit(c2, 0) && Bit(c1, 1); return 2; }
    var c3 := c2 << 1;
    if c3 & 0x80 != 0 { assert Bit(c3, 0) && Bit(c2, 1) && Bit(c1, 2); return 3; }
    var c4 := c3 << 1;
    if c4 & 0x80 != 0 { assert Bit(c4, 0) && Bit(c3, 1) && Bit(c2, 2) && Bit(c1, 3); return 4; }
    var c5 := c4 << 1;
    if c5 & 0x80 != 0 { assert Bit(c5, 0) && Bit(c4, 1) && Bit(c3, 2) && Bit(c2, 3) && Bit(c1, 4); return 5; }
    var c6 := c5 << 1;
    if c6 & 0x80 != 0 {
      assert Bit(c6, 0) && Bit(c5, 1) && Bit(c4, 2) && Bit(c3, 3) && Bit(c2, 4) && Bit(c1, 5);
      return 6;
    }
    var c7 := c6 << 1;
    assert Bit(c7, 0) && Bit(c6, 1) && Bit(c5, 2) && Bit(c4, 3) && Bit(c3, 4) && Bit(c2, 5) && Bit(c1, 6);
    return 7;
  }
}
