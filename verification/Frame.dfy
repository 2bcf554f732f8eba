/** The binary frame codec: a sixteen-byte header, a checksum over the whole packet, a body. */
module Frame {
  import opened Wrappers
  import opened Crc8

  const CODEC_PROTOBUF: Byte := 0x62
  const MAGIC: Byte := 0x4d
  const CODEC_VERSION: Byte := 1
  const HEADER_SIZE := 16
  const MAX_PACKET_SIZE := 0xffff
  const MAX_BODY_SIZE := MAX_PACKET_SIZE - HEADER_SIZE
  const CHECKSUM_OFFSET := 3

  type U16 = n: nat | n < 0x1_0000
  type U64 = n: nat | n < 0x1_0000_0000_0000_0000

  datatype Endian = Big | Little

  datatype Frame = Frame(codec: Byte, endian: Endian, requestId: U64, typeId: U16, body: seq<Byte>)

  datatype FrameError =
    | InvalidCodec | InvalidType | PacketTooLarge
    | TooShort | BadMagic | BadReserved | BadVersion | BadCodecReserved
    | BodyTooLarge | SizeMismatch | BadChecksum

  // ---------------------------------------------------------------- unsigned integers as bytes

  function Pow256(k: nat): nat {
    if k == 0 then 1 else 256 * Pow256(k - 1)
  }

  function PutBig(n: nat, k: nat): (s: seq<Byte>)
    ensures |s| == k
  {
    if k == 0 then [] else PutBig(n / 256, k - 1) + [(n % 256) as Byte]
  }

  function GetBig(s: seq<Byte>): nat {
    if s == [] then 0 else 256 * GetBig(s[..|s| - 1]) + s[|s| - 1] as nat
  }

  function Reverse(s: seq<Byte>): (r: seq<Byte>)
    ensures |r| == |s| && forall i :: 0 <= i < |s| ==> r[i] == s[|s| - 1 - i]
  {
    seq(|s|, i requires 0 <= i < |s| => s[|s| - 1 - i])
  }

  function Put(e: Endian, n: nat, k: nat): (s: seq<Byte>)
    ensures |s| == k
  {
    if e.Big? then PutBig(n, k) else Reverse(PutBig(n, k))
  }

  function Get(e: Endian, s: seq<Byte>): nat {
    if e.Big? then GetBig(s) else GetBig(Reverse(s))
  }

  lemma {:induction false} ByteOfNat(n: nat)
    requires n < 256
    ensures (n as Byte) as nat == n
  {
    if n > 0 {
      ByteOfNat(n - 1);
      var c := (n - 1) as Byte;
      assert (c + 1) as nat == n;
      assert ((c + 1) as nat) as Byte == c + 1;
    }
  }

  lemma NatOfByte(b: Byte)
    ensures 0 <= b as nat < 256 && (b as nat) as Byte == b
  {}

  lemma {:induction false} GetPutBig(n: nat, k: nat)
    requires n < Pow256(k)
    ensures GetBig(PutBig(n, k)) == n
  {
    if k > 0 {
      GetPutBig(n / 256, k - 1);
      ByteOfNat(n % 256);
    }
  }

  lemma DivMod256(high: nat, low: nat)
    requires low < 256
    ensures (256 * high + low) / 256 == high && (256 * high + low) % 256 == low
  {}

  lemma {:induction false} PutGetBig(s: seq<Byte>)
    ensures GetBig(s) < Pow256(|s|)
    ensures PutBig(GetBig(s), |s|) == s
  {
    if s != [] {
      var last := |s| - 1;
      PutGetBig(s[..last]);
      assert s == s[..last] + [s[last]];
      GetSnoc(s[..last], s[last]);
      NatOfByte(s[last]);
      PutGetSnoc(s[..last], s[last], GetBig(s));
    }
  }

  lemma GetSnoc(s: seq<Byte>, b: Byte)
    ensures GetBig(s + [b]) == 256 * GetBig(s) + b as nat
  {
    assert (s + [b])[..|s|] == s;
  }

  lemma PutSnoc(n: nat, k: nat, b: Byte)
    requires n % 256 == b as nat
    ensures PutBig(n, k + 1) == PutBig(n / 256, k) + [b]
  {
    NatOfByte(b);
  }

  lemma PutGetSnoc(s: seq<Byte>, b: Byte, n: nat)
    requires n == GetBig(s + [b]) && PutBig(GetBig(s), |s|) == s
    ensures PutBig(n, |s| + 1) == s + [b]
  {
    GetSnoc(s, b);
    NatOfByte(b);
    DivMod256(GetBig(s), b as nat);
    PutSnoc(n, |s|, b);
  }

  lemma GetPut(e: Endian, n: nat, k: nat)
    requires n < Pow256(k)
    ensures Get(e, Put(e, n, k)) == n
  {
    GetPutBig(n, k);
    assert Reverse(Reverse(PutBig(n, k))) == PutBig(n, k);
  }

  lemma PutGet(e: Endian, s: seq<Byte>)
    ensures Get(e, s) < Pow256(|s|)
    ensures Put(e, Get(e, s), |s|) == s
  {
    if e.Big? {
      PutGetBig(s);
    } else {
      var r := Reverse(s);
      PutGetBig(r);
      assert Reverse(r) == s;
    }
  }

  lemma Powers()
    ensures Pow256(2) == 0x1_0000
    ensures Pow256(8) == 0x1_0000_0000_0000_0000
  {
    assert Pow256(2) == 256 * Pow256(1);
    assert Pow256(4) == 256 * Pow256(3) == 256 * (256 * Pow256(2));
    assert Pow256(6) == 256 * Pow256(5) == 256 * (256 * Pow256(4));
    assert Pow256(8) == 256 * Pow256(7) == 256 * (256 * Pow256(6));
  }

  // ---------------------------------------------------------------- checksum

  /** The packet as the checksum loop sees it: the checksum byte itself counts as zero. */
  function Blank(data: seq<Byte>): (r: seq<Byte>)
    ensures |r| == |data|
  {
    if CHECKSUM_OFFSET < |data| then data[CHECKSUM_OFFSET := 0] else data
  }

  method ShiftByte(c: Byte) returns (crc: Byte)
    ensures crc == Shifts(c, 8)
  {
    crc := c;
    for bit := 0 to 8
      invariant crc == Shifts(c, bit)
    {
      if crc & 0x80 != 0 {
        crc := (crc << 1) ^ 0x07;
      } else {
        crc := crc << 1;
      }
    }
  }

  lemma CrcTake(data: seq<Byte>, i: nat)
    requires i < |data|
    ensures Crc(data[..i + 1]) == Shifts(Crc(data[..i]) ^ data[i], 8)
  {
    assert data[..i + 1][..i] == data[..i];
  }

  method ChecksumFrame(data: seq<Byte>) returns (crc: Byte)
    ensures crc == Crc(Blank(data))
  {
    crc := 0;
    for i := 0 to |data|
      invariant crc == Crc(Blank(data)[..i])
    {
      var value := data[i];
      if i == CHECKSUM_OFFSET {
        value := 0;
      }
      CrcTake(Blank(data), i);
      crc := ShiftByte(crc ^ value);
    }
    assert Blank(data)[..|data|] == Blank(data);
  }

  /** What the loop computes is the remainder of the blanked packet, times x^8, by the generator. */
  lemma ChecksumIsRemainder(data: seq<Byte>)
    ensures exists q :: Divides(BitsOf(Blank(data)), q, RegBits(RegOf(Crc(Blank(data)))))
  {
    CrcIsCrcBits(Blank(data));
    CrcIsTheRemainder(BitsOf(Blank(data)), RegBits(RegOf(Crc(Blank(data)))));
  }

  // ---------------------------------------------------------------- encoding

  function CodecByte(e: Endian): Byte {
    (CODEC_VERSION << 1) | (if e.Little? then 0x01 else 0x00)
  }

  /** A packet around a body, with c in the checksum place. */
  function Packet(e: Endian, requestId: U64, typeId: U16, body: seq<Byte>, c: Byte): (p: seq<Byte>)
    requires |body| <= MAX_BODY_SIZE
    ensures |p| == HEADER_SIZE + |body|
  {
    [MAGIC, CodecByte(e), 0, c] + Put(e, |body|, 2) + Put(e, requestId, 8) + Put(e, typeId, 2) + body
  }

  function Sealed(e: Endian, requestId: U64, typeId: U16, body: seq<Byte>): seq<Byte>
    requires |body| <= MAX_BODY_SIZE
  {
    Packet(e, requestId, typeId, body, Crc(Packet(e, requestId, typeId, body, 0)))
  }

  function Encode(codec: Byte, requestId: U64, typeId: U16, body: seq<Byte>): Result<seq<Byte>, FrameError> {
    if codec != CODEC_PROTOBUF then Err(InvalidCodec)
    else if typeId == 0 then Err(InvalidType)
    else if HEADER_SIZE + |body| > MAX_PACKET_SIZE then Err(PacketTooLarge)
    else Ok(Sealed(Big, requestId, typeId, body))
  }

  /** Overwrite part of a buffer, as the byte-order writers and copy do. */
  method Store(data: array<Byte>, offset: nat, s: seq<Byte>)
    requires offset + |s| <= data.Length
    modifies data
    ensures data[..] == old(data[..offset]) + s + old(data[offset + |s|..])
  {
    for i := 0 to |s|
      invariant forall k :: 0 <= k < data.Length && !(offset <= k < offset + i) ==> data[k] == old(data[k])
      invariant forall k :: 0 <= k < i ==> data[offset + k] == s[k]
    {
      data[offset + i] := s[i];
    }
  }

  method EncodeFrame(codec: Byte, requestId: U64, typeId: U16, body: seq<Byte>)
    returns (r: Result<seq<Byte>, FrameError>)
    ensures r == Encode(codec, requestId, typeId, body)
  {
    if codec != CODEC_PROTOBUF {
      return Err(InvalidCodec);
    }
    if typeId == 0 {
      return Err(InvalidType);
    }
    if HEADER_SIZE + |body| > MAX_PACKET_SIZE {
      return Err(PacketTooLarge);
    }
    var data := new Byte[HEADER_SIZE + |body|](i => 0);
    FillPacket(data, requestId, typeId, body);
    PacketUpdate(requestId, typeId, body, 0);
    var crc := ChecksumFrame(data[..]);
    PacketUpdate(requestId, typeId, body, crc);
    data[CHECKSUM_OFFSET] := crc;
    r := Ok(data[..]);
  }

  method FillPacket(data: array<Byte>, requestId: U64, typeId: U16, body: seq<Byte>)
    requires |body| <= MAX_BODY_SIZE && data.Length == HEADER_SIZE + |body|
    requires data[3] == 0
    modifies data
    ensures data[..] == Packet(Big, requestId, typeId, body, 0)
  {
    data[0], data[1], data[2] := MAGIC, CODEC_VERSION << 1, 0;
    ghost var d0 := data[..];
    Store(data, 4, Put(Big, |body| % 0x1_0000, 2));
    ghost var d1 := data[..];
    Store(data, 6, Put(Big, requestId, 8));
    ghost var d2 := data[..];
    Store(data, 14, Put(Big, typeId, 2));
    ghost var d3 := data[..];
    Store(data, HEADER_SIZE, body);
    HeaderStored(requestId, typeId, body, d0, d1, d2, d3, data[..]);
  }

  lemma HeaderStored(requestId: U64, typeId: U16, body: seq<Byte>,
                     d0: seq<Byte>, d1: seq<Byte>, d2: seq<Byte>, d3: seq<Byte>, d4: seq<Byte>)
    requires |body| <= MAX_BODY_SIZE && |d0| == HEADER_SIZE + |body|
    requires d0[0] == MAGIC && d0[1] == CODEC_VERSION << 1 && d0[2] == 0 && d0[3] == 0
    requires d1 == d0[..4] + Put(Big, |body|, 2) + d0[6..]
    requires d2 == d1[..6] + Put(Big, requestId, 8) + d1[14..]
    requires d3 == d2[..14] + Put(Big, typeId, 2) + d2[16..]
    requires d4 == d3[..16] + body + d3[16 + |body|..]
    ensures d4 == Packet(Big, requestId, typeId, body, 0)
  {
    assert CodecByte(Big) == CODEC_VERSION << 1;
    assert d0[..4] == [MAGIC, CodecByte(Big), 0, 0];
    assert d1[..6] == d0[..4] + Put(Big, |body|, 2);
    assert d2[..14] == d1[..6] + Put(Big, requestId, 8);
    assert d3[..16] == d2[..14] + Put(Big, typeId, 2);
    assert d3[16 + |body|..] == [];
  }

  lemma PacketUpdate(requestId: U64, typeId: U16, body: seq<Byte>, crc: Byte)
    requires |body| <= MAX_BODY_SIZE
    ensures Packet(Big, requestId, typeId, body, 0)[CHECKSUM_OFFSET := crc]
         == Packet(Big, requestId, typeId, body, crc)
  {}

  // ---------------------------------------------------------------- decoding

  function DecodeFrameCodec(value: Byte): Result<Endian, FrameError> {
    if (value & 0x1e) >> 1 != CODEC_VERSION then Err(BadVersion)
    else if value & 0xe0 != 0 then Err(BadCodecReserved)
    else if value & 0x01 != 0 then Ok(Little)
    else Ok(Big)
  }

  function DecodeFrame(data: seq<Byte>): Result<Frame, FrameError> {
    if |data| < HEADER_SIZE then Err(TooShort)
    else if |data| > MAX_PACKET_SIZE then Err(PacketTooLarge)
    else if data[0] != MAGIC then Err(BadMagic)
    else if data[2] != 0 then Err(BadReserved)
    else match DecodeFrameCodec(data[1])
      case Err(e) => Err(e)
      case Ok(endian) =>
        var size := Get(endian, data[4..6]);
        if size > MAX_BODY_SIZE then Err(BodyTooLarge)
        else if |data| != HEADER_SIZE + size then Err(SizeMismatch)
        else if data[CHECKSUM_OFFSET] != Crc(Blank(data)) then Err(BadChecksum)
        else
          Fits(endian, data);
          var typeId := Get(endian, data[14..16]);
          if typeId == 0 then Err(InvalidType)
          else Ok(Frame(CODEC_PROTOBUF, endian, Get(endian, data[6..14]), typeId, data[HEADER_SIZE..]))
  }

  lemma Fits(e: Endian, data: seq<Byte>)
    requires |data| >= HEADER_SIZE
    ensures Get(e, data[14..16]) < 0x1_0000
    ensures Get(e, data[6..14]) < 0x1_0000_0000_0000_0000
  {
    PutGet(e, data[14..16]);
    PutGet(e, data[6..14]);
    Powers();
  }

  // ---------------------------------------------------------------- inverse in both directions

  lemma CodecByteDecodes(e: Endian)
    ensures DecodeFrameCodec(CodecByte(e)) == Ok(e)
  {}

  lemma CodecByteOnly(value: Byte)
    requires DecodeFrameCodec(value).Ok?
    ensures value == CodecByte(DecodeFrameCodec(value).value)
  {}

  lemma PacketParts(e: Endian, requestId: U64, typeId: U16, body: seq<Byte>, c: Byte)
    requires |body| <= MAX_BODY_SIZE
    ensures var p := Packet(e, requestId, typeId, body, c);
            && p[0] == MAGIC && p[1] == CodecByte(e) && p[2] == 0 && p[3] == c
            && p[4..6] == Put(e, |body|, 2) && p[6..14] == Put(e, requestId, 8)
            && p[14..16] == Put(e, typeId, 2) && p[HEADER_SIZE..] == body
            && Blank(p) == Packet(e, requestId, typeId, body, 0)
  {
    Parts([MAGIC, CodecByte(e), 0, c], Put(e, |body|, 2), Put(e, requestId, 8), Put(e, typeId, 2), body);
    var p := Packet(e, requestId, typeId, body, c);
    First4(p);
  }

  lemma First4(p: seq<Byte>)
    requires |p| >= 4
    ensures p[0] == p[..4][0] && p[1] == p[..4][1] && p[2] == p[..4][2] && p[3] == p[..4][3]
  {}

  lemma Parts(h: seq<Byte>, size: seq<Byte>, id: seq<Byte>, typ: seq<Byte>, body: seq<Byte>)
    requires |h| == 4 && |size| == 2 && |id| == 8 && |typ| == 2
    ensures var p := h + size + id + typ + body;
            && p[..4] == h && p[4..6] == size && p[6..14] == id && p[14..16] == typ && p[16..] == body
            && p[3 := 0] == h[3 := 0] + size + id + typ + body
  {}

  /** Every sealed packet with a nonzero type decodes to exactly what went into it. */
  lemma DecodeSealed(e: Endian, requestId: U64, typeId: U16, body: seq<Byte>)
    requires typeId != 0 && |body| <= MAX_BODY_SIZE
    ensures DecodeFrame(Sealed(e, requestId, typeId, body))
         == Ok(Frame(CODEC_PROTOBUF, e, requestId, typeId, body))
  {
    PacketParts(e, requestId, typeId, body, Crc(Packet(e, requestId, typeId, body, 0)));
    Powers();
    GetPut(e, |body|, 2);
    GetPut(e, requestId, 8);
    GetPut(e, typeId, 2);
    CodecByteDecodes(e);
  }

  /** An accepted packet is byte for byte the sealed form of its decoded fields. */
  lemma AcceptedIsSealed(p: seq<Byte>)
    requires DecodeFrame(p).Ok?
    ensures var f := DecodeFrame(p).value;
            f.codec == CODEC_PROTOBUF && f.typeId != 0 && |f.body| <= MAX_BODY_SIZE
            && p == Sealed(f.endian, f.requestId, f.typeId, f.body)
  {
    var f := DecodeFrame(p).value;
    var e := f.endian;
    CodecByteOnly(p[1]);
    PutGet(e, p[4..6]);
    PutGet(e, p[6..14]);
    PutGet(e, p[14..16]);
    Cut(p);
    AcceptedChecksum(p);
  }

  lemma Cut(p: seq<Byte>)
    requires |p| >= HEADER_SIZE
    ensures p == [p[0], p[1], p[2], p[3]] + p[4..6] + p[6..14] + p[14..16] + p[HEADER_SIZE..]
    ensures Blank(p) == [p[0], p[1], p[2], 0] + p[4..6] + p[6..14] + p[14..16] + p[HEADER_SIZE..]
  {}

  lemma AcceptedChecksum(p: seq<Byte>)
    requires DecodeFrame(p).Ok?
    ensures |p| >= HEADER_SIZE && p[CHECKSUM_OFFSET] == Crc(Blank(p))
  {}

  lemma TwoBytes(e: Endian, s: seq<Byte>)
    requires |s| == 2
    ensures Get(e, s) == if e.Big? then 256 * s[0] as nat + s[1] as nat else 256 * s[1] as nat + s[0] as nat
  {
    BigTwo(s);
    BigTwo(Reverse(s));
  }

  lemma BigTwo(s: seq<Byte>)
    requires |s| == 2
    ensures GetBig(s) == 256 * s[0] as nat + s[1] as nat
  {
    assert s == ([] + [s[0]]) + [s[1]];
    GetSnoc([] + [s[0]], s[1]);
    GetSnoc([], s[0]);
  }

  /** Whether a packet is accepted, told from its bytes. */
  predicate WellFormedHeader(p: seq<Byte>) {
    && 16 <= |p| <= 65535 && p[0] == 0x4d && (p[1] == 0x02 || p[1] == 0x03) && p[2] == 0
    && (p[1] == 0x02 ==> 256 * p[4] as nat + p[5] as nat == |p| - 16)
    && (p[1] == 0x03 ==> 256 * p[5] as nat + p[4] as nat == |p| - 16)
  }

  lemma CodecBytes(value: Byte)
    ensures DecodeFrameCodec(value) == Ok(Big) <==> value == 0x02
    ensures DecodeFrameCodec(value) == Ok(Little) <==> value == 0x03
  {}

  lemma HeaderAccepted(p: seq<Byte>, size: nat, typeId: nat)
    requires |p| >= 16 && size == Get(if p[1] == 0x02 then Big else Little, p[4..6])
    requires typeId == Get(if p[1] == 0x02 then Big else Little, p[14..16])
    ensures DecodeFrame(p).Ok? <==>
            && |p| <= 65535 && p[0] == 0x4d && (p[1] == 0x02 || p[1] == 0x03) && p[2] == 0
            && size == |p| - 16 && p[3] == Crc(Blank(p)) && typeId != 0
  {
    CodecBytes(p[1]);
  }

  /** A packet is accepted if and only if it is at most 65535 bytes long, begins with the magic byte, one of
      the two codec bytes and a reserved zero, gives its own body size in the byte order of its codec byte,
      carries its checksum, and names a type. */
  lemma AcceptedIff(p: seq<Byte>)
    ensures DecodeFrame(p).Ok? <==>
            WellFormedHeader(p) && p[3] == Crc(Blank(p)) && (p[14] != 0 || p[15] != 0)
  {
    if |p| >= 16 {
      var e := if p[1] == 0x02 then Big else Little;
      TwoBytes(e, p[4..6]);
      TwoBytes(e, p[14..16]);
      ZeroBytes(p[14], p[15]);
      HeaderAccepted(p, Get(e, p[4..6]), Get(e, p[14..16]));
    }
  }

  /** Why a packet is rejected: the first of these checks that it fails. */
  lemma RejectedFor(p: seq<Byte>)
    ensures DecodeFrame(p) == Err(TooShort) <==> |p| < 16
    ensures DecodeFrame(p) == Err(PacketTooLarge) <==> |p| > 65535
    ensures 16 <= |p| <= 65535 ==>
              && (DecodeFrame(p) == Err(BadMagic) <==> p[0] != 0x4d)
              && (DecodeFrame(p) == Err(BadReserved) <==> p[0] == 0x4d && p[2] != 0)
              && (DecodeFrame(p) == Err(BadVersion) <==> p[0] == 0x4d && p[2] == 0 && p[1] & 0x1e != 0x02)
              && (DecodeFrame(p) == Err(BadCodecReserved) <==>
                  p[0] == 0x4d && p[2] == 0 && p[1] & 0x1e == 0x02 && p[1] & 0xe0 != 0)
              && (DecodeFrame(p) == Err(BadChecksum) <==> WellFormedHeader(p) && p[3] != Crc(Blank(p)))
              && (DecodeFrame(p) == Err(InvalidType) <==>
                  WellFormedHeader(p) && p[3] == Crc(Blank(p)) && p[14] == 0 && p[15] == 0)
  {
    if 16 <= |p| <= 65535 {
      var e := if p[1] == 0x02 then Big else Little;
      TwoBytes(e, p[4..6]);
      TwoBytes(e, p[14..16]);
      ZeroBytes(p[14], p[15]);
      CodecBytes(p[1]);
      CodecRejected(p[1]);
    }
  }

  lemma CodecRejected(value: Byte)
    ensures DecodeFrameCodec(value) == Err(BadVersion) <==> value & 0x1e != 0x02
    ensures DecodeFrameCodec(value) == Err(BadCodecReserved) <==> value & 0x1e == 0x02 && value & 0xe0 != 0
    ensures value == 0x02 || value == 0x03 <==> value & 0x1e == 0x02 && value & 0xe0 == 0
  {}

  lemma ZeroBytes(a: Byte, b: Byte)
    ensures 256 * a as nat + b as nat == 0 <==> a == 0 && b == 0
    ensures 256 * b as nat + a as nat == 0 <==> a == 0 && b == 0
  {
    NatOfByte(a);
    NatOfByte(b);
    if a as nat == 0 { assert a == 0; }
    if b as nat == 0 { assert b == 0; }
  }

  lemma BigFour(s: seq<Byte>)
    requires |s| == 4
    ensures GetBig(s) == 256 * (256 * (256 * s[0] as nat + s[1] as nat) + s[2] as nat) + s[3] as nat
  {
    BigTwo(s[..2]);
    assert s[..3] == s[..2] + [s[2]] && s == s[..3] + [s[3]];
    GetSnoc(s[..2], s[2]);
    GetSnoc(s[..3], s[3]);
  }

  lemma BigSix(s: seq<Byte>, high: nat)
    requires |s| == 6 && high == GetBig(s[..4])
    ensures GetBig(s) == 256 * (256 * high + s[4] as nat) + s[5] as nat
  {
    assert s[..5] == s[..4] + [s[4]] && s == s[..5] + [s[5]];
    GetSnoc(s[..4], s[4]);
    GetSnoc(s[..5], s[5]);
  }

  lemma BigEight(s: seq<Byte>)
    requires |s| == 8
    ensures GetBig(s) == 256 * (256 * (256 * (256 * (256 * (256 * (256 * s[0] as nat + s[1] as nat) + s[2] as nat)
                         + s[3] as nat) + s[4] as nat) + s[5] as nat) + s[6] as nat) + s[7] as nat
  {
    BigFour(s[..4]);
    assert s[..6][..4] == s[..4];
    BigSix(s[..6], GetBig(s[..4]));
    assert s[..7] == s[..6] + [s[6]] && s == s[..7] + [s[7]];
    GetSnoc(s[..6], s[6]);
    GetSnoc(s[..7], s[7]);
  }

  /** Two bytes that spell n, and eight, high byte first. */
  predicate SpellTwo(s: seq<Byte>, n: nat) {
    |s| == 2 && 256 * s[0] as nat + s[1] as nat == n
  }

  predicate SpellEight(s: seq<Byte>, n: nat) {
    && |s| == 8
    && 256 * (256 * (256 * (256 * (256 * (256 * (256 * s[0] as nat + s[1] as nat) + s[2] as nat) + s[3] as nat)
       + s[4] as nat) + s[5] as nat) + s[6] as nat) + s[7] as nat == n
  }

  /** The bytes an encoder sends: the header at its offsets, all integers with their high bytes first. */
  lemma EncodedBytes(requestId: U64, typeId: U16, body: seq<Byte>, p: seq<Byte>)
    requires Encode(CODEC_PROTOBUF, requestId, typeId, body) == Ok(p)
    ensures |p| == 16 + |body| && p[0] == 0x4d && p[1] == 0x02 && p[2] == 0 && p[3] == Crc(Blank(p))
    ensures SpellTwo(p[4..6], |body|) && SpellEight(p[6..14], requestId) && SpellTwo(p[14..16], typeId)
    ensures p[16..] == body
  {
    PacketParts(Big, requestId, typeId, body, Crc(Packet(Big, requestId, typeId, body, 0)));
    CodecBytes(p[1]);
    CodecByteDecodes(Big);
    HeaderNumbers(requestId, typeId, |body|, p[4..6], p[6..14], p[14..16]);
  }

  /** What is read from an accepted packet: the same, or all integers with their low bytes first. */
  lemma DecodedFields(p: seq<Byte>)
    requires DecodeFrame(p).Ok?
    ensures |p| >= 16 && (DecodeFrame(p).value.endian.Big? <==> p[1] == 0x02)
    ensures var f := DecodeFrame(p).value;
            var id, typ := p[6..14], p[14..16];
            && f.codec == 0x62 && f.body == p[16..]
            && match f.endian
               case Big => SpellEight(id, f.requestId) && SpellTwo(typ, f.typeId)
               case Little =>
                 && SpellEight([id[7], id[6], id[5], id[4], id[3], id[2], id[1], id[0]], f.requestId)
                 && SpellTwo([typ[1], typ[0]], f.typeId)
  {
    CodecBytes(p[1]);
    IdBytes(p[6..14]);
    TypeBytes(p[14..16]);
  }

  lemma IdBytes(s: seq<Byte>)
    requires |s| == 8
    ensures SpellEight(s, Get(Big, s))
    ensures SpellEight([s[7], s[6], s[5], s[4], s[3], s[2], s[1], s[0]], Get(Little, s))
  {
    BigEight(s);
    var r := [s[7], s[6], s[5], s[4], s[3], s[2], s[1], s[0]];
    assert Reverse(s) == r;
    BigEight(r);
  }

  lemma TypeBytes(s: seq<Byte>)
    requires |s| == 2
    ensures SpellTwo(s, Get(Big, s)) && SpellTwo([s[1], s[0]], Get(Little, s))
  {
    TwoBytes(Big, s);
    TwoBytes(Little, s);
  }

  lemma HeaderNumbers(requestId: U64, typeId: U16, size: U16, s: seq<Byte>, id: seq<Byte>, typ: seq<Byte>)
    requires s == PutBig(size, 2) && id == PutBig(requestId, 8) && typ == PutBig(typeId, 2)
    ensures SpellTwo(s, size) && SpellEight(id, requestId) && SpellTwo(typ, typeId)
  {
    Powers();
    GetPutBig(size, 2);
    GetPutBig(requestId, 8);
    GetPutBig(typeId, 2);
    BigTwo(s);
    BigTwo(typ);
    BigEight(id);
  }

  /** Encoding then decoding gives back the identifier, the type and the body; encoding succeeds
      exactly for the protobuf codec, a nonzero type and a body that fits. */
  lemma EncodeDecode(codec: Byte, requestId: U64, typeId: U16, body: seq<Byte>)
    ensures Encode(codec, requestId, typeId, body).Ok?
       <==> codec == CODEC_PROTOBUF && typeId != 0 && |body| <= 65519
    ensures Encode(codec, requestId, typeId, body).Ok? ==>
              DecodeFrame(Encode(codec, requestId, typeId, body).value)
              == Ok(Frame(codec, Big, requestId, typeId, body))
  {
    if Encode(codec, requestId, typeId, body).Ok? {
      DecodeSealed(Big, requestId, typeId, body);
    }
  }

  /** Decoding a big-endian packet and encoding again gives the very same bytes. */
  lemma DecodeEncode(p: seq<Byte>)
    requires DecodeFrame(p).Ok? && DecodeFrame(p).value.endian.Big?
    ensures var f := DecodeFrame(p).value; Encode(f.codec, f.requestId, f.typeId, f.body) == Ok(p)
  {
    AcceptedIsSealed(p);
  }

  /** No two accepted packets, of either byte order, decode to the same frame. */
  lemma DecodeInjective(p: seq<Byte>, q: seq<Byte>)
    requires DecodeFrame(p).Ok? && DecodeFrame(p) == DecodeFrame(q)
    ensures p == q
  {
    AcceptedIsSealed(p);
    AcceptedIsSealed(q);
  }

  // ---------------------------------------------------------------- what the checksum detects

  function Difference(p: seq<Byte>, q: seq<Byte>): Bits
    requires |p| == |q|
  {
    XorBits(BitsOf(p), BitsOf(q))
  }

  /** The checksum test passes for q as it does for p exactly when the change to the checksum byte
      equals the checksum of the change to everything else. */
  lemma ChecksumSyndrome(p: seq<Byte>, q: seq<Byte>)
    requires |p| == |q| > CHECKSUM_OFFSET
    requires p[CHECKSUM_OFFSET] == Crc(Blank(p))
    ensures q[CHECKSUM_OFFSET] == Crc(Blank(q))
       <==> RegOf(p[CHECKSUM_OFFSET] ^ q[CHECKSUM_OFFSET]) == CrcBits(Difference(Blank(p), Blank(q)))
  {
    Syndrome(Blank(p), Blank(q), p[CHECKSUM_OFFSET], q[CHECKSUM_OFFSET]);
  }

  /** In polynomials: q passes like p exactly when the change of the checksum byte is the remainder, by the
      generator, of x^8 times the change of the packet with that byte blanked. */
  lemma ChecksumQuotient(p: seq<Byte>, q: seq<Byte>, change: Bits, remainder: Bits)
    requires |p| == |q| > CHECKSUM_OFFSET && p[CHECKSUM_OFFSET] == Crc(Blank(p))
    requires change == Difference(Blank(p), Blank(q))
    requires remainder == RegBits(RegOf(p[CHECKSUM_OFFSET] ^ q[CHECKSUM_OFFSET]))
    ensures q[CHECKSUM_OFFSET] == Crc(Blank(q)) <==> exists quotient :: Divides(change, quotient, remainder)
  {
    ChecksumSyndrome(p, q);
    CrcIsTheRemainder(change, remainder);
    SameBits(RegOf(p[CHECKSUM_OFFSET] ^ q[CHECKSUM_OFFSET]), CrcBits(change));
  }

  lemma SameBits(r: Reg, s: Reg)
    ensures RegBits(r) == RegBits(s) <==> r == s
  {
    var a, b := RegBits(r), RegBits(s);
    if a == b {
      assert a[0] == r.b7 && a[1] == r.b6 && a[2] == r.b5 && a[3] == r.b4;
      assert a[4] == r.b3 && a[5] == r.b2 && a[6] == r.b1 && a[7] == r.b0;
      assert b[0] == s.b7 && b[1] == s.b6 && b[2] == s.b5 && b[3] == s.b4;
      assert b[4] == s.b3 && b[5] == s.b2 && b[6] == s.b1 && b[7] == s.b0;
    }
  }

  lemma Syndrome(p: seq<Byte>, q: seq<Byte>, a: Byte, b: Byte)
    requires |p| == |q| && a == Crc(p)
    ensures b == Crc(q) <==> RegOf(a ^ b) == CrcBits(Difference(p, q))
  {
    CrcOfDifference(p, q);
    SyndromeOfBytes(a, b, Crc(q));
  }

  lemma SyndromeOfBytes(a: Byte, b: Byte, c: Byte)
    ensures b == c <==> RegOf(a ^ b) == XorReg(RegOf(a), RegOf(c))
  {
    RegOfXor(a, b);
    XorRegCancel(RegOf(a), RegOf(b), RegOf(c));
    SameReg(b, c);
  }

  lemma CrcOfDifference(p: seq<Byte>, q: seq<Byte>)
    requires |p| == |q|
    ensures CrcBits(Difference(p, q)) == XorReg(RegOf(Crc(p)), RegOf(Crc(q)))
  {
    CrcIsCrcBits(p);
    CrcIsCrcBits(q);
    CrcLinear(BitsOf(p), BitsOf(q));
  }

  lemma SameReg(a: Byte, b: Byte)
    ensures RegOf(a) == RegOf(b) <==> a == b
  {
    if a != b {
      var j := DifferentBit(a, b);
    }
  }

  lemma XorRegCancel(r: Reg, s: Reg, t: Reg)
    ensures XorReg(r, s) == XorReg(r, t) <==> s == t
  {}

  /** A change confined to eight consecutive bits outside the checksum byte is always rejected. */
  lemma BurstRejected(p: seq<Byte>, q: seq<Byte>, at: nat)
    requires DecodeFrame(p).Ok? && |q| == |p| && q != p
    requires p[CHECKSUM_OFFSET] == q[CHECKSUM_OFFSET]
    requires Burst(Difference(p, q), at)
    ensures DecodeFrame(q).Err?
  {
    AcceptedChecksum(p);
    BurstBreaksChecksum(p, q, at);
    if DecodeFrame(q).Ok? {
      AcceptedChecksum(q);
    }
  }

  lemma BurstBreaksChecksum(p: seq<Byte>, q: seq<Byte>, at: nat)
    requires |q| == |p| > CHECKSUM_OFFSET && q != p
    requires p[CHECKSUM_OFFSET] == q[CHECKSUM_OFFSET] == Crc(Blank(p))
    requires Burst(Difference(p, q), at)
    ensures q[CHECKSUM_OFFSET] != Crc(Blank(q))
  {
    var one := DifferenceBit(p, q);
    BlankDifference(p, q);
    BurstDetected(Difference(p, q), at, one);
    ChecksumSyndrome(p, q);
    var c := p[CHECKSUM_OFFSET];
    assert c ^ c == 0;
    ZeroByte();
  }

  lemma DifferenceBit(p: seq<Byte>, q: seq<Byte>) returns (one: nat)
    requires |q| == |p| && q != p
    ensures one < 8 * |p| && Difference(p, q)[one]
  {
    var i :| 0 <= i < |p| && p[i] != q[i];
    var j := DifferentBit(p[i], q[i]);
    BitsAt(p, i, j);
    BitsAt(q, i, j);
    one := 8 * i + j;
  }

  lemma BlankDifference(p: seq<Byte>, q: seq<Byte>)
    requires |p| == |q| > CHECKSUM_OFFSET && p[CHECKSUM_OFFSET] == q[CHECKSUM_OFFSET]
    ensures Difference(Blank(p), Blank(q)) == Difference(p, q)
  {
    forall k | 0 <= k < 8 * |p| ensures Difference(Blank(p), Blank(q))[k] == Difference(p, q)[k] {
      DifferenceAt(p, q, k);
      DifferenceAt(Blank(p), Blank(q), k);
    }
  }

  lemma DifferenceAt(p: seq<Byte>, q: seq<Byte>, k: nat)
    requires |p| == |q| && k < 8 * |p|
    ensures Difference(p, q)[k] == (RegOf(p[k / 8]).At(k % 8) != RegOf(q[k / 8]).At(k % 8))
  {
    BitsAt(p, k / 8, k % 8);
    BitsAt(q, k / 8, k % 8);
  }

  /** A change confined to one byte, the checksum byte included, is always rejected. */
  lemma ByteRejected(p: seq<Byte>, q: seq<Byte>, i: nat)
    requires DecodeFrame(p).Ok? && |q| == |p| && q != p
    requires i < |p| && forall k :: 0 <= k < |p| && k != i ==> p[k] == q[k]
    ensures DecodeFrame(q).Err?
  {
    if i == CHECKSUM_OFFSET {
      assert Blank(p) == Blank(q);
    } else {
      OneByteBurst(p, q, i);
      BurstRejected(p, q, 8 * i);
    }
  }

  lemma OneByteBurst(p: seq<Byte>, q: seq<Byte>, i: nat)
    requires |q| == |p| && i < |p| && forall k :: 0 <= k < |p| && k != i ==> p[k] == q[k]
    ensures Burst(Difference(p, q), 8 * i)
  {
    forall k | 0 <= k < 8 * |p| && Difference(p, q)[k] ensures 8 * i <= k < 8 * i + 8 {
      DifferenceAt(p, q, k);
    }
  }

  /** Every accepted packet has an even number of one bits, checksum byte included. */
  lemma AcceptedIsEven(p: seq<Byte>)
    requires DecodeFrame(p).Ok?
    ensures Ones(BitsOf(p)) % 2 == 0
  {
    AcceptedChecksum(p);
    ParityAround(p[..CHECKSUM_OFFSET], p[CHECKSUM_OFFSET], p[CHECKSUM_OFFSET + 1..]);
    SplitAtChecksum(p);
  }

  lemma SplitAtChecksum(p: seq<Byte>)
    requires |p| > CHECKSUM_OFFSET
    ensures p == p[..CHECKSUM_OFFSET] + [p[CHECKSUM_OFFSET]] + p[CHECKSUM_OFFSET + 1..]
    ensures Blank(p) == p[..CHECKSUM_OFFSET] + [0] + p[CHECKSUM_OFFSET + 1..]
  {}

  lemma ParityAround(a: seq<Byte>, c: Byte, b: seq<Byte>)
    ensures c == Crc(a + [0] + b) ==> Ones(BitsOf(a + [c] + b)) % 2 == 0
  {
    OnesAround(a, c, b);
    OnesAround(a, 0, b);
    ZeroByte();
    CrcByteParity(a + [0] + b);
  }

  lemma CrcByteParity(data: seq<Byte>)
    ensures Odd(RegBits(RegOf(Crc(data)))) == Odd(BitsOf(data))
  {
    CrcIsCrcBits(data);
    CrcParity(BitsOf(data));
    OddRegIsOdd(CrcBits(BitsOf(data)));
  }

  lemma ZeroByte()
    ensures RegOf(0) == EMPTY && Ones(RegBits(RegOf(0))) == 0
  {
    RegOfXor(0, 0);
    OnesOfZeros(8);
    assert RegBits(EMPTY) == Zeros(8);
  }

  lemma {:induction false} OnesOfZeros(n: nat)
    ensures Ones(Zeros(n)) == 0
  {
    if n > 0 {
      assert Zeros(n)[..n - 1] == Zeros(n - 1);
      OnesOfZeros(n - 1);
    }
  }

  lemma OnesAround(a: seq<Byte>, c: Byte, b: seq<Byte>)
    ensures Ones(BitsOf(a + [c] + b)) == Ones(BitsOf(a)) + Ones(RegBits(RegOf(c))) + Ones(BitsOf(b))
  {
    BitsConcat(a + [c], b);
    BitsConcat(a, [c]);
    BitsOne(c);
    OnesConcat(BitsOf(a + [c]), BitsOf(b));
    OnesConcat(BitsOf(a), BitsOf([c]));
  }

  /** Flipping any odd number of bits of an accepted packet, anywhere in it, is rejected. */
  lemma OddFlipRejected(p: seq<Byte>, q: seq<Byte>)
    requires DecodeFrame(p).Ok? && |q| == |p|
    requires Ones(Difference(p, q)) % 2 == 1
    ensures DecodeFrame(q).Err?
  {
    if DecodeFrame(q).Ok? {
      AcceptedIsEven(p);
      AcceptedIsEven(q);
      OddXor(BitsOf(p), BitsOf(q));
    }
  }
}
