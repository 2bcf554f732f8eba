/** The reader and writer that the generated code works with, and its loops over them: a reader is a
    position in a buffer, a writer a growing buffer with a stack of unfinished outer ones. */
module WireIO {
  import opened Wrappers
  import Utf8
  import opened Varint
  import opened Wire

  // ---------------------------------------------------------------- reader

  class BinaryReader {
    const buf: Bytes
    var pos: nat

    constructor (buf: Bytes)
      ensures this.buf == buf && pos == 0
    {
      this.buf, pos := buf, 0;
    }

    ghost predicate Valid()
      reads this
    {
      pos <= |buf|
    }

    ghost function Rest(): Bytes
      reads this
      requires Valid()
    {
      buf[pos..]
    }

    method ReadVarint() returns (r: Result<nat, WireError>)
      requires Valid()
      modifies this
      ensures Valid() && Got(r, Get(old(Rest()), 0), Rest())
    {
      ghost var start := Rest();
      var n: nat, scale: nat, read: nat := 0, 1, 0;
      while read < MAX_VARINT_BYTES
        invariant Valid() && read <= MAX_VARINT_BYTES
        invariant Get(start, 0) == Scaled(Get(Rest(), read), n, scale)
      {
        if pos == |buf| {
          return Err(PrematureEof);
        }
        var b: nat := buf[pos];
        ghost var before := Rest();
        pos := pos + 1;
        assert before[0] == b && before[1..] == Rest();
        if b < 128 {
          return Ok(n + scale * b);
        }
        var low: nat := b - 128;
        ScaledStep(Get(before, read), Get(Rest(), read + 1), n, scale, low);
        n, scale, read := n + scale * low, scale * 128, read + 1;
      }
      return Err(InvalidVarint);
    }

    method ReadBytes() returns (r: Result<Bytes, WireError>)
      requires Valid()
      modifies this
      ensures Valid() && Got(r, ReadText(old(Rest())), Rest())
    {
      var n := ReadVarint();
      if n.Err? {
        return Err(n.error);
      }
      var size := Uint32(n.value);
      if pos + size > |buf| {
        return Err(PrematureEof);
      }
      ghost var before := Rest();
      var text := buf[pos..pos + size];
      pos := pos + size;
      assert before[..size] == text && before[size..] == Rest();
      return Ok(text);
    }

    method Advance(n: nat) returns (r: Result<(), WireError>)
      requires Valid()
      modifies this
      ensures Valid()
      ensures match Take(n, old(Rest())) case Err(e) => r == Err(e) case Ok((_, rest)) => r == Ok(()) && Rest() == rest
    {
      if pos + n > |buf| {
        return Err(PrematureEof);
      }
      ghost var before := Rest();
      pos := pos + n;
      assert before[n..] == Rest();
      return Ok(());
    }

    /** Pass over a payload of the given wire type; number is the field's, where the caller gives it. */
    method SkipOver(wireType: nat, number: Option<nat>) returns (r: Result<(), WireError>)
      requires Valid()
      modifies this
      ensures Valid() && Got(r, Skip(wireType, number, old(Rest())), Rest())
      decreases |buf| - pos, 1
    {
      if wireType == VARINT {
        ghost var start := Rest();
        while true
          invariant Valid() && SkipVarint(start) == SkipVarint(Rest())
          decreases |buf| - pos
        {
          if pos == |buf| {
            return Err(PrematureEof);
          }
          var b := buf[pos];
          ghost var before := Rest();
          pos := pos + 1;
          assert before[0] == b && before[1..] == Rest();
          if b < 128 {
            return Ok(());
          }
        }
      } else if wireType == BIT64 {
        r := Advance(8);
      } else if wireType == BIT32 {
        r := Advance(4);
      } else if wireType == LENGTH_DELIMITED {
        var text := ReadBytes();
        r := if text.Ok? then Ok(()) else Err(text.error);
      } else if wireType == START_GROUP {
        r := SkipToEnd(number);
      } else {
        r := Err(UnsupportedWireType);
      }
    }

    /** Pass over fields until the end mark of a group. */
    method SkipToEnd(number: Option<nat>) returns (r: Result<(), WireError>)
      requires Valid()
      modifies this
      ensures Valid() && Got(r, SkipGroup(number, old(Rest())), Rest())
      decreases |buf| - pos, 0
    {
      ghost var start := Rest();
      while true
        invariant Valid() && pos >= old(pos) && SkipGroup(number, start) == SkipGroup(number, Rest())
        decreases |buf| - pos
      {
        var raw := ReadVarint();
        if raw.Err? {
          return Err(raw.error);
        }
        var tag := Uint32(raw.value);
        if tag < 8 || tag % 8 > BIT32 {
          return Err(IllegalTag);
        }
        if tag % 8 == END_GROUP {
          return if number.Some? && number.value != tag / 8 then Err(InvalidEndGroup) else Ok(());
        }
        var skipped := SkipOver(tag % 8, Some(tag / 8));
        if skipped.Err? {
          return skipped;
        }
      }
    }
  }

  /** The method's answer and the reader's new position are what the specification says. */
  ghost predicate Got<T(!new)>(r: Result<T, WireError>, spec: Read<T>, rest: Bytes) {
    match spec
    case Err(e) => r == Err(e)
    case Ok((v, rest')) => r == Ok(v) && rest == rest'
  }

  function Scaled(r: Read<nat>, n: nat, scale: nat): Read<nat> {
    match r
    case Err(e) => Err(e)
    case Ok((v, rest)) => Ok((n + scale * v, rest))
  }

  lemma ScaledStep(whole: Read<nat>, r: Read<nat>, n: nat, scale: nat, low: nat)
    requires whole == match r case Err(e) => Err(e) case Ok((v, rest)) => Ok((low + 128 * v, rest))
    ensures Scaled(whole, n, scale) == Scaled(r, n + scale * low, scale * 128)
  {
    if r.Ok? {
      Distribute(scale, low, r.value.0);
    }
  }

  lemma Distribute(a: nat, b: nat, c: nat)
    ensures a * (b + 128 * c) == a * b + a * 128 * c
  {}

  // ---------------------------------------------------------------- decoding

  /** The elements of a packed chunk, pushed until the position passes its end. */
  method ReadPackedLongs(reader: BinaryReader, size: nat, old_: seq<string>) returns (r: Result<seq<string>, WireError>)
    requires reader.Valid()
    modifies reader
    ensures reader.Valid() && Got(r, ReadLongs(old(reader.Rest()), size, old_), reader.Rest())
  {
    var end2 := size + reader.pos;
    var ss := old_;
    ghost var all := ReadLongs(reader.Rest(), size, old_);
    while reader.pos < end2
      invariant reader.Valid() && all == ReadLongs(reader.Rest(), end2 - reader.pos, ss)
      decreases |reader.buf| - reader.pos
    {
      var n := PushLong(reader, end2, ss, all);
      if n.Err? {
        return Err(n.error);
      }
      ss := n.value;
    }
    return Ok(ss);
  }

  method PushLong(reader: BinaryReader, end: nat, ss: seq<string>, ghost all: Read<seq<string>>)
    returns (r: Result<seq<string>, WireError>)
    requires reader.Valid() && reader.pos < end && all == ReadLongs(reader.Rest(), end - reader.pos, ss)
    modifies reader
    ensures reader.Valid() && (r.Err? ==> all == Err(r.error))
    ensures r.Ok? ==> reader.pos > old(reader.pos) && all == ReadLongs(reader.Rest(), end - reader.pos, r.value)
  {
    ghost var before, left, got := reader.Rest(), end - reader.pos, Get(reader.Rest(), 0);
    var n := ReadLong(reader);
    if n.Err? {
      LongsStep(before, left, ss, got, left);
      return Err(n.error);
    }
    LongsStep(before, left, ss, got, end - reader.pos);
    return Ok(ss + [n.value]);
  }

  /** A 64-bit integer, turned into a string at once. */
  method ReadLong(reader: BinaryReader) returns (r: Result<string, WireError>)
    requires reader.Valid()
    modifies reader
    ensures reader.Valid()
    ensures match Get(old(reader.Rest()), 0)
            case Err(e) => r == Err(e)
            case Ok((raw, rest)) => r == Ok(Numeral(raw)) && reader.Rest() == rest
  {
    var raw := reader.ReadVarint();
    r := if raw.Ok? then Ok(Numeral(raw.value)) else Err(raw.error);
  }

  lemma LongsStep(s: Bytes, left: int, ss: seq<string>, got: Read<nat>, left': int)
    requires left > 0 && got == Get(s, 0) && (got.Ok? ==> left' == left - (|s| - |got.value.1|))
    ensures got.Err? ==> ReadLongs(s, left, ss) == Err(got.error)
    ensures got.Ok? ==> ReadLongs(s, left, ss) == ReadLongs(got.value.1, left', ss + [Numeral(got.value.0)])
  {}

  method ReadValue(reader: BinaryReader, k: Kind, tag: nat, old_: Value) returns (r: Result<Value, WireError>)
    requires reader.Valid()
    modifies reader
    ensures reader.Valid() && Got(r, ReadField(k, tag, old_, old(reader.Rest())), reader.Rest())
    decreases |reader.buf| - reader.pos, 0
  {
    if tag % 8 == VARINT {
      var raw := reader.ReadVarint();
      return if raw.Ok? then Ok(OfVarint(k, old_, raw.value)) else Err(raw.error);
    }
    match k
    case KMessage(fields) =>
      var n := reader.ReadVarint();
      if n.Err? {
        return Err(n.error);
      }
      var m := DecodeFrom(reader, fields, Uint32(n.value));
      return if m.Ok? then Ok(Sub(Some(m.value))) else Err(m.error);
    case KPacked =>
      var n := reader.ReadVarint();
      if n.Err? {
        return Err(n.error);
      }
      var ss := ReadPackedLongs(reader, Uint32(n.value), OldLongs(old_));
      return if ss.Ok? then Ok(Longs(ss.value)) else Err(ss.error);
    case _ =>
      var text := reader.ReadBytes();
      return if text.Ok? then Ok(OfText(k, old_, text.value)) else Err(text.error);
  }

  /** The switch of the generated decode loop. */
  method DecodeField(reader: BinaryReader, schema: Schema, tag: nat, message: Record)
    returns (r: Result<Turn, WireError>)
    requires reader.Valid() && |message.values| == |schema|
    modifies reader
    ensures reader.Valid() && Got(r, TurnFor(schema, tag, old(reader.Rest()), message), reader.Rest())
    decreases |reader.buf| - reader.pos, 1
  {
    match FieldFor(schema, tag)
    case Some(i) =>
      var v := ReadValue(reader, schema[i].kind, tag, message.values[i]);
      return if v.Ok? then Ok(Next(message.(values := message.values[i := v.value]))) else Err(v.error);
    case None =>
      if tag % 8 == END_GROUP || tag == 0 {
        return Ok(Stop(message));
      }
      var skipped := reader.SkipOver(tag % 8, None);
      return if skipped.Ok? then Ok(Next(message)) else Err(skipped.error);
  }

  /** One turn leads from one decoding to the rest of it. */
  ghost predicate Leads(schema: Schema, left: int, r: Result<Turn, WireError>, rest: Bytes, all: Read<Record>) {
    match r
    case Err(e) => all == Err(e)
    case Ok(Stop(m)) => all == Ok((m, rest))
    case Ok(Next(m)) => |m.values| == |schema| && all == Wire.Decode(schema, rest, left, m)
  }

  lemma NextLeads(schema: Schema, s: Bytes, left: int, m: Record, m': Record, rest: Bytes, left': int)
    requires |m.values| == |schema| && left > 0 && TakeTurn(schema, s, m) == Ok((Next(m'), rest))
    requires left' == left - (|s| - |rest|)
    ensures |m'.values| == |schema| && |rest| < |s|
    ensures Wire.Decode(schema, s, left, m) == Wire.Decode(schema, rest, left', m')
  {}

  lemma StopLeads(schema: Schema, s: Bytes, left: int, m: Record, m': Record, rest: Bytes)
    requires |m.values| == |schema| && left > 0 && TakeTurn(schema, s, m) == Ok((Stop(m'), rest))
    ensures |rest| < |s| && Wire.Decode(schema, s, left, m) == Ok((m', rest))
  {}

  lemma ErrorLeads(schema: Schema, s: Bytes, left: int, m: Record, e: WireError)
    requires |m.values| == |schema| && left > 0 && TakeTurn(schema, s, m) == Err(e)
    ensures Wire.Decode(schema, s, left, m) == Err(e)
  {}

  method DecodeOne(reader: BinaryReader, schema: Schema, message: Record, end: nat, ghost all: Read<Record>)
    returns (r: Result<Turn, WireError>)
    requires reader.Valid() && |message.values| == |schema| && reader.pos < end
    requires all == Wire.Decode(schema, reader.Rest(), end - reader.pos, message)
    modifies reader
    ensures reader.Valid() && (r.Ok? ==> reader.pos > old(reader.pos))
    ensures Leads(schema, end - reader.pos, r, reader.Rest(), all)
    decreases |reader.buf| - reader.pos, 2
  {
    ghost var start, pos := reader.Rest(), reader.pos;
    var raw := reader.ReadVarint();
    if raw.Err? {
      ErrorLeads(schema, start, end - pos, message, raw.error);
      return Err(raw.error);
    }
    r := DecodeField(reader, schema, Uint32(raw.value), message);
    match r
    case Err(e) => ErrorLeads(schema, start, end - pos, message, e);
    case Ok(Stop(m)) => StopLeads(schema, start, end - pos, message, m, reader.Rest());
    case Ok(Next(m)) =>
      NextLeads(schema, start, end - pos, message, m, reader.Rest(), end - reader.pos);
  }

  /** The generated decode function: fields until the declared end. */
  method DecodeFrom(reader: BinaryReader, schema: Schema, length: nat) returns (r: Result<Record, WireError>)
    requires reader.Valid()
    modifies reader
    ensures reader.Valid() && Got(r, Wire.Decode(schema, old(reader.Rest()), length, Base(schema)), reader.Rest())
    decreases |reader.buf| - reader.pos, 3
  {
    var end := reader.pos + length;
    var message := Base(schema);
    ghost var all := Wire.Decode(schema, reader.Rest(), length, message);
    while reader.pos < end
      invariant reader.Valid() && |message.values| == |schema| && reader.pos >= old(reader.pos)
      invariant all == Wire.Decode(schema, reader.Rest(), end - reader.pos, message)
      decreases |reader.buf| - reader.pos
    {
      var turn := DecodeOne(reader, schema, message, end, all);
      if turn.Err? {
        return Err(turn.error);
      }
      message := turn.value.m;
      if turn.value.Stop? {
        return Ok(message);
      }
    }
    return Ok(message);
  }

  // ---------------------------------------------------------------- writer

  class BinaryWriter {
    var buf: Bytes
    var stack: seq<Bytes>

    constructor ()
      ensures buf == [] && stack == []
    {
      buf, stack := [], [];
    }

    method WriteVarint(value: nat)
      modifies this`buf
      ensures buf == old(buf) + Put(value)
    {
      var n := value;
      while n >= 128
        invariant buf + Put(n) == old(buf) + Put(value)
      {
        buf := buf + [128 + n % 128];
        n := n / 128;
      }
      buf := buf + [n];
    }

    method WriteRaw(bytes: Bytes)
      modifies this`buf
      ensures buf == old(buf) + bytes
    {
      buf := buf + bytes;
    }

    /** A nested message or list is written on its own until its length is known. */
    method Fork()
      modifies this
      ensures buf == [] && stack == old(stack) + [old(buf)]
    {
      stack := stack + [buf];
      buf := [];
    }

    method Join()
      requires |stack| > 0
      modifies this
      ensures stack == old(stack)[..|old(stack)| - 1]
      ensures buf == old(stack)[|old(stack)| - 1] + (Put(|old(buf)|) + old(buf))
    {
      var chunk := buf;
      buf := stack[|stack| - 1];
      stack := stack[..|stack| - 1];
      WriteVarint(|chunk|);
      WriteRaw(chunk);
    }
  }

  // ---------------------------------------------------------------- encoding

  method WriteChunk(writer: BinaryWriter, tag: nat, text: Bytes)
    modifies writer
    ensures writer.buf == old(writer.buf) + BytesAll([Chunk(tag, text)]) && writer.stack == old(writer.stack)
  {
    BytesOne(Chunk(tag, text));
    writer.WriteVarint(tag);
    writer.WriteVarint(|text|);
    writer.WriteRaw(text);
  }

  lemma OneMoreText(tag: nat, texts: seq<Bytes>, i: nat)
    requires i < |texts|
    ensures BytesAll(Chunks(tag, texts[..i + 1])) ==
            BytesAll(Chunks(tag, texts[..i])) + BytesAll([Chunk(tag, texts[i])])
  {
    assert texts[..i + 1][..i] == texts[..i];
    BytesConcat(Chunks(tag, texts[..i]), [Chunk(tag, texts[i])]);
  }

  method WriteTexts(writer: BinaryWriter, tag: nat, texts: seq<Bytes>)
    modifies writer
    ensures writer.buf == old(writer.buf) + BytesAll(Chunks(tag, texts)) && writer.stack == old(writer.stack)
  {
    for i := 0 to |texts|
      invariant writer.buf == old(writer.buf) + BytesAll(Chunks(tag, texts[..i])) && writer.stack == old(writer.stack)
    {
      WriteChunk(writer, tag, texts[i]);
      OneMoreText(tag, texts, i);
    }
    assert texts[..|texts|] == texts;
  }

  lemma OneLongLess(ss: seq<string>, i: nat, raw: nat)
    requires AllCanonical(ss) && i < |ss| && raw == RawOf(ss[i])
    ensures PutAll(RawAll(ss[i..])) == Put(raw) + PutAll(RawAll(ss[i + 1..]))
  {
    assert ss[i..][0] == ss[i] && ss[i..][1..] == ss[i + 1..];
    assert RawAll(ss[i..])[1..] == RawAll(ss[i + 1..]);
  }

  method WriteLongs(writer: BinaryWriter, ss: seq<string>)
    requires AllCanonical(ss)
    modifies writer
    ensures writer.buf == old(writer.buf) + PutAll(RawAll(ss)) && writer.stack == old(writer.stack)
  {
    for i := 0 to |ss|
      invariant writer.buf + PutAll(RawAll(ss[i..])) == old(writer.buf) + PutAll(RawAll(ss))
                && writer.stack == old(writer.stack)
    {
      ghost var before := writer.buf;
      var raw := RawOf(ss[i]);
      writer.WriteVarint(raw);
      OneLongLess(ss, i, raw);
      Assoc(before, Put(raw), PutAll(RawAll(ss[i + 1..])));
    }
    assert ss[|ss|..] == [];
  }

  method WritePacked(writer: BinaryWriter, tag: nat, ss: seq<string>)
    requires AllCanonical(ss)
    modifies writer
    ensures writer.buf == old(writer.buf) + BytesAll([Packed(tag, RawAll(ss))]) && writer.stack == old(writer.stack)
  {
    BytesOne(Packed(tag, RawAll(ss)));
    writer.WriteVarint(tag);
    writer.Fork();
    WriteLongs(writer, ss);
    writer.Join();
  }

  /** One field of the generated encode function. */
  method WriteField(writer: BinaryWriter, f: Field, v: Value)
    requires Conforms(f.kind, v)
    modifies writer
    ensures writer.buf == old(writer.buf) + BytesAll(FieldItems(f, v)) && writer.stack == old(writer.stack)
    decreases v, 0
  {
    var tag := Tag(f);
    match v
    case Int(n) =>
      if n != 0 { WriteNum(writer, tag, Raw(n)); }
    case Long(s) =>
      if s != "0" { WriteNum(writer, tag, RawOf(s)); }
    case OptLong(o) =>
      if o.Some? { WriteNum(writer, tag, RawOf(o.value)); }
    case Bool(b) =>
      if b { WriteNum(writer, tag, 1); }
    case Text(text) =>
      if |text| > 0 { WriteChunk(writer, tag, text); }
    case Texts(texts) => WriteTexts(writer, tag, texts);
    case Longs(ss) => WritePacked(writer, tag, ss);
    case Sub(m) =>
      if m.Some? {
        BytesOne(Child(tag, ItemsOf(f.kind.fields, m.value)));
        writer.WriteVarint(tag);
        writer.Fork();
        EncodeTo(writer, f.kind.fields, m.value);
        writer.Join();
      }
  }

  method WriteNum(writer: BinaryWriter, tag: nat, raw: nat)
    modifies writer
    ensures writer.buf == old(writer.buf) + BytesAll([Num(tag, raw)]) && writer.stack == old(writer.stack)
  {
    BytesOne(Num(tag, raw));
    writer.WriteVarint(tag);
    writer.WriteVarint(raw);
  }

  /** The generated encode function: the fields in order. */
  method EncodeTo(writer: BinaryWriter, schema: Schema, m: Record)
    requires ConformsAll(schema, m.values)
    modifies writer
    ensures writer.buf == old(writer.buf) + Wire.Encode(schema, m) && writer.stack == old(writer.stack)
    decreases m, 1
  {
    for i := 0 to |schema|
      invariant writer.buf == old(writer.buf) + BytesAll(ItemsUpTo(schema, m.values, i))
                && writer.stack == old(writer.stack)
    {
      BytesConcat(ItemsUpTo(schema, m.values, i), FieldItems(schema[i], m.values[i]));
      WriteField(writer, schema[i], m.values[i]);
    }
  }
}
