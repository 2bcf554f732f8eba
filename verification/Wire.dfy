/** The generated message codec, driven by the list of a message's fields: a decoder that walks tag by
    tag to a declared end, and an encoder that appends field by field. Text is held as its UTF-8 bytes. */
module Wire {
  import opened Wrappers
  import opened Varint

  // ---------------------------------------------------------------- fields and values

  /** Scalars are left out when they have their default; an optional one is left out when absent. A
      packed list is always written; a message field is left out when absent. */
  datatype Kind = KInt64 | KOptInt64 | KInt32 | KBool | KText | KTexts | KPacked | KMessage(fields: seq<Field>)

  datatype Field = Field(num: nat, kind: Kind)

  type Schema = seq<Field>

  datatype Value =
    | Int(n: int) | Long(s: string) | OptLong(o: Option<string>) | Bool(b: bool) | Text(text: Bytes)
    | Texts(texts: seq<Bytes>) | Longs(ss: seq<string>) | Sub(m: Option<Record>)

  datatype Record = Record(values: seq<Value>)

  function Default(k: Kind): Value {
    match k
    case KInt64 => Long("0")
    case KInt32 => Int(0)
    case KOptInt64 => OptLong(None)
    case KBool => Bool(false)
    case KText => Text([])
    case KTexts => Texts([])
    case KPacked => Longs([])
    case KMessage(_) => Sub(None)
  }

  function Base(schema: Schema): Record {
    Record(seq(|schema|, i requires 0 <= i < |schema| => Default(schema[i].kind)))
  }

  const VARINT: nat := 0
  const BIT64: nat := 1
  const LENGTH_DELIMITED: nat := 2
  const START_GROUP: nat := 3
  const END_GROUP: nat := 4
  const BIT32: nat := 5

  function WireType(k: Kind): nat {
    if k.KInt64? || k.KOptInt64? || k.KInt32? || k.KBool? then VARINT else LENGTH_DELIMITED
  }

  function Tag(f: Field): nat { f.num * 8 + WireType(f.kind) }

  /** A field takes its own tag; a packed list also takes elements one by one. */
  predicate Takes(f: Field, tag: nat) {
    tag == Tag(f) || (f.kind.KPacked? && tag == f.num * 8 + VARINT)
  }

  lemma TakesType(f: Field, tag: nat)
    requires Takes(f, tag)
    ensures tag % 8 == VARINT || tag % 8 == LENGTH_DELIMITED
    ensures tag % 8 == WireType(f.kind) || f.kind.KPacked?
  {}

  /** The switch on the field number, then the comparison with the whole tag. */
  function FieldFor(schema: Schema, tag: nat): (r: Option<nat>)
    ensures r.Some? ==> r.value < |schema| && Takes(schema[r.value], tag)
    ensures r.Some? ==> tag % 8 == VARINT || tag % 8 == LENGTH_DELIMITED
  {
    if |schema| == 0 then None
    else
      var last := |schema| - 1;
      if schema[last].num == tag / 8 then
        if Takes(schema[last], tag) then TakesType(schema[last], tag); Some(last) else None
      else FieldFor(schema[..last], tag)
  }

  // ---------------------------------------------------------------- reading

  type Read<T> = Result<(T, Bytes), WireError>

  function Take(n: nat, s: Bytes): (r: Read<Bytes>)
    ensures r.Ok? ==> |r.value.1| <= |s|
  {
    if n <= |s| then Ok((s[..n], s[n..])) else Err(PrematureEof)
  }

  /** Length, then as many bytes. */
  function ReadText(s: Bytes): (r: Read<Bytes>)
    ensures r.Ok? ==> |r.value.1| <= |s|
  {
    match Get(s, 0)
    case Err(e) => Err(e)
    case Ok((n, rest)) => Take(Uint32(n), rest)
  }

  /** Skipping a varint of any length. */
  function SkipVarint(s: Bytes): (r: Read<()>)
    ensures r.Ok? ==> |r.value.1| <= |s|
  {
    if |s| == 0 then Err(PrematureEof)
    else if s[0] < 128 then Ok(((), s[1..]))
    else SkipVarint(s[1..])
  }

  /** Skipping a payload; a group's end is compared with the field number when that is given. */
  function Skip(wireType: nat, number: Option<nat>, s: Bytes): (r: Read<()>)
    ensures r.Ok? ==> |r.value.1| <= |s|
    decreases |s|, 1
  {
    if wireType == VARINT then SkipVarint(s)
    else if wireType == BIT64 then match Take(8, s) case Err(e) => Err(e) case Ok((_, rest)) => Ok(((), rest))
    else if wireType == BIT32 then match Take(4, s) case Err(e) => Err(e) case Ok((_, rest)) => Ok(((), rest))
    else if wireType == LENGTH_DELIMITED then
      match ReadText(s) case Err(e) => Err(e) case Ok((_, rest)) => Ok(((), rest))
    else if wireType == START_GROUP then SkipGroup(number, s)
    else Err(UnsupportedWireType)
  }

  /** Fields until an end mark, whatever they are; inside a group an end mark must name its group. */
  function SkipGroup(number: Option<nat>, s: Bytes): (r: Read<()>)
    ensures r.Ok? ==> |r.value.1| <= |s|
    decreases |s|, 0
  {
    match Get(s, 0)
    case Err(e) => Err(e)
    case Ok((raw, rest)) =>
      var tag := Uint32(raw);
      if tag < 8 || tag % 8 > BIT32 then Err(IllegalTag)
      else if tag % 8 == END_GROUP then
        if number.Some? && number.value != tag / 8 then Err(InvalidEndGroup) else Ok(((), rest))
      else match Skip(tag % 8, Some(tag / 8), rest)
        case Err(e) => Err(e)
        case Ok((_, rest')) => SkipGroup(number, rest')
  }

  /** Varints until the given number of bytes has been passed. */
  function ReadLongs(s: Bytes, left: int, ss: seq<string>): (r: Read<seq<string>>)
    ensures r.Ok? ==> |r.value.1| <= |s|
    decreases |s|
  {
    if left <= 0 then Ok((ss, s))
    else match Get(s, 0)
      case Err(e) => Err(e)
      case Ok((raw, rest)) => ReadLongs(rest, left - (|s| - |rest|), ss + [Numeral(raw)])
  }

  function OldTexts(v: Value): seq<Bytes> { if v.Texts? then v.texts else [] }

  function OldLongs(v: Value): seq<string> { if v.Longs? then v.ss else [] }

  function OfVarint(k: Kind, old_: Value, raw: nat): Value {
    match k
    case KInt64 => Long(Numeral(raw))
    case KOptInt64 => OptLong(Some(Numeral(raw)))
    case KInt32 => Int(ToInt32(raw))
    case KBool => Bool(ToBool(raw))
    case KPacked => Longs(OldLongs(old_) + [Numeral(raw)])
    case _ => old_
  }

  function OfText(k: Kind, old_: Value, text: Bytes): Value {
    if k.KTexts? then Texts(OldTexts(old_) + [text]) else Text(text)
  }

  /** The payload of a field that took this tag. */
  function ReadField(k: Kind, tag: nat, old_: Value, s: Bytes): (r: Read<Value>)
    ensures r.Ok? ==> |r.value.1| <= |s|
    decreases |s|, 0
  {
    if tag % 8 == VARINT then
      match Get(s, 0)
      case Err(e) => Err(e)
      case Ok((raw, rest)) => Ok((OfVarint(k, old_, raw), rest))
    else match k
      case KMessage(fields) =>
        (match Get(s, 0)
         case Err(e) => Err(e)
         case Ok((n, rest)) =>
           match Decode(fields, rest, Uint32(n), Base(fields))
           case Err(e) => Err(e)
           case Ok((m, rest')) => Ok((Sub(Some(m)), rest')))
      case KPacked =>
        (match Get(s, 0)
         case Err(e) => Err(e)
         case Ok((n, rest)) =>
           match ReadLongs(rest, Uint32(n), OldLongs(old_))
           case Err(e) => Err(e)
           case Ok((ss, rest')) => Ok((Longs(ss), rest')))
      case _ =>
        match ReadText(s)
        case Err(e) => Err(e)
        case Ok((text, rest)) => Ok((OfText(k, old_, text), rest))
  }

  /** One turn of the decoding loop: a field taken in or passed over, or an end mark. */
  datatype Turn = Stop(m: Record) | Next(m: Record)

  function TakeTurn(schema: Schema, s: Bytes, m: Record): (r: Read<Turn>)
    requires |m.values| == |schema|
    ensures r.Ok? ==> |r.value.1| < |s| && |r.value.0.m.values| == |schema|
    decreases |s|, 2
  {
    match Get(s, 0)
    case Err(e) => Err(e)
    case Ok((raw, rest)) => TurnFor(schema, Uint32(raw), rest, m)
  }

  function TurnFor(schema: Schema, tag: nat, s: Bytes, m: Record): (r: Read<Turn>)
    requires |m.values| == |schema|
    ensures r.Ok? ==> |r.value.1| <= |s| && |r.value.0.m.values| == |schema|
    decreases |s|, 1
  {
    match FieldFor(schema, tag)
    case Some(i) =>
      (match ReadField(schema[i].kind, tag, m.values[i], s)
       case Err(e) => Err(e)
       case Ok((v, rest)) => Ok((Next(m.(values := m.values[i := v])), rest)))
    case None =>
      if tag % 8 == END_GROUP || tag == 0 then Ok((Stop(m), s))
      else match Skip(tag % 8, None, s)
        case Err(e) => Err(e)
        case Ok((_, rest)) => Ok((Next(m), rest))
  }

  /** The decoding loop: turns until left bytes have been passed, or an end mark. The buffer may go on
      beyond; that is where the message's own reader is then left. */
  function Decode(schema: Schema, s: Bytes, left: int, m: Record): (r: Read<Record>)
    requires |m.values| == |schema|
    ensures r.Ok? ==> |r.value.1| <= |s| && |r.value.0.values| == |schema|
    decreases |s|, 3
  {
    if left <= 0 then Ok((m, s))
    else match TakeTurn(schema, s, m)
      case Err(e) => Err(e)
      case Ok((Stop(m'), rest)) => Ok((m', rest))
      case Ok((Next(m'), rest)) => Decode(schema, rest, left - (|s| - |rest|), m')
  }

  function DecodeMessage(schema: Schema, s: Bytes): Result<Record, WireError> {
    match Decode(schema, s, |s|, Base(schema))
    case Err(e) => Err(e)
    case Ok((m, _)) => Ok(m)
  }

  // ---------------------------------------------------------------- what a message's bytes mean

  /** One field occurrence on the wire, whether or not the reader knows its tag. */
  datatype Item =
    | Num(tag: nat, raw: nat)
    | Fixed(tag: nat, bytes: Bytes)
    | Chunk(tag: nat, bytes: Bytes)
    | Packed(tag: nat, raws: seq<nat>)
    | Child(tag: nat, items: seq<Item>)
    | Group(tag: nat, items: seq<Item>, endTag: nat)

  function PutAll(raws: seq<nat>): Bytes {
    if |raws| == 0 then [] else Put(raws[0]) + PutAll(raws[1..])
  }

  function Payload(item: Item): Bytes
    decreases item, 0
  {
    match item
    case Num(_, raw) => Put(raw)
    case Fixed(_, bytes) => bytes
    case Chunk(_, bytes) => Put(|bytes|) + bytes
    case Packed(_, raws) => Put(|PutAll(raws)|) + PutAll(raws)
    case Child(_, items) => Put(|BytesAll(items)|) + BytesAll(items)
    case Group(_, items, endTag) => BytesAll(items) + Put(endTag)
  }

  function BytesOf(item: Item): (s: Bytes)
    ensures |s| > 0
    decreases item, 1
  {
    Put(item.tag) + Payload(item)
  }

  function BytesAll(items: seq<Item>): Bytes
    decreases items
  {
    if |items| == 0 then [] else BytesOf(items[0]) + BytesAll(items[1..])
  }

  predicate Raws(raws: seq<nat>) {
    forall i :: 0 <= i < |raws| ==> raws[i] < TWO64
  }

  predicate Known(schema: Schema, item: Item) {
    FieldFor(schema, item.tag).Some?
  }

  function KindOf(schema: Schema, item: Item): Kind
    requires Known(schema, item)
  {
    schema[FieldFor(schema, item.tag).value].kind
  }

  /** Well-formed inside a group, where nothing is known: any payload of its wire type, and groups that
      end with their own number. */
  predicate Loose(item: Item)
    decreases item
  {
    && 8 <= item.tag < TWO32
    && match item
       case Num(tag, raw) => tag % 8 == VARINT
       case Fixed(tag, bytes) => (tag % 8 == BIT64 && |bytes| == 8) || (tag % 8 == BIT32 && |bytes| == 4)
       case Chunk(tag, bytes) => tag % 8 == LENGTH_DELIMITED && |bytes| < TWO32
       case Packed(_, _) => false
       case Child(_, _) => false
       case Group(tag, items, endTag) => tag % 8 == START_GROUP && endTag == tag + 1 && AllLoose(items)
  }

  predicate AllLoose(items: seq<Item>)
    decreases items
  {
    |items| > 0 ==> Loose(items[0]) && AllLoose(items[1..])
  }

  /** Well-formed for this schema: a known tag comes with its own kind of payload, an unknown one with
      any payload of its wire type. The outermost group may end with any number. */
  predicate Fits(schema: Schema, item: Item)
    decreases item
  {
    && 0 < item.tag < TWO32
    && match item
       case Num(tag, raw) => tag % 8 == VARINT && raw < TWO64
       case Fixed(tag, bytes) => (tag % 8 == BIT64 && |bytes| == 8) || (tag % 8 == BIT32 && |bytes| == 4)
       case Chunk(tag, bytes) =>
         && tag % 8 == LENGTH_DELIMITED && |bytes| < TWO32
         && (Known(schema, item) ==> KindOf(schema, item).KText? || KindOf(schema, item).KTexts?)
       case Packed(tag, raws) =>
         && tag % 8 == LENGTH_DELIMITED && |PutAll(raws)| < TWO32 && Raws(raws)
         && Known(schema, item) && KindOf(schema, item).KPacked?
       case Child(tag, items) =>
         && tag % 8 == LENGTH_DELIMITED && |BytesAll(items)| < TWO32
         && Known(schema, item) && KindOf(schema, item).KMessage?
         && AllFit(KindOf(schema, item).fields, items)
       case Group(tag, items, endTag) =>
         && tag % 8 == START_GROUP && 8 <= endTag < TWO32 && endTag % 8 == END_GROUP && AllLoose(items)
  }

  predicate AllFit(schema: Schema, items: seq<Item>)
    decreases items
  {
    |items| > 0 ==> Fits(schema, items[0]) && AllFit(schema, items[1..])
  }

  function Numerals(raws: seq<nat>): seq<string> {
    if |raws| == 0 then [] else [Numeral(raws[0])] + Numerals(raws[1..])
  }

  /** What one item does to a value of its kind. */
  function Merge(k: Kind, old_: Value, item: Item): Value
    decreases item, 0
  {
    match item
    case Num(_, raw) => OfVarint(k, old_, raw)
    case Fixed(_, _) => old_
    case Chunk(_, bytes) => OfText(k, old_, bytes)
    case Packed(_, raws) => Longs(OldLongs(old_) + Numerals(raws))
    case Child(_, items) => if k.KMessage? then Sub(Some(ApplyAll(k.fields, Base(k.fields), items))) else old_
    case Group(_, _, _) => old_
  }

  /** What one item does to a message: nothing, if its tag is unknown. */
  function Apply(schema: Schema, m: Record, item: Item): (m': Record)
    requires |m.values| == |schema|
    ensures |m'.values| == |schema|
    decreases item, 1
  {
    match FieldFor(schema, item.tag)
    case None => m
    case Some(i) => m.(values := m.values[i := Merge(schema[i].kind, m.values[i], item)])
  }

  function ApplyAll(schema: Schema, m: Record, items: seq<Item>): (m': Record)
    requires |m.values| == |schema|
    ensures |m'.values| == |schema|
    decreases items
  {
    if |items| == 0 then m else ApplyAll(schema, Apply(schema, m, items[0]), items[1..])
  }

  // ---------------------------------------------------------------- decoding follows that meaning

  lemma Assoc(a: Bytes, b: Bytes, c: Bytes)
    ensures a + b + c == a + (b + c)
  {}

  lemma TakeText(bytes: Bytes, tail: Bytes)
    requires |bytes| < TWO32
    ensures ReadText(Put(|bytes|) + bytes + tail) == Ok((bytes, tail))
  {
    SmallUint32(|bytes|);
    Assoc(Put(|bytes|), bytes, tail);
    RoundTrip(|bytes|, bytes + tail);
    TakeFront(bytes, tail);
  }

  lemma TakeFront(bytes: Bytes, tail: Bytes)
    ensures Take(|bytes|, bytes + tail) == Ok((bytes, tail))
  {
    assert (bytes + tail)[..|bytes|] == bytes && (bytes + tail)[|bytes|..] == tail;
  }

  lemma {:induction false} SkipPut(n: nat, tail: Bytes)
    ensures SkipVarint(Put(n) + tail) == Ok(((), tail))
  {
    var s := Put(n) + tail;
    if n < 128 {
      assert s[1..] == tail;
    } else {
      assert s[1..] == Put(n / 128) + tail;
      SkipPut(n / 128, tail);
    }
  }

  lemma {:induction false} ReadPacked(raws: seq<nat>, tail: Bytes, ss: seq<string>)
    requires Raws(raws)
    ensures ReadLongs(PutAll(raws) + tail, |PutAll(raws)|, ss) == Ok((ss + Numerals(raws), tail))
  {
    if |raws| == 0 {
      assert [] + tail == tail && ss + [] == ss;
    } else {
      Assoc(Put(raws[0]), PutAll(raws[1..]), tail);
      RoundTrip(raws[0], PutAll(raws[1..]) + tail);
      ReadPacked(raws[1..], tail, ss + [Numeral(raws[0])]);
      assert ss + [Numeral(raws[0])] + Numerals(raws[1..]) == ss + Numerals(raws);
    }
  }

  lemma SmallUint32(n: nat)
    requires n < TWO32
    ensures Uint32(n) == n && n < TWO64
  {}

  /** Reading the payload of an item whose tag is known. */
  lemma {:induction false} ReadKnown(k: Kind, old_: Value, item: Item, schema: Schema, tail: Bytes)
    requires Fits(schema, item) && Known(schema, item) && k == KindOf(schema, item)
    ensures ReadField(k, item.tag, old_, Payload(item) + tail) == Ok((Merge(k, old_, item), tail))
    decreases item, 0
  {
    match item
    case Num(_, raw) => RoundTrip(raw, tail);
    case Fixed(_, _) => assert false;
    case Chunk(_, bytes) => TakeText(bytes, tail);
    case Packed(_, raws) =>
      SmallUint32(|PutAll(raws)|);
      Assoc(Put(|PutAll(raws)|), PutAll(raws), tail);
      RoundTrip(|PutAll(raws)|, PutAll(raws) + tail);
      ReadPacked(raws, tail, OldLongs(old_));
    case Child(_, items) =>
      SmallUint32(|BytesAll(items)|);
      Assoc(Put(|BytesAll(items)|), BytesAll(items), tail);
      RoundTrip(|BytesAll(items)|, BytesAll(items) + tail);
      DecodeItems(k.fields, items, tail, Base(k.fields));
    case Group(_, _, _) => assert false;
  }

  lemma ReadSmallTag(tag: nat, tail: Bytes)
    requires tag < TWO32
    ensures Get(Put(tag) + tail, 0) == Ok((tag, tail)) && Uint32(tag) == tag
  {
    SmallUint32(tag);
    RoundTrip(tag, tail);
  }

  lemma {:induction false} SkipLoose(item: Item, tail: Bytes)
    requires Loose(item)
    ensures Skip(item.tag % 8, Some(item.tag / 8), Payload(item) + tail) == Ok(((), tail))
    decreases item
  {
    match item
    case Num(_, raw) => SkipPut(raw, tail);
    case Fixed(_, bytes) => TakeFront(bytes, tail);
    case Chunk(_, bytes) => TakeText(bytes, tail);
    case Group(tag, items, endTag) => SkipItems(Some(tag / 8), items, endTag, tail);
  }

  /** A group is skipped to its own end mark, groups inside it included. */
  lemma {:induction false} SkipItems(number: Option<nat>, items: seq<Item>, endTag: nat, tail: Bytes)
    requires AllLoose(items) && 8 <= endTag < TWO32 && endTag % 8 == END_GROUP
    requires number.Some? ==> number.value == endTag / 8
    ensures SkipGroup(number, BytesAll(items) + Put(endTag) + tail) == Ok(((), tail))
    decreases items
  {
    if |items| == 0 {
      assert [] + Put(endTag) + tail == Put(endTag) + tail;
      ReadSmallTag(endTag, tail);
    } else {
      var first, rest := items[0], BytesAll(items[1..]) + Put(endTag) + tail;
      GroupSplits(first, items, endTag, tail, rest);
      ReadSmallTag(first.tag, Payload(first) + rest);
      SkipLoose(first, rest);
      SkipItems(number, items[1..], endTag, tail);
    }
  }

  lemma GroupSplits(first: Item, items: seq<Item>, endTag: nat, tail: Bytes, rest: Bytes)
    requires |items| > 0 && first == items[0] && rest == BytesAll(items[1..]) + Put(endTag) + tail
    ensures BytesAll(items) + Put(endTag) + tail == Put(first.tag) + (Payload(first) + rest)
  {}

  /** Skipping the payload of an item whose tag is unknown. */
  lemma SkipUnknown(item: Item, schema: Schema, tail: Bytes)
    requires Fits(schema, item) && !Known(schema, item)
    ensures Skip(item.tag % 8, None, Payload(item) + tail) == Ok(((), tail))
  {
    match item
    case Num(_, raw) => SkipPut(raw, tail);
    case Fixed(_, bytes) => TakeFront(bytes, tail);
    case Chunk(_, bytes) => TakeText(bytes, tail);
    case Group(_, items, endTag) => SkipItems(None, items, endTag, tail);
  }

  lemma ReadTag(schema: Schema, item: Item, tail: Bytes, m: Record)
    requires |m.values| == |schema| && item.tag < TWO32
    ensures TakeTurn(schema, BytesOf(item) + tail, m) == TurnFor(schema, item.tag, Payload(item) + tail, m)
  {
    Assoc(Put(item.tag), Payload(item), tail);
    SmallUint32(item.tag);
    RoundTrip(item.tag, Payload(item) + tail);
  }

  /** One item takes one turn. */
  lemma TurnItem(schema: Schema, item: Item, tail: Bytes, m: Record)
    requires |m.values| == |schema| && Fits(schema, item)
    ensures TakeTurn(schema, BytesOf(item) + tail, m) == Ok((Next(Apply(schema, m, item)), tail))
    decreases item, 1
  {
    ReadTag(schema, item, tail, m);
    match FieldFor(schema, item.tag)
    case Some(i) => ReadKnown(schema[i].kind, m.values[i], item, schema, tail);
    case None => SkipUnknown(item, schema, tail);
  }

  /** A run of well-formed items decodes to what they mean, and takes exactly their bytes, whatever
      follows. */
  lemma {:induction false} DecodeItems(schema: Schema, items: seq<Item>, tail: Bytes, m: Record)
    requires |m.values| == |schema| && AllFit(schema, items)
    ensures Decode(schema, BytesAll(items) + tail, |BytesAll(items)|, m) == Ok((ApplyAll(schema, m, items), tail))
    decreases items
  {
    if |items| == 0 {
      assert [] + tail == tail;
    } else {
      var rest := BytesAll(items[1..]);
      Assoc(BytesOf(items[0]), rest, tail);
      TurnItem(schema, items[0], rest + tail, m);
      DecodeItems(schema, items[1..], tail, Apply(schema, m, items[0]));
    }
  }

  // ---------------------------------------------------------------- encoding

  predicate AllCanonical(ss: seq<string>) {
    forall i :: 0 <= i < |ss| ==> Canonical(ss[i])
  }

  predicate Conforms(k: Kind, v: Value)
    decreases v, 0
  {
    match k
    case KInt64 => v.Long? && Canonical(v.s)
    case KInt32 => v.Int? && Int32(v.n)
    case KOptInt64 => v.OptLong? && (v.o.Some? ==> Canonical(v.o.value))
    case KBool => v.Bool?
    case KText => v.Text?
    case KTexts => v.Texts?
    case KPacked => v.Longs? && AllCanonical(v.ss)
    case KMessage(fields) => v.Sub? && (v.m.Some? ==> ConformsAll(fields, v.m.value.values))
  }

  /** One value of the right kind for every field. */
  predicate ConformsAll(schema: Schema, values: seq<Value>)
    decreases values
  {
    && |values| == |schema|
    && forall i :: 0 <= i < |values| ==> Conforms(schema[i].kind, values[i])
  }

  /** Field numbers are distinct and make 32-bit tags. */
  predicate SchemaOk(schema: Schema)
    decreases schema
  {
    && (forall i :: 0 <= i < |schema| ==> FieldOk(schema[i]))
    && (forall i, j :: 0 <= i < j < |schema| ==> schema[i].num != schema[j].num)
  }

  predicate FieldOk(f: Field)
    decreases f
  {
    0 < f.num < 0x2000_0000 && (f.kind.KMessage? ==> SchemaOk(f.kind.fields))
  }

  function Chunks(tag: nat, texts: seq<Bytes>): seq<Item> {
    if |texts| == 0 then [] else Chunks(tag, texts[..|texts| - 1]) + [Chunk(tag, texts[|texts| - 1])]
  }

  function RawAll(ss: seq<string>): seq<nat>
    requires AllCanonical(ss)
  {
    if |ss| == 0 then [] else [RawOf(ss[0])] + RawAll(ss[1..])
  }

  /** What is written for one field: nothing for a scalar at its default or an absent field, but always
      something for a packed list, be it empty. */
  function FieldItems(f: Field, v: Value): seq<Item>
    requires Conforms(f.kind, v)
    decreases v, 0
  {
    var tag := Tag(f);
    match v
    case Int(n) => if n == 0 then [] else [Num(tag, Raw(n))]
    case Long(s) => if s == "0" then [] else [Num(tag, RawOf(s))]
    case OptLong(o) => (match o case None => [] case Some(s) => [Num(tag, RawOf(s))])
    case Bool(b) => if b then [Num(tag, 1)] else []
    case Text(text) => if |text| == 0 then [] else [Chunk(tag, text)]
    case Texts(texts) => Chunks(tag, texts)
    case Longs(ss) => [Packed(tag, RawAll(ss))]
    case Sub(m) =>
      (match m case None => [] case Some(r) => [Child(tag, ItemsUpTo(f.kind.fields, r.values, |r.values|))])
  }

  /** What is left out: a field at its default, unless it is a packed list. */
  lemma WrittenIff(f: Field, v: Value)
    requires Conforms(f.kind, v)
    ensures FieldItems(f, v) == [] <==> v == Default(f.kind) && !f.kind.KPacked?
  {
    if v.Texts? && |v.texts| > 0 { assert |Chunks(Tag(f), v.texts)| > 0; }
  }

  function ItemsUpTo(schema: Schema, values: seq<Value>, n: nat): seq<Item>
    requires ConformsAll(schema, values) && n <= |schema|
    decreases values, n
  {
    if n == 0 then [] else ItemsUpTo(schema, values, n - 1) + FieldItems(schema[n - 1], values[n - 1])
  }

  function ItemsOf(schema: Schema, m: Record): seq<Item>
    requires ConformsAll(schema, m.values)
  {
    ItemsUpTo(schema, m.values, |schema|)
  }

  function Encode(schema: Schema, m: Record): Bytes
    requires ConformsAll(schema, m.values)
  {
    BytesAll(ItemsOf(schema, m))
  }

  // ---------------------------------------------------------------- round trip

  lemma {:induction false} BytesConcat(a: seq<Item>, b: seq<Item>)
    ensures BytesAll(a + b) == BytesAll(a) + BytesAll(b)
  {
    if |a| == 0 {
      assert a + b == b;
    } else {
      assert (a + b)[1..] == a[1..] + b;
      BytesConcat(a[1..], b);
    }
  }

  lemma {:induction false} FitConcat(schema: Schema, a: seq<Item>, b: seq<Item>)
    requires AllFit(schema, a) && AllFit(schema, b)
    ensures AllFit(schema, a + b)
  {
    if |a| == 0 {
      assert a + b == b;
    } else {
      assert (a + b)[1..] == a[1..] + b;
      FitConcat(schema, a[1..], b);
    }
  }

  lemma {:induction false} ApplyConcat(schema: Schema, m: Record, a: seq<Item>, b: seq<Item>)
    requires |m.values| == |schema|
    ensures ApplyAll(schema, m, a + b) == ApplyAll(schema, ApplyAll(schema, m, a), b)
    decreases |a|
  {
    if |a| == 0 {
      assert a + b == b;
    } else {
      assert (a + b)[1..] == a[1..] + b;
      ApplyConcat(schema, Apply(schema, m, a[0]), a[1..], b);
    }
  }

  lemma {:induction false} FindTag(schema: Schema, n: nat, i: nat, tag: nat)
    requires i < n <= |schema| && Takes(schema[i], tag)
    requires forall i, j :: 0 <= i < j < |schema| ==> schema[i].num != schema[j].num
    ensures FieldFor(schema[..n], tag) == Some(i)
  {
    TagNum(schema[i], tag);
    if i < n - 1 {
      assert schema[..n][..n - 1] == schema[..n - 1];
      FindTag(schema, n - 1, i, tag);
    }
  }

  lemma TagNum(f: Field, tag: nat)
    requires Takes(f, tag)
    ensures tag / 8 == f.num
  {}

  lemma OwnTag(schema: Schema, i: nat)
    requires SchemaOk(schema) && i < |schema|
    ensures FieldFor(schema, Tag(schema[i])) == Some(i) && 0 < Tag(schema[i]) < TWO32
    ensures Tag(schema[i]) % 8 == WireType(schema[i].kind)
  {
    FindTag(schema, |schema|, i, Tag(schema[i]));
    assert schema[..|schema|] == schema;
  }

  lemma ApplyOwn(schema: Schema, m: Record, i: nat, item: Item)
    requires SchemaOk(schema) && i < |schema| == |m.values| && item.tag == Tag(schema[i])
    ensures Apply(schema, m, item) == m.(values := m.values[i := Merge(schema[i].kind, m.values[i], item)])
  {
    OwnTag(schema, i);
  }

  lemma {:induction false} RawsBack(ss: seq<string>)
    requires AllCanonical(ss)
    ensures Raws(RawAll(ss)) && Numerals(RawAll(ss)) == ss
  {
    if |ss| > 0 {
      NumeralsComeBack(ss[0], 0);
      RawsBack(ss[1..]);
      assert RawAll(ss)[1..] == RawAll(ss[1..]);
    }
  }

  lemma OneItem(schema: Schema, m: Record, i: nat, item: Item)
    requires |m.values| == |schema| && FieldFor(schema, item.tag) == Some(i) && Fits(schema, item)
    ensures AllFit(schema, [item])
    ensures ApplyAll(schema, m, [item]) == m.(values := m.values[i := Merge(schema[i].kind, m.values[i], item)])
  {
    assert [item][1..] == [];
  }

  lemma Unchanged(values: seq<Value>, i: nat)
    requires i < |values|
    ensures values[i := values[i]] == values
  {}

  lemma BytesOne(item: Item)
    ensures BytesAll([item]) == BytesOf(item)
  {
    assert [item][1..] == [] && BytesOf(item) + [] == BytesOf(item);
  }

  lemma ThenApply(schema: Schema, m: Record, a: seq<Item>, m1: Record, b: seq<Item>, m2: Record)
    requires |m.values| == |schema| && AllFit(schema, a) && ApplyAll(schema, m, a) == m1
    requires AllFit(schema, b) && ApplyAll(schema, m1, b) == m2
    ensures AllFit(schema, a + b) && ApplyAll(schema, m, a + b) == m2
  {
    FitConcat(schema, a, b);
    ApplyConcat(schema, m, a, b);
  }

  lemma OneMore(values: seq<Value>, base: seq<Value>, n: nat)
    requires 0 < n <= |values| == |base|
    ensures (values[..n - 1] + base[n - 1..])[n - 1] == base[n - 1]
    ensures (values[..n - 1] + base[n - 1..])[n - 1 := values[n - 1]] == values[..n] + base[n..]
  {}

  lemma ChunkMore(schema: Schema, m: Record, m': Record, i: nat, item: Item, texts: seq<Bytes>, n: nat)
    requires |m.values| == |schema| && FieldFor(schema, item.tag) == Some(i) && schema[i].kind.KTexts?
             && Fits(schema, item)
    requires n + 1 == |texts| && item.Chunk? && item.bytes == texts[n]
             && m' == m.(values := m.values[i := Texts(texts[..n])])
    ensures AllFit(schema, [item]) && ApplyAll(schema, m', [item]) == m.(values := m.values[i := Texts(texts)])
  {
    OneItem(schema, m', i, item);
    assert texts[..n] + [texts[n]] == texts;
    assert m'.values[i := Texts(texts)] == m.values[i := Texts(texts)];
  }

  lemma {:induction false} ChunksBack(schema: Schema, m: Record, i: nat, tag: nat, texts: seq<Bytes>)
    requires |m.values| == |schema| && FieldFor(schema, tag) == Some(i) && schema[i].kind.KTexts?
    requires 0 < tag < TWO32 && tag % 8 == LENGTH_DELIMITED && m.values[i] == Texts([])
    requires |BytesAll(Chunks(tag, texts))| < TWO32
    ensures AllFit(schema, Chunks(tag, texts))
    ensures ApplyAll(schema, m, Chunks(tag, texts)) == m.(values := m.values[i := Texts(texts)])
  {
    if |texts| == 0 {
      Unchanged(m.values, i);
    } else {
      var n := |texts| - 1;
      var first, item := Chunks(tag, texts[..n]), Chunk(tag, texts[n]);
      BytesConcat(first, [item]);
      BytesOne(item);
      ChunksBack(schema, m, i, tag, texts[..n]);
      var m' := m.(values := m.values[i := Texts(texts[..n])]);
      ChunkMore(schema, m, m', i, item, texts, n);
      ThenApply(schema, m, first, m', [item], m.(values := m.values[i := Texts(texts)]));
    }
  }

  lemma NumeralBack(schema: Schema, i: nat, s: string, m: Record)
    requires SchemaOk(schema) && i < |schema| == |m.values| && Canonical(s)
    requires schema[i].kind.KInt64? || schema[i].kind.KOptInt64?
    ensures var item := Num(Tag(schema[i]), RawOf(s));
            AllFit(schema, [item]) && ApplyAll(schema, m, [item]) ==
              m.(values := m.values[i := if schema[i].kind.KInt64? then Long(s) else OptLong(Some(s))])
  {
    OwnTag(schema, i);
    NumeralsComeBack(s, 0);
    OneItem(schema, m, i, Num(Tag(schema[i]), RawOf(s)));
  }

  lemma PackedBack(schema: Schema, i: nat, ss: seq<string>, m: Record)
    requires SchemaOk(schema) && i < |schema| == |m.values| && AllCanonical(ss)
    requires schema[i].kind.KPacked? && m.values[i] == Longs([])
    requires |BytesAll([Packed(Tag(schema[i]), RawAll(ss))])| < TWO32
    ensures var item := Packed(Tag(schema[i]), RawAll(ss));
            AllFit(schema, [item]) && ApplyAll(schema, m, [item]) == m.(values := m.values[i := Longs(ss)])
  {
    var item := Packed(Tag(schema[i]), RawAll(ss));
    OwnTag(schema, i);
    RawsBack(ss);
    assert [] + ss == ss;
    BytesOne(item);
    OneItem(schema, m, i, item);
  }

  /** What is written for a field puts its value back where the field had its default. */
  lemma {:induction false} FieldBack(schema: Schema, i: nat, v: Value, m: Record)
    requires SchemaOk(schema) && i < |schema| == |m.values| && Conforms(schema[i].kind, v)
    requires m.values[i] == Default(schema[i].kind) && |BytesAll(FieldItems(schema[i], v))| < TWO32
    ensures AllFit(schema, FieldItems(schema[i], v))
    ensures ApplyAll(schema, m, FieldItems(schema[i], v)) == m.(values := m.values[i := v])
    decreases v, 1
  {
    var f := schema[i];
    OwnTag(schema, i);
    Unchanged(m.values, i);
    match v
    case Int(n) =>
      IntegersComeBack(n);
      if n != 0 { OneItem(schema, m, i, Num(Tag(f), Raw(n))); }
    case Long(s) =>
      if s != "0" { NumeralBack(schema, i, s, m); }
    case OptLong(o) =>
      if o.Some? { NumeralBack(schema, i, o.value, m); }
    case Bool(b) => if b { OneItem(schema, m, i, Num(Tag(f), 1)); }
    case Text(text) =>
      if |text| > 0 {
        BytesOne(Chunk(Tag(f), text));
        OneItem(schema, m, i, Chunk(Tag(f), text));
      }
    case Texts(texts) => ChunksBack(schema, m, i, Tag(f), texts);
    case Longs(ss) => PackedBack(schema, i, ss, m);
    case Sub(r) =>
      if r.Some? { ChildBack(schema, i, r.value, m); }
  }

  lemma {:induction false} ChildBack(schema: Schema, i: nat, r: Record, m: Record)
    requires SchemaOk(schema) && i < |schema| == |m.values| && schema[i].kind.KMessage?
    requires ConformsAll(schema[i].kind.fields, r.values) && m.values[i] == Sub(None)
    requires |BytesAll([Child(Tag(schema[i]), ItemsOf(schema[i].kind.fields, r))])| < TWO32
    ensures var item := Child(Tag(schema[i]), ItemsOf(schema[i].kind.fields, r));
            AllFit(schema, [item]) && ApplyAll(schema, m, [item]) == m.(values := m.values[i := Sub(Some(r))])
    decreases r, 0
  {
    var fields := schema[i].kind.fields;
    var item := Child(Tag(schema[i]), ItemsOf(fields, r));
    assert FieldOk(schema[i]);
    OwnTag(schema, i);
    BytesOne(item);
    FieldsBack(fields, r.values, |fields|);
    assert r.values[..|fields|] + Base(fields).values[|fields|..] == r.values;
    OneItem(schema, m, i, item);
  }

  lemma {:induction false} FieldAdds(schema: Schema, values: seq<Value>, n: nat, m: Record, m': Record)
    requires SchemaOk(schema) && ConformsAll(schema, values) && 0 < n <= |schema|
    requires m == Record(values[..n - 1] + Base(schema).values[n - 1..])
             && m' == Record(values[..n] + Base(schema).values[n..])
    requires |BytesAll(FieldItems(schema[n - 1], values[n - 1]))| < TWO32
    ensures AllFit(schema, FieldItems(schema[n - 1], values[n - 1]))
    ensures ApplyAll(schema, m, FieldItems(schema[n - 1], values[n - 1])) == m'
    decreases values, n, 0
  {
    OneMore(values, Base(schema).values, n);
    FieldBack(schema, n - 1, values[n - 1], m);
  }

  lemma {:induction false} FieldsBack(schema: Schema, values: seq<Value>, n: nat)
    requires SchemaOk(schema) && ConformsAll(schema, values) && n <= |schema|
    requires |BytesAll(ItemsUpTo(schema, values, n))| < TWO32
    ensures AllFit(schema, ItemsUpTo(schema, values, n))
    ensures ApplyAll(schema, Base(schema), ItemsUpTo(schema, values, n)) ==
            Record(values[..n] + Base(schema).values[n..])
    decreases values, n, 1
  {
    if n == 0 {
      assert values[..0] + Base(schema).values[0..] == Base(schema).values;
    } else {
      var before, items := ItemsUpTo(schema, values, n - 1), FieldItems(schema[n - 1], values[n - 1]);
      var m := Record(values[..n - 1] + Base(schema).values[n - 1..]);
      var m' := Record(values[..n] + Base(schema).values[n..]);
      BytesConcat(before, items);
      FieldsBack(schema, values, n - 1);
      FieldAdds(schema, values, n, m, m');
      ThenApply(schema, Base(schema), before, m, items, m');
    }
  }

  /** Every message comes back from its own bytes, with everything nested in it, and reading it takes
      exactly those bytes, whatever follows them. */
  lemma DecodeEncode(schema: Schema, m: Record, tail: Bytes)
    requires SchemaOk(schema) && ConformsAll(schema, m.values) && |Encode(schema, m)| < TWO32
    ensures Decode(schema, Encode(schema, m) + tail, |Encode(schema, m)|, Base(schema)) == Ok((m, tail))
  {
    FieldsBack(schema, m.values, |schema|);
    assert m.values[..|schema|] + Base(schema).values[|schema|..] == m.values;
    DecodeItems(schema, ItemsOf(schema, m), tail, Base(schema));
  }
}
