/** The chat message and its bodies, as the lists of fields their generated codecs walk. A 64-bit number
    is carried as a decimal string. */
module Messages {
  import opened Wrappers
  import opened Varint
  import opened Wire
  import Tolerance
  import WireIO

  // ---------------------------------------------------------------- field lists

  const CONVERSATION_TARGET: Schema := [Field(1, KOptInt64), Field(2, KOptInt64)]
  const TEXT_BODY: Schema := [Field(1, KText)]
  const IMAGE_BODY: Schema :=
    [Field(1, KInt64), Field(2, KInt64), Field(3, KInt32), Field(4, KInt32), Field(5, KText), Field(6, KText)]
  const SYSTEM_BODY: Schema := [Field(1, KText)]
  const FILE_BODY: Schema := [Field(1, KInt64), Field(2, KText), Field(3, KInt64), Field(4, KText)]
  const RECALL_BODY: Schema := [Field(1, KText), Field(2, KInt64), Field(3, KInt64), Field(4, KText)]
  const QUOTE_BODY: Schema := [Field(1, KText), Field(2, KText), Field(3, KMessage(TEXT_BODY))]
  const FORWARD_BODY: Schema := [Field(1, KTexts), Field(2, KText)]
  const MARKDOWN_BODY: Schema := [Field(1, KText)]
  const MENTION_BODY: Schema := [Field(1, KText), Field(2, KPacked), Field(3, KBool)]
  const MESSAGE_BODY: Schema :=
    [Field(1, KMessage(TEXT_BODY)), Field(2, KMessage(IMAGE_BODY)), Field(3, KMessage(SYSTEM_BODY)),
     Field(4, KMessage(FILE_BODY)), Field(5, KMessage(RECALL_BODY)), Field(6, KMessage(QUOTE_BODY)),
     Field(7, KMessage(FORWARD_BODY)), Field(8, KMessage(MARKDOWN_BODY)), Field(9, KMessage(MENTION_BODY))]
  const MESSAGE: Schema :=
    [Field(1, KInt64), Field(2, KInt64), Field(3, KText), Field(4, KInt64), Field(5, KMessage(CONVERSATION_TARGET)),
     Field(6, KInt32), Field(7, KMessage(MESSAGE_BODY)), Field(8, KInt64), Field(9, KInt32)]

  function Tags(schema: Schema): seq<nat> {
    seq(|schema|, i requires 0 <= i < |schema| => Tag(schema[i]))
  }

  /** The tags as the generated code spells them out. */
  lemma GeneratedTags()
    ensures Tags(CONVERSATION_TARGET) == [8, 16]
    ensures Tags(MESSAGE_BODY) == [10, 18, 26, 34, 42, 50, 58, 66, 74]
    ensures Tags(MESSAGE) == [8, 16, 26, 32, 42, 48, 58, 64, 72]
  {}

  lemma GeneratedBodyTags()
    ensures Tags(IMAGE_BODY) == [8, 16, 24, 32, 42, 50] && Tags(FILE_BODY) == [8, 18, 24, 34]
    ensures Tags(TEXT_BODY) == Tags(SYSTEM_BODY) == Tags(MARKDOWN_BODY) == [10]
    ensures Tags(RECALL_BODY) == [10, 16, 24, 34] && Tags(QUOTE_BODY) == [10, 18, 26]
    ensures Tags(FORWARD_BODY) == [10, 18] && Tags(MENTION_BODY) == [10, 18, 24]
  {}

  lemma FlatSchemasOk()
    ensures SchemaOk(TEXT_BODY) && SchemaOk(IMAGE_BODY) && SchemaOk(SYSTEM_BODY) && SchemaOk(FILE_BODY)
    ensures SchemaOk(RECALL_BODY) && SchemaOk(FORWARD_BODY) && SchemaOk(MARKDOWN_BODY) && SchemaOk(MENTION_BODY)
    ensures SchemaOk(CONVERSATION_TARGET)
  {}

  lemma BodySchemaOk()
    ensures SchemaOk(QUOTE_BODY) && SchemaOk(MESSAGE_BODY)
  {
    FlatSchemasOk();
    assert SchemaOk(QUOTE_BODY);
  }

  lemma MessageSchemaOk()
    ensures SchemaOk(MESSAGE)
  {
    FlatSchemasOk();
    BodySchemaOk();
  }

  // ---------------------------------------------------------------- the messages

  /** A 64-bit integer in decimal. */
  type Int64String = string

  datatype ConversationTarget = ConversationTarget(uid: Option<Int64String>, groupId: Option<Int64String>)
  datatype TextBody = TextBody(text: Bytes)
  datatype ImageBody = ImageBody(mediaId: Int64String, size: Int64String, width: int, height: int, mime: Bytes,
                                 caption: Bytes)
  datatype SystemBody = SystemBody(text: Bytes)
  datatype FileBody = FileBody(mediaId: Int64String, name: Bytes, size: Int64String, mime: Bytes)
  datatype RecallBody = RecallBody(msgId: Bytes, operatorUid: Int64String, recallTime: Int64String, text: Bytes)
  datatype QuoteBody = QuoteBody(quoteMsgId: Bytes, quotePreview: Bytes, text: Option<TextBody>)
  datatype ForwardBody = ForwardBody(msgIds: seq<Bytes>, title: Bytes)
  datatype MarkdownBody = MarkdownBody(markdown: Bytes)
  datatype MentionBody = MentionBody(text: Bytes, mentionedUids: seq<Int64String>, mentionAll: bool)

  /** Any number of the kinds may be present; the generated code does not exclude it. */
  datatype MessageBody = MessageBody(
    text: Option<TextBody>, image: Option<ImageBody>, system: Option<SystemBody>, file: Option<FileBody>,
    recall: Option<RecallBody>, quote: Option<QuoteBody>, forward: Option<ForwardBody>,
    markdown: Option<MarkdownBody>, mention: Option<MentionBody>)

  datatype Message = Message(
    uid: Int64String, seqNo: Int64String, msgId: Bytes, fromUid: Int64String, target: Option<ConversationTarget>,
    msgType: int, body: Option<MessageBody>, sendTime: Int64String, status: int)

  function Some1<A>(o: Option<A>, f: A -> Record): Value {
    Sub(match o case None => None case Some(a) => Some(f(a)))
  }

  function TargetRecord(t: ConversationTarget): Record { Record([OptLong(t.uid), OptLong(t.groupId)]) }

  function TextRecord(b: TextBody): Record { Record([Text(b.text)]) }

  function ImageRecord(b: ImageBody): Record {
    Record([Long(b.mediaId), Long(b.size), Int(b.width), Int(b.height), Text(b.mime), Text(b.caption)])
  }

  function SystemRecord(b: SystemBody): Record { Record([Text(b.text)]) }

  function FileRecord(b: FileBody): Record { Record([Long(b.mediaId), Text(b.name), Long(b.size), Text(b.mime)]) }

  function RecallRecord(b: RecallBody): Record {
    Record([Text(b.msgId), Long(b.operatorUid), Long(b.recallTime), Text(b.text)])
  }

  function QuoteRecord(b: QuoteBody): Record {
    Record([Text(b.quoteMsgId), Text(b.quotePreview), Some1(b.text, TextRecord)])
  }

  function ForwardRecord(b: ForwardBody): Record { Record([Texts(b.msgIds), Text(b.title)]) }

  function MarkdownRecord(b: MarkdownBody): Record { Record([Text(b.markdown)]) }

  function MentionRecord(b: MentionBody): Record { Record([Text(b.text), Longs(b.mentionedUids), Bool(b.mentionAll)]) }

  function BodyRecord(b: MessageBody): Record {
    Record([Some1(b.text, TextRecord), Some1(b.image, ImageRecord), Some1(b.system, SystemRecord),
            Some1(b.file, FileRecord), Some1(b.recall, RecallRecord), Some1(b.quote, QuoteRecord),
            Some1(b.forward, ForwardRecord), Some1(b.markdown, MarkdownRecord), Some1(b.mention, MentionRecord)])
  }

  function MessageRecord(m: Message): Record {
    Record([Long(m.uid), Long(m.seqNo), Text(m.msgId), Long(m.fromUid), Some1(m.target, TargetRecord), Int(m.msgType),
            Some1(m.body, BodyRecord), Long(m.sendTime), Int(m.status)])
  }

  // ---------------------------------------------------------------- and back

  function At(r: Record, i: nat): Value { if i < |r.values| then r.values[i] else Int(0) }

  function IntAt(r: Record, i: nat): int { if At(r, i).Int? then At(r, i).n else 0 }

  function TextAt(r: Record, i: nat): Bytes { if At(r, i).Text? then At(r, i).text else [] }

  function LongAt(r: Record, i: nat): Int64String { if At(r, i).Long? then At(r, i).s else "0" }

  function OptLongAt(r: Record, i: nat): Option<Int64String> { if At(r, i).OptLong? then At(r, i).o else None }

  function SubAt<A>(r: Record, i: nat, f: Record -> A): Option<A> {
    if At(r, i).Sub? then match At(r, i).m case None => None case Some(m) => Some(f(m)) else None
  }

  function ToTarget(r: Record): ConversationTarget { ConversationTarget(OptLongAt(r, 0), OptLongAt(r, 1)) }

  function ToText(r: Record): TextBody { TextBody(TextAt(r, 0)) }

  function ToImage(r: Record): ImageBody {
    ImageBody(LongAt(r, 0), LongAt(r, 1), IntAt(r, 2), IntAt(r, 3), TextAt(r, 4), TextAt(r, 5))
  }

  function ToSystem(r: Record): SystemBody { SystemBody(TextAt(r, 0)) }

  function ToFile(r: Record): FileBody { FileBody(LongAt(r, 0), TextAt(r, 1), LongAt(r, 2), TextAt(r, 3)) }

  function ToRecall(r: Record): RecallBody { RecallBody(TextAt(r, 0), LongAt(r, 1), LongAt(r, 2), TextAt(r, 3)) }

  function ToQuote(r: Record): QuoteBody { QuoteBody(TextAt(r, 0), TextAt(r, 1), SubAt(r, 2, ToText)) }

  function ToForward(r: Record): ForwardBody { ForwardBody(OldTexts(At(r, 0)), TextAt(r, 1)) }

  function ToMarkdown(r: Record): MarkdownBody { MarkdownBody(TextAt(r, 0)) }

  function ToMention(r: Record): MentionBody {
    MentionBody(TextAt(r, 0), OldLongs(At(r, 1)), At(r, 2).Bool? && At(r, 2).b)
  }

  function ToBody(r: Record): MessageBody {
    MessageBody(SubAt(r, 0, ToText), SubAt(r, 1, ToImage), SubAt(r, 2, ToSystem), SubAt(r, 3, ToFile),
                SubAt(r, 4, ToRecall), SubAt(r, 5, ToQuote), SubAt(r, 6, ToForward), SubAt(r, 7, ToMarkdown),
                SubAt(r, 8, ToMention))
  }

  function ToMessage(r: Record): Message {
    Message(LongAt(r, 0), LongAt(r, 1), TextAt(r, 2), LongAt(r, 3), SubAt(r, 4, ToTarget), IntAt(r, 5),
            SubAt(r, 6, ToBody), LongAt(r, 7), IntAt(r, 8))
  }

  lemma QuoteBack(b: QuoteBody)
    ensures ToQuote(QuoteRecord(b)) == b
  {}

  lemma SubBack<A>(r: Record, i: nat, o: Option<A>, f: A -> Record, g: Record -> A)
    requires At(r, i) == Some1(o, f) && (o.Some? ==> g(f(o.value)) == o.value)
    ensures SubAt(r, i, g) == o
  {}

  lemma BodyBack(b: MessageBody)
    ensures ToBody(BodyRecord(b)) == b
  {
    var r := BodyRecord(b);
    SubBack(r, 0, b.text, TextRecord, ToText);
    SubBack(r, 1, b.image, ImageRecord, ToImage);
    SubBack(r, 2, b.system, SystemRecord, ToSystem);
    SubBack(r, 3, b.file, FileRecord, ToFile);
    SubBack(r, 4, b.recall, RecallRecord, ToRecall);
    if b.quote.Some? { QuoteBack(b.quote.value); }
    SubBack(r, 5, b.quote, QuoteRecord, ToQuote);
    SubBack(r, 6, b.forward, ForwardRecord, ToForward);
    SubBack(r, 7, b.markdown, MarkdownRecord, ToMarkdown);
    SubBack(r, 8, b.mention, MentionRecord, ToMention);
  }

  lemma MessageBack(m: Message)
    ensures ToMessage(MessageRecord(m)) == m
  {
    var r := MessageRecord(m);
    SubBack(r, 4, m.target, TargetRecord, ToTarget);
    if m.body.Some? { BodyBack(m.body.value); }
    SubBack(r, 6, m.body, BodyRecord, ToBody);
  }

  // ---------------------------------------------------------------- the codec of messages

  /** Every 64-bit number is a canonical string and every 32-bit number fits, at every depth; nothing
      else is asked of a message. */
  predicate InRange(m: Message) {
    ConformsAll(MESSAGE, MessageRecord(m).values)
  }

  function EncodeMessage(m: Message): Bytes
    requires InRange(m)
  {
    Wire.Encode(MESSAGE, MessageRecord(m))
  }

  function DecodeMessage(s: Bytes): Result<Message, WireError> {
    match Wire.DecodeMessage(MESSAGE, s)
    case Err(e) => Err(e)
    case Ok(r) => Ok(ToMessage(r))
  }

  /** Any message, with any nesting of bodies, comes back from its bytes. */
  lemma MessageRoundTrip(m: Message)
    requires InRange(m) && |EncodeMessage(m)| < TWO32
    ensures DecodeMessage(EncodeMessage(m)) == Ok(m)
  {
    MessageSchemaOk();
    Wire.DecodeEncode(MESSAGE, MessageRecord(m), []);
    assert EncodeMessage(m) + [] == EncodeMessage(m);
    MessageBack(m);
  }

  /** A message nested in something longer is read to its declared end and no further. */
  lemma NestedMessageRoundTrip(m: Message, tail: Bytes)
    requires InRange(m) && |EncodeMessage(m)| < TWO32
    ensures Wire.Decode(MESSAGE, EncodeMessage(m) + tail, |EncodeMessage(m)|, Base(MESSAGE)) ==
            Ok((MessageRecord(m), tail))
    ensures ToMessage(MessageRecord(m)) == m
  {
    MessageSchemaOk();
    Wire.DecodeEncode(MESSAGE, MessageRecord(m), tail);
    MessageBack(m);
  }

  /** A body nested in a message likewise. */
  lemma NestedBodyRoundTrip(b: MessageBody, tail: Bytes)
    requires ConformsAll(MESSAGE_BODY, BodyRecord(b).values)
    ensures var s := Wire.Encode(MESSAGE_BODY, BodyRecord(b));
            |s| < TWO32 ==> Wire.Decode(MESSAGE_BODY, s + tail, |s|, Base(MESSAGE_BODY)) == Ok((BodyRecord(b), tail))
    ensures ToBody(BodyRecord(b)) == b
  {
    BodySchemaOk();
    if |Wire.Encode(MESSAGE_BODY, BodyRecord(b))| < TWO32 {
      Wire.DecodeEncode(MESSAGE_BODY, BodyRecord(b), tail);
    }
    BodyBack(b);
  }

  /** Whatever unknown fields a newer writer puts anywhere among or inside the known ones, the message
      they spell is read. */
  lemma NewerWriterTolerated(m: Message, items: seq<Item>)
    requires InRange(m) && |EncodeMessage(m)| < TWO32
    requires AllFit(MESSAGE, items) && Tolerance.Strip(MESSAGE, items) == Tolerance.Strip(MESSAGE, MessageItems(m))
    ensures DecodeMessage(BytesAll(items)) == Ok(m)
  {
    MessageSchemaOk();
    FieldsBack(MESSAGE, MessageRecord(m).values, |MESSAGE|);
    Tolerance.UnknownIgnored(MESSAGE, items);
    Tolerance.UnknownIgnored(MESSAGE, MessageItems(m));
    MessageRoundTrip(m);
  }

  /** What is written for a message. */
  function MessageItems(m: Message): seq<Item>
    requires InRange(m)
  {
    ItemsOf(MESSAGE, MessageRecord(m))
  }

  /** The uids a mention names, however its writer chunked them, are all there and in order. */
  lemma MentionedUids(items: seq<Item>)
    requires AllFit(MENTION_BODY, items)
    ensures Wire.DecodeMessage(MENTION_BODY, BytesAll(items)).Ok?
    ensures ToMention(Wire.DecodeMessage(MENTION_BODY, BytesAll(items)).value).mentionedUids ==
            Numerals(Tolerance.Elements(MENTION_BODY, items, 1))
  {
    Tolerance.DecodeWhole(MENTION_BODY, items);
    Tolerance.MixedLists(MENTION_BODY, Base(MENTION_BODY), items, 1);
  }

  // ---------------------------------------------------------------- which field is which

  /** A message read from its items alone. */
  function FromItems(schema: Schema, items: seq<Item>): Record { ApplyAll(schema, Base(schema), items) }

  /** What is read under each tag of a message, whatever was read before; the rest stays. */
  lemma MessageFields(r: Record, item: Item, i: nat)
    requires |r.values| == 9 && i < 9 && item.tag == [8, 16, 26, 32, 42, 48, 58, 64, 72][i]
    ensures var old_, new_ := ToMessage(r), ToMessage(Apply(MESSAGE, r, item));
            match item
            case Num(8, raw) => new_ == old_.(uid := Numeral(raw))
            case Num(16, raw) => new_ == old_.(seqNo := Numeral(raw))
            case Chunk(26, text) => new_ == old_.(msgId := text)
            case Num(32, raw) => new_ == old_.(fromUid := Numeral(raw))
            case Child(42, items) => new_ == old_.(target := Some(ToTarget(FromItems(CONVERSATION_TARGET, items))))
            case Num(48, raw) => new_ == old_.(msgType := ToInt32(raw))
            case Child(58, items) => new_ == old_.(body := Some(ToBody(FromItems(MESSAGE_BODY, items))))
            case Num(64, raw) => new_ == old_.(sendTime := Numeral(raw))
            case Num(72, raw) => new_ == old_.(status := ToInt32(raw))
            case _ => true
  {
    MessageSchemaOk();
    GeneratedTags();
    assert Tags(MESSAGE)[i] == Tag(MESSAGE[i]);
    ApplyOwn(MESSAGE, r, i, item);
  }

  lemma TargetFields(r: Record, item: Item, i: nat)
    requires |r.values| == 2 && i < 2 && item.tag == [8, 16][i]
    ensures var old_, new_ := ToTarget(r), ToTarget(Apply(CONVERSATION_TARGET, r, item));
            match item
            case Num(8, raw) => new_ == old_.(uid := Some(Numeral(raw)))
            case Num(16, raw) => new_ == old_.(groupId := Some(Numeral(raw)))
            case _ => true
  {
    FlatSchemasOk();
    GeneratedTags();
    assert Tags(CONVERSATION_TARGET)[i] == Tag(CONVERSATION_TARGET[i]);
    ApplyOwn(CONVERSATION_TARGET, r, i, item);
  }

  lemma BodyFields(r: Record, item: Item, i: nat)
    requires |r.values| == 9 && i < 3 && item.tag == [10, 18, 26, 34, 42, 50, 58, 66, 74][i]
    ensures var old_, new_ := ToBody(r), ToBody(Apply(MESSAGE_BODY, r, item));
            match item
            case Child(10, items) => new_ == old_.(text := Some(ToText(FromItems(TEXT_BODY, items))))
            case Child(18, items) => new_ == old_.(image := Some(ToImage(FromItems(IMAGE_BODY, items))))
            case Child(26, items) => new_ == old_.(system := Some(ToSystem(FromItems(SYSTEM_BODY, items))))
            case _ => true
  {
    BodySchemaOk();
    GeneratedTags();
    assert Tags(MESSAGE_BODY)[i] == Tag(MESSAGE_BODY[i]);
    ApplyOwn(MESSAGE_BODY, r, i, item);
  }

  lemma MoreBodyFields(r: Record, item: Item, i: nat)
    requires |r.values| == 9 && 3 <= i < 6 && item.tag == [10, 18, 26, 34, 42, 50, 58, 66, 74][i]
    ensures var old_, new_ := ToBody(r), ToBody(Apply(MESSAGE_BODY, r, item));
            match item
            case Child(34, items) => new_ == old_.(file := Some(ToFile(FromItems(FILE_BODY, items))))
            case Child(42, items) => new_ == old_.(recall := Some(ToRecall(FromItems(RECALL_BODY, items))))
            case Child(50, items) => new_ == old_.(quote := Some(ToQuote(FromItems(QUOTE_BODY, items))))
            case _ => true
  {
    BodySchemaOk();
    GeneratedTags();
    assert Tags(MESSAGE_BODY)[i] == Tag(MESSAGE_BODY[i]);
    ApplyOwn(MESSAGE_BODY, r, i, item);
  }

  lemma LastBodyFields(r: Record, item: Item, i: nat)
    requires |r.values| == 9 && 6 <= i < 9 && item.tag == [10, 18, 26, 34, 42, 50, 58, 66, 74][i]
    ensures var old_, new_ := ToBody(r), ToBody(Apply(MESSAGE_BODY, r, item));
            match item
            case Child(58, items) => new_ == old_.(forward := Some(ToForward(FromItems(FORWARD_BODY, items))))
            case Child(66, items) => new_ == old_.(markdown := Some(ToMarkdown(FromItems(MARKDOWN_BODY, items))))
            case Child(74, items) => new_ == old_.(mention := Some(ToMention(FromItems(MENTION_BODY, items))))
            case _ => true
  {
    BodySchemaOk();
    GeneratedTags();
    assert Tags(MESSAGE_BODY)[i] == Tag(MESSAGE_BODY[i]);
    ApplyOwn(MESSAGE_BODY, r, i, item);
  }

  lemma ImageFields(r: Record, item: Item, i: nat)
    requires |r.values| == 6 && i < 6 && item.tag == [8, 16, 24, 32, 42, 50][i]
    ensures var old_, new_ := ToImage(r), ToImage(Apply(IMAGE_BODY, r, item));
            match item
            case Num(8, raw) => new_ == old_.(mediaId := Numeral(raw))
            case Num(16, raw) => new_ == old_.(size := Numeral(raw))
            case Num(24, raw) => new_ == old_.(width := ToInt32(raw))
            case Num(32, raw) => new_ == old_.(height := ToInt32(raw))
            case Chunk(42, text) => new_ == old_.(mime := text)
            case Chunk(50, text) => new_ == old_.(caption := text)
            case _ => true
  {
    FlatSchemasOk();
    GeneratedBodyTags();
    assert Tags(IMAGE_BODY)[i] == Tag(IMAGE_BODY[i]);
    ApplyOwn(IMAGE_BODY, r, i, item);
  }

  lemma FileFields(r: Record, item: Item, i: nat)
    requires |r.values| == 4 && i < 4 && item.tag == [8, 18, 24, 34][i]
    ensures var old_, new_ := ToFile(r), ToFile(Apply(FILE_BODY, r, item));
            match item
            case Num(8, raw) => new_ == old_.(mediaId := Numeral(raw))
            case Chunk(18, text) => new_ == old_.(name := text)
            case Num(24, raw) => new_ == old_.(size := Numeral(raw))
            case Chunk(34, text) => new_ == old_.(mime := text)
            case _ => true
  {
    FlatSchemasOk();
    GeneratedBodyTags();
    assert Tags(FILE_BODY)[i] == Tag(FILE_BODY[i]);
    ApplyOwn(FILE_BODY, r, i, item);
  }

  lemma RecallFields(r: Record, item: Item, i: nat)
    requires |r.values| == 4 && i < 4 && item.tag == [10, 16, 24, 34][i]
    ensures var old_, new_ := ToRecall(r), ToRecall(Apply(RECALL_BODY, r, item));
            match item
            case Chunk(10, text) => new_ == old_.(msgId := text)
            case Num(16, raw) => new_ == old_.(operatorUid := Numeral(raw))
            case Num(24, raw) => new_ == old_.(recallTime := Numeral(raw))
            case Chunk(34, text) => new_ == old_.(text := text)
            case _ => true
  {
    FlatSchemasOk();
    GeneratedBodyTags();
    assert Tags(RECALL_BODY)[i] == Tag(RECALL_BODY[i]);
    ApplyOwn(RECALL_BODY, r, i, item);
  }

  lemma QuoteFields(r: Record, item: Item, i: nat)
    requires |r.values| == 3 && i < 3 && item.tag == [10, 18, 26][i]
    ensures var old_, new_ := ToQuote(r), ToQuote(Apply(QUOTE_BODY, r, item));
            match item
            case Chunk(10, text) => new_ == old_.(quoteMsgId := text)
            case Chunk(18, text) => new_ == old_.(quotePreview := text)
            case Child(26, items) => new_ == old_.(text := Some(ToText(FromItems(TEXT_BODY, items))))
            case _ => true
  {
    BodySchemaOk();
    GeneratedBodyTags();
    assert Tags(QUOTE_BODY)[i] == Tag(QUOTE_BODY[i]);
    ApplyOwn(QUOTE_BODY, r, i, item);
  }

  lemma ForwardFields(r: Record, item: Item, i: nat)
    requires |r.values| == 2 && i < 2 && item.tag == [10, 18][i]
    ensures var old_, new_ := ToForward(r), ToForward(Apply(FORWARD_BODY, r, item));
            match item
            case Chunk(10, text) => new_ == old_.(msgIds := old_.msgIds + [text])
            case Chunk(18, text) => new_ == old_.(title := text)
            case _ => true
  {
    FlatSchemasOk();
    GeneratedBodyTags();
    assert Tags(FORWARD_BODY)[i] == Tag(FORWARD_BODY[i]);
    ApplyOwn(FORWARD_BODY, r, i, item);
  }

  lemma MentionFields(r: Record, item: Item, i: nat)
    requires |r.values| == 3 && i < 3 && item.tag == [10, 18, 24][i]
    ensures var old_, new_ := ToMention(r), ToMention(Apply(MENTION_BODY, r, item));
            match item
            case Chunk(10, text) => new_ == old_.(text := text)
            case Packed(18, raws) => new_ == old_.(mentionedUids := old_.mentionedUids + Numerals(raws))
            case Num(24, raw) => new_ == old_.(mentionAll := raw % 0x1_0000_0000_0000_0000 != 0)
            case _ => true
  {
    FlatSchemasOk();
    GeneratedBodyTags();
    assert Tags(MENTION_BODY)[i] == Tag(MENTION_BODY[i]);
    ApplyOwn(MENTION_BODY, r, i, item);
  }

  lemma TextFields(r: Record, text: Bytes)
    requires |r.values| == 1
    ensures ToText(Apply(TEXT_BODY, r, Chunk(10, text))) == TextBody(text)
    ensures ToSystem(Apply(SYSTEM_BODY, r, Chunk(10, text))) == SystemBody(text)
    ensures ToMarkdown(Apply(MARKDOWN_BODY, r, Chunk(10, text))) == MarkdownBody(text)
  {
    FlatSchemasOk();
    GeneratedBodyTags();
    ApplyOwn(TEXT_BODY, r, 0, Chunk(10, text));
  }

  /** A message without fields, and what of it is written. */
  lemma DefaultsLeftOut()
    ensures ToMessage(Base(MESSAGE)) == Message("0", "0", [], "0", None, 0, None, "0", 0)
    ensures InRange(ToMessage(Base(MESSAGE))) && EncodeMessage(ToMessage(Base(MESSAGE))) == []
  {
    var r := Base(MESSAGE);
    assert MessageRecord(ToMessage(r)) == r;
    Tolerance.BaseConforms(MESSAGE);
    NothingWritten(MESSAGE, r.values, |MESSAGE|);
  }

  lemma {:induction false} NothingWritten(schema: Schema, values: seq<Value>, n: nat)
    requires n <= |schema| == |values| && ConformsAll(schema, values)
    requires forall i :: 0 <= i < |schema| ==> values[i] == Default(schema[i].kind) && !schema[i].kind.KPacked?
    ensures ItemsUpTo(schema, values, n) == []
  {
    if n > 0 {
      NothingWritten(schema, values, n - 1);
      WrittenIff(schema[n - 1], values[n - 1]);
    }
  }

  // ---------------------------------------------------------------- through writer and reader

  method WriteMessage(m: Message) returns (bytes: Bytes)
    requires InRange(m)
    ensures bytes == EncodeMessage(m)
  {
    var writer := new WireIO.BinaryWriter();
    WireIO.EncodeTo(writer, MESSAGE, MessageRecord(m));
    bytes := writer.buf;
  }

  method ReadMessage(bytes: Bytes) returns (r: Result<Message, WireError>)
    ensures r == DecodeMessage(bytes)
  {
    var reader := new WireIO.BinaryReader(bytes);
    assert reader.Rest() == bytes;
    var message := WireIO.DecodeFrom(reader, MESSAGE, |bytes|);
    r := if message.Ok? then Ok(ToMessage(message.value)) else Err(message.error);
  }
}
