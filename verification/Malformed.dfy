/** What the decoder makes of malformed bytes: a message cut off between two fields reads as the fields
    before the cut, and one cut off anywhere else does not read at all; nor does one with a wire type that
    there is not, or with a group that ends wrongly. */
module Malformed {
  import opened Wrappers
  import opened Varint
  import opened Wire
  import M = Messages

  // ---------------------------------------------------------------- cut inside one field

  /** A strict prefix of a concatenation ends in its first part or in its second. */
  lemma CutConcat(a: Bytes, b: Bytes, p: Bytes)
    requires p < a + b
    ensures |p| < |a| ==> p < a
    ensures |p| >= |a| ==> p == a + p[|a|..] && p[|a|..] < b
  {
    assert forall i :: 0 <= i < |p| ==> p[i] == (a + b)[i];
  }

  lemma {:induction false} PutLength(n: nat, k: nat)
    requires k > 0 && n < Pow128(k)
    ensures |Put(n)| <= k
  {
    if n >= 128 {
      PutLength(n / 128, k - 1);
    }
  }

  lemma CutPut(n: nat, p: Bytes)
    requires n < TWO64 && p < Put(n)
    ensures Get(p, 0) == Err(PrematureEof)
  {
    PutSpells(n);
    TenSevens();
    PutLength(n, MAX_VARINT_BYTES);
    assert forall i :: 0 <= i < |p| ==> p[i] == Put(n)[i];
    GetReads(p, |p|, 0);
  }

  lemma {:induction false} CutSkipVarint(n: nat, p: Bytes)
    requires p < Put(n)
    ensures SkipVarint(p) == Err(PrematureEof)
  {
    if |p| > 0 {
      assert p[0] == Put(n)[0] && n >= 128;
      assert Put(n)[1..] == Put(n / 128);
      CutSkipVarint(n / 128, p[1..]);
    }
  }

  lemma CutText(bytes: Bytes, p: Bytes)
    requires |bytes| < TWO32 && p < Put(|bytes|) + bytes
    ensures ReadText(p) == Err(PrematureEof)
  {
    SmallUint32(|bytes|);
    CutConcat(Put(|bytes|), bytes, p);
    if |p| < |Put(|bytes|)| {
      CutPut(|bytes|, p);
    } else {
      RoundTrip(|bytes|, p[|Put(|bytes|)|..]);
    }
  }

  /** A packed list that goes on beyond the end. */
  lemma {:induction false} CutLongs(raws: seq<nat>, p: Bytes, left: nat, ss: seq<string>)
    requires Raws(raws) && p < PutAll(raws) && left > |p|
    ensures ReadLongs(p, left, ss) == Err(PrematureEof)
  {
    var first := Put(raws[0]);
    CutConcat(first, PutAll(raws[1..]), p);
    if |p| < |first| {
      CutPut(raws[0], p);
    } else {
      RoundTrip(raws[0], p[|first|..]);
      CutLongs(raws[1..], p[|first|..], left - |first|, ss + [Numeral(raws[0])]);
    }
  }

  lemma {:induction false} CutSkip(item: Item, number: Option<nat>, p: Bytes)
    requires Loose(item) && p < Payload(item)
    ensures Skip(item.tag % 8, number, p) == Err(PrematureEof)
    decreases item
  {
    match item
    case Num(_, raw) => CutSkipVarint(raw, p);
    case Fixed(_, _) =>
    case Chunk(_, bytes) => CutText(bytes, p);
    case Group(_, items, endTag) => CutGroup(number, items, endTag, p);
  }

  /** A group without its end. */
  lemma {:induction false} CutGroup(number: Option<nat>, items: seq<Item>, endTag: nat, p: Bytes)
    requires AllLoose(items) && endTag < TWO32 && p < BytesAll(items) + Put(endTag)
    ensures SkipGroup(number, p) == Err(PrematureEof)
    decreases items
  {
    if |items| == 0 {
      CutPut(endTag, p);
    } else {
      var first, rest := items[0], BytesAll(items[1..]) + Put(endTag);
      assert BytesAll(items) + Put(endTag) == Put(first.tag) + (Payload(first) + rest);
      CutConcat(Put(first.tag), Payload(first) + rest, p);
      if |p| < |Put(first.tag)| {
        CutPut(first.tag, p);
      } else {
        var q := p[|Put(first.tag)|..];
        ReadSmallTag(first.tag, q);
        CutConcat(Payload(first), rest, q);
        if |q| < |Payload(first)| {
          CutSkip(first, Some(first.tag / 8), q);
        } else {
          SkipLoose(first, q[|Payload(first)|..]);
          CutGroup(number, items[1..], endTag, q[|Payload(first)|..]);
        }
      }
    }
  }

  lemma CutUnknown(schema: Schema, item: Item, p: Bytes)
    requires Fits(schema, item) && !Known(schema, item) && p < Payload(item)
    ensures Skip(item.tag % 8, None, p) == Err(PrematureEof)
  {
    match item
    case Num(_, raw) => CutSkipVarint(raw, p);
    case Fixed(_, _) =>
    case Chunk(_, bytes) => CutText(bytes, p);
    case Group(_, items, endTag) => CutGroup(None, items, endTag, p);
  }

  /** A payload behind its length. */
  lemma CutLength(n: nat, body: Bytes, p: Bytes)
    requires n < TWO32 && p < Put(n) + body
    ensures Get(p, 0) == Err(PrematureEof) ||
            (|p| >= |Put(n)| && Get(p, 0) == Ok((n, p[|Put(n)|..])) && Uint32(n) == n && p[|Put(n)|..] < body)
  {
    SmallUint32(n);
    CutConcat(Put(n), body, p);
    if |p| < |Put(n)| { CutPut(n, p); } else { RoundTrip(n, p[|Put(n)|..]); }
  }

  lemma {:induction false} CutKnown(schema: Schema, item: Item, k: Kind, old_: Value, p: Bytes)
    requires Fits(schema, item) && Known(schema, item) && k == KindOf(schema, item) && p < Payload(item)
    ensures ReadField(k, item.tag, old_, p) == Err(PrematureEof)
    decreases item, 0
  {
    match item
    case Num(_, raw) => CutPut(raw, p);
    case Chunk(_, bytes) => CutText(bytes, p);
    case Packed(_, raws) =>
      CutLength(|PutAll(raws)|, PutAll(raws), p);
      if Get(p, 0).Ok? { CutLongs(raws, Get(p, 0).value.1, |PutAll(raws)|, OldLongs(old_)); }
    case Child(_, items) =>
      CutLength(|BytesAll(items)|, BytesAll(items), p);
      if Get(p, 0).Ok? { CutItems(k.fields, items, Get(p, 0).value.1, |BytesAll(items)|, Base(k.fields)); }
    case _ => assert false;
  }

  lemma {:induction false} CutItem(schema: Schema, item: Item, p: Bytes, m: Record)
    requires |m.values| == |schema| && Fits(schema, item) && p < BytesOf(item)
    ensures TakeTurn(schema, p, m) == Err(PrematureEof)
    decreases item, 1
  {
    CutConcat(Put(item.tag), Payload(item), p);
    if |p| < |Put(item.tag)| {
      CutPut(item.tag, p);
    } else {
      var q := p[|Put(item.tag)|..];
      ReadSmallTag(item.tag, q);
      match FieldFor(schema, item.tag)
      case Some(i) => CutKnown(schema, item, schema[i].kind, m.values[i], q);
      case None => CutUnknown(schema, item, q);
    }
  }

  /** A message that the buffer holds only a part of, less than its declared length. */
  lemma {:induction false} CutItems(schema: Schema, items: seq<Item>, p: Bytes, left: nat, m: Record)
    requires |m.values| == |schema| && AllFit(schema, items) && p < BytesAll(items) && left > |p|
    ensures Decode(schema, p, left, m) == Err(PrematureEof)
    decreases items
  {
    var first := BytesOf(items[0]);
    CutConcat(first, BytesAll(items[1..]), p);
    if |p| < |first| {
      CutItem(schema, items[0], p, m);
    } else {
      var q := p[|first|..];
      TurnItem(schema, items[0], q, m);
      CutItems(schema, items[1..], q, left - |first|, Apply(schema, m, items[0]));
    }
  }

  // ---------------------------------------------------------------- cut anywhere

  /** Where a prefix ends: after k whole fields, and possibly inside the next one. */
  lemma {:induction false} CutAt(items: seq<Item>, p: Bytes) returns (k: nat, q: Bytes)
    requires p <= BytesAll(items)
    ensures k <= |items| && p == BytesAll(items[..k]) + q
    ensures q == [] || (k < |items| && q < BytesOf(items[k]))
  {
    if p == BytesAll(items) {
      k, q := |items|, [];
      assert items[..k] == items;
    } else {
      var first := BytesOf(items[0]);
      CutConcat(first, BytesAll(items[1..]), p);
      if |p| < |first| {
        k, q := 0, p;
      } else {
        k, q := CutAt(items[1..], p[|first|..]);
        k := k + 1;
        assert items[..k] == [items[0]] + items[1..][..k - 1];
        Assoc(first, BytesAll(items[1..][..k - 1]), q);
      }
    }
  }

  /** Whole fields are read, and the decoding goes on behind them. */
  lemma {:induction false} DecodeOnwards(schema: Schema, items: seq<Item>, q: Bytes, m: Record)
    requires |m.values| == |schema| && AllFit(schema, items)
    ensures Decode(schema, BytesAll(items) + q, |BytesAll(items) + q|, m) ==
            Decode(schema, q, |q|, ApplyAll(schema, m, items))
    decreases items
  {
    if |items| == 0 {
      assert [] + q == q;
    } else {
      var rest := BytesAll(items[1..]) + q;
      Assoc(BytesOf(items[0]), BytesAll(items[1..]), q);
      TurnItem(schema, items[0], rest, m);
      DecodeOnwards(schema, items[1..], q, Apply(schema, m, items[0]));
    }
  }

  lemma {:induction false} FitTake(schema: Schema, items: seq<Item>, k: nat)
    requires AllFit(schema, items) && k <= |items|
    ensures AllFit(schema, items[..k]) && (k < |items| ==> Fits(schema, items[k]))
    decreases items
  {
    if |items| > 0 && k > 0 {
      assert items[..k][1..] == items[1..][..k - 1];
      FitTake(schema, items[1..], k - 1);
    }
  }

  /** A prefix of well-formed bytes reads as the whole fields in it if it ends with one of them, and is
      refused otherwise. */
  lemma Truncated(schema: Schema, items: seq<Item>, p: Bytes) returns (k: nat)
    requires AllFit(schema, items) && p <= BytesAll(items)
    ensures k <= |items| && BytesAll(items[..k]) <= p
    ensures k < |items| ==> |p| < |BytesAll(items[..k])| + |BytesOf(items[k])|
    ensures DecodeMessage(schema, p) ==
            if p == BytesAll(items[..k]) then Ok(ApplyAll(schema, Base(schema), items[..k])) else Err(PrematureEof)
  {
    var q;
    k, q := CutAt(items, p);
    FitTake(schema, items, k);
    DecodeOnwards(schema, items[..k], q, Base(schema));
    if q != [] { CutItem(schema, items[k], q, ApplyAll(schema, Base(schema), items[..k])); }
  }

  /** A chat message cut off short: refused, or read as its first k fields. */
  lemma CutMessage(m: M.Message, p: Bytes) returns (k: nat)
    requires M.InRange(m) && |M.EncodeMessage(m)| < TWO32 && p <= M.EncodeMessage(m)
    ensures k <= |M.MessageItems(m)|
    ensures var whole := M.MessageItems(m)[..k];
            && BytesAll(whole) <= p
            && M.DecodeMessage(p) ==
               if p == BytesAll(whole) then Ok(M.ToMessage(M.FromItems(M.MESSAGE, whole))) else Err(PrematureEof)
  {
    M.MessageSchemaOk();
    FieldsBack(M.MESSAGE, M.MessageRecord(m).values, |M.MESSAGE|);
    k := Truncated(M.MESSAGE, M.MessageItems(m), p);
  }

  /** A body whose declared length the buffer does not hold is always refused. */
  lemma CutBody(b: M.MessageBody, p: Bytes, declared: nat)
    requires ConformsAll(M.MESSAGE_BODY, M.BodyRecord(b).values)
    requires p < Encode(M.MESSAGE_BODY, M.BodyRecord(b)) && |p| < declared
    requires |Encode(M.MESSAGE_BODY, M.BodyRecord(b))| < TWO32
    ensures Decode(M.MESSAGE_BODY, p, declared, Base(M.MESSAGE_BODY)) == Err(PrematureEof)
  {
    M.BodySchemaOk();
    FieldsBack(M.MESSAGE_BODY, M.BodyRecord(b).values, |M.MESSAGE_BODY|);
    CutItems(M.MESSAGE_BODY, ItemsOf(M.MESSAGE_BODY, M.BodyRecord(b)), p, declared, Base(M.MESSAGE_BODY));
  }

  // ---------------------------------------------------------------- nothing that is ever written

  /** There are no wire types 6 and 7. */
  lemma NoSuchWireType(schema: Schema, tag: nat, rest: Bytes, m: Record)
    requires |m.values| == |schema| && tag < TWO32 && tag % 8 > 5
    ensures TakeTurn(schema, Put(tag) + rest, m) == Err(UnsupportedWireType)
  {
    ReadSmallTag(tag, rest);
  }

  /** Inside a group, after any fields: a tag that no field can have, or the end mark of another group. */
  lemma {:induction false} GroupRefused(number: nat, items: seq<Item>, tag: nat, rest: Bytes)
    requires AllLoose(items) && tag < TWO32
    ensures tag < 8 || tag % 8 > 5 ==> SkipGroup(Some(number), BytesAll(items) + Put(tag) + rest) == Err(IllegalTag)
    ensures tag >= 8 && tag % 8 == 4 && tag / 8 != number ==>
              SkipGroup(Some(number), BytesAll(items) + Put(tag) + rest) == Err(InvalidEndGroup)
    decreases items
  {
    if |items| == 0 {
      assert [] + Put(tag) + rest == Put(tag) + rest;
      ReadSmallTag(tag, rest);
    } else {
      var first, after := items[0], BytesAll(items[1..]) + Put(tag) + rest;
      GroupSplits(first, items, tag, rest, after);
      ReadSmallTag(first.tag, Payload(first) + after);
      SkipLoose(first, after);
      GroupRefused(number, items[1..], tag, rest);
    }
  }
}
