/** What the decoder makes of bytes its own encoder would not write: unknown fields, repeated fields,
    packed and unpacked lists mixed. */
module Tolerance {
  import opened Wrappers
  import opened Varint
  import opened Wire

  // ---------------------------------------------------------------- unknown fields

  /** The items the reader knows, at every depth. */
  function Strip(schema: Schema, items: seq<Item>): seq<Item>
    decreases items
  {
    if |items| == 0 then []
    else (if Known(schema, items[0]) then [StripItem(schema, items[0])] else []) + Strip(schema, items[1..])
  }

  function StripItem(schema: Schema, item: Item): (r: Item)
    requires Known(schema, item)
    ensures r.tag == item.tag
    decreases item, 0
  {
    if item.Child? && KindOf(schema, item).KMessage? then
      Child(item.tag, Strip(KindOf(schema, item).fields, item.items))
    else item
  }

  lemma {:induction false} PutGrows(a: nat, b: nat)
    requires a <= b
    ensures |Put(a)| <= |Put(b)|
  {
    if a >= 128 { PutGrows(a / 128, b / 128); }
  }

  lemma {:induction false} StripShrinks(schema: Schema, items: seq<Item>)
    ensures |BytesAll(Strip(schema, items))| <= |BytesAll(items)|
    decreases items
  {
    if |items| > 0 {
      StripShrinks(schema, items[1..]);
      var first, rest := items[0], Strip(schema, items[1..]);
      if Known(schema, first) {
        StripItemShrinks(schema, first);
        assert ([StripItem(schema, first)] + rest)[1..] == rest;
      } else {
        assert [] + rest == rest;
      }
    }
  }

  lemma {:induction false} StripItemShrinks(schema: Schema, item: Item)
    requires Known(schema, item)
    ensures |BytesOf(StripItem(schema, item))| <= |BytesOf(item)|
    decreases item, 0
  {
    if item.Child? && KindOf(schema, item).KMessage? {
      var fields := KindOf(schema, item).fields;
      StripShrinks(fields, item.items);
      PutGrows(|BytesAll(Strip(fields, item.items))|, |BytesAll(item.items)|);
    }
  }

  lemma {:induction false} StripMeans(schema: Schema, items: seq<Item>, m: Record)
    requires |m.values| == |schema| && AllFit(schema, items)
    ensures AllFit(schema, Strip(schema, items))
    ensures ApplyAll(schema, m, Strip(schema, items)) == ApplyAll(schema, m, items)
    decreases items
  {
    if |items| > 0 {
      var first, rest := items[0], Strip(schema, items[1..]);
      StripMeans(schema, items[1..], Apply(schema, m, first));
      if Known(schema, first) {
        StripItemMeans(schema, first, m);
        assert ([StripItem(schema, first)] + rest)[1..] == rest;
      } else {
        assert [] + rest == rest;
      }
    }
  }

  lemma {:induction false} StripItemMeans(schema: Schema, item: Item, m: Record)
    requires |m.values| == |schema| && Fits(schema, item) && Known(schema, item)
    ensures Fits(schema, StripItem(schema, item)) && Apply(schema, m, StripItem(schema, item)) == Apply(schema, m, item)
    decreases item, 0
  {
    if item.Child? && KindOf(schema, item).KMessage? {
      var fields := KindOf(schema, item).fields;
      StripMeans(fields, item.items, Base(fields));
      StripShrinks(fields, item.items);
    }
  }

  lemma DecodeWhole(schema: Schema, items: seq<Item>)
    requires AllFit(schema, items)
    ensures DecodeMessage(schema, BytesAll(items)) == Ok(ApplyAll(schema, Base(schema), items))
  {
    DecodeItems(schema, items, [], Base(schema));
    assert BytesAll(items) + [] == BytesAll(items);
  }

  /** Unknown fields, anywhere and at any depth, change nothing. */
  lemma UnknownIgnored(schema: Schema, items: seq<Item>)
    requires AllFit(schema, items)
    ensures DecodeMessage(schema, BytesAll(items)) == DecodeMessage(schema, BytesAll(Strip(schema, items)))
  {
    StripMeans(schema, items, Base(schema));
    DecodeWhole(schema, items);
    DecodeWhole(schema, Strip(schema, items));
  }

  /** A reader that knows fewer fields than the writer still gets every field it knows: whatever was
      written around and inside the known items, the message they spell comes back. */
  lemma KnownPartComesBack(schema: Schema, items: seq<Item>, m: Record)
    requires SchemaOk(schema) && ConformsAll(schema, m.values) && |Encode(schema, m)| < TWO32
    requires AllFit(schema, items) && Strip(schema, items) == ItemsOf(schema, m)
    ensures DecodeMessage(schema, BytesAll(items)) == Ok(m)
  {
    UnknownIgnored(schema, items);
    DecodeEncode(schema, m, []);
    assert Encode(schema, m) + [] == Encode(schema, m);
  }

  // ---------------------------------------------------------------- repeated occurrences

  predicate For(schema: Schema, item: Item, i: nat) {
    FieldFor(schema, item.tag) == Some(i)
  }

  /** The elements that packed chunks and single occurrences bring to list i, in order. */
  function Elements(schema: Schema, items: seq<Item>, i: nat): seq<nat> {
    if |items| == 0 then []
    else
      (if !For(schema, items[0], i) then []
       else match items[0] case Num(_, raw) => [raw] case Packed(_, raws) => raws case _ => [])
      + Elements(schema, items[1..], i)
  }

  lemma {:induction false} NumeralsConcat(a: seq<nat>, b: seq<nat>)
    ensures Numerals(a + b) == Numerals(a) + Numerals(b)
  {
    if |a| == 0 {
      assert a + b == b;
    } else {
      assert (a + b)[1..] == a[1..] + b;
      NumeralsConcat(a[1..], b);
    }
  }

  lemma NumeralsJoin(ss: seq<string>, a: seq<nat>, b: seq<nat>)
    ensures ss + Numerals(a) + Numerals(b) == ss + Numerals(a + b)
  {
    NumeralsConcat(a, b);
  }

  lemma NumeralsOne(raw: nat)
    ensures Numerals([raw]) == [Numeral(raw)]
  {
    assert [raw][1..] == [];
  }

  /** Any mix of packed and unpacked occurrences of a list, among any other fields, decodes to the
      concatenation of their elements. */
  lemma {:induction false} MixedLists(schema: Schema, m: Record, items: seq<Item>, i: nat)
    requires |m.values| == |schema| && i < |schema| && schema[i].kind.KPacked? && m.values[i].Longs?
    requires AllFit(schema, items)
    ensures ApplyAll(schema, m, items).values[i] == Longs(m.values[i].ss + Numerals(Elements(schema, items, i)))
    decreases |items|
  {
    if |items| == 0 {
      assert m.values[i].ss + [] == m.values[i].ss;
    } else {
      var m', rest := Apply(schema, m, items[0]), Elements(schema, items[1..], i);
      MixedStep(schema, m, items[0], i);
      MixedLists(schema, m', items[1..], i);
      var own := Elements(schema, [items[0]], i);
      OwnElements(schema, items, i);
      NumeralsJoin(m.values[i].ss, own, rest);
    }
  }

  lemma OwnElements(schema: Schema, items: seq<Item>, i: nat)
    requires |items| > 0
    ensures Elements(schema, items, i) == Elements(schema, [items[0]], i) + Elements(schema, items[1..], i)
  {
    assert [items[0]][1..] == [];
  }

  lemma MixedStep(schema: Schema, m: Record, item: Item, i: nat)
    requires |m.values| == |schema| && i < |schema| && schema[i].kind.KPacked? && m.values[i].Longs?
             && Fits(schema, item)
    ensures Apply(schema, m, item).values[i] == Longs(m.values[i].ss + Numerals(Elements(schema, [item], i)))
  {
    assert [item][1..] == [];
    if For(schema, item, i) {
      match item
      case Num(_, raw) =>
        NumeralsOne(raw);
        assert [raw] + [] == [raw];
      case Packed(_, raws) => assert raws + [] == raws;
    } else {
      assert m.values[i].ss + [] == m.values[i].ss;
    }
  }

  /** Of a scalar or a message field that occurs more than once, the last occurrence counts alone. */
  lemma LastWins(schema: Schema, m: Record, before: seq<Item>, item: Item, after: seq<Item>, i: nat)
    requires |m.values| == |schema| && i < |schema| && For(schema, item, i)
    requires !schema[i].kind.KPacked? && !schema[i].kind.KTexts? && Fits(schema, item)
    requires forall x :: x in after ==> !For(schema, x, i)
    ensures ApplyAll(schema, m, before + [item] + after).values[i] ==
            Merge(schema[i].kind, Default(schema[i].kind), item)
  {
    var m1 := ApplyAll(schema, m, before);
    ApplyConcat(schema, m, before, [item] + after);
    assert before + [item] + after == before + ([item] + after) && ([item] + after)[1..] == after;
    MergeForgets(schema, m1.values[i], item, i);
    Untouched(schema, Apply(schema, m1, item), after, i);
  }

  lemma MergeForgets(schema: Schema, old_: Value, item: Item, i: nat)
    requires i < |schema| && For(schema, item, i) && Fits(schema, item)
    requires !schema[i].kind.KPacked? && !schema[i].kind.KTexts?
    ensures Merge(schema[i].kind, old_, item) == Merge(schema[i].kind, Default(schema[i].kind), item)
  {
    TakesType(schema[i], item.tag);
  }

  lemma {:induction false} Untouched(schema: Schema, m: Record, items: seq<Item>, i: nat)
    requires |m.values| == |schema| && i < |schema| && forall x :: x in items ==> !For(schema, x, i)
    ensures ApplyAll(schema, m, items).values[i] == m.values[i]
    decreases |items|
  {
    if |items| > 0 {
      assert items[0] in items;
      Untouched(schema, Apply(schema, m, items[0]), items[1..], i);
    }
  }

  // ---------------------------------------------------------------- whatever is read can be written

  lemma OneMoreCanonical(ss: seq<string>, raw: nat, n: string)
    requires AllCanonical(ss) && n == Numeral(raw)
    ensures AllCanonical(ss + [n])
  {
    NumeralsComeBack("0", raw);
  }

  lemma {:induction false} LongsConform(s: Bytes, left: int, ss: seq<string>)
    requires AllCanonical(ss) && ReadLongs(s, left, ss).Ok?
    ensures AllCanonical(ReadLongs(s, left, ss).value.0)
    decreases |s|
  {
    if left > 0 {
      var raw, rest := Get(s, 0).value.0, Get(s, 0).value.1;
      OneMoreCanonical(ss, raw, Numeral(raw));
      LongsConform(rest, left - (|s| - |rest|), ss + [Numeral(raw)]);
    }
  }

  lemma VarintConforms(k: Kind, old_: Value, raw: nat)
    requires Conforms(k, old_) && (k.KInt64? || k.KOptInt64? || k.KInt32? || k.KBool? || k.KPacked?)
    ensures Conforms(k, OfVarint(k, old_, raw))
  {
    NumeralsComeBack("0", raw);
  }

  lemma DefaultConforms(k: Kind)
    ensures Conforms(k, Default(k))
  {
    NumeralsComeBack("0", 0);
    assert ToInt64(0) == 0;
  }

  lemma BaseConforms(schema: Schema)
    ensures ConformsAll(schema, Base(schema).values)
  {
    forall i | 0 <= i < |schema| ensures Conforms(schema[i].kind, Base(schema).values[i]) {
      DefaultConforms(schema[i].kind);
    }
  }

  lemma {:induction false} FieldConforms(f: Field, tag: nat, old_: Value, s: Bytes)
    requires Takes(f, tag) && Conforms(f.kind, old_) && ReadField(f.kind, tag, old_, s).Ok?
    ensures Conforms(f.kind, ReadField(f.kind, tag, old_, s).value.0)
    decreases |s|, 0
  {
    TakesType(f, tag);
    if tag % 8 == VARINT {
      VarintConforms(f.kind, old_, Get(s, 0).value.0);
    } else {
      match f.kind
      case KMessage(fields) =>
        var n, rest := Get(s, 0).value.0, Get(s, 0).value.1;
        BaseConforms(fields);
        DecodedConforms(fields, rest, Uint32(n), Base(fields));
      case KPacked =>
        var n, rest := Get(s, 0).value.0, Get(s, 0).value.1;
        LongsConform(rest, Uint32(n), OldLongs(old_));
      case _ =>
    }
  }

  lemma UpdateConforms(schema: Schema, values: seq<Value>, i: nat, v: Value)
    requires ConformsAll(schema, values) && i < |schema| && Conforms(schema[i].kind, v)
    ensures ConformsAll(schema, values[i := v])
  {}

  lemma {:induction false} TurnConforms(schema: Schema, tag: nat, s: Bytes, m: Record)
    requires ConformsAll(schema, m.values) && TurnFor(schema, tag, s, m).Ok?
    ensures ConformsAll(schema, TurnFor(schema, tag, s, m).value.0.m.values)
    decreases |s|, 1
  {
    match FieldFor(schema, tag)
    case Some(i) =>
      FieldConforms(schema[i], tag, m.values[i], s);
      UpdateConforms(schema, m.values, i, ReadField(schema[i].kind, tag, m.values[i], s).value.0);
    case None =>
  }

  /** Whatever bytes are decoded, if they decode at all, every number is within its type. */
  lemma {:induction false} DecodedConforms(schema: Schema, s: Bytes, left: int, m: Record)
    requires ConformsAll(schema, m.values) && Wire.Decode(schema, s, left, m).Ok?
    ensures ConformsAll(schema, Wire.Decode(schema, s, left, m).value.0.values)
    decreases |s|, 2
  {
    if left > 0 {
      var raw, rest := Get(s, 0).value.0, Get(s, 0).value.1;
      TurnConforms(schema, Uint32(raw), rest, m);
      var turn := TakeTurn(schema, s, m);
      if turn.value.0.Next? {
        DecodedConforms(schema, turn.value.1, left - (|s| - |turn.value.1|), turn.value.0.m);
      }
    }
  }

  /** Reading, writing and reading again changes nothing: the encoding is a normal form. */
  lemma RereadSame(schema: Schema, s: Bytes, m: Record)
    requires SchemaOk(schema) && DecodeMessage(schema, s) == Ok(m)
    ensures ConformsAll(schema, m.values)
    ensures |Encode(schema, m)| < TWO32 ==> DecodeMessage(schema, Encode(schema, m)) == Ok(m)
  {
    BaseConforms(schema);
    DecodedConforms(schema, s, |s|, Base(schema));
    if |Encode(schema, m)| < TWO32 {
      DecodeEncode(schema, m, []);
      assert Encode(schema, m) + [] == Encode(schema, m);
    }
  }
}
