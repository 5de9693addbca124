/**
 The byte log of apps/pricing: little-endian words, tuples of words, records and snapshot frames.
 Encoders follow `write_impl`/`write_tuple` in json_writer_util.cpp and the header writes of
 json_writer.cpp; decoders follow `read_impl` and the reading loops of json_reader.cpp.
 */
module Codec {
  import opened Wrappers
  import opened Orders

  // ---------------------------------------------------------------- words

  function Pow256(w: nat): (p: nat)
    ensures p > 0
  {
    if w == 0 then 1 else 256 * Pow256(w - 1)
  }

  function EncodeWord(w: nat, x: nat): (s: seq<Byte>)
    ensures |s| == w
  {
    seq(w, i requires 0 <= i < w => (x / Pow256(i)) % 256)
  }

  function DecodeWord(s: seq<Byte>): nat {
    if s == [] then 0 else s[0] + 256 * DecodeWord(s[1..])
  }

  lemma {:induction false} DivideTwice(x: nat, p: nat)
    requires p > 0
    ensures x / 256 / p == x / (256 * p)
  {
    var q := x / 256 / p;
    assert q * p <= x / 256 < (q + 1) * p;
    assert 256 * (q * p) <= x;
    assert x < 256 * ((q + 1) * p);
    Quotient(x, 256 * p, q);
  }

  lemma {:induction false} Quotient(x: nat, d: nat, q: nat)
    requires d > 0 && q * d <= x < (q + 1) * d
    ensures x / d == q
  {
    var k := x / d;
    assert k * d <= x < (k + 1) * d;
    if k > q {
      MultiplyMonotone(q + 1, k, d);
    } else if k < q {
      MultiplyMonotone(k + 1, q, d);
    }
  }

  lemma {:induction false} MultiplyMonotone(a: nat, b: nat, d: nat)
    requires a <= b
    ensures a * d <= b * d
  {
  }

  lemma {:induction false} EncodeWordTail(w: nat, x: nat)
    requires w > 0
    ensures EncodeWord(w, x) == [x % 256] + EncodeWord(w - 1, x / 256)
  {
    assert Pow256(0) == 1;
    forall i | 0 < i < w
      ensures EncodeWord(w, x)[i] == EncodeWord(w - 1, x / 256)[i - 1]
    {
      DivideTwice(x, Pow256(i - 1));
    }
  }

  lemma {:induction false} WordRoundTrip(w: nat, x: nat)
    requires x < Pow256(w)
    ensures DecodeWord(EncodeWord(w, x)) == x
  {
    if w > 0 {
      EncodeWordTail(w, x);
      WordRoundTrip(w - 1, x / 256);
      assert EncodeWord(w, x)[1..] == EncodeWord(w - 1, x / 256);
    }
  }

  lemma {:induction false} WordBound(s: seq<Byte>)
    ensures DecodeWord(s) < Pow256(|s|)
  {
    if s != [] {
      WordBound(s[1..]);
    }
  }

  lemma {:induction false} Powers()
    ensures Pow256(1) == 0x100
    ensures Pow256(4) == 0x1_0000_0000
    ensures Pow256(8) == 0x1_0000_0000_0000_0000
  {
    assert Pow256(2) == 0x1_0000;
    assert Pow256(3) == 0x100_0000;
    assert Pow256(5) == 0x100_0000_0000;
    assert Pow256(6) == 0x1_0000_0000_0000;
    assert Pow256(7) == 0x100_0000_0000_0000;
  }

  lemma {:induction false} Associative(a: seq<Byte>, b: seq<Byte>, c: seq<Byte>)
    ensures (a + b) + c == a + (b + c)
  {
  }

  lemma {:induction false} Split(a: seq<Byte>, b: seq<Byte>)
    ensures (a + b)[..|a|] == a
    ensures (a + b)[|a|..] == b
  {
  }

  // ---------------------------------------------------------------- tuples

  function Width(ws: seq<nat>): nat {
    if ws == [] then 0 else ws[0] + Width(ws[1..])
  }

  ghost predicate Fits(ws: seq<nat>, xs: seq<nat>) {
    |ws| == |xs| && forall i :: 0 <= i < |ws| ==> xs[i] < Pow256(ws[i])
  }

  function Pack(ws: seq<nat>, xs: seq<nat>): (s: seq<Byte>)
    requires |ws| == |xs|
    ensures |s| == Width(ws)
  {
    if ws == [] then [] else EncodeWord(ws[0], xs[0]) + Pack(ws[1..], xs[1..])
  }

  function Unpack(ws: seq<nat>, s: seq<Byte>): (xs: seq<nat>)
    requires |s| >= Width(ws)
    ensures |xs| == |ws|
  {
    if ws == [] then [] else [DecodeWord(s[..ws[0]])] + Unpack(ws[1..], s[ws[0]..])
  }

  /** Reading a tuple back from the front of any text returns the fields that were written. */
  lemma {:induction false} TupleRoundTrip(ws: seq<nat>, xs: seq<nat>, rest: seq<Byte>)
    requires Fits(ws, xs)
    ensures Unpack(ws, Pack(ws, xs) + rest) == xs
  {
    if ws != [] {
      var first, behind := EncodeWord(ws[0], xs[0]), Pack(ws[1..], xs[1..]);
      WordRoundTrip(ws[0], xs[0]);
      TupleRoundTrip(ws[1..], xs[1..], rest);
      Associative(first, behind, rest);
      Split(first, behind + rest);
      assert Unpack(ws, first + (behind + rest)) == [xs[0]] + xs[1..];
    }
  }

  // ---------------------------------------------------------------- orders and diffs

  const ORDER_WIDTHS: seq<nat> := [1, 4, 8, 4, 8, 4, 1, 4, 4, 4, 8]
  const DIFF_WIDTHS: seq<nat> := [1, 8, 4]
  const DIFF_TAG: I8 := 2

  // A word read from 1, 4 or 8 bytes is always below the bound, so the last branch of the four readings below is
  // never taken (`ReadingsExact`).

  function ByteOf(x: I8): nat {
    if x < 0 then x + 0x100 else x
  }

  function I8Of(x: nat): I8 {
    if x < 0x80 then x else if x < 0x100 then x - 0x100 else 0
  }

  function U32Of(x: nat): U32 {
    if x < 0x1_0000_0000 then x else 0
  }

  function I32Of(x: nat): I32 {
    if x < 0x8000_0000 then x else if x < 0x1_0000_0000 then x - 0x1_0000_0000 else 0
  }

  function U64Of(x: nat): U64 {
    if x < 0x1_0000_0000_0000_0000 then x else 0
  }

  /** Reading 1, 4 or 8 bytes as any of the field types loses nothing: the bytes can be told from the value. */
  lemma {:induction false} ReadingsExact(s: seq<Byte>)
    ensures |s| == 1 ==> ByteOf(I8Of(DecodeWord(s))) == DecodeWord(s)
    ensures |s| == 4 ==> U32Of(DecodeWord(s)) == DecodeWord(s)
    ensures |s| == 4 ==> EncodeI32(I32Of(DecodeWord(s))) == s
    ensures |s| == 8 ==> U64Of(DecodeWord(s)) == DecodeWord(s)
    ensures EncodeWord(|s|, DecodeWord(s)) == s
  {
    WordBound(s);
    Powers();
    BytesRoundTrip(s);
  }

  /** Any bytes are the encoding of the word they decode to. */
  lemma {:induction false} BytesRoundTrip(s: seq<Byte>)
    ensures EncodeWord(|s|, DecodeWord(s)) == s
  {
    if s != [] {
      var x, tail := DecodeWord(s), DecodeWord(s[1..]);
      BytesRoundTrip(s[1..]);
      assert x % 256 == s[0] && x / 256 == tail;
      EncodeWordTail(|s|, x);
      assert s == [s[0]] + s[1..];
    }
  }

  function OrderWords(o: Order): seq<nat> {
    [ByteOf(o.buy), o.issued, o.price, o.volumeEntered, o.stationId, o.volume,
     ByteOf(o.range), o.minVolume, o.duration, o.typ, o.id]
  }

  function OrderOf(xs: seq<nat>): Order
    requires |xs| == 11
  {
    Order(I8Of(xs[0]), U32Of(xs[1]), U64Of(xs[2]), U32Of(xs[3]), U64Of(xs[4]), U32Of(xs[5]),
          I8Of(xs[6]), U32Of(xs[7]), U32Of(xs[8]), U32Of(xs[9]), U64Of(xs[10]))
  }

  function EncodeOrder(o: Order): seq<Byte> {
    Pack(ORDER_WIDTHS, OrderWords(o))
  }

  function EncodeDiff(price: U64, volume: U32): seq<Byte> {
    Pack(DIFF_WIDTHS, [ByteOf(DIFF_TAG), price, volume])
  }

  /** The record sizes the log relies on. */
  lemma {:induction false} RecordWidths()
    ensures Width(ORDER_WIDTHS) == 50
    ensures Width(DIFF_WIDTHS) == 13
  {
    WidthAppend([1, 4, 8, 4], [8, 4, 1] + [4, 4, 4, 8]);
    WidthAppend([8, 4, 1], [4, 4, 4, 8]);
    assert ORDER_WIDTHS == [1, 4, 8, 4] + ([8, 4, 1] + [4, 4, 4, 8]);
  }

  lemma {:induction false} WidthAppend(a: seq<nat>, b: seq<nat>)
    ensures Width(a + b) == Width(a) + Width(b)
  {
    if a == [] {
      assert a + b == b;
    } else {
      WidthAppend(a[1..], b);
      assert (a + b)[1..] == a[1..] + b;
    }
  }

  lemma {:induction false} OrderWordsFit(o: Order)
    ensures Fits(ORDER_WIDTHS, OrderWords(o))
    ensures OrderOf(OrderWords(o)) == o
  {
    Powers();
  }

  lemma {:induction false} PackFirst(ws: seq<nat>, xs: seq<nat>)
    requires |ws| == |xs| > 0 && ws[0] == 1 && xs[0] < 0x100
    ensures |Pack(ws, xs)| >= 1 && Pack(ws, xs)[0] == xs[0]
  {
    assert Pow256(0) == 1;
    assert EncodeWord(1, xs[0])[0] == xs[0];
  }

  lemma {:induction false} OrderRoundTrip(o: Order, rest: seq<Byte>)
    ensures |EncodeOrder(o)| == 50
    ensures OrderOf(Unpack(ORDER_WIDTHS, EncodeOrder(o) + rest)) == o
    ensures EncodeOrder(o)[0] == ByteOf(o.buy)
  {
    RecordWidths();
    OrderWordsFit(o);
    TupleRoundTrip(ORDER_WIDTHS, OrderWords(o), rest);
    PackFirst(ORDER_WIDTHS, OrderWords(o));
  }

  lemma {:induction false} DiffRoundTrip(price: U64, volume: U32, rest: seq<Byte>)
    ensures |EncodeDiff(price, volume)| == 13
    ensures Unpack(DIFF_WIDTHS, EncodeDiff(price, volume) + rest) == [ByteOf(DIFF_TAG), price, volume]
    ensures EncodeDiff(price, volume)[0] == ByteOf(DIFF_TAG)
  {
    Powers();
    RecordWidths();
    TupleRoundTrip(DIFF_WIDTHS, [ByteOf(DIFF_TAG), price, volume], rest);
    PackFirst(DIFF_WIDTHS, [ByteOf(DIFF_TAG), price, volume]);
  }

  lemma {:induction false} WidthNext(ws: seq<nat>, i: nat)
    requires i < |ws|
    ensures Width(ws[..i]) + ws[i] == Width(ws[..i + 1])
  {
    WidthAppend(ws[..i], [ws[i]]);
    assert ws[..i + 1] == ws[..i] + [ws[i]];
    assert Width([ws[i]]) == ws[i] + Width([ws[i]][1..]);
  }

  lemma {:induction false} WidthFirst(ws: seq<nat>, i: nat)
    requires 0 < i <= |ws|
    ensures Width(ws[..i]) == ws[0] + Width(ws[1..][..i - 1])
  {
    assert ws[..i][1..] == ws[1..][..i - 1];
  }

  lemma {:induction false} SliceBehind(first: seq<Byte>, behind: seq<Byte>, lo: nat, hi: nat)
    requires lo <= hi <= |behind|
    ensures (first + behind)[|first| + lo..|first| + hi] == behind[lo..hi]
  {
  }

  /** Where field `i` of a tuple lies. */
  lemma {:induction false} FieldAt(ws: seq<nat>, xs: seq<nat>, i: nat)
    requires |ws| == |xs| && i < |ws|
    ensures Width(ws[..i]) <= Width(ws[..i + 1]) <= |Pack(ws, xs)|
    ensures Pack(ws, xs)[Width(ws[..i])..Width(ws[..i + 1])] == EncodeWord(ws[i], xs[i])
  {
    WidthNext(ws, i);
    WidthFirst(ws, i + 1);
    var first, behind := EncodeWord(ws[0], xs[0]), Pack(ws[1..], xs[1..]);
    if i == 0 {
      assert (first + behind)[..ws[0]] == first;
    } else {
      FieldAt(ws[1..], xs[1..], i - 1);
      WidthFirst(ws, i);
      SliceBehind(first, behind, Width(ws[1..][..i - 1]), Width(ws[1..][..i]));
    }
  }

  /** Field `i` of an order lies `at` bytes from its beginning. */
  lemma {:induction false} OrderField(o: Order, i: nat, at: nat)
    requires i < 11 && at == Width(ORDER_WIDTHS[..i])
    ensures at + ORDER_WIDTHS[i] == Width(ORDER_WIDTHS[..i + 1]) <= |EncodeOrder(o)| == 50
    ensures EncodeOrder(o)[at..at + ORDER_WIDTHS[i]] == EncodeWord(ORDER_WIDTHS[i], OrderWords(o)[i])
  {
    RecordWidths();
    WidthNext(ORDER_WIDTHS, i);
    FieldAt(ORDER_WIDTHS, OrderWords(o), i);
  }

  /** The layout of the 50 bytes of an order. */
  lemma {:induction false} OrderLayout(o: Order)
    ensures |EncodeOrder(o)| == 50
    ensures EncodeOrder(o)[0..1] == EncodeWord(1, ByteOf(o.buy))
    ensures EncodeOrder(o)[1..5] == EncodeWord(4, o.issued)
    ensures EncodeOrder(o)[5..13] == EncodeWord(8, o.price)
    ensures EncodeOrder(o)[13..17] == EncodeWord(4, o.volumeEntered)
    ensures EncodeOrder(o)[17..25] == EncodeWord(8, o.stationId)
    ensures EncodeOrder(o)[25..29] == EncodeWord(4, o.volume)
    ensures EncodeOrder(o)[29..30] == EncodeWord(1, ByteOf(o.range))
    ensures EncodeOrder(o)[30..34] == EncodeWord(4, o.minVolume)
    ensures EncodeOrder(o)[34..38] == EncodeWord(4, o.duration)
    ensures EncodeOrder(o)[38..42] == EncodeWord(4, o.typ)
    ensures EncodeOrder(o)[42..50] == EncodeWord(8, o.id)
  {
    assert ORDER_WIDTHS[..0] == [];
    OrderField(o, 0, 0);
    OrderField(o, 1, 1);
    OrderField(o, 2, 5);
    OrderField(o, 3, 13);
    OrderField(o, 4, 17);
    OrderField(o, 5, 25);
    OrderField(o, 6, 29);
    OrderField(o, 7, 30);
    OrderField(o, 8, 34);
    OrderField(o, 9, 38);
    OrderField(o, 10, 42);
  }

  /** Words of four bytes are little-endian; so are those of eight, four bytes and the next four. */
  lemma {:induction false} FourBytes(x: nat)
    ensures EncodeWord(4, x) == [x % 256, x / 0x100 % 256, x / 0x1_0000 % 256, x / 0x100_0000 % 256]
  {
    Powers();
    assert Pow256(0) == 1 && Pow256(1) == 0x100 && Pow256(2) == 0x1_0000;
    assert Pow256(3) == 256 * Pow256(2) == 0x100_0000;
  }

  lemma {:induction false} EightBytes(x: nat)
    ensures EncodeWord(8, x) == EncodeWord(4, x) + EncodeWord(4, x / 0x1_0000_0000)
  {
    Powers();
    forall i | 0 <= i < 4 ensures EncodeWord(8, x)[4 + i] == EncodeWord(4, x / 0x1_0000_0000)[i] {
      DropBytes(x, 4, i);
    }
  }

  lemma {:induction false} DropBytes(x: nat, v: nat, w: nat)
    ensures x / Pow256(v) / Pow256(w) == x / Pow256(v + w)
  {
    if v > 0 {
      DivideTwice(x, Pow256(v - 1));
      DivideTwice(x, Pow256(v - 1 + w));
      DropBytes(x / 256, v - 1, w);
    }
  }

  /** Negative numbers are written as their two's complement. */
  lemma {:induction false} TwosComplement(x: I8, y: I32)
    ensures ByteOf(x) == x % 0x100 && EncodeI32(y) == EncodeWord(4, y % 0x1_0000_0000)
  {
  }

  lemma {:induction false} DiffField(price: U64, volume: U32, i: nat, at: nat)
    requires i < 3 && at == Width(DIFF_WIDTHS[..i])
    ensures at + DIFF_WIDTHS[i] == Width(DIFF_WIDTHS[..i + 1]) <= |EncodeDiff(price, volume)| == 13
    ensures EncodeDiff(price, volume)[at..at + DIFF_WIDTHS[i]] ==
            EncodeWord(DIFF_WIDTHS[i], [ByteOf(DIFF_TAG), price, volume][i])
  {
    RecordWidths();
    WidthNext(DIFF_WIDTHS, i);
    FieldAt(DIFF_WIDTHS, [ByteOf(DIFF_TAG), price, volume], i);
  }

  /** The layout of the 13 bytes of a change record. */
  lemma {:induction false} DiffLayout(price: U64, volume: U32)
    ensures |EncodeDiff(price, volume)| == 13
    ensures EncodeDiff(price, volume)[0..1] == EncodeWord(1, 2)
    ensures EncodeDiff(price, volume)[1..9] == EncodeWord(8, price)
    ensures EncodeDiff(price, volume)[9..13] == EncodeWord(4, volume)
  {
    assert DIFF_WIDTHS[..0] == [];
    DiffField(price, volume, 0, 0);
    DiffField(price, volume, 1, 1);
    DiffField(price, volume, 2, 9);
  }

  // ---------------------------------------------------------------- repeated items

  /** The concatenation a writing loop leaves behind. */
  function Concat(chunks: seq<seq<Byte>>): seq<Byte> {
    if chunks == [] then [] else chunks[0] + Concat(chunks[1..])
  }

  lemma {:induction false} ConcatAppend(chunks: seq<seq<Byte>>, c: seq<Byte>)
    ensures Concat(chunks + [c]) == Concat(chunks) + c
  {
    if chunks == [] {
      assert chunks + [c] == [c];
      assert Concat([c]) == c + Concat([c][1..]);
    } else {
      ConcatAppend(chunks[1..], c);
      assert (chunks + [c])[1..] == chunks[1..] + [c];
      Associative(chunks[0], Concat(chunks[1..]), c);
    }
  }

  /** A decoder takes one item off the front of a text, or fails when the text is cut short. */
  type Decoder<!T> = seq<Byte> -> Option<(T, seq<Byte>)>

  /** A decoder that succeeds leaves less text. */
  ghost predicate Shrinks<T(!new)>(decode: Decoder<T>) {
    forall text :: decode(text).Some? ==> |decode(text).value.1| < |text|
  }

  /** Items until the text is used up. */
  function DecodeAll<T(!new)>(decode: Decoder<T>, text: seq<Byte>): Option<seq<T>>
    requires Shrinks(decode)
    decreases |text|
  {
    if text == [] then Some([])
    else
      var r := decode(text);
      if r.None? then None
      else
        var tail := DecodeAll(decode, r.value.1);
        if tail.None? then None else Some([r.value.0] + tail.value)
  }

  /** Each chunk is what `decode` needs to return the item, whatever follows the chunk. */
  ghost predicate Decodes<T>(decode: Decoder<T>, chunks: seq<seq<Byte>>, items: seq<T>) {
    && |chunks| == |items|
    && forall i, rest :: 0 <= i < |chunks| ==> decode(chunks[i] + rest) == Some((items[i], rest))
  }

  lemma {:induction false} DecodeAllConcat<T(!new)>(decode: Decoder<T>, chunks: seq<seq<Byte>>, items: seq<T>)
    requires Shrinks(decode) && Decodes(decode, chunks, items)
    requires forall i :: 0 <= i < |chunks| ==> chunks[i] != []
    ensures DecodeAll(decode, Concat(chunks)) == Some(items)
  {
    if chunks != [] {
      var rest := Concat(chunks[1..]);
      assert decode(chunks[0] + rest) == Some((items[0], rest));
      DecodeAllConcat(decode, chunks[1..], items[1..]);
      assert [items[0]] + items[1..] == items;
    }
  }

  // ---------------------------------------------------------------- records

  /** One slot-prefixed record: a full order, or a new price and volume for the order in the slot. */
  datatype Event = Put(slot: I32, order: Order) | Patch(slot: I32, price: U64, volume: U32)

  function EncodeI32(x: I32): seq<Byte> {
    EncodeWord(4, if x < 0 then x + 0x1_0000_0000 else x)
  }

  lemma {:induction false} I32RoundTrip(x: I32)
    ensures I32Of(DecodeWord(EncodeI32(x))) == x
  {
    Powers();
    WordRoundTrip(4, if x < 0 then x + 0x1_0000_0000 else x);
  }

  function EncodeBody(e: Event): seq<Byte> {
    match e
    case Put(_, o) => EncodeOrder(o)
    case Patch(_, p, v) => EncodeDiff(p, v)
  }

  function EncodeEvent(e: Event): seq<Byte> {
    EncodeI32(e.slot) + EncodeBody(e)
  }

  /** The record behind a slot: its first byte tells a diff from an order. */
  function DecodeBody(slot: I32, body: seq<Byte>): Option<(Event, seq<Byte>)> {
    if body == [] then None
    else if body[0] == DIFF_TAG then
      if |body| < Width(DIFF_WIDTHS) then None
      else
        var xs := Unpack(DIFF_WIDTHS, body);
        Some((Patch(slot, U64Of(xs[1]), U32Of(xs[2])), body[Width(DIFF_WIDTHS)..]))
    else
      if |body| < Width(ORDER_WIDTHS) then None
      else Some((Put(slot, OrderOf(Unpack(ORDER_WIDTHS, body))), body[Width(ORDER_WIDTHS)..]))
  }

  /** `read_step`: the record at the front of `doc` and the text behind it. */
  function DecodeEvent(doc: seq<Byte>): Option<(Event, seq<Byte>)> {
    if |doc| < 4 then None
    else DecodeBody(I32Of(DecodeWord(doc[..4])), doc[4..])
  }

  /** The buy flag is not the diff tag, so the first byte of the record is unambiguous. */
  predicate Distinguishable(e: Event) {
    e.Put? ==> e.order.buy != DIFF_TAG
  }

  lemma {:induction false} BodyRoundTrip(e: Event, rest: seq<Byte>)
    ensures EncodeBody(e) != []
    ensures Distinguishable(e) <==> DecodeBody(e.slot, EncodeBody(e) + rest) == Some((e, rest))
  {
    RecordWidths();
    match e
    case Put(_, o) =>
      OrderRoundTrip(o, rest);
      Split(EncodeOrder(o), rest);
    case Patch(_, p, v) =>
      DiffRoundTrip(p, v, rest);
      Split(EncodeDiff(p, v), rest);
  }

  /** A record is read back, whatever follows it, exactly when its buy flag is not the diff tag. */
  lemma {:induction false} EventRoundTrip(e: Event, rest: seq<Byte>)
    ensures Distinguishable(e) <==> DecodeEvent(EncodeEvent(e) + rest) == Some((e, rest))
    ensures |EncodeEvent(e)| == if e.Put? then 54 else 17
  {
    I32RoundTrip(e.slot);
    Associative(EncodeI32(e.slot), EncodeBody(e), rest);
    Split(EncodeI32(e.slot), EncodeBody(e) + rest);
    BodyRoundTrip(e, rest);
    RecordWidths();
  }

  /** A record begins with its slot. */
  lemma {:induction false} EventLayout(e: Event)
    ensures EncodeEvent(e)[..4] == EncodeI32(e.slot)
    ensures EncodeEvent(e)[4..] == if e.Put? then EncodeOrder(e.order) else EncodeDiff(e.price, e.volume)
  {
  }

  function EventChunks(es: seq<Event>): seq<seq<Byte>> {
    seq(|es|, i requires 0 <= i < |es| => EncodeEvent(es[i]))
  }

  function EncodeEvents(es: seq<Event>): seq<Byte> {
    Concat(EventChunks(es))
  }

  /** Whatever the text is, a record that is read takes 17 or 54 bytes off it. */
  lemma {:induction false} RecordShrinks(doc: seq<Byte>)
    ensures var r := DecodeEvent(doc);
            r.Some? ==> |doc| == |r.value.1| + if r.value.0.Put? then 54 else 17
  {
    RecordWidths();
  }

  lemma {:induction false} RecordsShrink()
    ensures Shrinks(DecodeEvent)
  {
    forall text | DecodeEvent(text).Some? ensures |DecodeEvent(text).value.1| < |text| {
      RecordShrinks(text);
    }
  }

  /** `read_doc`: records until the text is used up. */
  function DecodeEvents(doc: seq<Byte>): Option<seq<Event>> {
    RecordsShrink();
    DecodeAll(DecodeEvent, doc)
  }

  ghost predicate AllDistinguishable(es: seq<Event>) {
    forall i :: 0 <= i < |es| ==> Distinguishable(es[i])
  }

  /** Decoding a concatenation of records returns the records: their boundaries cannot be confused. */
  lemma {:induction false} EventsRoundTrip(es: seq<Event>)
    requires AllDistinguishable(es)
    ensures DecodeEvents(EncodeEvents(es)) == Some(es)
  {
    var chunks := EventChunks(es);
    forall i, rest | 0 <= i < |chunks|
      ensures chunks[i] != [] && DecodeEvent(chunks[i] + rest) == Some((es[i], rest))
    {
      EventRoundTrip(es[i], rest);
    }
    RecordsShrink();
    DecodeAllConcat(DecodeEvent, chunks, es);
  }

  lemma {:induction false} EventChunksAppend(es: seq<Event>, e: Event)
    ensures EventChunks(es + [e]) == EventChunks(es) + [EncodeEvent(e)]
  {
  }

  lemma {:induction false} EncodeEventsAppend(es: seq<Event>, e: Event)
    ensures EncodeEvents(es + [e]) == EncodeEvents(es) + EncodeEvent(e)
  {
    EventChunksAppend(es, e);
    ConcatAppend(EventChunks(es), EncodeEvent(e));
  }

  // ---------------------------------------------------------------- frames

  datatype Page = Page(first: Id, last: Id, events: seq<Event>)

  /** The record bytes of a page fit the signed 32-bit size field. */
  ghost predicate ValidPage(p: Page) {
    AllDistinguishable(p.events) && |EncodeEvents(p.events)| < 0x8000_0000
  }

  const PAGE_WIDTHS: seq<nat> := [8, 8, 4]
  const FRAME_WIDTHS: seq<nat> := [4, 1]

  /** First id, last id and the back-patched size of the records; four bytes keep only the low part of it. */
  function PageHeader(first: Id, last: Id, size: nat): seq<Byte> {
    Pack(PAGE_WIDTHS, [first, last, size])
  }

  function EncodePage(p: Page): seq<Byte> {
    PageHeader(p.first, p.last, |EncodeEvents(p.events)|) + EncodeEvents(p.events)
  }

  /** The records behind a page header, cut off at the header's size. */
  function DecodeRecords(header: seq<nat>, body: seq<Byte>): Option<(Page, seq<Byte>)>
    requires |header| == 3
  {
    var size := I32Of(header[2]);
    if !(0 <= size <= |body|) then None
    else
      var events := DecodeEvents(body[..size]);
      if events.None? then None
      else Some((Page(U64Of(header[0]), U64Of(header[1]), events.value), body[size..]))
  }

  /** One round of the page loop in `OrderReader::step`. */
  function DecodePage(text: seq<Byte>): Option<(Page, seq<Byte>)> {
    if |text| < Width(PAGE_WIDTHS) then None
    else DecodeRecords(Unpack(PAGE_WIDTHS, text), text[Width(PAGE_WIDTHS)..])
  }

  /** A page that is read takes its header and its records off the text. */
  lemma {:induction false} PageShrinks(text: seq<Byte>)
    ensures var r := DecodePage(text);
            r.Some? ==> |r.value.1| + 20 <= |text|
  {
    RecordWidths();
  }

  lemma {:induction false} RecordsRoundTrip(p: Page, records: seq<Byte>, rest: seq<Byte>)
    requires ValidPage(p) && records == EncodeEvents(p.events)
    ensures DecodeRecords([p.first, p.last, |records|], records + rest) == Some((p, rest))
  {
    EventsRoundTrip(p.events);
    Split(records, rest);
  }

  lemma {:induction false} PageHeaderRoundTrip(first: Id, last: Id, size: nat, rest: seq<Byte>)
    requires size < 0x8000_0000
    ensures Unpack(PAGE_WIDTHS, PageHeader(first, last, size) + rest) == [first, last, size]
  {
    Powers();
    TupleRoundTrip(PAGE_WIDTHS, [first, last, size], rest);
  }

  lemma {:induction false} PageRoundTrip(p: Page, rest: seq<Byte>)
    requires ValidPage(p)
    ensures DecodePage(EncodePage(p) + rest) == Some((p, rest))
  {
    var records := EncodeEvents(p.events);
    var header := PageHeader(p.first, p.last, |records|);
    Associative(header, records, rest);
    Split(header, records + rest);
    PageHeaderRoundTrip(p.first, p.last, |records|, records + rest);
    RecordsRoundTrip(p, records, rest);
  }

  function PageChunks(ps: seq<Page>): seq<seq<Byte>> {
    seq(|ps|, i requires 0 <= i < |ps| => EncodePage(ps[i]))
  }

  function EncodePages(ps: seq<Page>): seq<Byte> {
    Concat(PageChunks(ps))
  }

  function FrameHeader(viewtime: U32, pageCount: nat): seq<Byte> {
    Pack(FRAME_WIDTHS, [viewtime, pageCount])
  }

  lemma {:induction false} FrameHeaderRoundTrip(viewtime: U32, pageCount: nat, rest: seq<Byte>)
    requires pageCount < 0x100
    ensures Unpack(FRAME_WIDTHS, FrameHeader(viewtime, pageCount) + rest) == [viewtime, pageCount]
  {
    Powers();
    TupleRoundTrip(FRAME_WIDTHS, [viewtime, pageCount], rest);
  }

  /** The layout of the two headers. */
  lemma {:induction false} HeaderLayout(first: Id, last: Id, size: nat, viewtime: U32, count: nat)
    ensures var page := PageHeader(first, last, size);
            && |page| == 20 && page[0..8] == EncodeWord(8, first) && page[8..16] == EncodeWord(8, last)
            && page[16..20] == EncodeWord(4, size)
    ensures var frame := FrameHeader(viewtime, count);
            |frame| == 5 && frame[0..4] == EncodeWord(4, viewtime) && frame[4..5] == EncodeWord(1, count)
  {
    assert PAGE_WIDTHS[..0] == [] && FRAME_WIDTHS[..0] == [];
    WidthNext(PAGE_WIDTHS, 0);
    WidthNext(PAGE_WIDTHS, 1);
    WidthNext(PAGE_WIDTHS, 2);
    WidthNext(FRAME_WIDTHS, 0);
    WidthNext(FRAME_WIDTHS, 1);
    FieldAt(PAGE_WIDTHS, [first, last, size], 0);
    FieldAt(PAGE_WIDTHS, [first, last, size], 1);
    FieldAt(PAGE_WIDTHS, [first, last, size], 2);
    FieldAt(FRAME_WIDTHS, [viewtime, count], 0);
    FieldAt(FRAME_WIDTHS, [viewtime, count], 1);
    assert PAGE_WIDTHS[..3] == PAGE_WIDTHS && FRAME_WIDTHS[..2] == FRAME_WIDTHS;
  }
}
