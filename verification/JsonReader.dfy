/**
 `OrderReader` of json_reader.cpp: replays the log into a fixed array of slots.
 The text is the part of a byte region from `pos` on, as a `string_view` into the mapped file is.
 */
module JsonReader {
  import opened Wrappers
  import opened Orders
  import opened Codec
  import opened Replay
  import opened Snapshots

  const CAPACITY: nat := 600_000

  const ZERO_ORDER := Order(0, 0, 0, 0, 0, 0, 0, 0, 0, 0, 0)

  /** `read_impl<tuple<...>>`: the fields in order, and the text behind them. */
  method ReadTuple(ws: seq<nat>, text: seq<Byte>) returns (xs: seq<nat>, rest: seq<Byte>)
    requires |text| >= Width(ws)
    ensures xs == Unpack(ws, text)
    ensures rest == text[Width(ws)..]
  {
    xs, rest := [], text;
    for i := 0 to |ws|
      invariant |rest| >= Width(ws[i..])
      invariant xs + Unpack(ws[i..], rest) == Unpack(ws, text)
      invariant rest[Width(ws[i..])..] == text[Width(ws)..]
    {
      var w := ws[i];
      assert ws[i..][0] == w && ws[i..][1..] == ws[i + 1..];
      assert rest[w..][Width(ws[i + 1..])..] == rest[Width(ws[i..])..];
      xs := xs + [DecodeWord(rest[..w])];
      rest := rest[w..];
    }
    assert Width(ws[|ws|..]) == 0;
    assert rest == rest[0..];
  }

  /** The steps of reading a page, in the reader's order: header, size, records, text behind the records. */
  lemma {:induction false} PageParts(r: Reader, header: seq<nat>, body: seq<Byte>, size: I32)
    requires Snapshots.ReadPage(r).Some?
    requires |r.text| >= Width(PAGE_WIDTHS) && header == Unpack(PAGE_WIDTHS, r.text)
    requires body == r.text[Width(PAGE_WIDTHS)..] && size == I32Of(header[2])
    ensures 0 <= size <= |body| && DecodeEvents(body[..size]).Some?
    ensures var slots := ApplyAll(r.slots, DecodeEvents(body[..size]).value);
            slots.Some? && Snapshots.ReadPage(r) == Some(Reader(slots.value, body[size..]))
  {
  }

  class OrderReader {
    const region: array<Byte>
    var pos: nat
    var viewtime: U32
    const activeOrders: array<Order>

    ghost predicate Valid()
      reads this
    {
      pos <= region.Length && activeOrders.Length == CAPACITY
    }

    ghost function Text(): seq<Byte>
      reads this, region
      requires pos <= region.Length
    {
      region[pos..]
    }

    /** The abstract reader: slots and unread text. */
    ghost function State(): Reader
      reads this, region, activeOrders
      requires pos <= region.Length
    {
      Reader(activeOrders[..], Text())
    }

    constructor (s: array<Byte>)
      ensures Valid() && region == s && pos == 0 && fresh(activeOrders)
      ensures forall k :: 0 <= k < CAPACITY ==> activeOrders[k] == ZERO_ORDER
    {
      region := s;
      pos := 0;
      viewtime := 0;
      activeOrders := new Order[CAPACITY](_ => ZERO_ORDER);
    }

    /** One record of `doc`; answers the rest of `doc`. */
    method ReadStep(doc: seq<Byte>) returns (rest: seq<Byte>)
      requires DecodeEvent(doc).Some?
      requires Apply(activeOrders[..], DecodeEvent(doc).value.0).Some?
      modifies activeOrders
      ensures rest == DecodeEvent(doc).value.1
      ensures Some(activeOrders[..]) == Apply(old(activeOrders[..]), DecodeEvent(doc).value.0)
    {
      var readIndex := I32Of(DecodeWord(doc[..4]));
      var body := doc[4..];
      if body[0] == DIFF_TAG {
        var d;
        d, rest := ReadTuple(DIFF_WIDTHS, body);
        activeOrders[readIndex] := activeOrders[readIndex].(price := U64Of(d[1]), volume := U32Of(d[2]));
      } else {
        var o;
        o, rest := ReadTuple(ORDER_WIDTHS, body);
        activeOrders[readIndex] := OrderOf(o);
      }
    }

    /** All records of a page. */
    method ReadDoc(doc: seq<Byte>)
      requires DecodeEvents(doc).Some?
      requires ApplyAll(activeOrders[..], DecodeEvents(doc).value).Some?
      modifies activeOrders
      ensures Some(activeOrders[..]) == ApplyAll(old(activeOrders[..]), DecodeEvents(doc).value)
    {
      ghost var goal := ApplyAll(activeOrders[..], DecodeEvents(doc).value);
      var rest := doc;
      while rest != []
        invariant DecodeEvents(rest).Some?
        invariant ApplyAll(activeOrders[..], DecodeEvents(rest).value) == goal
        decreases |rest|
      {
        RecordShrinks(rest);
        ghost var (e, behind) := DecodeEvent(rest).value;
        ApplyAllCons(activeOrders[..], e, DecodeEvents(behind).value);
        rest := ReadStep(rest);
      }
    }

    /** A fixed-width header taken off the text. */
    method ReadHeader(ws: seq<nat>) returns (xs: seq<nat>)
      requires Valid() && |Text()| >= Width(ws)
      modifies this`pos
      ensures Valid() && xs == Unpack(ws, old(Text())) && Text() == old(Text())[Width(ws)..]
      ensures pos == old(pos) + Width(ws)
    {
      var rest;
      xs, rest := ReadTuple(ws, region[pos..]);
      pos := pos + (region.Length - pos - |rest|);
    }

    lemma {:induction false} TextCut(n: nat)
      requires Valid() && n <= |Text()|
      ensures Text()[..n] == region[pos..pos + n] && Text()[n..] == region[pos + n..]
    {
    }

    /** The records within the size of a page. */
    method ReadRecords(docSize: nat)
      requires Valid() && docSize <= |Text()| && DecodeEvents(Text()[..docSize]).Some?
      requires ApplyAll(activeOrders[..], DecodeEvents(Text()[..docSize]).value).Some?
      modifies this`pos, activeOrders
      ensures Valid() && Text() == old(Text())[docSize..]
      ensures Some(activeOrders[..]) ==
              ApplyAll(old(activeOrders[..]), DecodeEvents(old(Text())[..docSize]).value)
    {
      TextCut(docSize);
      ReadDoc(region[pos..pos + docSize]);
      pos := pos + docSize;
    }

    /** One page: header, then its records. */
    method ReadPage()
      requires Valid() && Snapshots.ReadPage(State()).Some?
      modifies this`pos, activeOrders
      ensures Valid() && Some(State()) == Snapshots.ReadPage(old(State()))
    {
      ghost var before := State();
      assert |before.text| >= Width(PAGE_WIDTHS);
      // first and last id are read and not used
      var page := ReadHeader(PAGE_WIDTHS);
      var docSize := I32Of(page[2]);
      PageParts(before, page, Text(), docSize);
      ReadRecords(docSize);
    }

    /** The page loop of `step`. */
    method ReadPages(docCount: I8)
      requires Valid() && Repeat(Snapshots.ReadPage, PageCount(docCount), State()).Some?
      modifies this`pos, activeOrders
      ensures Valid() && Some(State()) == Repeat(Snapshots.ReadPage, PageCount(docCount), old(State()))
    {
      ghost var left, st := PageCount(docCount), State();
      var i := 0;
      while i < docCount
        invariant 0 <= i && left == PageCount(docCount) - i
        invariant Valid() && st == State()
        invariant Repeat(Snapshots.ReadPage, left, st) ==
                  Repeat(Snapshots.ReadPage, PageCount(docCount), old(State()))
      {
        ghost var less := left - 1;
        RepeatStep(Snapshots.ReadPage, left, less, st);
        ReadPage();
        i, left, st := i + 1, less, State();
      }
    }

    /** One snapshot: header, then page by page. */
    method Step()
      requires Valid() && ReadSnapshot(State()).Some?
      modifies this`pos, this`viewtime, activeOrders
      ensures Valid() && Some(State()) == ReadSnapshot(old(State()))
      ensures viewtime == U32Of(Unpack(FRAME_WIDTHS, old(Text()))[0])
    {
      var header := ReadHeader(FRAME_WIDTHS);
      viewtime := U32Of(header[0]);
      ReadPages(I8Of(header[1]));
    }
  }
}
