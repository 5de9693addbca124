/**
 The market order and its change record, as apps/pricing/order.h lays them out.
 A price is the 64-bit pattern of a double: the log only copies it and compares it for equality.
 */
module Orders {
  type Byte = x: int | 0 <= x < 0x100
  type I8 = x: int | -0x80 <= x < 0x80
  type I32 = x: int | -0x8000_0000 <= x < 0x8000_0000
  type U32 = x: int | 0 <= x < 0x1_0000_0000
  type U64 = x: int | 0 <= x < 0x1_0000_0000_0000_0000

  type Id = U64

  datatype Order = Order(
    buy: I8, issued: U32, price: U64, volumeEntered: U32, stationId: U64, volume: U32,
    range: I8, minVolume: U32, duration: U32, typ: U32, id: Id)

  /** The comparison the writer uses on the replayed book. */
  predicate EqualIgnoringIssued(a: Order, b: Order) {
    && a.buy == b.buy && a.price == b.price && a.volumeEntered == b.volumeEntered
    && a.stationId == b.stationId && a.volume == b.volume && a.range == b.range
    && a.minVolume == b.minVolume && a.duration == b.duration && a.typ == b.typ && a.id == b.id
  }

  /** The fields a change record cannot express, apart from `issued`. */
  predicate SameStatics(a: Order, b: Order) {
    && a.buy == b.buy && a.volumeEntered == b.volumeEntered && a.stationId == b.stationId
    && a.range == b.range && a.minVolume == b.minVolume && a.duration == b.duration
    && a.typ == b.typ && a.id == b.id
  }

  predicate SameOffer(a: Order, b: Order) {
    a.price == b.price && a.volume == b.volume
  }

  predicate SortedById(s: seq<Order>) {
    forall i, j :: 0 <= i < j < |s| ==> s[i].id < s[j].id
  }

  ghost function Ids(s: seq<Order>): set<Id> {
    set i | 0 <= i < |s| :: s[i].id
  }
}
