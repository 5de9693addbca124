/**
 Reading an order from the members of a JSON object (apps/pricing/read_json_order.cpp): the members are told apart by
 the length of their key and its first letter, in whatever order they come.
 */
module OrderMembers {
  import opened Wrappers
  import opened Orders

  /** A number written with a fraction or an exponent is a double, given by its 64-bit pattern. */
  datatype Json = Boolean(b: bool) | Unsigned(n: U64) | Double(bits: U64) | Chars(s: string) | Other

  datatype Member = Member(name: string, value: Json)

  /** `parse_datetime`; `None` where it throws. */
  type Clock = string -> Option<U32>

  datatype Key = Id | Buy | Typ | Price | Range | Issued | Volume | Duration | StationId | MinVolume | VolumeEntered

  function NameOf(k: Key): string {
    match k
    case Id => "id"
    case Buy => "buy"
    case Typ => "type"
    case Price => "price"
    case Range => "range"
    case Issued => "issued"
    case Volume => "volume"
    case Duration => "duration"
    case StationId => "stationID"
    case MinVolume => "minVolume"
    case VolumeEntered => "volumeEntered"
  }

  predicate Known(name: string) {
    exists k :: name == NameOf(k)
  }

  /** The switch over the length of the key and its first letter. */
  function Dispatch(name: string): Key {
    match |name|
    case 2 => Id
    case 3 => Buy
    case 4 => Typ
    case 5 => if name[0] == 'p' then Price else Range
    case 6 => if name[0] == 'i' then Issued else Volume
    case 8 => Duration
    case 9 => if name[0] == 's' then StationId else MinVolume
    case _ => VolumeEntered
  }

  /** The conversion to int8. */
  function ToInt8(n: int): I8 {
    (n + 128) % 256 - 128
  }

  function RangeToInt8(x: string): I8 {
    match |x|
    case 1 => ToInt8(x[0] as int - '0' as int)
    case 2 => ToInt8(10 * (x[0] as int - '0' as int))
    case 6 => -1
    case 7 => -3
    case _ => -2
  }

  predicate IsUint(v: Json) {
    v.Unsigned? && v.n < 0x1_0000_0000
  }

  /** The value has the type the key asks for. */
  predicate Typed(clock: Clock, k: Key, v: Json) {
    match k
    case Id => v.Unsigned?
    case StationId => v.Unsigned?
    case Buy => v.Boolean?
    case Price => v.Double?
    case Range => v.Chars?
    case Issued => v.Chars? && clock(v.s).Some?
    case _ => IsUint(v)
  }

  /** The order's field holds what the value says. */
  predicate Agrees(clock: Clock, o: Order, k: Key, v: Json)
    requires Typed(clock, k, v)
  {
    match k
    case Id => o.id == v.n
    case Buy => o.buy == if v.b then 1 else 0
    case Typ => o.typ == v.n
    case Price => o.price == v.bits
    case Range => o.range == RangeToInt8(v.s)
    case Issued => o.issued == clock(v.s).value
    case Volume => o.volume == v.n
    case Duration => o.duration == v.n
    case StationId => o.stationId == v.n
    case MinVolume => o.minVolume == v.n
    case VolumeEntered => o.volumeEntered == v.n
  }

  /** The value of the last member with a name. */
  function LastValue(ms: seq<Member>, name: string): Option<Json> {
    if ms == [] then None
    else if ms[|ms| - 1].name == name then Some(ms[|ms| - 1].value)
    else LastValue(ms[..|ms| - 1], name)
  }

  predicate AllTyped(clock: Clock, ms: seq<Member>) {
    forall i :: 0 <= i < |ms| ==> Typed(clock, Dispatch(ms[i].name), ms[i].value)
  }

  /** A bit for each key. */
  function Bit(k: Key): bv16 {
    match k
    case Id => 0x1
    case Buy => 0x2
    case Typ => 0x4
    case Price => 0x8
    case Range => 0x10
    case Issued => 0x20
    case Volume => 0x40
    case Duration => 0x80
    case StationId => 0x100
    case MinVolume => 0x200
    case VolumeEntered => 0x400
  }

  const ALL: bv16 := 0x7FF

  /** The bits mark exactly the keys seen. */
  predicate Marks(bits: bv16, seen: set<Key>) {
    bits & ALL == bits && forall k :: bits & Bit(k) != 0 <==> k in seen
  }

  lemma {:induction false} BitMarks(bits: bv16, j: Key, k: Key)
    ensures (bits | Bit(j)) & Bit(k) != 0 <==> bits & Bit(k) != 0 || j == k
  {
    assert (bits | Bit(j)) & Bit(k) == (bits & Bit(k)) | (Bit(j) & Bit(k));
    assert Bit(j) & Bit(k) == if j == k then Bit(k) else 0;
  }

  lemma {:induction false} MarksMore(bits: bv16, seen: set<Key>, j: Key)
    requires Marks(bits, seen)
    ensures Marks(bits | Bit(j), seen + {j})
  {
    forall k ensures (bits | Bit(j)) & Bit(k) != 0 <==> k in seen + {j} {
      BitMarks(bits, j, k);
    }
  }

  lemma {:induction false} MarksAll(bits: bv16, seen: set<Key>)
    requires Marks(bits, seen)
    ensures bits == ALL <==> forall k: Key :: k in seen
  {
    AllBits(bits);
  }

  lemma {:induction false} AllBits(bits: bv16)
    requires bits & ALL == bits
    ensures bits == ALL <==> forall k :: bits & Bit(k) != 0
  {
    if forall k :: bits & Bit(k) != 0 {
      assert bits & Bit(Id) != 0 && bits & Bit(Buy) != 0 && bits & Bit(Typ) != 0 && bits & Bit(Price) != 0;
      assert bits & Bit(Range) != 0 && bits & Bit(Issued) != 0 && bits & Bit(Volume) != 0;
      assert bits & Bit(Duration) != 0 && bits & Bit(StationId) != 0;
      assert bits & Bit(MinVolume) != 0 && bits & Bit(VolumeEntered) != 0;
      ElevenBits(bits);
    }
  }

  lemma {:induction false} ElevenBits(bits: bv16)
    requires bits & 0x7FF == bits
    requires bits & 0x1 != 0 && bits & 0x2 != 0 && bits & 0x4 != 0 && bits & 0x8 != 0 && bits & 0x10 != 0
    requires bits & 0x20 != 0 && bits & 0x40 != 0 && bits & 0x80 != 0 && bits & 0x100 != 0 && bits & 0x200 != 0
    requires bits & 0x400 != 0
    ensures bits == 0x7FF
  {
  }

  // ------------------------------------------------ the conversion

  /** The keys of the first `n` members, as they are told apart. */
  ghost function Seen(ms: seq<Member>): set<Key> {
    set i | 0 <= i < |ms| :: Dispatch(ms[i].name)
  }

  /** The value of the last member taken for a key. */
  function LastTaken(ms: seq<Member>, k: Key): Option<Json> {
    if ms == [] then None
    else if Dispatch(ms[|ms| - 1].name) == k then Some(ms[|ms| - 1].value)
    else LastTaken(ms[..|ms| - 1], k)
  }

  lemma {:induction false} TakenTyped(clock: Clock, ms: seq<Member>, k: Key)
    requires AllTyped(clock, ms)
    ensures LastTaken(ms, k).Some? ==> Typed(clock, k, LastTaken(ms, k).value)
    ensures LastTaken(ms, k).Some? <==> k in Seen(ms)
  {
    if ms != [] {
      TakenTyped(clock, ms[..|ms| - 1], k);
      SeenMore(ms[..|ms| - 1], ms[|ms| - 1]);
      assert ms == ms[..|ms| - 1] + [ms[|ms| - 1]];
    }
  }

  lemma {:induction false} SeenMore(ms: seq<Member>, m: Member)
    ensures Seen(ms + [m]) == Seen(ms) + {Dispatch(m.name)}
  {
    var all := ms + [m];
    forall k | k in Seen(ms) + {Dispatch(m.name)} ensures k in Seen(all) {
      if k in Seen(ms) {
        var i :| 0 <= i < |ms| && Dispatch(ms[i].name) == k;
        assert Dispatch(all[i].name) == k;
      } else {
        assert Dispatch(all[|ms|].name) == k;
      }
    }
    forall k | k in Seen(all) ensures k in Seen(ms) + {Dispatch(m.name)} {
      var i :| 0 <= i < |all| && Dispatch(all[i].name) == k;
      assert i < |ms| ==> Dispatch(ms[i].name) == k;
    }
  }

  /** What reading the members taken for a key leaves in its field. */
  ghost predicate Filled(clock: Clock, ms: seq<Member>, o: Order)
    requires AllTyped(clock, ms)
  {
    forall k :: FilledAt(clock, ms, o, k)
  }

  ghost predicate FilledAt(clock: Clock, ms: seq<Member>, o: Order, k: Key)
    requires AllTyped(clock, ms)
  {
    TakenTyped(clock, ms, k);
    LastTaken(ms, k).Some? ==> Agrees(clock, o, k, LastTaken(ms, k).value)
  }

  /** One member more: `p` differs from `o` in the field of its key. */
  lemma {:induction false} OneMore(clock: Clock, ms: seq<Member>, m: Member, o: Order, p: Order)
    requires AllTyped(clock, ms) && Filled(clock, ms, o) && Typed(clock, Dispatch(m.name), m.value)
    requires p == Put(clock, o, Dispatch(m.name), m.value)
    ensures AllTyped(clock, ms + [m]) && Filled(clock, ms + [m], p)
  {
    assert (ms + [m])[..|ms|] == ms;
    forall k ensures FilledAt(clock, ms + [m], p, k) {
      TakenTyped(clock, ms, k);
      assert FilledAt(clock, ms, o, k);
      PutKeeps(clock, o, Dispatch(m.name), m.value, k);
    }
  }

  function Put(clock: Clock, o: Order, k: Key, v: Json): Order
    requires Typed(clock, k, v)
  {
    match k
    case Id => o.(id := v.n)
    case Buy => o.(buy := if v.b then 1 else 0)
    case Typ => o.(typ := v.n)
    case Price => o.(price := v.bits)
    case Range => o.(range := RangeToInt8(v.s))
    case Issued => o.(issued := clock(v.s).value)
    case Volume => o.(volume := v.n)
    case Duration => o.(duration := v.n)
    case StationId => o.(stationId := v.n)
    case MinVolume => o.(minVolume := v.n)
    case VolumeEntered => o.(volumeEntered := v.n)
  }

  lemma {:induction false} PutKeeps(clock: Clock, o: Order, j: Key, v: Json, k: Key)
    requires Typed(clock, j, v)
    ensures Agrees(clock, Put(clock, o, j, v), j, v)
    ensures j != k ==>
              forall w :: Typed(clock, k, w) && Agrees(clock, o, k, w) ==> Agrees(clock, Put(clock, o, j, v), k, w)
  {
  }

  /** One turn of the loop: the switch over the length of the key; `None` where the value has the wrong type. */
  method ReadMember(clock: Clock, m: Member, order: Order) returns (r: Option<Order>, k: Key)
    ensures k == Dispatch(m.name)
    ensures r.Some? <==> Typed(clock, k, m.value)
    ensures r.Some? ==> r.value == Put(clock, order, k, m.value)
  {
    var name, v := m.name, m.value;
    match |name| {
      case 2 =>
        if !v.Unsigned? { return None, Id; }
        return Some(order.(id := v.n)), Id;
      case 3 =>
        if !v.Boolean? { return None, Buy; }
        return Some(order.(buy := if v.b then 1 else 0)), Buy;
      case 4 =>
        if !IsUint(v) { return None, Typ; }
        return Some(order.(typ := v.n)), Typ;
      case 5 =>
        if name[0] == 'p' {
          if !v.Double? { return None, Price; }
          return Some(order.(price := v.bits)), Price;
        } else {
          if !v.Chars? { return None, Range; }
          return Some(order.(range := RangeToInt8(v.s))), Range;
        }
      case 6 =>
        if name[0] == 'i' {
          if !v.Chars? { return None, Issued; }
          var issued := clock(v.s);
          if issued.None? { return None, Issued; }
          return Some(order.(issued := issued.value)), Issued;
        } else {
          if !IsUint(v) { return None, Volume; }
          return Some(order.(volume := v.n)), Volume;
        }
      case 8 =>
        if !IsUint(v) { return None, Duration; }
        return Some(order.(duration := v.n)), Duration;
      case 9 =>
        if name[0] == 's' {
          if !v.Unsigned? { return None, StationId; }
          return Some(order.(stationId := v.n)), StationId;
        } else {
          if !IsUint(v) { return None, MinVolume; }
          return Some(order.(minVolume := v.n)), MinVolume;
        }
      case _ =>
        if !IsUint(v) { return None, VolumeEntered; }
        return Some(order.(volumeEntered := v.n)), VolumeEntered;
    }
  }

  /** `convert`. The order starts with whatever memory holds. */
  method Convert(clock: Clock, ms: seq<Member>, garbage: Order) returns (r: Result<Order, string>)
    ensures r.Ok? <==> AllTyped(clock, ms) && forall k: Key :: k in Seen(ms)
    ensures r.Ok? ==> Filled(clock, ms, r.value)
  {
    var order, membersRead := garbage, 0 as bv16;
    for n := 0 to |ms|
      invariant AllTyped(clock, ms[..n]) && Filled(clock, ms[..n], order) && Marks(membersRead, Seen(ms[..n]))
    {
      var m := ms[n];
      assert ms[..n + 1] == ms[..n] + [m];
      var read, k := ReadMember(clock, m, order);
      if read.None? {
        return Err("wrong type");
      }
      OneMore(clock, ms[..n], m, order, read.value);
      SeenMore(ms[..n], m);
      MarksMore(membersRead, Seen(ms[..n]), k);
      order, membersRead := read.value, membersRead | Bit(k);
    }
    assert ms[..|ms|] == ms;
    MarksAll(membersRead, Seen(ms));
    if membersRead != ALL {
      return Err("missing some member");
    }
    r := Ok(order);
  }

  // ------------------------------------------------ by full name

  /** Among the eleven names, length and first letter tell all apart. */
  lemma {:induction false} DispatchIsByName(name: string, k: Key)
    requires Known(name)
    ensures Dispatch(name) == k <==> name == NameOf(k)
  {
    var j :| name == NameOf(j);
  }

  ghost predicate AllKnown(ms: seq<Member>) {
    forall i :: 0 <= i < |ms| ==> Known(ms[i].name)
  }

  lemma {:induction false} TakenByName(ms: seq<Member>, k: Key)
    requires AllKnown(ms)
    ensures LastTaken(ms, k) == LastValue(ms, NameOf(k))
  {
    if ms != [] {
      TakenByName(ms[..|ms| - 1], k);
      DispatchIsByName(ms[|ms| - 1].name, k);
    }
  }

  /**
   For members named by the eleven keys, in any order and with repeats, converting means looking each key up by its
   full name, the last occurrence winning; given values of the right types it succeeds exactly if all eleven occur.
   */
  lemma {:induction false} ConvertsByName(clock: Clock, ms: seq<Member>, o: Order)
    requires AllKnown(ms) && AllTyped(clock, ms)
    ensures (forall k: Key :: k in Seen(ms)) <==> (forall k :: LastValue(ms, NameOf(k)).Some?)
    ensures Filled(clock, ms, o) <==>
            forall k :: LastValue(ms, NameOf(k)).Some? ==>
              Typed(clock, k, LastValue(ms, NameOf(k)).value) && Agrees(clock, o, k, LastValue(ms, NameOf(k)).value)
  {
    forall k
      ensures k in Seen(ms) <==> LastValue(ms, NameOf(k)).Some?
      ensures LastTaken(ms, k) == LastValue(ms, NameOf(k))
      ensures LastTaken(ms, k).Some? ==> Typed(clock, k, LastTaken(ms, k).value)
    {
      TakenTyped(clock, ms, k);
      TakenByName(ms, k);
    }
    if forall k :: LastValue(ms, NameOf(k)).Some? ==>
         Typed(clock, k, LastValue(ms, NameOf(k)).value) && Agrees(clock, o, k, LastValue(ms, NameOf(k)).value) {
      forall k ensures FilledAt(clock, ms, o, k) {
        assert LastTaken(ms, k) == LastValue(ms, NameOf(k));
      }
    }
    if Filled(clock, ms, o) {
      forall k | LastValue(ms, NameOf(k)).Some?
        ensures Typed(clock, k, LastValue(ms, NameOf(k)).value) && Agrees(clock, o, k, LastValue(ms, NameOf(k)).value)
      {
        assert FilledAt(clock, ms, o, k);
      }
    }
  }

  /** The ranges the market knows. */
  lemma {:induction false} RangeTable()
    ensures RangeToInt8("1") == 1 && RangeToInt8("2") == 2 && RangeToInt8("3") == 3 && RangeToInt8("4") == 4
    ensures RangeToInt8("5") == 5 && RangeToInt8("10") == 10 && RangeToInt8("20") == 20 && RangeToInt8("30") == 30
    ensures RangeToInt8("40") == 40
    ensures RangeToInt8("region") == -1 && RangeToInt8("solarsystem") == -2 && RangeToInt8("station") == -3
  {
    assert |"region"| == 6 && |"solarsystem"| == 11 && |"station"| == 7;
  }

  /** One digit counts as it is; of two characters only the first counts, in tens; any other length is a keyword's. */
  lemma {:induction false} RangeOfDigits(d: nat, c: char, x: string)
    requires d < 10
    ensures RangeToInt8(['0' + d as char]) == d && RangeToInt8(['0' + d as char, c]) == 10 * d
    ensures |x| !in {1, 2, 6, 7} ==> RangeToInt8(x) == RangeToInt8("solarsystem")
  {
    assert |"solarsystem"| == 11;
  }

  /** A converted order is a buy or a sell order, never taken for a change record. */
  lemma {:induction false} BuyIsZeroOrOne(clock: Clock, ms: seq<Member>, o: Order)
    requires AllTyped(clock, ms) && Filled(clock, ms, o) && forall k: Key :: k in Seen(ms)
    ensures o.buy == 0 || o.buy == 1
  {
    TakenTyped(clock, ms, Buy);
    assert Buy in Seen(ms);
    assert FilledAt(clock, ms, o, Buy);
  }

  /** A price without a fraction is no double: such a member, the comment's own example, is rejected. */
  lemma {:induction false} WholePriceRejected(clock: Clock, before: seq<Member>, behind: seq<Member>)
    ensures !AllTyped(clock, before + [Member("price", Unsigned(3000))] + behind)
  {
    var ms := before + [Member("price", Unsigned(3000))] + behind;
    assert ms[|before|] == Member("price", Unsigned(3000)) && |"price"| == 5;
  }

  // ------------------------------------------------ key by key

  predicate Has(clock: Clock, name: string, v: Json) {
    Typed(clock, Dispatch(name), v)
  }

  /**
   The type each member has to have. Names that are none of the eleven are taken for one of them by their length and
   first letter.
   */
  lemma {:induction false} TypeTable(clock: Clock, v: Json, name: string)
    ensures Has(clock, "id", v) <==> v.Unsigned?
    ensures Has(clock, "buy", v) <==> v.Boolean?
    ensures Has(clock, "type", v) <==> v.Unsigned? && v.n <= 0xFFFF_FFFF
    ensures Has(clock, "price", v) <==> v.Double?
    ensures Has(clock, "range", v) <==> v.Chars?
    ensures Has(clock, "issued", v) <==> v.Chars? && clock(v.s).Some?
    ensures Has(clock, "volume", v) <==> v.Unsigned? && v.n <= 0xFFFF_FFFF
    ensures Has(clock, "duration", v) <==> v.Unsigned? && v.n <= 0xFFFF_FFFF
    ensures Has(clock, "stationID", v) <==> v.Unsigned?
    ensures Has(clock, "minVolume", v) <==> v.Unsigned? && v.n <= 0xFFFF_FFFF
    ensures |name| == 2 ==> Has(clock, name, v) == Has(clock, "id", v)
    ensures |name| == 3 ==> Has(clock, name, v) == Has(clock, "buy", v)
    ensures |name| == 5 ==> Has(clock, name, v) == Has(clock, if name[0] == 'p' then "price" else "range", v)
    ensures |name| == 6 ==> Has(clock, name, v) == Has(clock, if name[0] == 'i' then "issued" else "volume", v)
    ensures |name| == 9 ==> Has(clock, name, v) == Has(clock, if name[0] == 's' then "stationID" else "minVolume", v)
    ensures |name| !in {2, 3, 5, 6, 9} ==> (Has(clock, name, v) <==> v.Unsigned? && v.n <= 0xFFFF_FFFF)
  {
    Lengths();
  }

  lemma {:induction false} Lengths()
    ensures |"id"| == 2 && |"buy"| == 3 && |"type"| == 4 && |"price"| == |"range"| == 5
    ensures |"issued"| == |"volume"| == 6 && |"duration"| == 8 && |"stationID"| == |"minVolume"| == 9
    ensures |"volumeEntered"| == 13
  {
  }

  lemma {:induction false} OnlyMember(ms: seq<Member>, i: nat)
    requires i < |ms| && forall j :: i < j < |ms| ==> Dispatch(ms[j].name) != Dispatch(ms[i].name)
    ensures LastTaken(ms, Dispatch(ms[i].name)) == Some(ms[i].value)
  {
    if i < |ms| - 1 {
      OnlyMember(ms[..|ms| - 1], i);
    }
  }

  /** Every member ends up in the field of its name. */
  lemma {:induction false} ObjectConverted(clock: Clock, ms: seq<Member>, i: nat, o: Order)
    requires AllTyped(clock, ms) && Filled(clock, ms, o) && i < |ms|
    requires forall j :: i < j < |ms| ==> ms[j].name != ms[i].name
    requires AllKnown(ms)
    ensures var name, v := ms[i].name, ms[i].value;
            && (name == "id" ==> v.Unsigned? && o.id == v.n)
            && (name == "buy" ==> v.Boolean? && o.buy == if v.b then 1 else 0)
            && (name == "type" ==> v.Unsigned? && o.typ == v.n)
            && (name == "price" ==> v.Double? && o.price == v.bits)
            && (name == "range" ==> v.Chars? && o.range == RangeToInt8(v.s))
            && (name == "issued" ==> v.Chars? && Some(o.issued) == clock(v.s))
            && (name == "volume" ==> v.Unsigned? && o.volume == v.n)
            && (name == "duration" ==> v.Unsigned? && o.duration == v.n)
            && (name == "stationID" ==> v.Unsigned? && o.stationId == v.n)
            && (name == "minVolume" ==> v.Unsigned? && o.minVolume == v.n)
            && (name == "volumeEntered" ==> v.Unsigned? && o.volumeEntered == v.n)
  {
    var k :| ms[i].name == NameOf(k);
    forall j | i <= j < |ms| ensures Dispatch(ms[j].name) == k <==> ms[j].name == NameOf(k) {
      DispatchIsByName(ms[j].name, k);
    }
    OnlyMember(ms, i);
    assert FilledAt(clock, ms, o, k);
    Lengths();
  }
}
