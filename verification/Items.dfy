/** Logical items (item.go): the transport layouts and the validators that every
    planner and encoder relies on. */
module Items {
  import opened Bytes
  import opened Errors

  datatype Area = Input | Output | Marker | DB | Timer | Counter | UnknownArea

  datatype TransportType =
    | TransportBit
    | TransportByte
    | TransportWord
    | TransportDWord
    | TransportReal
    | TransportTimer
    | TransportCounter
    | UnknownTransport

  datatype Address = Address(area: Area, dbNumber: U16, offset: U32, bit: Byte)

  datatype ReadItem = ReadItem(address: Address, transport: TransportType, count: U32)

  datatype WriteItem = WriteItem(address: Address, transport: TransportType, count: U32, data: seq<Byte>)

  datatype Layout = Layout(wordLength: Byte, responseTransport: Byte, width: Width, lengthInBits: bool)

  const MAX_WIRE_ADDRESS := 0xFF_FFFF

  predicate IndexedArea(area: Area) {
    area == Timer || area == Counter
  }

  function LayoutFor(transport: TransportType): Option<Layout> {
    match transport
    case TransportBit => Some(Layout(0x01, 0x03, 1, false))
    case TransportByte => Some(Layout(0x02, 0x04, 1, true))
    case TransportWord => Some(Layout(0x04, 0x04, 2, true))
    case TransportDWord => Some(Layout(0x06, 0x04, 4, true))
    case TransportReal => Some(Layout(0x08, 0x07, 4, false))
    case TransportTimer => Some(Layout(0x1d, 0x09, 2, false))
    case TransportCounter => Some(Layout(0x1c, 0x09, 2, false))
    case UnknownTransport => None
  }

  function ValidateItemAddress(address: Address, transport: TransportType): Outcome {
    if LayoutFor(transport).None? then Fail(InvalidError())
    else
      var areaCheck := ValidateArea(address, transport);
      if areaCheck.Fail? then areaCheck
      else if IndexedArea(address.area) then
        if address.offset > MAX_WIRE_ADDRESS then Fail(LimitError()) else Pass
      else if transport == TransportTimer || transport == TransportCounter then Fail(InvalidError())
      else if transport == TransportBit && address.bit > 7 then Fail(InvalidError())
      else if transport != TransportBit && address.bit != 0 then Fail(InvalidError())
      else if address.offset * 8 + address.bit > MAX_WIRE_ADDRESS then Fail(LimitError())
      else Pass
  }

  function ValidateArea(address: Address, transport: TransportType): Outcome {
    match address.area
    case DB =>
      if address.dbNumber == 0 then Fail(InvalidError()) else Pass
    case Input | Output | Marker =>
      if address.dbNumber != 0 then Fail(InvalidError()) else Pass
    case Timer =>
      if address.dbNumber != 0 || address.bit != 0 || transport != TransportTimer then Fail(InvalidError()) else Pass
    case Counter =>
      if address.dbNumber != 0 || address.bit != 0 || transport != TransportCounter then Fail(InvalidError()) else Pass
    case UnknownArea => Fail(InvalidError())
  }

  function ItemDataLength(transport: TransportType, count: U32): Result<nat> {
    match LayoutFor(transport)
    case None => Err(InvalidError())
    case Some(layout) =>
      if count == 0 then Err(InvalidError())
      else if transport == TransportBit && count != 1 then Err(InvalidError())
      else if count * layout.width > MAX_INT then Err(LimitError())
      else Ok(count * layout.width)
  }

  function ValidateReadItem(item: ReadItem, maxItemBytes: nat): Result<nat> {
    var addressCheck := ValidateItemAddress(item.address, item.transport);
    if addressCheck.Fail? then Err(addressCheck.error)
    else
      var length := ItemDataLength(item.transport, item.count);
      if length.Err? then Err(length.error)
      else if length.value > maxItemBytes then Err(LimitError())
      else if IndexedArea(item.address.area) then
        if item.address.offset + item.count - 1 > MAX_WIRE_ADDRESS then Err(LimitError()) else length
      else
        var end := if item.transport == TransportBit then item.address.offset
                   else item.address.offset + length.value - 1;
        if end * 8 > MAX_WIRE_ADDRESS then Err(LimitError()) else length
  }

  function ValidateWriteItem(item: WriteItem, maxItemBytes: nat): Result<nat> {
    var length := ValidateReadItem(ReadItem(item.address, item.transport, item.count), maxItemBytes);
    if length.Err? then length
    else if item.count > MAX_U16 then Err(LimitError())
    else
      var encoded := if item.transport == TransportBit then item.count
                     else if LayoutFor(item.transport).value.lengthInBits then length.value * 8
                     else length.value;
      if encoded > MAX_U16 then Err(LimitError())
      else if |item.data| != length.value then Err(InvalidError())
      else if item.transport == TransportBit && item.data[0] > 1 then Err(InvalidError())
      else length
  }

  /** The area, DB number, bit and transport of an item belong together, and a bit item is
      one bit. */
  predicate WellTyped(item: ReadItem) {
    TypedAddress(item) && (item.transport == TransportBit ==> item.count == 1)
  }

  predicate TypedAddress(item: ReadItem) {
    && item.transport != UnknownTransport
    && match item.address.area
       case DB => item.address.dbNumber != 0 && DirectTransport(item)
       case Input | Output | Marker => item.address.dbNumber == 0 && DirectTransport(item)
       case Timer => item.address.dbNumber == 0 && item.address.bit == 0 && item.transport == TransportTimer
       case Counter => item.address.dbNumber == 0 && item.address.bit == 0 && item.transport == TransportCounter
       case UnknownArea => false
  }

  /** Byte-addressed areas: only a bit item names a bit, and it names one. */
  predicate DirectTransport(item: ReadItem) {
    && item.transport !in {TransportTimer, TransportCounter}
    && item.address.bit <= (if item.transport == TransportBit then 7 else 0)
  }

  /** What the item addresses, one wire address each: elements in the indexed areas,
      bytes (or the one bit) everywhere else. */
  function UnitCount(item: ReadItem): nat
    requires LayoutFor(item.transport).Some?
  {
    if IndexedArea(item.address.area) then item.count else item.count * LayoutFor(item.transport).value.width
  }

  function UnitAddress(item: ReadItem, unit: nat): nat {
    if IndexedArea(item.address.area) then item.address.offset + unit
    else (item.address.offset + unit) * 8 + item.address.bit
  }

  /** Every unit of the item has an address the 24-bit wire field can carry. */
  ghost predicate WireReachable(item: ReadItem)
    requires LayoutFor(item.transport).Some?
  {
    forall unit: nat | unit < UnitCount(item) :: UnitAddress(item, unit) <= 0xFF_FFFF
  }

  /** The validator checks one end of the span; that is exactly enough for every
      element of it. */
  lemma {:induction false} ReadItemAccepted(item: ReadItem, maxItemBytes: nat)
    requires maxItemBytes <= MAX_INT
    ensures ValidateReadItem(item, maxItemBytes).Ok? <==>
      && WellTyped(item)
      && 0 < item.count
      && item.count * LayoutFor(item.transport).value.width <= maxItemBytes
      && WireReachable(item)
    ensures ValidateReadItem(item, maxItemBytes).Ok? ==>
      ValidateReadItem(item, maxItemBytes).value == item.count * LayoutFor(item.transport).value.width
  {
    if WellTyped(item) && 0 < item.count {
      assert UnitCount(item) >= 1;
      assert WireReachable(item) ==> UnitAddress(item, UnitCount(item) - 1) <= MAX_WIRE_ADDRESS;
      assert WireReachable(item) ==> UnitAddress(item, 0) <= MAX_WIRE_ADDRESS;
    }
  }

  /** Why an item is refused: an argument that means nothing, or one that means too much. */
  lemma {:induction false} ReadItemRefused(item: ReadItem, maxItemBytes: nat)
    requires maxItemBytes <= MAX_INT && ValidateReadItem(item, maxItemBytes).Err?
    ensures
      var countless := item.count == 0 || (item.transport == TransportBit && item.count != 1);
      ValidateReadItem(item, maxItemBytes).error ==
      Error(if !TypedAddress(item) || (UnitAddress(item, 0) <= 0xFF_FFFF && countless) then ErrorKind.InvalidArgument
            else ErrorKind.Limit,
            0, 0, Unchanged)
  {
  }

  lemma {:induction false} WriteItemRefused(item: WriteItem, maxItemBytes: nat)
    requires maxItemBytes <= MAX_INT && ValidateWriteItem(item, maxItemBytes).Err?
    ensures
      var read := ReadItem(item.address, item.transport, item.count);
      if ValidateReadItem(read, maxItemBytes).Err? then
        ValidateWriteItem(item, maxItemBytes).error == ValidateReadItem(read, maxItemBytes).error
      else
        && LayoutFor(item.transport).Some?
        && var scale := if LayoutFor(item.transport).value.lengthInBits then 8 else 1;
           ValidateWriteItem(item, maxItemBytes).error ==
           Error(if item.count > 0xFFFF || item.count * LayoutFor(item.transport).value.width * scale > 0xFFFF
                 then ErrorKind.Limit else ErrorKind.InvalidArgument,
                 0, 0, Unchanged)
  {
    ReadItemAccepted(ReadItem(item.address, item.transport, item.count), maxItemBytes);
  }

  /** A write item is accepted exactly when its descriptor is a valid read item, its
      element count and encoded length fit their 16-bit wire fields, and the data is
      the item's own length (a bit being 0 or 1). */
  lemma {:induction false} WriteItemAccepted(item: WriteItem, maxItemBytes: nat)
    requires maxItemBytes <= MAX_INT
    ensures
      var read := ReadItem(item.address, item.transport, item.count);
      ValidateWriteItem(item, maxItemBytes).Ok? <==>
      && ValidateReadItem(read, maxItemBytes).Ok?
      && item.count <= 0xFFFF
      && |item.data| == item.count * LayoutFor(item.transport).value.width
      && |item.data| * (if LayoutFor(item.transport).value.lengthInBits then 8 else 1) <= 0xFFFF
      && (item.transport == TransportBit ==> item.data[0] in {0, 1})
    ensures ValidateWriteItem(item, maxItemBytes).Ok? ==> ValidateWriteItem(item, maxItemBytes).value == |item.data|
  {
    ReadItemAccepted(ReadItem(item.address, item.transport, item.count), maxItemBytes);
  }
}
