/** How a logical item becomes wire items (client.go): descriptors, the element-aligned
    fragments of a read, and what each of them fetches from the controller. */
module Fragments {
  import opened Bytes
  import opened Errors
  import opened Items
  import opened Protocol
  import opened Dialogue

  // ------------------------------------------------- the numbers S7 gives things

  /** The number of a controller memory area. Timers and counters have areas of their own. */
  function MemoryArea(area: Area): Byte
    requires area != UnknownArea
  {
    if area == Input then 0x81
    else if area == Output then 0x82
    else if area == Marker then 0x83
    else if area == DB then 0x84
    else if area == Timer then 0x1d
    else 0x1c
  }

  /** The transport size code of an element in a variable specification. */
  function WordCode(transport: TransportType): Byte
    requires transport != UnknownTransport
  {
    if transport == TransportBit then 0x01
    else if transport == TransportByte then 0x02
    else if transport == TransportWord then 0x04
    else if transport == TransportDWord then 0x06
    else if transport == TransportReal then 0x08
    else if transport == TransportTimer then 0x1d
    else 0x1c
  }

  /** The bytes of one element. */
  function ElementBytes(transport: TransportType): nat {
    if transport == TransportBit || transport == TransportByte then 1
    else if transport == TransportDWord || transport == TransportReal then 4
    else 2
  }

  /** The client uses these numbers, and knows no others. */
  lemma {:induction false} NumbersAgree(area: Area, transport: TransportType)
    ensures WireArea(area) == if area == UnknownArea then None else Some(MemoryArea(area))
    ensures LayoutFor(transport).Some? <==> transport != UnknownTransport
    ensures LayoutFor(transport).Some? ==>
      LayoutFor(transport).value.wordLength == WordCode(transport) && LayoutFor(transport).value.width == ElementBytes(transport)
  {
  }

  /** No two areas share memory. */
  lemma {:induction false} AreasAreDisjoint(one: Area, two: Area)
    requires one != UnknownArea && two != UnknownArea && one != two
    ensures MemoryArea(one) != MemoryArea(two)
  {
  }

  // ------------------------------------------------------------ descriptors

  function WireArea(area: Area): Option<Byte> {
    match area
    case Input => Some(0x81)
    case Output => Some(0x82)
    case Marker => Some(0x83)
    case DB => Some(0x84)
    case Counter => Some(0x1c)
    case Timer => Some(0x1d)
    case UnknownArea => None
  }

  function MakeProtocolItem(address: Address, transport: TransportType, count: U32): Result<Item> {
    if count == 0 || count > MAX_U16 then Err(InvariantError())
    else
      match LayoutFor(transport)
      case None => Err(InvariantError())
      case Some(layout) =>
        if count * layout.width > MAX_INT then Err(InvariantError())
        else
          match WireArea(address.area)
          case None => Err(InvariantError())
          case Some(area) =>
            var wireAddress := if IndexedArea(address.area) then address.offset
                               else (address.offset * 8 + address.bit) % U32_SPAN;
            Ok(Item(layout.wordLength, layout.responseTransport, count, address.dbNumber, area, wireAddress,
                    count * layout.width, layout.lengthInBits))
  }

  /** A read item that passed validation under some size limit. */
  predicate Readable(item: ReadItem) {
    ValidateReadItem(item, MAX_INT).Ok?
  }

  /** A write item that passed validation under some size limit. */
  predicate Writable(item: WriteItem) {
    ValidateWriteItem(item, MAX_INT).Ok?
  }

  function WidthOf(transport: TransportType): Width {
    match LayoutFor(transport)
    case None => 1
    case Some(layout) => layout.width
  }

  /** The data bytes of a readable item. */
  function Length(item: ReadItem): nat {
    match WidthOf(item.transport)
    case 1 => item.count
    case 2 => 2 * item.count
    case _ => 4 * item.count
  }

  lemma {:induction false} LimitOnlyTightens(item: ReadItem, maxItemBytes: nat)
    requires maxItemBytes <= MAX_INT && ValidateReadItem(item, maxItemBytes).Ok?
    ensures Readable(item) && ValidateReadItem(item, maxItemBytes).value == Length(item) <= maxItemBytes
  {
    var width := WidthOf(item.transport);
    assert width == 1 || width == 2 || width == 4;
  }

  lemma {:induction false} ReadableFacts(item: ReadItem)
    requires Readable(item)
    ensures LayoutFor(item.transport).Some? && item.transport != UnknownTransport
    ensures item.address.area != UnknownArea
    ensures WidthOf(item.transport) == ElementBytes(item.transport) && Length(item) == item.count * ElementBytes(item.transport)
    ensures Length(item) >= WidthOf(item.transport) >= 1
    ensures Length(item) % WidthOf(item.transport) == 0
    ensures IndexedArea(item.address.area) <==> item.transport in {TransportTimer, TransportCounter}
    ensures IndexedArea(item.address.area) ==>
      WidthOf(item.transport) == 2 && item.address.bit == 0 && item.address.offset + item.count - 1 <= MAX_WIRE_ADDRESS
    ensures !IndexedArea(item.address.area) ==>
      (item.address.offset + Length(item) - 1) * 8 + item.address.bit <= MAX_WIRE_ADDRESS
    ensures item.address.bit <= if item.transport == TransportBit then 7 else 0
    ensures item.transport == TransportBit ==> Length(item) == 1
  {
    ReadItemAccepted(item, MAX_INT);
    NumbersAgree(item.address.area, item.transport);
    var width := WidthOf(item.transport);
    assert width == 1 || width == 2 || width == 4;
  }

  // --------------------------------------------------------- fragment sizes

  function MaxReadFragmentData(transport: TransportType, pdu: nat): Result<nat> {
    if pdu < ReadRequestSize(1) || pdu < 19 then Err(LimitError())
    else
      match LayoutFor(transport)
      case None => Err(InvariantError())
      case Some(layout) =>
        var fitting := pdu - 18;
        var capped := if layout.lengthInBits && fitting > 8191 then 8191
                      else if !layout.lengthInBits && fitting > MAX_U16 then MAX_U16
                      else fitting;
        var aligned := capped - capped % layout.width;
        if aligned < layout.width then Err(LimitError())
        else if transport == TransportBit then Ok(1)
        else Ok(aligned)
  }

  /** A negotiated PDU size. */
  predicate SessionPdu(pdu: nat) {
    240 <= pdu <= 960
  }

  /** The fragment size of a readable item on a Ready session. */
  function FragmentLimit(item: ReadItem, pdu: nat): (limit: nat)
    requires Readable(item) && SessionPdu(pdu)
    ensures limit >= 1
  {
    ReadableFacts(item);
    MaxReadFragmentData(item.transport, pdu).value
  }

  /** On a Ready session the fragment size always exists, is whole elements, and leaves
      room for the reply header. */
  lemma {:induction false} FragmentLimitFacts(item: ReadItem, pdu: nat)
    requires Readable(item) && SessionPdu(pdu)
    ensures MaxReadFragmentData(item.transport, pdu) == Ok(FragmentLimit(item, pdu))
    ensures WidthOf(item.transport) <= FragmentLimit(item, pdu) <= pdu - 18
    ensures FragmentLimit(item, pdu) % WidthOf(item.transport) == 0
    ensures item.transport == TransportBit ==> FragmentLimit(item, pdu) == 1
    ensures item.transport != TransportBit ==> FragmentLimit(item, pdu) + WidthOf(item.transport) > pdu - 18
  {
    ReadableFacts(item);
    var width := WidthOf(item.transport);
    assert width == 1 || width == 2 || width == 4;
  }

  // -------------------------------------------------------------- fragments

  /** A piece of item number `original`, starting `offset` bytes into its data. */
  datatype Fragment = Fragment(original: nat, offset: nat, item: Item)

  function FragmentLength(item: ReadItem, offset: nat, pdu: nat): (length: nat)
    requires Readable(item) && SessionPdu(pdu) && offset < Length(item)
    ensures 1 <= length <= Length(item) - offset
  {
    Min(FragmentLimit(item, pdu), Length(item) - offset)
  }

  /** Where the iterator aims a fragment. */
  function FragmentAddress(item: ReadItem, offset: nat): Address {
    if IndexedArea(item.address.area) then
      item.address.(offset := (item.address.offset + offset / WidthOf(item.transport)) % U32_SPAN)
    else if item.transport != TransportBit then item.address.(offset := (item.address.offset + offset) % U32_SPAN)
    else item.address
  }

  predicate Aligned(item: ReadItem, offset: nat) {
    offset % WidthOf(item.transport) == 0
  }

  /** The descriptor a fragment ends up with. */
  function FragmentItem(item: ReadItem, offset: nat, pdu: nat): (wire: Item)
    requires Readable(item) && SessionPdu(pdu) && offset < Length(item)
    ensures wire.dataBytes == FragmentLength(item, offset, pdu)
  {
    ReadableFacts(item);
    FragmentLimitBound(item, offset, pdu);
    var layout := LayoutFor(item.transport).value;
    var length := FragmentLength(item, offset, pdu);
    assert length / layout.width <= length by {
      assert layout.width == 1 || layout.width == 2 || layout.width == 4;
    }
    var address := if IndexedArea(item.address.area) then item.address.offset + offset / layout.width
                   else (item.address.offset + offset) * 8 + item.address.bit;
    Item(WordCode(item.transport), layout.responseTransport, length / layout.width, item.address.dbNumber,
         MemoryArea(item.address.area), address, length, layout.lengthInBits)
  }

  lemma {:induction false} Multiples(width: nat, quotient: nat)
    requires width >= 1
    ensures quotient * width % width == 0 && quotient * width / width == quotient
  {
    QuotientOf(quotient * width, width, quotient, 0);
  }

  /** Whole elements stay whole under the smaller of two lengths. */
  lemma {:induction false} WholeElements(width: Width, limit: nat, left: nat, offset: nat)
    requires limit % width == 0 && left % width == 0 && offset % width == 0 && width <= limit && width <= left
    ensures
      var length := Min(limit, left);
      && length % width == 0 && (offset + length) % width == 0
      && length / width * width == length && 1 <= length / width <= length
  {
    var length := Min(limit, left);
    var elements, before := length / width, offset / width;
    assert elements * width + before * width == (elements + before) * width;
    Multiples(width, elements + before);
    if elements >= 1 {
      AtLeastOnce(width, elements);
    }
  }

  lemma {:induction false} RestIsWhole(width: Width, length: nat, offset: nat)
    requires length % width == 0 && offset % width == 0 && offset < length
    ensures (length - offset) % width == 0 && length - offset >= width
  {
    var whole, before := length / width, offset / width;
    assert whole * width - before * width == (whole - before) * width;
    if whole <= before {
      assert (before - whole) * width >= 0;
    } else {
      Multiples(width, whole - before);
      AtLeastOnce(whole - before, width);
    }
  }

  lemma {:induction false} FragmentLengthAligned(item: ReadItem, offset: nat, pdu: nat)
    requires Readable(item) && SessionPdu(pdu) && offset < Length(item) && Aligned(item, offset)
    ensures Aligned(item, FragmentLength(item, offset, pdu))
    ensures Aligned(item, offset + FragmentLength(item, offset, pdu))
    ensures FragmentLength(item, offset, pdu) / WidthOf(item.transport) * WidthOf(item.transport)
         == FragmentLength(item, offset, pdu)
    ensures 1 <= FragmentLength(item, offset, pdu) / WidthOf(item.transport) <= 960
  {
    hide Readable, FragmentLimit, Length, WidthOf;
    ReadableFacts(item);
    FragmentLimitFacts(item, pdu);
    RestIsWhole(WidthOf(item.transport), Length(item), offset);
    WholeElements(WidthOf(item.transport), FragmentLimit(item, pdu), Length(item) - offset, offset);
  }

  lemma {:induction false} ItemEncodes(address: Address, transport: TransportType, count: U32)
    requires transport != UnknownTransport && address.area != UnknownArea && 1 <= count <= MAX_U16
    requires address.offset * 8 + address.bit < U32_SPAN
    ensures LayoutFor(transport).Some?
    ensures
      var layout := LayoutFor(transport).value;
      MakeProtocolItem(address, transport, count) ==
      Ok(Item(WordCode(transport), layout.responseTransport, count, address.dbNumber, MemoryArea(address.area),
              if IndexedArea(address.area) then address.offset else address.offset * 8 + address.bit,
              count * ElementBytes(transport), layout.lengthInBits))
  {
    NumbersAgree(address.area, transport);
    var width := LayoutFor(transport).value.width;
    assert width == 1 || width == 2 || width == 4;
  }

  lemma {:induction false} FragmentAddressFits(item: ReadItem, offset: nat)
    requires Readable(item) && offset < Length(item) && Aligned(item, offset)
    ensures
      var address := FragmentAddress(item, offset);
      && address == item.address.(offset := address.offset)
      && address.offset == (if IndexedArea(item.address.area) then item.address.offset + offset / WidthOf(item.transport)
                            else item.address.offset + offset)
      && (if IndexedArea(address.area) then address.offset else address.offset * 8 + address.bit) <= MAX_WIRE_ADDRESS
  {
    hide Readable;
    ReadableFacts(item);
    assert IndexedArea(item.address.area) ==> offset / 2 <= item.count - 1;
  }

  /** The iterator's descriptor never fails to encode, addresses stay inside 24 bits, and
      the controller reads it as it is meant. */
  lemma {:induction false} FragmentIsWire(item: ReadItem, offset: nat, pdu: nat)
    requires Readable(item) && SessionPdu(pdu) && offset < Length(item) && Aligned(item, offset)
    ensures
      var wire := FragmentItem(item, offset, pdu);
      && MakeProtocolItem(FragmentAddress(item, offset), item.transport,
                          FragmentLength(item, offset, pdu) / WidthOf(item.transport)) == Ok(wire)
      && wire.address <= MAX_WIRE_ADDRESS
      && S7Item(wire)
  {
    hide FragmentLength, Readable, MakeProtocolItem, FragmentAddress;
    ReadableFacts(item);
    FragmentLengthAligned(item, offset, pdu);
    FragmentLimitBound(item, offset, pdu);
    FragmentAddressFits(item, offset);
    ItemEncodes(FragmentAddress(item, offset), item.transport,
                FragmentLength(item, offset, pdu) / WidthOf(item.transport));
  }

  lemma {:induction false} FragmentLimitBound(item: ReadItem, offset: nat, pdu: nat)
    requires Readable(item) && SessionPdu(pdu) && offset < Length(item)
    ensures FragmentLength(item, offset, pdu) <= pdu - 18
  {
    FragmentLimitFacts(item, pdu);
  }

  /** The fragments of one item from an offset on. */
  function ItemFragments(item: ReadItem, original: nat, offset: nat, pdu: nat): seq<Fragment>
    requires Readable(item) && SessionPdu(pdu)
    decreases Length(item) - offset
  {
    if offset >= Length(item) then []
    else
      [Fragment(original, offset, FragmentItem(item, offset, pdu))]
      + ItemFragments(item, original, offset + FragmentLength(item, offset, pdu), pdu)
  }

  predicate AllReadable(items: seq<ReadItem>) {
    forall i | 0 <= i < |items| :: Readable(items[i])
  }

  /** Everything the iterator still has to produce from a position. */
  function FragmentsFrom(items: seq<ReadItem>, original: nat, offset: nat, pdu: nat): seq<Fragment>
    requires AllReadable(items) && SessionPdu(pdu) && original <= |items|
    decreases |items| - original
  {
    if original == |items| then []
    else ItemFragments(items[original], original, offset, pdu) + FragmentsFrom(items, original + 1, 0, pdu)
  }

  // -------------------------------------------------------------- partition

  /** Adjacent, in order, element-aligned, inside 24 bits, from one offset to another: the
      fragments cover that stretch of the item exactly once. */
  ghost predicate Covers(fragments: seq<Fragment>, item: ReadItem, original: nat, from: nat, to: nat) {
    if fragments == [] then from == to
    else
      var first := fragments[0];
      && first.original == original
      && first.offset == from < to
      && Aligned(item, from)
      && first.item.dataBytes >= 1
      && first.item.address <= MAX_WIRE_ADDRESS
      && S7Item(first.item)
      && Covers(fragments[1..], item, original, from + first.item.dataBytes, to)
  }

  /** Fragmentation is an exact partition of every readable item. */
  lemma {:induction false} FragmentsPartition(item: ReadItem, original: nat, offset: nat, pdu: nat)
    requires Readable(item) && SessionPdu(pdu) && offset <= Length(item) && Aligned(item, offset)
    ensures Covers(ItemFragments(item, original, offset, pdu), item, original, offset, Length(item))
    decreases Length(item) - offset
  {
    hide FragmentItem, S7Item, ValidItem;
    if offset < Length(item) {
      FragmentIsWire(item, offset, pdu);
      FragmentLengthAligned(item, offset, pdu);
      FragmentsPartition(item, original, offset + FragmentLength(item, offset, pdu), pdu);
    }
  }

  // ----------------------------------------------------------------- counts

  lemma {:induction false} CeilingStep(length: nat, limit: nat)
    requires limit >= 1 && length >= 1
    ensures length <= limit ==> (length + limit - 1) / limit == 1
    ensures length > limit ==> (length + limit - 1) / limit == 1 + (length - limit + limit - 1) / limit
  {
    if length > limit {
      var q, r := (length - 1) / limit, (length - 1) % limit;
      assert length - 1 == q * limit + r;
      QuotientOf(length - 1 + limit, limit, q + 1, r);
      QuotientOf(length - 1, limit, q, r);
    } else {
      QuotientOf(length + limit - 1, limit, 1, length - 1);
    }
  }

  /** The ceiling the fragment counter takes is the number of fragments the iterator makes. */
  lemma {:induction false} ItemFragmentCount(item: ReadItem, original: nat, offset: nat, pdu: nat)
    requires Readable(item) && SessionPdu(pdu) && offset <= Length(item)
    ensures |ItemFragments(item, original, offset, pdu)|
         == (Length(item) - offset + FragmentLimit(item, pdu) - 1) / FragmentLimit(item, pdu)
    decreases Length(item) - offset
  {
    hide FragmentItem;
    var limit := FragmentLimit(item, pdu);
    if offset < Length(item) {
      CeilingStep(Length(item) - offset, limit);
      ItemFragmentCount(item, original, offset + FragmentLength(item, offset, pdu), pdu);
      if Length(item) - offset <= limit {
        QuotientOf(limit - 1, limit, 0, limit - 1);
      }
    } else {
      QuotientOf(limit - 1, limit, 0, limit - 1);
    }
  }

  function Lengths(items: seq<ReadItem>): (lengths: seq<nat>)
    ensures |lengths| == |items|
    ensures forall i | 0 <= i < |items| :: lengths[i] == Length(items[i])
  {
    seq(|items|, i requires 0 <= i < |items| => Length(items[i]))
  }

  function FragmentCountTo(items: seq<ReadItem>, count: nat, pdu: nat): nat
    requires AllReadable(items) && SessionPdu(pdu) && count <= |items|
  {
    if count == 0 then 0
    else FragmentCountTo(items, count - 1, pdu) + |ItemFragments(items[count - 1], count - 1, 0, pdu)|
  }

  lemma {:induction false} FragmentCountTotal(items: seq<ReadItem>, original: nat, pdu: nat)
    requires AllReadable(items) && SessionPdu(pdu) && original <= |items|
    ensures FragmentCountTo(items, |items|, pdu) == FragmentCountTo(items, original, pdu) + |FragmentsFrom(items, original, 0, pdu)|
    decreases |items| - original
  {
    hide ItemFragments, Readable, FragmentItem;
    if original < |items| {
      FragmentCountTotal(items, original + 1, pdu);
    }
  }

  lemma {:induction false} CeilingCounts(item: ReadItem, original: nat, length: nat, pdu: nat)
    requires Readable(item) && SessionPdu(pdu) && length == Length(item)
    ensures MaxReadFragmentData(item.transport, pdu).Ok? && MaxReadFragmentData(item.transport, pdu).value >= 1
    ensures
      var maxData := MaxReadFragmentData(item.transport, pdu).value;
      (length + maxData - 1) / maxData == |ItemFragments(item, original, 0, pdu)|
  {
    FragmentLimitFacts(item, pdu);
    ItemFragmentCount(item, original, 0, pdu);
  }

  /** countReadFragments: for a validated batch it counts exactly the fragments the read
      will produce, up to Go's largest int. */
  method CountReadFragments(items: seq<ReadItem>, lengths: seq<nat>, pdu: nat) returns (r: Result<nat>)
    requires AllReadable(items) && SessionPdu(pdu)
    requires |lengths| == |items| ==> lengths == Lengths(items)
    ensures |lengths| != |items| ==> r == Err(InvariantError())
    ensures |lengths| == |items| ==>
      var count := |FragmentsFrom(items, 0, 0, pdu)|;
      r == if count <= MAX_INT then Ok(count) else Err(LimitError())
  {
    hide ItemFragments, FragmentsFrom, MaxReadFragmentData, Readable;
    if |items| != |lengths| {
      return Err(InvariantError());
    }
    var total := 0;
    FragmentCountTotal(items, 0, pdu);
    for index := 0 to |items|
      invariant total == FragmentCountTo(items, index, pdu) <= MAX_INT
    {
      CeilingCounts(items[index], index, lengths[index], pdu);
      var maxData := MaxReadFragmentData(items[index].transport, pdu);
      if maxData.Err? {
        return Err(ErrorOf(maxData));
      }
      total := total + (lengths[index] + maxData.value - 1) / maxData.value;
      if total > MAX_INT {
        FragmentCountTotal(items, index + 1, pdu);
        return Err(LimitError());
      }
    }
    return Ok(total);
  }
}
