/** What a logical item means in controller memory, without any wire in between. Reads
    and writes through the client are measured against these. */
module DirectAccess {
  import opened Bytes
  import opened Errors
  import opened Items
  import opened Protocol
  import opened Plc
  import opened Dialogue
  import opened Fragments

  /** Timers and counters are two bytes per index; everything else is byte-addressed. */
  function ByteStart(address: Address): nat {
    if IndexedArea(address.area) then 2 * address.offset else address.offset
  }

  function DirectRead(memory: Memory, item: ReadItem): (value: seq<Byte>)
    requires Readable(item)
    ensures |value| == Length(item)
  {
    ReadableFacts(item);
    var area, db := MemoryArea(item.address.area), item.address.dbNumber;
    if item.transport == TransportBit then
      [if BitOf(Peek(memory, MemoryKey(area, db, item.address.offset)), item.address.bit) then 1 else 0]
    else Fetch(memory, area, db, ByteStart(item.address), Length(item))
  }

  /** A fragment reads exactly its stretch of the item. */
  lemma {:induction false} FragmentFetches(memory: Memory, item: ReadItem, offset: nat, pdu: nat)
    requires Readable(item) && SessionPdu(pdu) && offset < Length(item) && Aligned(item, offset)
    ensures S7Item(FragmentItem(item, offset, pdu))
    ensures ReadVariable(memory, VariableOf(FragmentItem(item, offset, pdu)))
         == DirectRead(memory, item)[offset..offset + FragmentLength(item, offset, pdu)]
  {
    hide FragmentLength, Readable, S7Item, EncodedLength;
    ReadableFacts(item);
    FragmentIsWire(item, offset, pdu);
    S7Encodes(FragmentItem(item, offset, pdu));
    FragmentStart(item, offset, pdu);
  }

  lemma {:induction false} S7Encodes(item: Item)
    requires S7Item(item)
    ensures EncodedLength(item).Some?
  {
  }

  lemma {:induction false} FragmentStart(item: ReadItem, offset: nat, pdu: nat)
    requires Readable(item) && SessionPdu(pdu) && offset < Length(item) && Aligned(item, offset)
    ensures
      var wire := FragmentItem(item, offset, pdu);
      && (wire.wordLength == 0x01 <==> item.transport == TransportBit)
      && (wire.wordLength in {0x1c, 0x1d} <==> IndexedArea(item.address.area))
      && (wire.wordLength in {0x1c, 0x1d} ==> wire.address * 2 == ByteStart(item.address) + offset)
      && (wire.wordLength !in {0x1c, 0x1d} ==>
           wire.address / 8 == ByteStart(item.address) + offset && wire.address % 8 == item.address.bit)
  {
    hide FragmentLength, Readable;
    ReadableFacts(item);
  }

  /** A variable specification, byte by byte: what it names and how many elements. */
  ghost predicate SpecNames(spec: seq<Byte>, area: Area, dbNumber: U16, transport: TransportType, elements: nat, address: nat)
    requires |spec| == 12 && area != UnknownArea && transport != UnknownTransport
  {
    && spec[..4] == [0x12, 0x0a, 0x10, WordCode(transport)]
    && 0x100 * (spec[4] as int) + spec[5] == elements
    && 0x100 * (spec[6] as int) + spec[7] == dbNumber
    && spec[8] == MemoryArea(area)
    && 0x1_0000 * (spec[9] as int) + 0x100 * (spec[10] as int) + spec[11] == address
  }

  /** What the request of a fragment says: the item's own area, DB number and element type,
      as many elements as the fragment has, from where the fragment starts. */
  lemma {:induction false} FragmentSpec(item: ReadItem, offset: nat, pdu: nat)
    requires Readable(item) && SessionPdu(pdu) && offset < Length(item) && Aligned(item, offset)
    ensures item.address.area != UnknownArea && item.transport != UnknownTransport
    ensures SpecNames(ItemSpec(FragmentItem(item, offset, pdu)), item.address.area, item.address.dbNumber, item.transport,
                      FragmentLength(item, offset, pdu) / ElementBytes(item.transport),
                      if item.address.area == Timer || item.address.area == Counter then item.address.offset + offset / 2
                      else 8 * (item.address.offset + offset) + item.address.bit)
  {
    hide FragmentLength, Readable, S7Item;
    ReadableFacts(item);
    FragmentIsWire(item, offset, pdu);
    NumbersAgree(item.address.area, item.transport);
    AddressBytes(FragmentItem(item, offset, pdu).address);
  }

  // ---------------------------------------------------------------- writes

  function WriteAddress(item: WriteItem): ReadItem {
    ReadItem(item.address, item.transport, item.count)
  }

  function DirectWrite(memory: Memory, item: WriteItem): Memory
    requires Writable(item)
  {
    ReadableFacts(WriteAddress(item));
    WriteItemAccepted(item, MAX_INT);
    var area, db := MemoryArea(item.address.area), item.address.dbNumber;
    if item.transport == TransportBit then
      var key := MemoryKey(area, db, item.address.offset);
      memory[key := PutBit(Peek(memory, key), item.address.bit, item.data[0] == 1)]
    else Store(memory, area, db, ByteStart(item.address), item.data)
  }

  /** The wire form of a valid write item. */
  function WireWrite(item: WriteItem): (wire: DataItem)
    requires Writable(item)
    ensures wire.data == item.data
  {
    ReadableFacts(WriteAddress(item));
    WriteItemAccepted(item, MAX_INT);
    var layout := LayoutFor(item.transport).value;
    DataItem(Item(WordCode(item.transport), layout.responseTransport, item.count, item.address.dbNumber,
                  MemoryArea(item.address.area),
                  if IndexedArea(item.address.area) then item.address.offset
                  else item.address.offset * 8 + item.address.bit,
                  |item.data|, layout.lengthInBits),
             item.data)
  }

  /** Every valid write item encodes, and the controller reads it as it is meant. */
  lemma {:induction false} WriteIsWire(item: WriteItem)
    requires Writable(item)
    ensures MakeProtocolItem(item.address, item.transport, item.count) == Ok(WireWrite(item).item)
    ensures S7Item(WireWrite(item).item) && |item.data| == WireWrite(item).item.dataBytes
  {
    hide MakeProtocolItem, Writable;
    WriteFacts(item);
    ReadableFacts(WriteAddress(item));
    NumbersAgree(item.address.area, item.transport);
    ItemEncodes(item.address, item.transport, item.count);
  }

  lemma {:induction false} WriteFacts(item: WriteItem)
    requires Writable(item)
    ensures Readable(WriteAddress(item))
    ensures 1 <= item.count <= MAX_U16
    ensures |item.data| == Length(WriteAddress(item)) >= 1
    ensures LayoutFor(item.transport).Some?
    ensures |item.data| * (if LayoutFor(item.transport).value.lengthInBits then 8 else 1) <= MAX_U16
    ensures item.count * LayoutFor(item.transport).value.width == |item.data|
  {
    WriteItemAccepted(item, MAX_INT);
    ReadableFacts(WriteAddress(item));
    var width := WidthOf(item.transport);
    assert width == 1 || width == 2 || width == 4;
  }

  /** What the request of a written item says, and that it never straddles another address. */
  lemma {:induction false} WriteSpec(item: WriteItem)
    requires Writable(item)
    ensures item.address.area != UnknownArea && item.transport != UnknownTransport
    ensures SpecNames(ItemSpec(WireWrite(item).item), item.address.area, item.address.dbNumber, item.transport, item.count,
                      if item.address.area == Timer || item.address.area == Counter then item.address.offset
                      else 8 * item.address.offset + item.address.bit)
    ensures |item.data| == item.count * ElementBytes(item.transport)
  {
    hide Readable, S7Item, Writable;
    WriteFacts(item);
    ReadableFacts(WriteAddress(item));
    NumbersAgree(item.address.area, item.transport);
    AddressBytes(WireWrite(item).item.address);
  }

  /** Applying the wire item is the direct write. */
  lemma {:induction false} WriteApplies(memory: Memory, item: WriteItem)
    requires Writable(item)
    ensures S7Item(WireWrite(item).item) && |item.data| >= 1
    ensures WriteVariable(memory, VariableOf(WireWrite(item).item), item.data) == DirectWrite(memory, item)
  {
    hide Writable, S7Item, EncodedLength;
    WriteIsWire(item);
    WriteFacts(item);
    ReadableFacts(WriteAddress(item));
    S7Encodes(WireWrite(item).item);
  }

  /** A direct write shows in a direct read of the same item. */
  lemma {:induction false} WriteThenRead(memory: Memory, item: WriteItem)
    requires Writable(item)
    ensures Readable(WriteAddress(item))
    ensures DirectRead(DirectWrite(memory, item), WriteAddress(item)) == item.data
  {
    WriteItemAccepted(item, MAX_INT);
    WriteFacts(item);
    ReadableFacts(WriteAddress(item));
    var area, db, start := MemoryArea(item.address.area), item.address.dbNumber, ByteStart(item.address);
    if item.transport == TransportBit {
      PutBitOf(Peek(memory, MemoryKey(area, db, item.address.offset)), item.address.bit, item.data[0] == 1, item.address.bit);
    } else {
      forall i | 0 <= i < |item.data|
        ensures Peek(DirectWrite(memory, item), MemoryKey(area, db, start + i)) == item.data[i]
      {
        StorePeek(memory, area, db, start, item.data, MemoryKey(area, db, start + i));
      }
    }
  }

  /** A write changes nothing outside its own bytes of its own area and data block. */
  lemma {:induction false} WriteKeepsRest(memory: Memory, item: WriteItem, key: MemoryKey)
    requires Writable(item)
    ensures item.address.area != UnknownArea
    ensures
      var start := if item.address.area == Timer || item.address.area == Counter then 2 * item.address.offset
                   else item.address.offset;
      key.area != MemoryArea(item.address.area) || key.db != item.address.dbNumber
      || key.offset < start || key.offset >= start + item.count * ElementBytes(item.transport) ==>
        Peek(DirectWrite(memory, item), key) == Peek(memory, key)
  {
    WriteFacts(item);
    ReadableFacts(WriteAddress(item));
    StorePeek(memory, MemoryArea(item.address.area), item.address.dbNumber, ByteStart(item.address), item.data, key);
  }

  /** A native bit write keeps the seven other bits of its byte and every other byte. */
  lemma {:induction false} BitWriteKeepsRest(memory: Memory, item: WriteItem, key: MemoryKey, bit: nat)
    requires Writable(item) && item.transport == TransportBit && bit < 8
    ensures item.address.area != UnknownArea && item.address.bit < 8
    ensures
      var target := MemoryKey(MemoryArea(item.address.area), item.address.dbNumber, item.address.offset);
      && (key != target ==> Peek(DirectWrite(memory, item), key) == Peek(memory, key))
      && (bit != item.address.bit ==>
           BitOf(Peek(DirectWrite(memory, item), target), bit) == BitOf(Peek(memory, target), bit))
  {
    ReadableFacts(WriteAddress(item));
    var target := MemoryKey(MemoryArea(item.address.area), item.address.dbNumber, item.address.offset);
    PutBitOf(Peek(memory, target), item.address.bit, item.data[0] == 1, bit);
  }
}
