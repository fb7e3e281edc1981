/** The lazy read planner (client.go): a fragment iterator with one push-back slot, and
    the greedy packing of its fragments into requests. */
module ReadPlan {
  import opened Bytes
  import opened Errors
  import opened Items
  import opened Protocol
  import opened Fragments
  import opened Greedy

  /** A fragment the iterator would make of these items. */
  predicate Genuine(fragment: Fragment, items: seq<ReadItem>, pdu: nat)
    requires AllReadable(items) && SessionPdu(pdu)
  {
    && fragment.original < |items|
    && fragment.offset < Length(items[fragment.original])
    && Aligned(items[fragment.original], fragment.offset)
    && fragment.item == FragmentItem(items[fragment.original], fragment.offset, pdu)
  }

  predicate AllGenuine(fragments: seq<Fragment>, items: seq<ReadItem>, pdu: nat)
    requires AllReadable(items) && SessionPdu(pdu)
  {
    forall i | 0 <= i < |fragments| :: Genuine(fragments[i], items, pdu)
  }

  lemma {:induction false} ItemFragmentsGenuine(items: seq<ReadItem>, original: nat, offset: nat, pdu: nat)
    requires AllReadable(items) && SessionPdu(pdu) && original < |items| && Aligned(items[original], offset)
    ensures AllGenuine(ItemFragments(items[original], original, offset, pdu), items, pdu)
    decreases Length(items[original]) - offset
  {
    hide FragmentItem, Readable, FragmentLength;
    if offset < Length(items[original]) {
      FragmentLengthAligned(items[original], offset, pdu);
      ItemFragmentsGenuine(items, original, offset + FragmentLength(items[original], offset, pdu), pdu);
    }
  }

  lemma {:induction false} FragmentsGenuine(items: seq<ReadItem>, original: nat, offset: nat, pdu: nat)
    requires AllReadable(items) && SessionPdu(pdu) && original <= |items|
    requires original < |items| ==> Aligned(items[original], offset)
    ensures AllGenuine(FragmentsFrom(items, original, offset, pdu), items, pdu)
    decreases |items| - original
  {
    hide Genuine, ItemFragments, Readable;
    if original < |items| {
      ItemFragmentsGenuine(items, original, offset, pdu);
      FragmentsGenuine(items, original + 1, 0, pdu);
    }
  }

  lemma {:induction false} LengthTaken(item: ReadItem, offset: nat, pdu: nat)
    requires Readable(item) && SessionPdu(pdu) && offset < Length(item)
    ensures FragmentLength(item, offset, pdu) == Min(FragmentLimit(item, pdu), Length(item) - offset)
  {
  }

  /** The iterator's loop body: one fragment of an item and the bytes it takes. */
  method CutFragment(item: ReadItem, original: nat, offset: nat, length: nat, pdu: nat) returns (r: Result<(Fragment, nat)>)
    requires Readable(item) && SessionPdu(pdu) && length == Length(item) && offset < length && Aligned(item, offset)
    ensures r == Ok((Fragment(original, offset, FragmentItem(item, offset, pdu)), FragmentLength(item, offset, pdu)))
  {
    hide FragmentItem, Readable, FragmentLength, MakeProtocolItem, FragmentAddress, MaxReadFragmentData;
    var layout := LayoutFor(item.transport);
    ReadableFacts(item);
    if layout.None? {
      return Err(InvariantError());
    }
    var maxData := MaxReadFragmentData(item.transport, pdu);
    FragmentLimitFacts(item, pdu);
    if maxData.Err? {
      return Err(ErrorOf(maxData));
    }
    var taken := Min(maxData.value, length - offset);
    LengthTaken(item, offset, pdu);
    var wire := MakeProtocolItem(FragmentAddress(item, offset), item.transport, taken / layout.value.width);
    FragmentIsWire(item, offset, pdu);
    FragmentLengthAligned(item, offset, pdu);
    if wire.Err? {
      return Err(InvariantError());
    }
    return Ok((Fragment(original, offset, wire.value), taken));
  }

  lemma {:induction false} FirstFragment(items: seq<ReadItem>, original: nat, offset: nat, pdu: nat)
    requires AllReadable(items) && SessionPdu(pdu) && original < |items| && offset < Length(items[original])
    ensures
      var item := items[original];
      FragmentsFrom(items, original, offset, pdu)
      == [Fragment(original, offset, FragmentItem(item, offset, pdu))]
         + FragmentsFrom(items, original, offset + FragmentLength(item, offset, pdu), pdu)
  {
    hide FragmentItem, FragmentLength;
  }

  class ReadFragmentIterator {
    const items: seq<ReadItem>
    const lengths: seq<nat>
    const pdu: nat
    var original: nat
    var offset: nat
    var pending: Option<Fragment>

    constructor (items: seq<ReadItem>, lengths: seq<nat>, pdu: nat)
      requires AllReadable(items) && SessionPdu(pdu) && lengths == Lengths(items)
      ensures Valid() && this.items == items && this.pdu == pdu
      ensures Remaining() == FragmentsFrom(items, 0, 0, pdu)
    {
      this.items := items;
      this.lengths := lengths;
      this.pdu := pdu;
      original, offset, pending := 0, 0, None;
    }

    ghost predicate Valid()
      reads this
    {
      && AllReadable(items) && SessionPdu(pdu) && lengths == Lengths(items)
      && original <= |items|
      && (original < |items| ==> Aligned(items[original], offset))
      && (pending.Some? ==> Genuine(pending.value, items, pdu))
    }

    /** The fragments still to come, in order. */
    ghost function Remaining(): seq<Fragment>
      requires Valid()
      reads this
    {
      (if pending.Some? then [pending.value] else []) + FragmentsFrom(items, original, offset, pdu)
    }

    lemma {:induction false} RemainingGenuine()
      requires Valid()
      ensures AllGenuine(Remaining(), items, pdu)
    {
      hide Genuine, FragmentsFrom;
      FragmentsGenuine(items, original, offset, pdu);
    }

    /** The next fragment, or None at the end; never an error on a validated batch. */
    method Next() returns (r: Result<Option<Fragment>>)
      requires Valid()
      modifies this
      ensures Valid() && r.Ok?
      ensures old(Remaining()) == [] ==> r.value == None && Remaining() == []
      ensures old(Remaining()) != [] ==>
        r.value == Some(old(Remaining())[0]) && Remaining() == old(Remaining())[1..] && pending.None?
    {
      hide FragmentItem, Readable, FragmentLength;
      if pending.Some? {
        r := Ok(pending);
        pending := None;
        return;
      }
      while original < |items|
        invariant Valid() && pending.None?
        invariant Remaining() == old(Remaining())
        decreases |items| - original
      {
        if offset >= lengths[original] {
          original := original + 1;
          offset := 0;
          continue;
        }
        var cut := CutFragment(items[original], original, offset, lengths[original], pdu);
        if cut.Err? {
          return Err(ErrorOf(cut));
        }
        var (fragment, length) := cut.value;
        FirstFragment(items, original, offset, pdu);
        FragmentLengthAligned(items[original], offset, pdu);
        offset := offset + length;
        return Ok(Some(fragment));
      }
      return Ok(None);
    }

    method PutBack(fragment: Fragment)
      requires Valid() && pending.None? && Genuine(fragment, items, pdu)
      modifies this
      ensures Valid() && Remaining() == [fragment] + old(Remaining())
    {
      pending := Some(fragment);
    }
  }

  // ---------------------------------------------------------------- batches

  predicate HasFailed(failures: seq<Option<Error>>, original: nat) {
    original < |failures| && failures[original].Some?
  }

  /** The fragments whose item has not failed. */
  function Live(fragments: seq<Fragment>, failures: seq<Option<Error>>): seq<Fragment> {
    if fragments == [] then []
    else
      var rest := Live(fragments[1..], failures);
      if HasFailed(failures, fragments[0].original) then rest else [fragments[0]] + rest
  }

  function Wires(batch: seq<Fragment>): (items: seq<Item>)
    ensures |items| == |batch|
    ensures forall i | 0 <= i < |batch| :: items[i] == batch[i].item
  {
    seq(|batch|, i requires 0 <= i < |batch| => batch[i].item)
  }

  /** A batch one request and one reply can carry. */
  predicate BatchFits(batch: seq<Fragment>, pdu: nat) {
    && |batch| <= 20
    && ReadRequestSize(|batch|) <= pdu
    && ReadResponseSize(Wires(batch)) <= pdu
  }

  lemma {:induction false} ResponseGrows(batch: seq<Fragment>, fragment: Fragment)
    ensures ReadResponseSize(Wires(batch + [fragment])) == ReadResponseSize(Wires(batch)) + 4 + fragment.item.dataBytes
      + if batch != [] && batch[|batch| - 1].item.dataBytes % 2 != 0 then 1 else 0
  {
    var lengths := ReadLengths(Wires(batch + [fragment]));
    assert lengths[..|batch|] == ReadLengths(Wires(batch));
  }

  lemma {:induction false} GenuineFacts(fragment: Fragment, items: seq<ReadItem>, pdu: nat)
    requires AllReadable(items) && SessionPdu(pdu) && Genuine(fragment, items, pdu)
    ensures fragment.original < |items|
    ensures fragment.item.dataBytes <= pdu - 18
  {
    FragmentLimitBound(items[fragment.original], fragment.offset, pdu);
  }

  lemma {:induction false} LiveStep(fragments: seq<Fragment>, failures: seq<Option<Error>>)
    requires fragments != []
    ensures Live(fragments, failures)
         == (if HasFailed(failures, fragments[0].original) then [] else [fragments[0]]) + Live(fragments[1..], failures)
  {
  }

  lemma {:induction false} LiveNothing(failures: seq<Option<Error>>)
    ensures Live([], failures) == []
  {
  }

  lemma {:induction false} EmptyBatchFits(pdu: nat)
    requires SessionPdu(pdu)
    ensures BatchFits([], pdu) && ReadRequestSize(0) == 12 && ReadResponseSize(Wires([])) == 14
  {
  }

  /** Greedy: skip the fragments of failed items, take as many of the rest as one request
      and its reply can carry, put the first that no longer fits back. */
  method NextReadBatch(source: ReadFragmentIterator, pdu: nat, failures: seq<Option<Error>>)
    returns (r: Result<seq<Fragment>>)
    requires source.Valid() && pdu == source.pdu && |failures| == |source.items|
    modifies source
    ensures source.Valid() && r.Ok?
    ensures Live(old(source.Remaining()), failures) == r.value + Live(source.Remaining(), failures)
    ensures AllGenuine(r.value, source.items, pdu)
    ensures BatchFits(r.value, pdu)
    ensures Live(source.Remaining(), failures) != [] ==>
      r.value != [] && !BatchFits(r.value + [Live(source.Remaining(), failures)[0]], pdu)
    ensures forall i | 0 <= i < |r.value| :: !HasFailed(failures, r.value[i].original)
    ensures |source.Remaining()| + |r.value| <= |old(source.Remaining())|
  {
    hide FragmentsFrom, Genuine, FragmentItem, Live, ReadResponseSize, AllReadable;
    var current: seq<Fragment> := [];
    var requestSize, responseSize := 12, 14;
    source.RemainingGenuine();
    EmptyBatchFits(pdu);
    while true
      invariant source.Valid()
      invariant AllGenuine(source.Remaining(), source.items, pdu)
      invariant current + Live(source.Remaining(), failures) == Live(old(source.Remaining()), failures)
      invariant requestSize == ReadRequestSize(|current|) && responseSize == ReadResponseSize(Wires(current))
      invariant BatchFits(current, pdu) && AllGenuine(current, source.items, pdu)
      invariant forall i | 0 <= i < |current| :: !HasFailed(failures, current[i].original)
      invariant |source.Remaining()| + |current| <= |old(source.Remaining())|
      decreases |source.Remaining()|
    {
      ghost var before := source.Remaining();
      var next := source.Next();
      if next.Err? {
        return Err(ErrorOf(next));
      }
      if next.value.None? {
        LiveNothing(failures);
        return Ok(current);
      }
      var fragment := next.value.value;
      assert before[0] == fragment;
      GenuineFacts(fragment, source.items, pdu);
      LiveStep(before, failures);
      if failures[fragment.original].Some? {
        continue;
      }
      ResponseGrows(current, fragment);
      var candidateRequest := requestSize + 12;
      var candidateResponse := responseSize + 4 + fragment.item.dataBytes;
      if |current| > 0 && current[|current| - 1].item.dataBytes % 2 != 0 {
        candidateResponse := candidateResponse + 1;
      }
      if |current| == COMPATIBILITY_MAX_ITEMS || candidateRequest > pdu || candidateResponse > pdu {
        if |current| == 0 {
          return Err(LimitError());
        }
        source.PutBack(fragment);
        assert source.Remaining() == before;
        assert Live(before, failures)[0] == fragment && |current + [fragment]| == |current| + 1;
        assert !BatchFits(current + [fragment], pdu);
        return Ok(current);
      }
      assert current + ([fragment] + Live(source.Remaining(), failures)) == current + [fragment] + Live(source.Remaining(), failures);
      current := current + [fragment];
      requestSize, responseSize := candidateRequest, candidateResponse;
    }
  }

  // ------------------------------------------------------------ per item

  /** The fragments of one item among others. */
  function Owed(fragments: seq<Fragment>, original: nat): seq<Fragment> {
    if fragments == [] then []
    else (if fragments[0].original == original then [fragments[0]] else []) + Owed(fragments[1..], original)
  }

  lemma {:induction false} OwedConcat(left: seq<Fragment>, right: seq<Fragment>, original: nat)
    ensures Owed(left + right, original) == Owed(left, original) + Owed(right, original)
  {
    if left == [] {
      assert left + right == right;
    } else {
      var whole := left + right;
      assert whole[1..] == left[1..] + right && whole[0] == left[0];
      OwedConcat(left[1..], right, original);
      OwedHead(left, original, Owed(right, original));
    }
  }

  lemma {:induction false} OwedHead(fragments: seq<Fragment>, original: nat, rest: seq<Fragment>)
    requires fragments != []
    ensures (if fragments[0].original == original then [fragments[0]] else []) + (Owed(fragments[1..], original) + rest)
         == Owed(fragments, original) + rest
  {
  }

  /** Skipping the fragments of failed items leaves every other item its own. */
  lemma {:induction false} LiveKeepsOwed(fragments: seq<Fragment>, failures: seq<Option<Error>>, original: nat)
    requires !HasFailed(failures, original)
    ensures Owed(Live(fragments, failures), original) == Owed(fragments, original)
  {
    if fragments != [] {
      LiveKeepsOwed(fragments[1..], failures, original);
    }
  }

  lemma {:induction false} OwedOfItem(item: ReadItem, original: nat, offset: nat, pdu: nat, other: nat)
    requires Readable(item) && SessionPdu(pdu)
    ensures
      var fragments := ItemFragments(item, original, offset, pdu);
      Owed(fragments, other) == if other == original then fragments else []
    decreases Length(item) - offset
  {
    hide FragmentItem, Readable;
    if offset < Length(item) {
      OwedOfItem(item, original, offset + FragmentLength(item, offset, pdu), pdu, other);
    }
  }

  /** At the start every item is owed all of its fragments. */
  lemma {:induction false} OwedAtStart(items: seq<ReadItem>, from: nat, original: nat, pdu: nat)
    requires AllReadable(items) && SessionPdu(pdu) && from <= |items| && original < |items|
    ensures Owed(FragmentsFrom(items, from, 0, pdu), original)
         == if from <= original then ItemFragments(items[original], original, 0, pdu) else []
    decreases |items| - from
  {
    hide ItemFragments, Readable, Owed;
    if from < |items| {
      OwedAtStart(items, from + 1, original, pdu);
      OwedOfItem(items[from], from, 0, pdu, original);
      OwedConcat(ItemFragments(items[from], from, 0, pdu), FragmentsFrom(items, from + 1, 0, pdu), original);
    } else {
      assert Owed([], original) == [] by { OwedNothing(original); }
    }
  }

  lemma {:induction false} OwedNothing(original: nat)
    ensures Owed([], original) == []
  {
  }

  /** What is next owed to an item starts where its data ends so far, and fits. */
  lemma {:induction false} NextOwed(item: ReadItem, original: nat, offset: nat, pdu: nat)
    requires Readable(item) && SessionPdu(pdu)
    ensures
      var fragments := ItemFragments(item, original, offset, pdu);
      && (fragments == [] <==> offset >= Length(item))
      && (fragments != [] ==>
           && fragments[0] == Fragment(original, offset, FragmentItem(item, offset, pdu))
           && fragments[1..] == ItemFragments(item, original, offset + fragments[0].item.dataBytes, pdu))
  {
  }

  // ----------------------------------------------------------- optimality

  function ReadFit(fragments: seq<Fragment>, pdu: nat): Fit {
    (from: nat, to: nat) => from <= to <= |fragments| && BatchFits(fragments[from..to], pdu)
  }

  lemma {:induction false} SegmentLengths(fragments: seq<Fragment>, from: nat, to: nat, innerFrom: nat, innerTo: nat)
    requires from <= innerFrom <= innerTo <= to <= |fragments|
    ensures ReadLengths(Wires(fragments[from..to]))[innerFrom - from..innerTo - from]
         == ReadLengths(Wires(fragments[innerFrom..innerTo]))
  {
    var outer, inner := ReadLengths(Wires(fragments[from..to])), ReadLengths(Wires(fragments[innerFrom..innerTo]));
    forall i | 0 <= i < innerTo - innerFrom
      ensures outer[innerFrom - from..innerTo - from][i] == inner[i]
    {
      assert outer[innerFrom - from + i] == fragments[innerFrom + i].item.dataBytes;
    }
  }

  lemma {:induction false} ReadFitSegment(fragments: seq<Fragment>, pdu: nat, from: nat, to: nat, innerFrom: nat, innerTo: nat)
    requires from <= innerFrom <= innerTo <= to <= |fragments| && BatchFits(fragments[from..to], pdu)
    ensures BatchFits(fragments[innerFrom..innerTo], pdu)
  {
    hide BlocksSize;
    var lengths := ReadLengths(Wires(fragments[from..to]));
    SegmentSize(lengths, innerFrom - from, innerTo - from);
    SegmentLengths(fragments, from, to, innerFrom, innerTo);
  }

  /** Batches cut by NextReadBatch, when nothing is rejected, are no more numerous than any
      split of the fragments into consecutive groups that fit one request and its reply. */
  lemma {:induction false} ReadBatchesOptimal(fragments: seq<Fragment>, pdu: nat, greedy: seq<nat>, other: seq<nat>)
    requires IsCut(greedy, |fragments|) && Maximal(greedy, |fragments|, ReadFit(fragments, pdu))
    requires IsCut(other, |fragments|) && GroupsFit(other, ReadFit(fragments, pdu))
    ensures |greedy| <= |other|
  {
    hide BatchFits, IsCut, Maximal, GroupsFit;
    var fits := ReadFit(fragments, pdu);
    forall from: nat, to: nat, innerFrom: nat, innerTo: nat |
      from <= innerFrom <= innerTo <= to && fits(from, to)
      ensures fits(innerFrom, innerTo)
    {
      ReadFitSegment(fragments, pdu, from, to, innerFrom, innerTo);
    }
    GreedyIsOptimal(greedy, other, |fragments|, fits);
  }
}
