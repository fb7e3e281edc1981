/** Packing write items into requests (client.go, nextWriteBatch). */
module WritePlan {
  import opened Errors
  import opened Protocol
  import opened Greedy

  /** Items one request and its reply can carry. */
  predicate GroupFits(group: seq<DataItem>, pdu: nat) {
    && |group| <= 20
    && WriteRequestSize(group) <= pdu
    && WriteResponseSize(|group|) <= pdu
  }

  lemma {:induction false} RequestGrows(items: seq<DataItem>, start: nat, end: nat)
    requires start <= end < |items|
    ensures WriteRequestSize(items[start..end + 1]) == WriteRequestSize(items[start..end]) + 12 + 4 + |items[end].data|
      + if end > start && |items[end - 1].data| % 2 != 0 then 1 else 0
  {
    var lengths := WriteLengths(items[start..end + 1]);
    assert lengths[..end - start] == WriteLengths(items[start..end]);
  }

  /** The batch from `start` on; `end` is where the next one starts. */
  method NextWriteBatch(items: seq<DataItem>, start: int, pdu: nat, single: bool)
    returns (r: Result<seq<DataItem>>, end: int)
    ensures r.Ok? <==> 0 <= start < |items| && GroupFits([items[start]], pdu)
    ensures r.Err? ==> end == start
    ensures r.Ok? ==>
      && start < end <= |items|
      && r.value == items[start..end]
      && GroupFits(r.value, pdu)
      && (single ==> end == start + 1)
      && (!single && end < |items| ==> !GroupFits(items[start..end + 1], pdu))
  {
    hide WriteRequestSize;
    if start < 0 || start >= |items| {
      return Err(InvariantError()), start;
    }
    EmptyGroup();
    var requestSize, responseSize := 12, 14;
    end := start;
    assert items[start..start] == [];
    while end < |items|
      invariant start <= end <= |items|
      invariant requestSize == WriteRequestSize(items[start..end]) && responseSize == WriteResponseSize(end - start)
      invariant end > start ==> GroupFits(items[start..end], pdu) && GroupFits([items[start]], pdu) && !single
    {
      var candidateRequest := requestSize + 12 + 4 + |items[end].data|;
      if end > start && |items[end - 1].data| % 2 != 0 {
        candidateRequest := candidateRequest + 1;
      }
      RequestGrows(items, start, end);
      assert |items[start..end + 1]| == end + 1 - start;
      assert end == start ==> items[start..end + 1] == [items[start]];
      var candidateResponse := responseSize + 1;
      if end - start == COMPATIBILITY_MAX_ITEMS || candidateRequest > pdu || candidateResponse > pdu {
        if end == start {
          return Err(LimitError()), start;
        }
        break;
      }
      requestSize, responseSize := candidateRequest, candidateResponse;
      end := end + 1;
      if single {
        break;
      }
    }
    return Ok(items[start..end]), end;
  }

  lemma {:induction false} EmptyGroup()
    ensures WriteRequestSize([]) == 12 && WriteResponseSize(0) == 14
  {
  }

  // ----------------------------------------------------------- optimality

  function WriteFit(items: seq<DataItem>, pdu: nat): Fit {
    (from: nat, to: nat) => from <= to <= |items| && GroupFits(items[from..to], pdu)
  }

  lemma {:induction false} WriteFitSegment(items: seq<DataItem>, pdu: nat, from: nat, to: nat, innerFrom: nat, innerTo: nat)
    requires from <= innerFrom <= innerTo <= to <= |items| && GroupFits(items[from..to], pdu)
    ensures GroupFits(items[innerFrom..innerTo], pdu)
  {
    hide BlocksSize;
    var lengths := WriteLengths(items[from..to]);
    SegmentSize(lengths, innerFrom - from, innerTo - from);
    assert lengths[innerFrom - from..innerTo - from] == WriteLengths(items[innerFrom..innerTo]);
  }

  /** Batches cut by NextWriteBatch are no more numerous than any split of the items into
      consecutive groups that fit one request and its reply. */
  lemma {:induction false} WriteBatchesOptimal(items: seq<DataItem>, pdu: nat, greedy: seq<nat>, other: seq<nat>)
    requires IsCut(greedy, |items|) && Maximal(greedy, |items|, WriteFit(items, pdu))
    requires IsCut(other, |items|) && GroupsFit(other, WriteFit(items, pdu))
    ensures |greedy| <= |other|
  {
    hide GroupFits, IsCut, Maximal, GroupsFit;
    var fits := WriteFit(items, pdu);
    forall from: nat, to: nat, innerFrom: nat, innerTo: nat |
      from <= innerFrom <= innerTo <= to && fits(from, to)
      ensures fits(innerFrom, innerTo)
    {
      WriteFitSegment(items, pdu, from, to, innerFrom, innerTo);
    }
    GreedyIsOptimal(greedy, other, |items|, fits);
  }
}
