/** The bookkeeping of a read (client.go, readLocked): which items have failed, how far
    the others have come, and what each is still owed. */
module ReadBook {
  import opened Bytes
  import opened Errors
  import opened Items
  import opened Protocol
  import opened Fragments
  import opened ReadPlan

  datatype Book = Book(failures: seq<Option<Error>>, progress: seq<nat>)

  /** An item that has not failed is owed exactly the fragments behind its data so far; a
      failed one is incomplete. */
  ghost predicate ItemBooked(failed: bool, progress: nat, item: ReadItem, original: nat, pending: seq<Fragment>, pdu: nat)
    requires Readable(item) && SessionPdu(pdu)
  {
    && progress <= Length(item)
    && (failed ==> progress < Length(item))
    && (!failed ==> Owed(pending, original) == ItemFragments(item, original, progress, pdu))
  }

  ghost predicate Booked(book: Book, items: seq<ReadItem>, pending: seq<Fragment>, pdu: nat)
    requires AllReadable(items) && SessionPdu(pdu)
  {
    && |book.failures| == |book.progress| == |items|
    && forall i | 0 <= i < |items| ::
         ItemBooked(book.failures[i].Some?, book.progress[i], items[i], i, pending, pdu)
  }

  function NewBook(count: nat): (book: Book)
    ensures |book.failures| == |book.progress| == count
  {
    Book(seq(count, _ => None), seq(count, _ => 0))
  }

  lemma {:induction false} NewBooked(items: seq<ReadItem>, pdu: nat)
    requires AllReadable(items) && SessionPdu(pdu)
    ensures Booked(NewBook(|items|), items, FragmentsFrom(items, 0, 0, pdu), pdu)
  {
    hide FragmentsFrom, ItemFragments, Owed, Readable;
    forall i | 0 <= i < |items|
      ensures Owed(FragmentsFrom(items, 0, 0, pdu), i) == ItemFragments(items[i], i, 0, pdu)
    {
      OwedAtStart(items, 0, i, pdu);
    }
  }

  /** One answered fragment: a rejection fails its item, unless it has failed before; the
      data of an item that has not failed moves on. */
  function Answered(book: Book, fragment: Fragment, code: Byte): (after: Book)
    requires fragment.original < |book.failures| == |book.progress|
    ensures |after.failures| == |book.failures| && |after.progress| == |book.progress|
  {
    var i := fragment.original;
    if code != ACCEPTED then
      if book.failures[i].None? then book.(failures := book.failures[i := Some(PlcItemError(code))]) else book
    else if book.failures[i].Some? || fragment.offset != book.progress[i] then book
    else book.(progress := book.progress[i := book.progress[i] + fragment.item.dataBytes])
  }

  lemma {:induction false} OwedOne(fragment: Fragment, rest: seq<Fragment>, original: nat)
    ensures Owed([fragment] + rest, original) == (if fragment.original == original then [fragment] else []) + Owed(rest, original)
  {
    assert ([fragment] + rest)[1..] == rest;
  }

  /** The fragment that arrives next for an item that has not failed is the one behind its
      data: the offset check of the source never skips anything. */
  lemma {:induction false} NextIsDue(book: Book, items: seq<ReadItem>, fragment: Fragment, rest: seq<Fragment>, pdu: nat)
    requires AllReadable(items) && SessionPdu(pdu) && fragment.original < |items|
    requires Booked(book, items, [fragment] + rest, pdu) && book.failures[fragment.original].None?
    ensures
      var i := fragment.original;
      && fragment.offset == book.progress[i] < Length(items[i])
      && fragment == Fragment(i, book.progress[i], FragmentItem(items[i], book.progress[i], pdu))
      && Owed(rest, i) == ItemFragments(items[i], i, book.progress[i] + fragment.item.dataBytes, pdu)
  {
    hide ItemFragments, Owed, FragmentItem, Readable;
    var i := fragment.original;
    assert ItemBooked(book.failures[i].Some?, book.progress[i], items[i], i, [fragment] + rest, pdu);
    OwedOne(fragment, rest, i);
    NextOwed(items[i], i, book.progress[i], pdu);
    assert ([fragment] + Owed(rest, i))[1..] == Owed(rest, i);
  }

  lemma {:induction false} AnsweredBooks(book: Book, items: seq<ReadItem>, fragment: Fragment, rest: seq<Fragment>, code: Byte, pdu: nat)
    requires AllReadable(items) && SessionPdu(pdu) && fragment.original < |items|
    requires Booked(book, items, [fragment] + rest, pdu)
    ensures Booked(Answered(book, fragment, code), items, rest, pdu)
  {
    hide ItemFragments, Owed, FragmentItem, FragmentLength, Readable;
    var after, due := Answered(book, fragment, code), fragment.original;
    if book.failures[due].None? {
      NextIsDue(book, items, fragment, rest, pdu);
      assert FragmentLength(items[due], book.progress[due], pdu) == fragment.item.dataBytes;
    }
    forall i | 0 <= i < |items|
      ensures ItemBooked(after.failures[i].Some?, after.progress[i], items[i], i, rest, pdu)
    {
      assert ItemBooked(book.failures[i].Some?, book.progress[i], items[i], i, [fragment] + rest, pdu);
      OwedOne(fragment, rest, i);
      assert i != due ==> [] + Owed(rest, i) == Owed(rest, i);
    }
  }

  // ------------------------------------------------------------- rejections

  /** The first code among the answers to a batch that rejects this item. */
  function RejectionIn(batch: seq<Fragment>, codes: seq<Byte>, original: nat, count: nat): Option<Byte>
    requires count <= |batch| == |codes|
  {
    if count == 0 then None
    else
      match RejectionIn(batch, codes, original, count - 1)
      case Some(code) => Some(code)
      case None =>
        if batch[count - 1].original == original && codes[count - 1] != ACCEPTED then Some(codes[count - 1]) else None
  }

  /** One answered request: the fragments it asked for and their return codes. */
  datatype Round = Round(batch: seq<Fragment>, codes: seq<Byte>)

  predicate Complete(rounds: seq<Round>) {
    forall k | 0 <= k < |rounds| :: |rounds[k].batch| == |rounds[k].codes|
  }

  /** The first code in a whole run that rejects this item. */
  function Rejection(rounds: seq<Round>, original: nat): Option<Byte>
    requires Complete(rounds)
  {
    if rounds == [] then None
    else
      var last := rounds[|rounds| - 1];
      match Rejection(rounds[..|rounds| - 1], original)
      case Some(code) => Some(code)
      case None => RejectionIn(last.batch, last.codes, original, |last.batch|)
  }

  function RejectionError(code: Option<Byte>): Option<Error> {
    match code
    case None => None
    case Some(code) => Some(PlcItemError(code))
  }

  /** The failures on the book are the first rejections of the run, item by item. */
  ghost predicate FailuresAre(failures: seq<Option<Error>>, rounds: seq<Round>)
    requires Complete(rounds)
  {
    forall i | 0 <= i < |failures| :: failures[i] == RejectionError(Rejection(rounds, i))
  }

  lemma {:induction false} RoundExtends(rounds: seq<Round>, round: Round, original: nat)
    requires Complete(rounds) && |round.batch| == |round.codes|
    ensures Complete(rounds + [round])
    ensures Rejection(rounds + [round], original)
         == match Rejection(rounds, original)
            case Some(code) => Some(code)
            case None => RejectionIn(round.batch, round.codes, original, |round.batch|)
  {
    assert (rounds + [round])[..|rounds|] == rounds;
  }

  /** Failure by failure, the answers of a batch are absorbed in order. */
  ghost predicate FailuresAfter(before: seq<Option<Error>>, after: seq<Option<Error>>, batch: seq<Fragment>, codes: seq<Byte>, count: nat)
    requires count <= |batch| == |codes|
  {
    && |after| == |before|
    && forall i | 0 <= i < |before| ::
         after[i] == if before[i].Some? then before[i] else RejectionError(RejectionIn(batch, codes, i, count))
  }

  lemma {:induction false} RoundBooked(rounds: seq<Round>, before: seq<Option<Error>>, after: seq<Option<Error>>, round: Round)
    requires Complete(rounds) && |round.batch| == |round.codes|
    requires FailuresAre(before, rounds) && FailuresAfter(before, after, round.batch, round.codes, |round.batch|)
    ensures Complete(rounds + [round]) && FailuresAre(after, rounds + [round])
  {
    hide Rejection, RejectionIn;
    forall i | 0 <= i < |after|
      ensures after[i] == RejectionError(Rejection(rounds + [round], i))
    {
      RoundExtends(rounds, round, i);
    }
  }

  // ------------------------------------------------- the planner's skipping

  /** The planner skips fragments of failed items; nobody who has not failed loses any. */
  lemma {:induction false} BookedLive(book: Book, items: seq<ReadItem>, pending: seq<Fragment>, pdu: nat)
    requires AllReadable(items) && SessionPdu(pdu) && Booked(book, items, pending, pdu)
    ensures Booked(book, items, Live(pending, book.failures), pdu)
  {
    hide Owed, Live, ItemFragments, Readable;
    forall i | 0 <= i < |items|
      ensures ItemBooked(book.failures[i].Some?, book.progress[i], items[i], i, Live(pending, book.failures), pdu)
    {
      assert ItemBooked(book.failures[i].Some?, book.progress[i], items[i], i, pending, pdu);
      if book.failures[i].None? {
        LiveKeepsOwed(pending, book.failures, i);
      }
    }
  }

  lemma {:induction false} BookedBack(book: Book, items: seq<ReadItem>, pending: seq<Fragment>, failures: seq<Option<Error>>, pdu: nat)
    requires AllReadable(items) && SessionPdu(pdu) && |failures| == |items|
    requires Booked(book, items, Live(pending, failures), pdu)
    requires forall i | 0 <= i < |items| :: failures[i].Some? ==> book.failures[i].Some?
    ensures Booked(book, items, pending, pdu)
  {
    hide Owed, Live, ItemFragments, Readable;
    forall i | 0 <= i < |items|
      ensures ItemBooked(book.failures[i].Some?, book.progress[i], items[i], i, pending, pdu)
    {
      assert ItemBooked(book.failures[i].Some?, book.progress[i], items[i], i, Live(pending, failures), pdu);
      if book.failures[i].None? {
        LiveKeepsOwed(pending, failures, i);
      }
    }
  }

  /** When nothing is left to ask, every item that has not failed is complete. */
  lemma {:induction false} BookedDone(book: Book, items: seq<ReadItem>, pdu: nat)
    requires AllReadable(items) && SessionPdu(pdu) && Booked(book, items, [], pdu)
    ensures forall i | 0 <= i < |items| :: book.failures[i].None? ==> book.progress[i] == Length(items[i])
  {
    hide Owed, ItemFragments, Readable;
    forall i | 0 <= i < |items|
      ensures book.failures[i].None? ==> book.progress[i] == Length(items[i])
    {
      assert ItemBooked(book.failures[i].Some?, book.progress[i], items[i], i, [], pdu);
      OwedNothing(i);
      NextOwed(items[i], i, book.progress[i], pdu);
    }
  }

  // ------------------------------------------------------ what is on record

  ghost predicate NoneRejects(batch: seq<Fragment>, codes: seq<Byte>, original: nat, count: nat)
    requires count <= |batch| == |codes|
  {
    forall j | 0 <= j < count :: batch[j].original == original ==> codes[j] == ACCEPTED
  }

  lemma {:induction false} RejectionInMeans(batch: seq<Fragment>, codes: seq<Byte>, original: nat, count: nat)
    requires count <= |batch| == |codes|
    ensures RejectionIn(batch, codes, original, count).None? <==> NoneRejects(batch, codes, original, count)
    ensures RejectionIn(batch, codes, original, count).Some? ==> RejectionIn(batch, codes, original, count).value != ACCEPTED
  {
    if count > 0 {
      RejectionInMeans(batch, codes, original, count - 1);
    }
  }

  /** An item is free of rejections exactly when every fragment of it that was answered
      was accepted. */
  lemma {:induction false} RejectionMeans(rounds: seq<Round>, original: nat)
    requires Complete(rounds)
    ensures Rejection(rounds, original).None? <==>
      forall k | 0 <= k < |rounds| :: NoneRejects(rounds[k].batch, rounds[k].codes, original, |rounds[k].batch|)
  {
    if rounds != [] {
      var front, last := rounds[..|rounds| - 1], rounds[|rounds| - 1];
      RejectionMeans(front, original);
      RejectionInMeans(last.batch, last.codes, original, |last.batch|);
      assert forall k | 0 <= k < |front| :: front[k] == rounds[k];
    }
  }

  /** Some item has neither failed nor come to its end. */
  ghost predicate Unfinished(book: Book, lengths: seq<nat>)
    requires |book.failures| == |book.progress| == |lengths|
  {
    exists i :: 0 <= i < |lengths| && book.failures[i].None? && book.progress[i] < lengths[i]
  }

  /** While a batch is planned the read is not finished. */
  lemma {:induction false} BatchUnfinished(book: Book, items: seq<ReadItem>, batch: seq<Fragment>, rest: seq<Fragment>, pdu: nat)
    requires AllReadable(items) && SessionPdu(pdu) && Booked(book, items, batch + rest, pdu)
    requires batch != [] && batch[0].original < |items| && !HasFailed(book.failures, batch[0].original)
    ensures |book.failures| == |book.progress| == |items| && Unfinished(book, Lengths(items))
  {
    hide FragmentItem, ItemFragments, Owed, Readable;
    assert batch + rest == [batch[0]] + (batch[1..] + rest);
    NextIsDue(book, items, batch[0], batch[1..] + rest, pdu);
  }

  // ------------------------------------------------------- what was received

  /** The bytes a batch brings one item: its accepted answers before its first rejection. */
  function ReceivedIn(batch: seq<Fragment>, codes: seq<Byte>, original: nat, count: nat): nat
    requires count <= |batch| == |codes|
  {
    if count == 0 then 0
    else
      var last := count - 1;
      ReceivedIn(batch, codes, original, last)
      + if batch[last].original == original && codes[last] == ACCEPTED && RejectionIn(batch, codes, original, last).None?
        then batch[last].item.dataBytes else 0
  }

  /** The bytes a whole run brings one item. */
  function Received(rounds: seq<Round>, original: nat): nat
    requires Complete(rounds)
  {
    if rounds == [] then 0
    else
      var front, last := rounds[..|rounds| - 1], rounds[|rounds| - 1];
      Received(front, original)
      + if Rejection(front, original).None? then ReceivedIn(last.batch, last.codes, original, |last.batch|) else 0
  }

  /** The fragments of one item that were answered, in order. */
  function AnsweredOf(rounds: seq<Round>, original: nat): seq<Fragment> {
    if rounds == [] then []
    else AnsweredOf(rounds[..|rounds| - 1], original) + Owed(rounds[|rounds| - 1].batch, original)
  }

  /** Item by item, the answers of a batch move the data on. */
  ghost predicate ProgressAfter(before: Book, after: seq<nat>, batch: seq<Fragment>, codes: seq<Byte>, count: nat)
    requires count <= |batch| == |codes|
  {
    && |after| == |before.progress| == |before.failures|
    && forall i | 0 <= i < |after| ::
         after[i] == before.progress[i] + if before.failures[i].Some? then 0 else ReceivedIn(batch, codes, i, count)
  }

  lemma {:induction false} ProgressStep(before: Book, book: Book, batch: seq<Fragment>, codes: seq<Byte>, count: nat)
    requires count < |batch| == |codes| && batch[count].original < |book.progress| == |book.failures|
    requires FailuresAfter(before.failures, book.failures, batch, codes, count)
    requires ProgressAfter(before, book.progress, batch, codes, count)
    requires codes[count] == ACCEPTED && book.failures[batch[count].original].None? ==>
      batch[count].offset == book.progress[batch[count].original]
    ensures ProgressAfter(before, Answered(book, batch[count], codes[count]).progress, batch, codes, count + 1)
  {
  }

  /** An item's progress is exactly what its accepted answers brought it; and unless it was
      rejected, what was answered is the front of its fragments, and the rest begins where
      its data ends. */
  ghost predicate ItemTraced(rounds: seq<Round>, progress: nat, item: ReadItem, original: nat, pdu: nat)
    requires Readable(item) && SessionPdu(pdu) && Complete(rounds)
  {
    && progress == Received(rounds, original)
    && (Rejection(rounds, original).None? ==>
         AnsweredOf(rounds, original) + ItemFragments(item, original, progress, pdu) == ItemFragments(item, original, 0, pdu))
  }

  ghost predicate Traced(rounds: seq<Round>, progress: seq<nat>, items: seq<ReadItem>, pdu: nat)
    requires AllReadable(items) && SessionPdu(pdu) && Complete(rounds)
  {
    |progress| == |items| && forall i | 0 <= i < |items| :: ItemTraced(rounds, progress[i], items[i], i, pdu)
  }

  lemma {:induction false} TraceStarts(items: seq<ReadItem>, pdu: nat)
    requires AllReadable(items) && SessionPdu(pdu)
    ensures Complete([]) && Traced([], NewBook(|items|).progress, items, pdu)
  {
    hide ItemFragments, Readable;
    forall i | 0 <= i < |items|
      ensures ItemTraced([], 0, items[i], i, pdu)
    {
      assert [] + ItemFragments(items[i], i, 0, pdu) == ItemFragments(items[i], i, 0, pdu);
    }
  }

  lemma {:induction false} ReceivedExtends(rounds: seq<Round>, round: Round, original: nat)
    requires Complete(rounds) && |round.batch| == |round.codes|
    ensures Complete(rounds + [round])
    ensures Received(rounds + [round], original)
         == Received(rounds, original)
            + if Rejection(rounds, original).None? then ReceivedIn(round.batch, round.codes, original, |round.batch|) else 0
    ensures AnsweredOf(rounds + [round], original) == AnsweredOf(rounds, original) + Owed(round.batch, original)
  {
    assert (rounds + [round])[..|rounds|] == rounds;
  }

  /** A batch that leaves an item unrejected has answered its next fragments. */
  lemma {:induction false} BatchAnswers(before: Book, after: Book, items: seq<ReadItem>, batch: seq<Fragment>, rest: seq<Fragment>,
                                        pdu: nat, i: nat)
    requires AllReadable(items) && SessionPdu(pdu) && i < |items|
    requires Booked(before, items, batch + rest, pdu) && Booked(after, items, rest, pdu)
    requires before.failures[i].None? && after.failures[i].None?
    ensures Owed(batch, i) + ItemFragments(items[i], i, after.progress[i], pdu)
         == ItemFragments(items[i], i, before.progress[i], pdu)
  {
    hide ItemFragments, Owed, Readable;
    assert ItemBooked(before.failures[i].Some?, before.progress[i], items[i], i, batch + rest, pdu);
    assert ItemBooked(after.failures[i].Some?, after.progress[i], items[i], i, rest, pdu);
    OwedConcat(batch, rest, i);
  }

  /** One answered round keeps the trace. */
  lemma {:induction false} TraceOneMore(rounds: seq<Round>, round: Round, before: Book, after: Book, items: seq<ReadItem>,
                                        rest: seq<Fragment>, pdu: nat)
    requires AllReadable(items) && SessionPdu(pdu) && Complete(rounds) && |round.batch| == |round.codes|
    requires FailuresAre(before.failures, rounds) && Traced(rounds, before.progress, items, pdu)
    requires Booked(before, items, round.batch + rest, pdu) && Booked(after, items, rest, pdu)
    requires FailuresAfter(before.failures, after.failures, round.batch, round.codes, |round.batch|)
    requires ProgressAfter(before, after.progress, round.batch, round.codes, |round.batch|)
    ensures Complete(rounds + [round]) && Traced(rounds + [round], after.progress, items, pdu)
  {
    hide ItemFragments, Owed, Readable, Received, ReceivedIn, Rejection, RejectionIn, AnsweredOf, ItemBooked;
    var more := rounds + [round];
    forall i | 0 <= i < |items|
      ensures Complete(more) && ItemTraced(more, after.progress[i], items[i], i, pdu)
    {
      assert ItemTraced(rounds, before.progress[i], items[i], i, pdu);
      RoundExtends(rounds, round, i);
      ReceivedExtends(rounds, round, i);
      if Rejection(more, i).None? {
        BatchAnswers(before, after, items, round.batch, rest, pdu, i);
        Regroup(AnsweredOf(rounds, i), Owed(round.batch, i), ItemFragments(items[i], i, after.progress[i], pdu));
      }
    }
  }

  lemma {:induction false} Regroup<T>(first: seq<T>, second: seq<T>, third: seq<T>)
    ensures first + second + third == first + (second + third)
  {
  }

  // ------------------------------------------------- complete and answered

  ghost predicate WasAnswered(rounds: seq<Round>, fragment: Fragment) {
    exists k :: 0 <= k < |rounds| && fragment in rounds[k].batch
  }

  /** Every fragment of the item was answered. */
  ghost predicate FullyAnswered(rounds: seq<Round>, item: ReadItem, original: nat, pdu: nat)
    requires Readable(item) && SessionPdu(pdu)
  {
    forall fragment | fragment in ItemFragments(item, original, 0, pdu) :: WasAnswered(rounds, fragment)
  }

  lemma {:induction false} OwedMembers(fragments: seq<Fragment>, original: nat, fragment: Fragment)
    ensures fragment in Owed(fragments, original) <==> fragment in fragments && fragment.original == original
  {
    if fragments != [] {
      OwedMembers(fragments[1..], original, fragment);
    }
  }

  lemma {:induction false} AnsweredMembers(rounds: seq<Round>, original: nat, fragment: Fragment)
    ensures fragment in AnsweredOf(rounds, original) <==> WasAnswered(rounds, fragment) && fragment.original == original
  {
    hide Owed;
    if rounds != [] {
      var front, last := rounds[..|rounds| - 1], rounds[|rounds| - 1];
      AnsweredMembers(front, original, fragment);
      OwedMembers(last.batch, original, fragment);
      assert forall k | 0 <= k < |front| :: front[k] == rounds[k];
      if WasAnswered(front, fragment) {
        var k :| 0 <= k < |front| && fragment in front[k].batch;
        assert fragment in rounds[k].batch;
      }
    }
  }

  lemma {:induction false} FragmentsAscend(item: ReadItem, original: nat, offset: nat, pdu: nat, index: nat)
    requires Readable(item) && SessionPdu(pdu) && index < |ItemFragments(item, original, offset, pdu)|
    ensures
      var fragment := ItemFragments(item, original, offset, pdu)[index];
      fragment.original == original && fragment.offset >= offset && (index > 0 ==> fragment.offset > offset)
    decreases index
  {
    hide FragmentItem, Readable;
    if index > 0 {
      FragmentsAscend(item, original, offset + FragmentLength(item, offset, pdu), pdu, index - 1);
    }
  }

  lemma {:induction false} FragmentsDiffer(item: ReadItem, original: nat, offset: nat, pdu: nat, low: nat, high: nat)
    requires Readable(item) && SessionPdu(pdu) && low < high < |ItemFragments(item, original, offset, pdu)|
    ensures
      var fragments := ItemFragments(item, original, offset, pdu);
      fragments[low].offset < fragments[high].offset
    decreases low
  {
    hide FragmentItem, Readable;
    if low == 0 {
      FragmentsAscend(item, original, offset, pdu, high);
    } else {
      FragmentsDiffer(item, original, offset + FragmentLength(item, offset, pdu), pdu, low - 1, high - 1);
    }
  }

  /** An item nobody rejected is complete exactly when every fragment of it was answered. */
  lemma {:induction false} CompleteMeansAnswered(rounds: seq<Round>, progress: nat, item: ReadItem, original: nat, pdu: nat)
    requires Readable(item) && SessionPdu(pdu) && Complete(rounds) && progress <= Length(item)
    requires ItemTraced(rounds, progress, item, original, pdu) && Rejection(rounds, original).None?
    ensures progress == Length(item) <==> FullyAnswered(rounds, item, original, pdu)
  {
    hide ItemFragments, AnsweredOf, Received, Rejection, Readable, WasAnswered;
    var all, answered := ItemFragments(item, original, 0, pdu), AnsweredOf(rounds, original);
    var rest := ItemFragments(item, original, progress, pdu);
    NextOwed(item, original, progress, pdu);
    if progress == Length(item) {
      assert all == answered;
      forall fragment | fragment in all
        ensures WasAnswered(rounds, fragment)
      {
        AnsweredMembers(rounds, original, fragment);
      }
    } else if FullyAnswered(rounds, item, original, pdu) {
      assert all[|answered|] == rest[0];
      AnsweredMembers(rounds, original, rest[0]);
      var earlier :| 0 <= earlier < |answered| && answered[earlier] == rest[0];
      FragmentsDiffer(item, original, 0, pdu, earlier, |answered|);
      assert false;
    }
  }
}
