/**
 * The replay lab: numbered bursts, the buffer window composed from what was emitted, and
 * the tags by which a client tells recovered events from lost ones.
 */
module Replay {
  import opened Options

  datatype TimelineEntry = TimelineEntry(seqNo: int, emittedAt: int)

  datatype View = View(emissions: seq<TimelineEntry>, retained: seq<int>, evicted: seq<int>)

  datatype Tag = LiveTag | BufferTag | QueueTag | GapTag

  datatype Row = Row(seqNo: int, tag: Tag)

  function SeqsOf(entries: seq<TimelineEntry>): seq<int> {
    seq(|entries|, i requires 0 <= i < |entries| => entries[i].seqNo)
  }

  function RetainedStart(n: nat, bufferSize: nat): nat {
    if n >= bufferSize then n - bufferSize else 0
  }

  function TimelineFor(emissions: seq<TimelineEntry>, bufferSize: nat): View {
    var start := RetainedStart(|emissions|, bufferSize);
    View(emissions, SeqsOf(emissions[start..]), SeqsOf(emissions[..start]))
  }

  function TagOf(seqNo: int, retained: set<int>, queued: set<int>, received: set<int>): Tag {
    if seqNo in queued then QueueTag
    else if seqNo in retained then BufferTag
    else if seqNo in received then LiveTag
    else GapTag
  }

  /** Numbers the queue view could read; unreadable ones are dropped. */
  function Readable(queued: seq<Option<int>>): set<int> {
    set q | q in queued && q.Some? :: q.value
  }

  function TagReplayRanges(view: View, queued: seq<Option<int>>, received: set<int>): seq<Row> {
    var retained := set r | r in view.retained;
    seq(|view.emissions|, i requires 0 <= i < |view.emissions| =>
      Row(view.emissions[i].seqNo, TagOf(view.emissions[i].seqNo, retained, Readable(queued), received)))
  }

  predicate DistinctSeqs(entries: seq<TimelineEntry>) {
    forall i, j | 0 <= i < j < |entries| :: entries[i].seqNo != entries[j].seqNo
  }

  /** Evicted and then retained numbers are the emission, with a full buffer if possible. */
  lemma WindowPartitions(emissions: seq<TimelineEntry>, bufferSize: nat)
    ensures var v := TimelineFor(emissions, bufferSize);
            && v.evicted + v.retained == SeqsOf(emissions)
            && |v.retained| == if |emissions| < bufferSize then |emissions| else bufferSize
  {
  }

  lemma RetainedByNumber(emissions: seq<TimelineEntry>, bufferSize: nat, i: nat)
    requires i < |emissions|
    ensures emissions[i].seqNo in TimelineFor(emissions, bufferSize).retained
       <==> exists k :: RetainedStart(|emissions|, bufferSize) <= k < |emissions|
                        && emissions[k].seqNo == emissions[i].seqNo
  {
    var start := RetainedStart(|emissions|, bufferSize);
    var retained := TimelineFor(emissions, bufferSize).retained;
    if k :| 0 <= k < |retained| && retained[k] == emissions[i].seqNo {
      assert emissions[start + k].seqNo == emissions[i].seqNo;
    }
    if k :| start <= k < |emissions| && emissions[k].seqNo == emissions[i].seqNo {
      assert retained[k - start] == emissions[i].seqNo;
    }
  }

  /**
   * One row per emission, in order; when no number repeats, 'buffer' means exactly still
   * in the window and not queued, 'gap' exactly evicted, not queued and not received.
   */
  lemma TagsMeanRanges(
    emissions: seq<TimelineEntry>, bufferSize: nat, queued: seq<Option<int>>, received: set<int>, i: nat)
    requires DistinctSeqs(emissions) && i < |emissions|
    ensures var rows := TagReplayRanges(TimelineFor(emissions, bufferSize), queued, received);
            var seqNo := emissions[i].seqNo; var inWindow := i >= RetainedStart(|emissions|, bufferSize);
            && |rows| == |emissions| && rows[i].seqNo == seqNo
            && (rows[i].tag == QueueTag <==> Some(seqNo) in queued)
            && (rows[i].tag == BufferTag <==> inWindow && Some(seqNo) !in queued)
            && (rows[i].tag == LiveTag <==> !inWindow && Some(seqNo) !in queued && seqNo in received)
            && (rows[i].tag == GapTag <==> !inWindow && Some(seqNo) !in queued && seqNo !in received)
  {
    var seqNo := emissions[i].seqNo;
    RetainedByNumber(emissions, bufferSize, i);
    if k :| RetainedStart(|emissions|, bufferSize) <= k < |emissions| && emissions[k].seqNo == seqNo {
      assert k == i;
    }
    assert seqNo in Readable(queued) <==> Some(seqNo) in queued;
  }

  /** An evicted emission is shown as buffered exactly when it is not queued and its number repeats in the window. */
  lemma EvictedShownBufferedIff(
    emissions: seq<TimelineEntry>, bufferSize: nat, queued: seq<Option<int>>, received: set<int>, i: nat)
    requires i < RetainedStart(|emissions|, bufferSize)
    ensures var seqNo := emissions[i].seqNo;
            TagReplayRanges(TimelineFor(emissions, bufferSize), queued, received)[i].tag == BufferTag
            <==> Some(seqNo) !in queued
                 && exists k :: RetainedStart(|emissions|, bufferSize) <= k < |emissions| && emissions[k].seqNo == seqNo
  {
    RetainedByNumber(emissions, bufferSize, i);
    assert emissions[i].seqNo in Readable(queued) <==> Some(emissions[i].seqNo) in queued;
  }

  class ReplayTimeline {
    var byUser: map<string, seq<TimelineEntry>>

    constructor ()
      ensures byUser == map[]
    {
      byUser := map[];
    }

    function Entries(userId: string): seq<TimelineEntry>
      reads this
    {
      if userId in byUser then byUser[userId] else []
    }

    method Reset(userId: string)
      modifies this
      ensures byUser == old(byUser) - {userId}
    {
      byUser := byUser - {userId};
    }

    method Record(userId: string, seqNo: int, now: int)
      modifies this
      ensures Entries(userId) == old(Entries(userId)) + [TimelineEntry(seqNo, now)]
      ensures forall other | other != userId :: Entries(other) == old(Entries(other))
    {
      byUser := byUser[userId := Entries(userId) + [TimelineEntry(seqNo, now)]];
    }

    /** An uninterrupted burst leaves exactly 1..count, and emits the same numbers. */
    method Burst(userId: string, count: nat, clock: nat -> int) returns (emitted: seq<int>)
      modifies this
      ensures Entries(userId) == seq(count, i requires 0 <= i < count => TimelineEntry(i + 1, clock(i + 1)))
      ensures SeqsOf(Entries(userId)) == emitted == seq(count, i => i + 1)
      ensures DistinctSeqs(Entries(userId))
      ensures forall other | other != userId :: Entries(other) == old(Entries(other))
    {
      Reset(userId);
      emitted := [];
      var seqNo := 1;
      while seqNo <= count
        invariant 1 <= seqNo <= count + 1
        invariant Entries(userId) == seq(seqNo - 1, i requires 0 <= i < seqNo - 1 => TimelineEntry(i + 1, clock(i + 1)))
        invariant SeqsOf(Entries(userId)) == emitted == seq(seqNo - 1, i => i + 1)
        invariant forall other | other != userId :: Entries(other) == old(Entries(other))
      {
        Record(userId, seqNo, clock(seqNo));
        emitted := emitted + [seqNo];
        assert SeqsOf(Entries(userId)) == emitted;
        seqNo := seqNo + 1;
      }
      assert forall i | 0 <= i < |emitted| :: SeqsOf(Entries(userId))[i] == i + 1;
      assert forall i | 0 <= i < count :: Entries(userId)[i].seqNo == SeqsOf(Entries(userId))[i];
    }
  }
}
