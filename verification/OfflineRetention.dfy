/**
 * Retention of the offline queue: what happens to every stored event when the pipelined
 * commands of appends interleave with the read and the removal of acknowledgements, and
 * what a run without interleaving keeps. Key expiry is not modelled.
 */
module OfflineRetention {
  import opened EventIds
  import opened OfflineQueue

  // ---- one user's queue under interleaving ----

  /** An acknowledgement between its read and its removal. */
  datatype Read = Read(upToId: string, delivered: set<Event>, at: nat)

  datatype Store = Store(
    z: seq<Entry>,
    max: nat,
    stored: seq<Event>,     // every event ever added, in order
    adding: set<int>,       // appends between their add and their trim
    pending: map<int, Read>,
    trimmed: set<Event>,
    acked: set<Event>)

  datatype Step =
    | Add(op: int, now: int, event: Event)
    | Trim(op: int)
    | AckRead(op: int, upToId: string)
    | AckRemove(op: int)

  predicate Enabled(s: Store, step: Step) {
    match step
    case Add(op, _, e) => op !in s.adding && forall d | d in s.stored :: d.text != e.text && d.id != e.id
    case Trim(op) => op in s.adding
    case AckRead(op, _) => op !in s.pending
    case AckRemove(op) => op in s.pending
  }

  function EventSet(z: seq<Entry>): set<Event> {
    set x | x in z :: x.event
  }

  function Next(s: Store, step: Step): Store
    requires Enabled(s, step)
  {
    match step
    case Add(op, now, e) =>
      s.(z := ZAdd(s.z, Entry(now, e)), stored := s.stored + [e], adding := s.adding + {op})
    case Trim(op) =>
      var z' := ZRemRangeByRank(s.z, 0, -(s.max + 1));
      s.(z := z', adding := s.adding - {op}, trimmed := s.trimmed + (EventSet(s.z) - EventSet(z')))
    case AckRead(op, upToId) =>
      s.(pending := s.pending[op := Read(upToId, Delivered(s.z, upToId), |s.stored|)])
    case AckRemove(op) =>
      var gone := s.pending[op].delivered;
      s.(z := ZRem(s.z, gone), pending := s.pending - {op}, acked := s.acked + (EventSet(s.z) * gone))
  }

  predicate Runs(s: Store, steps: seq<Step>)
    decreases |steps|
  {
    steps == [] || (Enabled(s, steps[0]) && Runs(Next(s, steps[0]), steps[1..]))
  }

  function After(s: Store, steps: seq<Step>): Store
    requires Runs(s, steps)
    decreases |steps|
  {
    if steps == [] then s else After(Next(s, steps[0]), steps[1..])
  }

  function Empty(max: nat): Store {
    Store([], max, [], {}, map[], {}, {})
  }

  ghost predicate Accounted(s: Store) {
    && NoRepeat(s.z)
    && EventSet(s.z) + s.trimmed + s.acked == (set e | e in s.stored)
    && EventSet(s.z) !! s.trimmed && EventSet(s.z) !! s.acked && s.trimmed !! s.acked
  }

  ghost predicate ReadsHonest(s: Store) {
    forall op | op in s.pending :: var r := s.pending[op];
      r.at <= |s.stored| && forall e | e in r.delivered :: AtMost(e.id, r.upToId) && e in s.stored[..r.at]
  }

  ghost predicate Inv(s: Store) {
    Accounted(s) && ReadsHonest(s) && |s.z| <= s.max + |s.adding|
  }

  lemma {:induction false} WithoutAbsent(z: seq<Entry>, text: string)
    requires forall x | x in z :: x.event.text != text
    ensures Without(z, text) == z
  {
    if z != [] {
      assert z == [z[0]] + z[1..];
      WithoutAbsent(z[1..], text);
    }
  }

  lemma {:induction false} InsertedOnce(z: seq<Entry>, e: Entry)
    requires NoRepeat(z) && e.event !in EventSet(z)
    ensures NoRepeat(Insert(z, e))
  {
    if z != [] && !Before(e, z[0]) {
      assert forall x | x in z[1..] :: x in z;
      InsertedOnce(z[1..], e);
      InsertHolds(z[1..], e);
      var r := Insert(z[1..], e);
      forall i | 0 <= i < |r| ensures r[i].event != z[0].event {
        assert r[i] in r;
      }
    }
  }

  lemma StepAdd(s: Store, step: Step)
    requires Enabled(s, step) && Inv(s) && step.Add?
    ensures Inv(Next(s, step))
  {
    var s', e := Next(s, step), Entry(step.now, step.event);
    forall x | x in s.z ensures x.event in s.stored {
      assert x.event in EventSet(s.z);
    }
    WithoutAbsent(s.z, step.event.text);
    InsertHolds(s.z, e);
    InsertedOnce(s.z, e);
    assert EventSet(s'.z) == EventSet(s.z) + {step.event} by {
      forall f ensures f in EventSet(s'.z) <==> f in EventSet(s.z) + {step.event} {
        if f in EventSet(s.z) {
          var x :| x in s.z && x.event == f;
          assert x in s'.z;
        }
        assert e in s'.z;
      }
    }
    assert (set d | d in s'.stored) == (set d | d in s.stored) + {step.event};
    forall op | op in s'.pending ensures s'.stored[..s'.pending[op].at] == s.stored[..s.pending[op].at] {}
  }

  lemma StepTrim(s: Store, step: Step)
    requires Enabled(s, step) && Inv(s) && step.Trim?
    ensures Inv(Next(s, step))
  {
    var s' := Next(s, step);
    TrimKeepsNewest(s.z, s.max);
    forall x | x in s'.z ensures x in s.z {}
    assert EventSet(s'.z) <= EventSet(s.z);
  }

  lemma StepAck(s: Store, step: Step)
    requires Enabled(s, step) && Inv(s) && (step.AckRead? || step.AckRemove?)
    ensures Inv(Next(s, step))
  {
    var s' := Next(s, step);
    if step.AckRemove? {
      var gone := s.pending[step.op].delivered;
      RemovedMembers(s.z, gone);
      RemovedDistinct(s.z, gone);
      assert EventSet(s'.z) == EventSet(s.z) - gone by {
        forall f ensures f in EventSet(s'.z) <==> f in EventSet(s.z) - gone {
          if f in EventSet(s.z) - gone {
            var x :| x in s.z && x.event == f;
            assert x in s'.z;
          }
        }
      }
    } else {
      forall e | e in Delivered(s.z, step.upToId) ensures e in s.stored[..|s.stored|] {
        assert e in EventSet(s.z);
      }
    }
  }

  lemma {:induction false} RunInv(s: Store, steps: seq<Step>)
    requires Runs(s, steps) && Inv(s)
    ensures Inv(After(s, steps)) && After(s, steps).max == s.max
    decreases |steps|
  {
    if steps != [] {
      match steps[0] {
        case Add(_, _, _) => StepAdd(s, steps[0]);
        case Trim(_) => StepTrim(s, steps[0]);
        case AckRead(_, _) => StepAck(s, steps[0]);
        case AckRemove(_) => StepAck(s, steps[0]);
      }
      RunInv(Next(s, steps[0]), steps[1..]);
    }
  }

  /**
   * Conservation: under every interleaving each stored event is queued, trimmed by the
   * cap or acknowledged, and only one of these; the queue exceeds the cap by no more than
   * the appends still between their add and their trim.
   */
  lemma QueueConserves(max: nat, steps: seq<Step>)
    requires Runs(Empty(max), steps)
    ensures var s := After(Empty(max), steps);
            && (forall e :: e in s.stored <==> e in EventSet(s.z) || e in s.trimmed || e in s.acked)
            && EventSet(s.z) !! s.trimmed && EventSet(s.z) !! s.acked && s.trimmed !! s.acked
            && NoRepeat(s.z)
            && |s.z| <= max + |s.adding|
  {
    assert Inv(Empty(max));
    RunInv(Empty(max), steps);
    var s := After(Empty(max), steps);
    forall e ensures e in s.stored <==> e in EventSet(s.z) || e in s.trimmed || e in s.acked {
      assert e in s.stored <==> e in (set d | d in s.stored);
    }
  }

  lemma AddGrows(s: Store, op: int, now: int, event: Event)
    requires Inv(s) && Enabled(s, Add(op, now, event))
    ensures |Next(s, Add(op, now, event)).z| == |s.z| + 1
  {
    forall x | x in s.z ensures x.event.text != event.text {
      assert x.event in EventSet(s.z);
    }
    WithoutAbsent(s.z, event.text);
    InsertHolds(s.z, Entry(now, event));
  }

  lemma {:induction false} RunSorted(s: Store, steps: seq<Step>)
    requires Runs(s, steps) && Sorted(s.z)
    ensures Sorted(After(s, steps).z)
    decreases |steps|
  {
    if steps != [] {
      match steps[0] {
        case Add(_, now, e) => ZAddIsExact(s.z, Entry(now, e));
        case Trim(_) => TrimKeepsHighest(s.z, s.max);
        case AckRead(_, _) =>
        case AckRemove(op) => ZRemSorted(s.z, s.pending[op].delivered);
      }
      RunSorted(Next(s, steps[0]), steps[1..]);
    }
  }

  /**
   * Under every interleaving and whatever the clocks said, the queue is in score order; so a
   * trim, whenever it comes, takes exactly the entries with `max` or more after them.
   */
  lemma TrimTakesLowest(max: nat, steps: seq<Step>, op: int)
    requires Runs(Empty(max), steps) && Enabled(After(Empty(max), steps), Trim(op))
    ensures var s := After(Empty(max), steps); var s' := Next(s, Trim(op));
            Sorted(s.z) && Sorted(s'.z) && forall x :: x in s'.z <==> x in s.z && |Later(s.z, x)| < s.max
  {
    RunSorted(Empty(max), steps);
    TrimKeepsHighest(After(Empty(max), steps).z, After(Empty(max), steps).max);
  }

  predicate SparesOp(steps: seq<Step>, op: int) {
    forall s | s in steps :: s != AckRemove(op)
  }

  lemma {:induction false} ReadKept(s: Store, steps: seq<Step>, op: int)
    requires Runs(s, steps) && op in s.pending && SparesOp(steps, op)
    ensures op in After(s, steps).pending && After(s, steps).pending[op] == s.pending[op]
    decreases |steps|
  {
    if steps != [] {
      assert steps[0] in steps && forall t | t in steps[1..] :: t in steps;
      ReadKept(Next(s, steps[0]), steps[1..], op);
    }
  }

  /**
   * Whatever runs between an acknowledgement's read and its removal, the removal takes of
   * what is queued by then exactly what was queued at the read, at or below the watermark.
   */
  lemma AckTakesAllItRead(s: Store, op: int, upToId: string, between: seq<Step>)
    requires Enabled(s, AckRead(op, upToId)) && Runs(Next(s, AckRead(op, upToId)), between) && SparesOp(between, op)
    ensures var s' := After(Next(s, AckRead(op, upToId)), between);
            && Enabled(s', AckRemove(op))
            && forall x :: x in Next(s', AckRemove(op)).z
                      <==> x in s'.z && !(x.event in EventSet(s.z) && AtMost(x.event.id, upToId))
  {
    var read := Next(s, AckRead(op, upToId));
    ReadKept(read, between, op);
    RemovedMembers(After(read, between).z, Delivered(s.z, upToId));
    forall e ensures e in Delivered(s.z, upToId) <==> e in EventSet(s.z) && AtMost(e.id, upToId) {}
  }

  /** With nothing in between, the two steps are the whole call. */
  lemma AckBackToBack(s: Store, op: int, upToId: string)
    requires Enabled(s, AckRead(op, upToId))
    ensures var read := Next(s, AckRead(op, upToId));
            Enabled(read, AckRemove(op)) && Next(read, AckRemove(op)).z == Acknowledge(s.z, upToId)
  {
  }

  /** An add queues its event under its own time and nothing else. */
  lemma AddIsExact(max: nat, steps: seq<Step>, op: int, now: int, event: Event)
    requires Runs(Empty(max), steps) && Enabled(After(Empty(max), steps), Add(op, now, event))
    ensures var s := After(Empty(max), steps);
            forall x :: x in Next(s, Add(op, now, event)).z <==> x in s.z || x == Entry(now, event)
  {
    assert Inv(Empty(max));
    RunInv(Empty(max), steps);
    var s := After(Empty(max), steps);
    ZAddIsExact(s.z, Entry(now, event));
    forall x | x in s.z ensures x.event.text != event.text {
      assert x.event in EventSet(s.z);
    }
  }

  /** After any run, an add leaves the queue within the cap exactly when it was below it. */
  lemma AddWithinCapIff(max: nat, steps: seq<Step>, op: int, now: int, event: Event)
    requires Runs(Empty(max), steps) && Enabled(After(Empty(max), steps), Add(op, now, event))
    ensures var s := After(Empty(max), steps);
            |Next(s, Add(op, now, event)).z| <= max <==> |s.z| < max
  {
    assert Inv(Empty(max));
    RunInv(Empty(max), steps);
    AddGrows(After(Empty(max), steps), op, now, event);
  }

  predicate FreshEvents(events: seq<Event>) {
    forall i, j | 0 <= i < j < |events| :: events[i].text != events[j].text && events[i].id != events[j].id
  }

  /** The commands of append number `n`; the first `appends` of them run whole. */
  function AppendOrAdd(n: nat, event: Event, appends: nat): seq<Step> {
    if n < appends then [Add(n, n, event), Trim(n)] else [Add(n, n, event)]
  }

  function AppendsThenAdds(events: seq<Event>, appends: nat): seq<Step> {
    if events == [] then []
    else
      AppendsThenAdds(events[..|events| - 1], appends)
      + AppendOrAdd(|events| - 1, events[|events| - 1], appends)
  }

  /** The first `appends` events were appended whole, nothing was trimmed away. */
  ghost predicate HoldsUntrimmed(s: Store, events: seq<Event>, appends: nat) {
    && Inv(s) && |s.z| == |events| && s.stored == events && appends <= s.max
    && |s.adding| == (if |events| <= appends then 0 else |events| - appends)
    && forall op | op in s.adding :: op < |events|
  }

  lemma AddsOne(s: Store, events: seq<Event>, event: Event)
    requires Inv(s) && s.stored == events && FreshEvents(events + [event]) && |events| !in s.adding
    ensures var step := Add(|events|, |events|, event);
            Enabled(s, step) && Inv(Next(s, step)) && |Next(s, step).z| == |s.z| + 1
  {
    var step, all := Add(|events|, |events|, event), events + [event];
    forall d | d in s.stored ensures d.text != event.text && d.id != event.id {
      var i :| 0 <= i < |events| && events[i] == d;
      assert all[i] == d && all[|events|] == event;
    }
    AddGrows(s, step.op, step.now, event);
    StepAdd(s, step);
  }

  /** A trim of a queue within the cap takes nothing away. */
  lemma TrimsNothing(s: Store, op: int)
    requires Inv(s) && Enabled(s, Trim(op)) && |s.z| <= s.max
    ensures Inv(Next(s, Trim(op))) && Next(s, Trim(op)).z == s.z
  {
    TrimKeepsNewest(s.z, s.max);
    StepTrim(s, Trim(op));
  }

  lemma OneStep(s: Store, step: Step)
    requires Enabled(s, step)
    ensures Runs(s, [step]) && After(s, [step]) == Next(s, step)
  {
    assert [step][1..] == [];
  }

  lemma NextHolds(s: Store, events: seq<Event>, appends: nat, event: Event)
    requires HoldsUntrimmed(s, events, appends) && FreshEvents(events + [event])
    ensures var steps := AppendOrAdd(|events|, event, appends);
            Runs(s, steps) && HoldsUntrimmed(After(s, steps), events + [event], appends)
  {
    var n := |events|;
    AddsOne(s, events, event);
    var add := Add(n, n, event);
    var added := Next(s, add);
    if n < appends {
      TrimsNothing(added, n);
      OneStep(added, Trim(n));
      assert [add, Trim(n)][1..] == [Trim(n)];
      assert added.adding - {n} == s.adding;
    } else {
      OneStep(s, add);
    }
  }

  lemma {:induction false} RunsCompose(s: Store, first: seq<Step>, rest: seq<Step>)
    requires Runs(s, first) && Runs(After(s, first), rest)
    ensures Runs(s, first + rest) && After(s, first + rest) == After(After(s, first), rest)
    decreases |first|
  {
    if first == [] {
      assert first + rest == rest;
    } else {
      assert (first + rest)[1..] == first[1..] + rest;
      RunsCompose(Next(s, first[0]), first[1..], rest);
    }
  }

  lemma NothingUntrimmed(max: nat, appends: nat)
    requires appends <= max
    ensures HoldsUntrimmed(Empty(max), [], appends)
  {
  }

  lemma {:induction false} AppendsThenAddsHold(max: nat, events: seq<Event>, appends: nat)
    requires FreshEvents(events) && appends <= max
    ensures Runs(Empty(max), AppendsThenAdds(events, appends))
    ensures HoldsUntrimmed(After(Empty(max), AppendsThenAdds(events, appends)), events, appends)
    decreases |events|
  {
    if events == [] {
      assert AppendsThenAdds(events, appends) == [];
      NothingUntrimmed(max, appends);
    } else {
      var init, last := events[..|events| - 1], events[|events| - 1];
      assert events == init + [last];
      AppendsThenAddsHold(max, init, appends);
      var before, steps := AppendsThenAdds(init, appends), AppendOrAdd(|init|, last, appends);
      assert AppendsThenAdds(events, appends) == before + steps;
      NextHolds(After(Empty(max), before), init, appends, last);
      RunsCompose(Empty(max), before, steps);
    }
  }

  /**
   * Any number of appends whose adds come before all their trims leave every one of their
   * events in the queue, whatever the cap.
   */
  lemma CapExceeded(max: nat, events: seq<Event>)
    requires FreshEvents(events)
    ensures Runs(Empty(max), AppendsThenAdds(events, 0))
    ensures var s := After(Empty(max), AppendsThenAdds(events, 0));
            |s.z| == |s.adding| == |events| && s.stored == events
  {
    AppendsThenAddsHold(max, events, 0);
  }

  /** The bound of `QueueConserves` is reached, for every cap and every number of untrimmed appends. */
  lemma BoundReached(max: nat, n: nat, events: seq<Event>)
    requires FreshEvents(events) && |events| == max + n
    ensures exists steps :: Runs(Empty(max), steps)
              && |After(Empty(max), steps).adding| == n && |After(Empty(max), steps).z| == max + n
  {
    AppendsThenAddsHold(max, events, max);
    var steps := AppendsThenAdds(events, max);
    assert |After(Empty(max), steps).adding| == n;
  }

  /**
   * What an acknowledgement takes out lies at or below its watermark and was stored
   * before its read; everything else stays.
   */
  lemma AckTakesOnlyWhatItRead(max: nat, steps: seq<Step>, op: int)
    requires Runs(Empty(max), steps) && Enabled(After(Empty(max), steps), AckRemove(op))
    ensures var s := After(Empty(max), steps); var s' := Next(s, AckRemove(op)); var r := s.pending[op];
            && r.at <= |s.stored|
            && (forall x | x in s.z && x !in s'.z ::
                  AtMost(x.event.id, r.upToId) && x.event in s.stored[..r.at])
            && (forall x | x in s'.z :: x in s.z)
  {
    assert Inv(Empty(max));
    RunInv(Empty(max), steps);
    var s := After(Empty(max), steps);
    RemovedMembers(s.z, s.pending[op].delivered);
  }

  // ---- runs without interleaving ----

  datatype Call = Append(now: int, event: Event) | Ack(upToId: string)

  function Appended(z: seq<Entry>, max: nat, now: int, event: Event): seq<Entry> {
    ZRemRangeByRank(ZAdd(z, Entry(now, event)), 0, -(max + 1))
  }

  function Queue(calls: seq<Call>, max: nat): seq<Entry> {
    if calls == [] then []
    else
      var z := Queue(calls[..|calls| - 1], max);
      match calls[|calls| - 1]
      case Append(now, e) => Appended(z, max, now, e)
      case Ack(upToId) => Acknowledge(z, upToId)
  }

  /** Calls in any order, with any clocks: the queue is in score order. */
  lemma {:induction false} QueueSorted(calls: seq<Call>, max: nat)
    ensures Sorted(Queue(calls, max))
    decreases |calls|
  {
    if calls != [] {
      var z := Queue(calls[..|calls| - 1], max);
      QueueSorted(calls[..|calls| - 1], max);
      match calls[|calls| - 1] {
        case Append(now, e) =>
          ZAddIsExact(z, Entry(now, e));
          TrimKeepsHighest(ZAdd(z, Entry(now, e)), max);
        case Ack(upToId) => ZRemSorted(z, Delivered(z, upToId));
      }
    }
  }

  /** The entries a queue holds once `e` is added: the others, less one of the same text, and `e`. */
  function WithEntry(z: seq<Entry>, e: Entry): set<Entry> {
    (set x | x in z && x.event.text != e.event.text) + {e}
  }

  /** Among the entries `all`, this one has fewer than `max` after it. */
  ghost predicate Ranks(all: set<Entry>, max: nat, x: Entry) {
    x in all && |set y | y in all && Before(x, y)| < max
  }

  /** `after` holds what `e` and the entries of `z` leave when only the highest `max` are kept. */
  ghost predicate KeepsHighest(z: seq<Entry>, max: nat, e: Entry, after: seq<Entry>) {
    forall x :: x in after <==> Ranks(WithEntry(z, e), max, x)
  }

  lemma LaterInAll(z: seq<Entry>, all: set<Entry>, x: Entry)
    requires forall y :: y in z <==> y in all
    ensures Later(z, x) == set y | y in all && Before(x, y)
  {
  }

  /** An append leaves exactly the entries, the new one included, with fewer than `max` after them. */
  lemma AppendIsExact(z: seq<Entry>, max: nat, now: int, event: Event)
    requires Sorted(z)
    ensures Sorted(Appended(z, max, now, event))
    ensures KeepsHighest(z, max, Entry(now, event), Appended(z, max, now, event))
  {
    var e := Entry(now, event);
    var added, all := ZAdd(z, e), WithEntry(z, e);
    ZAddIsExact(z, e);
    TrimKeepsHighest(added, max);
    forall x ensures x in Appended(z, max, now, event) <==> Ranks(all, max, x) {
      LaterInAll(added, all, x);
    }
  }

  function DropUpTo(list: seq<Event>, upToId: string): seq<Event> {
    if list == [] || Less(upToId, list[0].id) then list else DropUpTo(list[1..], upToId)
  }

  /** The plain list: append at the end and keep the newest; acknowledge a prefix. */
  function Plain(calls: seq<Call>, max: nat): seq<Event> {
    if calls == [] then []
    else
      var list := Plain(calls[..|calls| - 1], max);
      match calls[|calls| - 1]
      case Append(_, e) => Newest(list + [e], max)
      case Ack(upToId) => DropUpTo(list, upToId)
  }

  /** Clock and ids never go back, and on one clock value texts are ordered like ids. */
  ghost predicate InOrder(calls: seq<Call>) {
    forall i, j | 0 <= i < j < |calls| && calls[i].Append? && calls[j].Append? ::
      && calls[i].now <= calls[j].now
      && Less(calls[i].event.id, calls[j].event.id)
      && calls[i].event.text != calls[j].event.text
      && (calls[i].now == calls[j].now ==> Less(calls[i].event.text, calls[j].event.text))
  }

  /** Everything queued was appended. */
  ghost predicate FromCalls(z: seq<Entry>, calls: seq<Call>) {
    forall x | x in z :: exists i :: 0 <= i < |calls| && calls[i] == Append(x.score, x.event)
  }

  lemma {:induction false} InsertLast(z: seq<Entry>, e: Entry)
    requires forall x | x in z :: Before(x, e)
    ensures Insert(z, e) == z + [e]
  {
    if z != [] {
      assert z[0] in z;
      if Before(e, z[0]) {
        LessAsymmetric(e.event.text, z[0].event.text);
      }
      InsertLast(z[1..], e);
      assert z + [e] == [z[0]] + (z[1..] + [e]);
    }
  }

  lemma {:induction false} AckDropsPrefix(z: seq<Entry>, upToId: string, gone: set<Event>)
    requires AscendingIds(z)
    requires forall x | x in z :: x.event in gone <==> !Less(upToId, x.event.id)
    ensures Events(ZRem(z, gone)) == DropUpTo(Events(z), upToId)
    ensures AscendingIds(ZRem(z, gone)) && forall x :: x in ZRem(z, gone) ==> x in z
  {
    RemovedMembers(z, gone);
    if z != [] {
      assert z[0] in z && z == [z[0]] + z[1..];
      assert Events(z)[1..] == Events(z[1..]);
      if Less(upToId, z[0].event.id) {
        AllStay(z, upToId, gone);
      } else {
        AckDropsPrefix(z[1..], upToId, gone);
        assert ZRem(z, gone) == ZRem(z[1..], gone);
      }
    }
  }

  lemma AllStay(z: seq<Entry>, upToId: string, gone: set<Event>)
    requires AscendingIds(z) && z != [] && Less(upToId, z[0].event.id)
    requires forall x | x in z :: x.event in gone <==> !Less(upToId, x.event.id)
    ensures ZRem(z, gone) == z
  {
    forall i | 0 <= i < |z| ensures z[i].event !in gone {
      assert z[i] in z;
      if i > 0 {
        LessTransitive(upToId, z[0].event.id, z[i].event.id);
      }
    }
    KeepAll(z, gone);
  }

  lemma {:induction false} KeepAll(z: seq<Entry>, gone: set<Event>)
    requires forall x | x in z :: x.event !in gone
    ensures ZRem(z, gone) == z
  {
    if z != [] {
      assert z[0] in z && z == [z[0]] + z[1..];
      KeepAll(z[1..], gone);
    }
  }

  /** An entry that sorts after all others is added at the end. */
  lemma AddedLast(z: seq<Entry>, e: Entry)
    requires forall x | x in z :: x.event.text != e.event.text && Before(x, e)
    ensures ZAdd(z, e) == z + [e]
  {
    WithoutAbsent(z, e.event.text);
    InsertLast(z, e);
  }

  lemma AppendStep(z: seq<Entry>, max: nat, e: Entry)
    requires AscendingIds(z)
    requires forall x | x in z :: Less(x.event.id, e.event.id) && x.event.text != e.event.text && Before(x, e)
    ensures var z' := Appended(z, max, e.score, e.event);
            && AscendingIds(z') && Events(z') == Newest(Events(z) + [e.event], max)
            && forall x | x in z' :: x in z || x == e
  {
    AddedLast(z, e);
    TrimKeepsNewest(z + [e], max);
    assert forall i | 0 <= i < |z| :: z[i] in z;
    assert Events(z + [e]) == Events(z) + [e.event];
    NewestEvents(z + [e], max);
  }

  lemma NewestEvents(z: seq<Entry>, max: nat)
    requires AscendingIds(z)
    ensures AscendingIds(Newest(z, max)) && Events(Newest(z, max)) == Newest(Events(z), max)
    ensures forall x | x in Newest(z, max) :: x in z
  {
  }

  lemma AckStep(z: seq<Entry>, upToId: string)
    requires AscendingIds(z)
    ensures var z' := Acknowledge(z, upToId);
            && AscendingIds(z') && Events(z') == DropUpTo(Events(z), upToId) && forall x | x in z' :: x in z
  {
    forall x | x in z ensures x.event in Delivered(z, upToId) <==> !Less(upToId, x.event.id) {
      LessTotal(upToId, x.event.id);
      LessAsymmetric(upToId, x.event.id);
    }
    AckDropsPrefix(z, upToId, Delivered(z, upToId));
  }

  /** The sorted set is the plain list, after any sequence of calls in order. */
  lemma {:induction false} QueueIsPlainList(calls: seq<Call>, max: nat)
    requires InOrder(calls)
    ensures Events(Queue(calls, max)) == Plain(calls, max)
    ensures AscendingIds(Queue(calls, max)) && FromCalls(Queue(calls, max), calls)
    decreases |calls|
  {
    if calls != [] {
      var init, last := calls[..|calls| - 1], calls[|calls| - 1];
      QueueIsPlainList(init, max);
      var z := Queue(init, max);
      match last {
        case Append(now, event) =>
          var e := Entry(now, event);
          forall x | x in z ensures Less(x.event.id, event.id) && x.event.text != event.text && Before(x, e) {
            var i :| 0 <= i < |init| && init[i] == Append(x.score, x.event);
            assert calls[i] == init[i];
          }
          AppendStep(z, max, e);
        case Ack(upToId) => AckStep(z, upToId);
      }
      forall x | x in Queue(calls, max)
        ensures exists i :: 0 <= i < |calls| && calls[i] == Append(x.score, x.event) {
        if x in z {
          var i :| 0 <= i < |init| && init[i] == Append(x.score, x.event);
          assert calls[i] == init[i];
        } else {
          assert calls[|calls| - 1] == Append(x.score, x.event);
        }
      }
    }
  }

  /** A JSON text that puts a fixed-width id first is ordered like its id. */
  lemma IdFirstTextsOrdered(head: string, a: string, restA: string, b: string, restB: string)
    requires |a| == |b| && Less(a, b)
    ensures Less(head + a + restA, head + b + restB)
  {
    LessAppend(head, a, head, b);
    LessAppend(head + a, restA, head + b, restB);
  }

  // ---- the adapter ----

  class RedisOfflineQueue {
    const maxPerUser: nat
    var queues: map<string, seq<Entry>>

    constructor (maxPerUser: nat)
      ensures this.maxPerUser == maxPerUser && queues == map[] && Valid()
    {
      this.maxPerUser, queues := maxPerUser, map[];
    }

    function Of(userId: string): seq<Entry>
      reads this
    {
      if userId in queues then queues[userId] else []
    }

    /** Every user's sorted set is in order, and none is kept empty. */
    ghost predicate Valid()
      reads this
    {
      forall u :: Sorted(Of(u)) && (u in queues <==> Of(u) != [])
    }

    /** Redis drops a key whose last member is removed. */
    method Put(userId: string, z: seq<Entry>)
      modifies this
      ensures Of(userId) == z
      ensures forall other | other != userId :: Of(other) == old(Of(other))
      ensures userId in queues <==> z != []
      ensures forall other | other != userId :: other in queues <==> other in old(queues)
    {
      queues := if z == [] then queues - {userId} else queues[userId := z];
    }

    /** Of the old entries and the new one stay those with fewer than `maxPerUser` after them. */
    method Append(userId: string, now: int, event: Event)
      requires Valid()
      modifies this
      ensures Valid()
      ensures KeepsHighest(old(Of(userId)), maxPerUser, Entry(now, event), Of(userId))
      ensures Of(userId) == Appended(old(Of(userId)), maxPerUser, now, event)
      ensures forall other | other != userId :: Of(other) == old(Of(other))
    {
      AppendIsExact(Of(userId), maxPerUser, now, event);
      ghost var result := Appended(Of(userId), maxPerUser, now, event);
      var z := ZAdd(Of(userId), Entry(now, event));
      Put(userId, z);
      Put(userId, ZRemRangeByRank(z, 0, -(maxPerUser + 1)));
      assert Of(userId) == result;
    }

    method RetrieveSince(userId: string, sinceId: string, limit: nat) returns (events: seq<Event>)
      ensures events == Events(OfflineQueue.RetrieveSince(Of(userId), sinceId, limit))
    {
      events := Events(OfflineQueue.RetrieveSince(Of(userId), sinceId, limit));
    }

    method Acknowledge(userId: string, upToId: string)
      requires Valid()
      modifies this
      ensures Valid()
      ensures forall x :: x in Of(userId) <==> x in old(Of(userId)) && Less(upToId, x.event.id)
      ensures Of(userId) == OfflineQueue.Acknowledge(old(Of(userId)), upToId)
      ensures forall other | other != userId :: Of(other) == old(Of(other))
    {
      var z := Of(userId);
      AcknowledgedExactly(z, upToId);
      ZRemSorted(z, Delivered(z, upToId));
      var delivered := Delivered(z, upToId);
      if delivered != {} {
        Put(userId, ZRem(z, delivered));
      } else {
        KeepAll(z, delivered);
      }
    }
  }
}
