/**
 * The life of the shared subscriber connection of the pub/sub bus. A method runs in
 * pieces, one from await to await; every piece is a step, and pieces of concurrent calls
 * interleave. Connection outcomes arrive as events of their own, and only once every
 * continuation of a settled promise has run, as the event loop drains those first.
 */
module PubSubSubscriber {
  import opened Options

  datatype Handler = Handler(id: nat)
  type ConnId = int

  /** `Rejecting`: the subscribe failed and the clone is disconnected, `catch` has not run. */
  datatype Link = Creating | Rejecting | Failed | Open | TearingDown | Closed

  datatype Bus = Bus(
    handlers: set<Handler>,
    subscriber: Option<ConnId>,
    subscribing: Option<ConnId>,        // the cached creation promise, kept after success
    available: bool,
    links: map<ConnId, Link>,           // every duplicate ever made
    waiting: map<Handler, Option<ConnId>>, // what each unfinished subscribe call awaits
    handles: set<Handler>,              // subscribe calls that returned
    used: set<Handler>)

  const IDLE := Bus({}, None, None, true, map[], map[], {}, {})

  datatype Step =
    | Subscribe(h: Handler, k: ConnId)
    | CreationSucceeds(k: ConnId)
    | CreationFails(k: ConnId)
    | RejectionCaught(k: ConnId)
    | SubscribeReturns(h: Handler)
    | SubscribeThrows(h: Handler)
    | Unsubscribe(h: Handler)
    | TornDown(k: ConnId)
    | LinkEvent(up: bool)
    | Published(accepted: bool)

  predicate Is(b: Bus, k: ConnId, l: Link) {
    k in b.links && b.links[k] == l
  }

  predicate Pending(b: Bus, k: ConnId) {
    Is(b, k, Creating) || Is(b, k, Rejecting)
  }

  /** The promise this call awaits is settled, so its continuation is due. */
  predicate Settled(b: Bus, h: Handler) {
    h in b.waiting && (b.waiting[h].Some? ==> !Pending(b, b.waiting[h].value))
  }

  ghost predicate Drained(b: Bus) {
    (forall h :: !Settled(b, h)) && (forall k :: !Is(b, k, Rejecting))
  }

  ghost predicate Enabled(b: Bus, s: Step) {
    match s
    case Subscribe(h, k) => h !in b.used && (b.subscriber.None? && b.subscribing.None? ==> k !in b.links)
    case CreationSucceeds(k) => Is(b, k, Creating) && Drained(b)
    case CreationFails(k) => Is(b, k, Creating) && Drained(b)
    case RejectionCaught(k) => Is(b, k, Rejecting)
    case SubscribeReturns(h) =>
      Settled(b, h) && (b.waiting[h].Some? ==> !Is(b, b.waiting[h].value, Failed))
    case SubscribeThrows(h) => Settled(b, h) && b.waiting[h].Some? && Is(b, b.waiting[h].value, Failed)
    case Unsubscribe(h) => h in b.handles
    case TornDown(k) => Is(b, k, TearingDown) && Drained(b)
    case LinkEvent(_) => Drained(b)
    case Published(_) => true
  }

  function CloseBus(b: Bus): Bus {
    b.(handlers := {}, subscriber := None, subscribing := None,
       links := if b.subscriber.Some? then b.links[b.subscriber.value := TearingDown] else b.links)
  }

  function Next(b: Bus, s: Step): Bus {
    match s
    case Subscribe(h, k) =>
      var b1 := b.(handlers := b.handlers + {h}, used := b.used + {h});
      if b.subscriber.Some? then b1.(waiting := b.waiting[h := None])
      else if b.subscribing.Some? then b1.(waiting := b.waiting[h := b.subscribing])
      else b1.(links := b.links[k := Creating], subscribing := Some(k), waiting := b.waiting[h := Some(k)])
    case CreationSucceeds(k) =>
      b.(links := b.links[k := Open], subscriber := Some(k), available := true)
    case CreationFails(k) => b.(links := b.links[k := Rejecting])
    case RejectionCaught(k) =>
      b.(links := b.links[k := Failed], subscribing := None, available := false)
    case SubscribeReturns(h) => b.(waiting := b.waiting - {h}, handles := b.handles + {h})
    case SubscribeThrows(h) => b.(waiting := b.waiting - {h}, handlers := b.handlers - {h})
    case Unsubscribe(h) =>
      var b1 := b.(handlers := b.handlers - {h});
      if b1.handlers == {} then CloseBus(b1) else b1
    case TornDown(k) => b.(links := b.links[k := Closed])
    case LinkEvent(up) => b.(available := up)
    case Published(accepted) => b.(available := accepted)
  }

  ghost predicate Runs(b: Bus, steps: seq<Step>)
    decreases |steps|
  {
    steps == [] || (Enabled(b, steps[0]) && Runs(Next(b, steps[0]), steps[1..]))
  }

  function After(b: Bus, steps: seq<Step>): Bus
    decreases |steps|
  {
    if steps == [] then b else After(Next(b, steps[0]), steps[1..])
  }

  /** One creation at a time, cached, with no subscriber yet and somebody waiting for it. */
  ghost predicate OneCreation(b: Bus) {
    && (forall k | Pending(b, k) :: b.subscribing == Some(k) && b.subscriber == None
          && exists h :: h in b.waiting && b.waiting[h] == Some(k))
    && (b.subscribing.Some? && b.subscriber.None? ==> Pending(b, b.subscribing.value))
  }

  /** The current connection, and no other, is open, and it serves a handler. */
  ghost predicate OneOpen(b: Bus) {
    && (forall k :: Is(b, k, Open) <==> b.subscriber == Some(k))
    && (b.subscriber.Some? ==> b.handlers != {} && b.subscribing == b.subscriber)
    && (forall h | h in b.handlers && h in b.handles :: b.subscriber.Some?)
  }

  /** Who is registered. */
  ghost predicate Registers(b: Bus) {
    && b.waiting.Keys <= b.handlers <= b.waiting.Keys + b.handles
    && b.waiting.Keys !! b.handles
    && b.handlers <= b.used && b.handles <= b.used
  }

  /** What unfinished calls wait for. */
  ghost predicate Waits(b: Bus) {
    && (forall h | h in b.waiting && b.waiting[h].Some? ::
          b.waiting[h].value in b.links && !GivenUp(b, b.waiting[h].value))
    && (b.subscriber.Some? ==> forall h | h in b.waiting && b.waiting[h].Some? :: b.waiting[h] == b.subscriber)
    && (forall h | h in b.waiting && b.waiting[h].None? :: b.subscriber.Some?)
  }

  ghost predicate Inv(b: Bus) {
    OneCreation(b) && OneOpen(b) && Registers(b) && Waits(b)
  }

  predicate GivenUp(b: Bus, k: ConnId) {
    Is(b, k, TearingDown) || Is(b, k, Closed)
  }

  lemma OnlySubscribeCreates(b: Bus, s: Step)
    requires Enabled(b, s) && Inv(b) && !s.Subscribe?
    ensures forall j | Pending(Next(b, s), j) :: Pending(b, j)
  {
    var b' := Next(b, s);
    forall j | Pending(b', j) ensures Pending(b, j) {
      assert b.links[j] == b'.links[j] || Is(b, j, Creating);
    }
  }

  lemma OutcomeInv(b: Bus, s: Step)
    requires Enabled(b, s) && Inv(b) && (s.CreationSucceeds? || s.CreationFails? || s.RejectionCaught?)
    ensures Inv(Next(b, s))
  {
    var b' := Next(b, s);
    OnlySubscribeCreates(b, s);
    assert Pending(b, s.k);
    if s.CreationSucceeds? {
      forall h | h in b.waiting ensures b.waiting[h] == b'.subscriber {
        assert !Settled(b, h);
      }
    }
  }

  lemma ResumeInv(b: Bus, s: Step)
    requires Enabled(b, s) && Inv(b) && (s.SubscribeReturns? || s.SubscribeThrows?)
    ensures Inv(Next(b, s))
  {
    OnlySubscribeCreates(b, s);
    StillAwaited(b, s.h, Next(b, s));
  }

  lemma UnsubscribeInv(b: Bus, s: Step)
    requires Enabled(b, s) && Inv(b) && s.Unsubscribe?
    ensures Inv(Next(b, s))
  {
    OnlySubscribeCreates(b, s);
    assert forall g | g in b.waiting :: g in b.handlers - {s.h};
  }

  lemma StepInv(b: Bus, s: Step)
    requires Enabled(b, s) && Inv(b)
    ensures Inv(Next(b, s))
  {
    match s
    case Subscribe(h, k) => SubscribeInv(b, h, k);
    case CreationSucceeds(k) => OutcomeInv(b, s);
    case CreationFails(k) => OutcomeInv(b, s);
    case RejectionCaught(k) => OutcomeInv(b, s);
    case SubscribeReturns(h) => ResumeInv(b, s);
    case SubscribeThrows(h) => ResumeInv(b, s);
    case Unsubscribe(h) => UnsubscribeInv(b, s);
    case TornDown(k) => OnlySubscribeCreates(b, s);
    case LinkEvent(up) => OnlySubscribeCreates(b, s);
    case Published(accepted) => OnlySubscribeCreates(b, s);
  }

  lemma SubscribeCreates(b: Bus, h: Handler, k: ConnId)
    requires Enabled(b, Subscribe(h, k)) && Inv(b)
    ensures OneCreation(Next(b, Subscribe(h, k)))
  {
    var b' := Next(b, Subscribe(h, k));
    assert h !in b.waiting && h in b'.waiting;
    forall j | Pending(b', j) ensures exists g :: g in b'.waiting && b'.waiting[g] == Some(j) {
      if Pending(b, j) {
        var g :| g in b.waiting && b.waiting[g] == Some(j);
        assert g in b'.waiting && b'.waiting[g] == Some(j);
      } else {
        assert b'.waiting[h] == Some(j);
      }
    }
  }

  lemma SubscribeRegisters(b: Bus, h: Handler, k: ConnId)
    requires Enabled(b, Subscribe(h, k)) && Inv(b)
    ensures Registers(Next(b, Subscribe(h, k))) && OneOpen(Next(b, Subscribe(h, k)))
  {
    assert h !in b.handlers && h !in b.handles;
  }

  lemma SubscribeInv(b: Bus, h: Handler, k: ConnId)
    requires Enabled(b, Subscribe(h, k)) && Inv(b)
    ensures Inv(Next(b, Subscribe(h, k)))
  {
    SubscribeCreates(b, h, k);
    SubscribeRegisters(b, h, k);
    assert forall g | g in b.waiting :: g != h;
  }

  /** A call that resumes does not take away the waiter of a pending creation. */
  lemma StillAwaited(b: Bus, h: Handler, b': Bus)
    requires Inv(b) && Settled(b, h) && b'.waiting == b.waiting - {h} && b'.links == b.links
    ensures forall k | Pending(b', k) :: exists g :: g in b'.waiting && b'.waiting[g] == Some(k)
  {
    forall k | Pending(b', k) ensures exists g :: g in b'.waiting && b'.waiting[g] == Some(k) {
      assert Pending(b, k);
      var g :| g in b.waiting && b.waiting[g] == Some(k);
      assert g != h && g in b'.waiting;
    }
  }

  lemma {:induction false} RunInv(b: Bus, steps: seq<Step>)
    requires Runs(b, steps) && Inv(b)
    ensures Inv(After(b, steps))
    decreases |steps|
  {
    if steps != [] {
      StepInv(b, steps[0]);
      RunInv(Next(b, steps[0]), steps[1..]);
    }
  }

  /** In every run of concurrent subscribes and handles, creation succeeding or failing. */
  lemma SubscriberSafety(steps: seq<Step>)
    requires Runs(IDLE, steps)
    ensures var b := After(IDLE, steps);
            && (forall j, k | Pending(b, j) && Pending(b, k) :: j == k)
            && (forall k | Pending(b, k) :: b.subscriber.None?
                  && exists h :: h in b.handlers && h in b.waiting && b.waiting[h] == Some(k))
            && (b.subscriber.Some? ==> b.handlers != {})
            && (b.handlers == {} ==> forall k :: !Pending(b, k) && !Is(b, k, Open))
            && (forall k | k in b.links && b.links[k] != Failed && b.links[k] != Closed ::
                  b.subscriber == Some(k) || b.subscribing == Some(k) || b.links[k] == TearingDown)
  {
    RunInv(IDLE, steps);
  }

  // ---- what the history of calls and events says ----

  ghost predicate Subscribed(steps: seq<Step>, h: Handler) {
    exists k :: Subscribe(h, k) in steps
  }

  predicate TakenBack(steps: seq<Step>, h: Handler) {
    SubscribeThrows(h) in steps || Unsubscribe(h) in steps
  }

  lemma InSteps(steps: seq<Step>, s: Step)
    requires steps != []
    ensures s in steps <==> s == steps[0] || s in steps[1..]
  {
    assert steps == [steps[0]] + steps[1..];
  }

  lemma HistoryStep(steps: seq<Step>, h: Handler)
    requires steps != []
    ensures Subscribed(steps, h) <==> (steps[0].Subscribe? && steps[0].h == h) || Subscribed(steps[1..], h)
    ensures TakenBack(steps, h)
       <==> steps[0] == SubscribeThrows(h) || steps[0] == Unsubscribe(h) || TakenBack(steps[1..], h)
  {
    InSteps(steps, SubscribeThrows(h));
    InSteps(steps, Unsubscribe(h));
    forall k ensures Subscribe(h, k) in steps <==> Subscribe(h, k) == steps[0] || Subscribe(h, k) in steps[1..] {
      InSteps(steps, Subscribe(h, k));
    }
    if steps[0].Subscribe? && steps[0].h == h {
      assert Subscribe(h, steps[0].k) in steps;
    }
  }

  /** A handler object is passed to `subscribe` once only. */
  lemma {:induction false} UsedNotSubscribed(b: Bus, steps: seq<Step>, h: Handler)
    requires Runs(b, steps) && h in b.used
    ensures !Subscribed(steps, h)
    decreases |steps|
  {
    if steps != [] {
      HistoryStep(steps, h);
      UsedNotSubscribed(Next(b, steps[0]), steps[1..], h);
    }
  }

  /** A call or a handle of a handler that is not registered takes nothing back. */
  lemma StepRegisters(b: Bus, s: Step, h: Handler)
    requires Inv(b) && Enabled(b, s)
    ensures h in Next(b, s).handlers
       <==> (h in b.handlers || (s.Subscribe? && s.h == h)) && s != SubscribeThrows(h) && s != Unsubscribe(h)
    ensures (s == SubscribeThrows(h) || s == Unsubscribe(h)) ==> h in b.used
    ensures b.used <= Next(b, s).used && (s.Subscribe? && s.h == h ==> h in Next(b, s).used)
  {
  }

  lemma {:induction false} RegisteredSince(b: Bus, steps: seq<Step>, h: Handler)
    requires Runs(b, steps) && Inv(b)
    ensures h in After(b, steps).handlers
       <==> (h in b.handlers || Subscribed(steps, h)) && !TakenBack(steps, h)
    decreases |steps|
  {
    if steps != [] {
      var b' := Next(b, steps[0]);
      HistoryStep(steps, h);
      StepRegisters(b, steps[0], h);
      StepInv(b, steps[0]);
      RegisteredSince(b', steps[1..], h);
      if h in b'.used {
        UsedNotSubscribed(b', steps[1..], h);
      }
    }
  }

  /**
   * In every run a handler is registered exactly if it was subscribed, its subscribe did
   * not throw and its handle was not called.
   */
  lemma RegisteredIff(steps: seq<Step>, h: Handler)
    requires Runs(IDLE, steps)
    ensures h in After(IDLE, steps).handlers <==> Subscribed(steps, h) && !TakenBack(steps, h)
  {
    RegisteredSince(IDLE, steps, h);
  }

  lemma ServedWhenDrained(b: Bus)
    requires Inv(b) && Drained(b)
    ensures b.handlers != {} <==> b.subscriber.Some? || exists k :: Is(b, k, Creating)
  {
    if b.handlers != {} {
      var h :| h in b.handlers;
      assert h in b.waiting ==> !Settled(b, h) && Is(b, b.waiting[h].value, Creating);
      assert h !in b.waiting ==> h in b.handles && b.subscriber.Some?;
    }
    if k :| Is(b, k, Creating) {
      assert Pending(b, k);
      var h :| h in b.waiting && b.waiting[h] == Some(k);
      assert h in b.handlers;
    }
  }

  /** Whenever no continuation is due, handlers are registered exactly while there is, or comes, a subscriber. */
  lemma ServedIff(steps: seq<Step>)
    requires Runs(IDLE, steps) && Drained(After(IDLE, steps))
    ensures var b := After(IDLE, steps);
            b.handlers != {} <==> b.subscriber.Some? || exists k :: Is(b, k, Creating)
  {
    RunInv(IDLE, steps);
    ServedWhenDrained(After(IDLE, steps));
  }

  /** What a run last learned of the bus: an outcome, an event of the connection, or a publish. */
  function LastHeard(steps: seq<Step>, before: bool): bool {
    if steps == [] then before
    else
      match steps[|steps| - 1]
      case CreationSucceeds(_) => true
      case RejectionCaught(_) => false
      case LinkEvent(up) => up
      case Published(accepted) => accepted
      case _ => LastHeard(steps[..|steps| - 1], before)
  }

  lemma {:induction false} LastHeardFirst(s: Step, steps: seq<Step>, before: bool)
    ensures LastHeard([s] + steps, before) == LastHeard(steps, LastHeard([s], before))
    decreases |steps|
  {
    if steps == [] {
      assert [s] + steps == [s];
    } else {
      assert ([s] + steps)[..|steps|] == [s] + steps[..|steps| - 1];
      LastHeardFirst(s, steps[..|steps| - 1], before);
    }
  }

  lemma {:induction false} AvailableSince(b: Bus, steps: seq<Step>)
    requires Runs(b, steps)
    ensures After(b, steps).available == LastHeard(steps, b.available)
    decreases |steps|
  {
    if steps != [] {
      assert steps == [steps[0]] + steps[1..];
      LastHeardFirst(steps[0], steps[1..], b.available);
      assert LastHeard([steps[0]], b.available) == Next(b, steps[0]).available;
      AvailableSince(Next(b, steps[0]), steps[1..]);
    }
  }

  /** The bus reports itself available exactly as it last heard, and at first. */
  lemma AvailableIsLastHeard(steps: seq<Step>)
    requires Runs(IDLE, steps)
    ensures After(IDLE, steps).available == LastHeard(steps, true)
  {
    AvailableSince(IDLE, steps);
  }

  lemma {:induction false} LinksSince(b: Bus, steps: seq<Step>, k: ConnId)
    requires Runs(b, steps) && Inv(b)
    ensures k in b.links ==> k in After(b, steps).links
    ensures Is(b, k, Closed) || TornDown(k) in steps ==> Is(After(b, steps), k, Closed)
    ensures Is(After(b, steps), k, Closed) ==> Is(b, k, Closed) || TornDown(k) in steps
    decreases |steps|
  {
    if steps != [] {
      InSteps(steps, TornDown(k));
      StepInv(b, steps[0]);
      StepCloses(b, steps[0], k);
      LinksSince(Next(b, steps[0]), steps[1..], k);
    }
  }

  lemma StepCloses(b: Bus, s: Step, k: ConnId)
    requires Inv(b) && Enabled(b, s)
    ensures Is(Next(b, s), k, Closed) <==> Is(b, k, Closed) || s == TornDown(k)
    ensures k in b.links ==> k in Next(b, s).links
  {
  }

  /** A connection is closed exactly once its teardown has run, and that runs only for one given up. */
  lemma ClosedIff(steps: seq<Step>, k: ConnId)
    requires Runs(IDLE, steps)
    ensures Is(After(IDLE, steps), k, Closed) <==> TornDown(k) in steps
  {
    LinksSince(IDLE, steps, k);
  }

  /** Whenever nothing is current or pending, the next subscribe starts a new creation. */
  lemma RetryStartsAfresh(steps: seq<Step>, h: Handler, k: ConnId)
    requires Runs(IDLE, steps) && Enabled(After(IDLE, steps), Subscribe(h, k))
    requires After(IDLE, steps).subscriber.None? && forall j :: !Pending(After(IDLE, steps), j)
    ensures var b := Next(After(IDLE, steps), Subscribe(h, k));
            Is(b, k, Creating) && b.subscribing == Some(k) && b.waiting[h] == Some(k)
  {
    RunInv(IDLE, steps);
  }

  // ---- a failed creation, with any number of calls waiting for it ----

  function Subscribes(hs: seq<Handler>, k: ConnId): seq<Step> {
    if hs == [] then [] else Subscribes(hs[..|hs| - 1], k) + [Subscribe(hs[|hs| - 1], k)]
  }

  function Throws(hs: seq<Handler>): seq<Step> {
    if hs == [] then [] else [SubscribeThrows(hs[0])] + Throws(hs[1..])
  }

  predicate FreshHandlers(b: Bus, hs: seq<Handler>) {
    && (forall h | h in hs :: h !in b.used)
    && forall i, j | 0 <= i < j < |hs| :: hs[i] != hs[j]
  }

  function SetOf(hs: seq<Handler>): set<Handler> {
    set h | h in hs
  }

  /** Every call of `hs` registered its handler and awaits connection `k`. */
  function Awaiting(b: Bus, hs: seq<Handler>, k: ConnId): Bus {
    b.(handlers := b.handlers + SetOf(hs), used := b.used + SetOf(hs), links := b.links[k := Creating],
       subscribing := Some(k), waiting := map h | h in hs :: Some(k))
  }

  lemma {:induction false} RunsCompose(b: Bus, first: seq<Step>, rest: seq<Step>)
    requires Runs(b, first) && Runs(After(b, first), rest)
    ensures Runs(b, first + rest) && After(b, first + rest) == After(After(b, first), rest)
    decreases |first|
  {
    if first == [] {
      assert first + rest == rest;
    } else {
      assert (first + rest)[1..] == first[1..] + rest;
      RunsCompose(Next(b, first[0]), first[1..], rest);
    }
  }

  lemma OneStep(b: Bus, s: Step)
    requires Enabled(b, s)
    ensures Runs(b, [s]) && After(b, [s]) == Next(b, s)
  {
    assert [s][1..] == [];
  }

  lemma JoinsCreation(b: Bus, hs: seq<Handler>, h: Handler, k: ConnId)
    requires b.subscriber.None? && b.subscribing.None? && b.waiting == map[] && k !in b.links
    requires FreshHandlers(b, hs + [h])
    ensures var before := if hs == [] then b else Awaiting(b, hs, k);
            Enabled(before, Subscribe(h, k)) && Next(before, Subscribe(h, k)) == Awaiting(b, hs + [h], k)
  {
    var all := hs + [h];
    assert all[|hs|] == h && forall i | 0 <= i < |hs| :: all[i] == hs[i];
    assert SetOf(all) == SetOf(hs) + {h};
    assert h in all && forall g | g in hs :: g in all;
    var before := if hs == [] then b else Awaiting(b, hs, k);
    assert Next(before, Subscribe(h, k)).waiting == Awaiting(b, all, k).waiting;
  }

  lemma {:induction false} AllJoin(b: Bus, hs: seq<Handler>, k: ConnId)
    requires b.subscriber.None? && b.subscribing.None? && b.waiting == map[] && k !in b.links
    requires FreshHandlers(b, hs) && hs != []
    ensures Runs(b, Subscribes(hs, k)) && After(b, Subscribes(hs, k)) == Awaiting(b, hs, k)
    decreases |hs|
  {
    var init, last := hs[..|hs| - 1], hs[|hs| - 1];
    assert hs == init + [last];
    JoinsCreation(b, init, last, k);
    if init == [] {
      assert Subscribes(init, k) == [];
    } else {
      assert forall h | h in init :: h in hs;
      AllJoin(b, init, k);
    }
    OneStep(After(b, Subscribes(init, k)), Subscribe(last, k));
    RunsCompose(b, Subscribes(init, k), [Subscribe(last, k)]);
  }

  lemma {:induction false} AllThrow(b: Bus, hs: seq<Handler>, k: ConnId)
    requires Is(b, k, Failed) && forall i, j | 0 <= i < j < |hs| :: hs[i] != hs[j]
    requires forall h | h in hs :: h in b.waiting && b.waiting[h] == Some(k)
    ensures Runs(b, Throws(hs))
    ensures After(b, Throws(hs)) == b.(waiting := b.waiting - SetOf(hs), handlers := b.handlers - SetOf(hs))
    decreases |hs|
  {
    if hs == [] {
      assert SetOf(hs) == {};
      assert b.waiting - {} == b.waiting && b.handlers - {} == b.handlers;
    } else {
      var b' := Next(b, SubscribeThrows(hs[0]));
      assert hs[0] in hs && forall h | h in hs[1..] :: h in hs;
      assert SetOf(hs) == {hs[0]} + SetOf(hs[1..]);
      AllThrow(b', hs[1..], k);
      assert b'.waiting - SetOf(hs[1..]) == b.waiting - SetOf(hs);
      assert Throws(hs)[1..] == Throws(hs[1..]);
    }
  }

  lemma CreationDies(b: Bus, hs: seq<Handler>, k: ConnId)
    requires Inv(b) && forall j :: !Pending(b, j)
    ensures var outcome := [CreationFails(k), RejectionCaught(k)]; var w := Awaiting(b, hs, k);
            && Runs(w, outcome)
            && After(w, outcome) == w.(links := b.links[k := Failed], subscribing := None, available := false)
  {
    var w := Awaiting(b, hs, k);
    forall j ensures !Is(w, j, Rejecting) {
      assert !Pending(b, j);
    }
    var w' := Next(w, CreationFails(k));
    OneStep(w', RejectionCaught(k));
    assert [CreationFails(k), RejectionCaught(k)][1..] == [RejectionCaught(k)];
    assert Next(w', RejectionCaught(k)).links == b.links[k := Failed];
  }

  /**
   * However many calls come to wait for one creation: when it fails, all of them throw and
   * the bus is left as it was found, marked unavailable.
   */
  lemma FailureUndone(b: Bus, hs: seq<Handler>, k: ConnId)
    requires Inv(b) && Drained(b) && b.subscriber.None? && forall j :: !Pending(b, j)
    requires FreshHandlers(b, hs) && hs != [] && k !in b.links
    ensures var run := Subscribes(hs, k) + [CreationFails(k), RejectionCaught(k)] + Throws(hs);
            && Runs(b, run)
            && After(b, run) == b.(available := false, links := b.links[k := Failed], used := b.used + SetOf(hs))
  {
    NobodyWaits(b);
    var outcome := [CreationFails(k), RejectionCaught(k)];
    AllJoin(b, hs, k);
    CreationDies(b, hs, k);
    RunsCompose(b, Subscribes(hs, k), outcome);
    var failed := After(b, Subscribes(hs, k) + outcome);
    AllThrow(failed, hs, k);
    RunsCompose(b, Subscribes(hs, k) + outcome, Throws(hs));
    assert failed.handlers - SetOf(hs) == b.handlers && failed.waiting - SetOf(hs) == b.waiting;
  }

  lemma NobodyWaits(b: Bus)
    requires Inv(b) && Drained(b) && b.subscriber.None? && forall j :: !Pending(b, j)
    ensures b.waiting == map[] && b.subscribing.None?
  {
    forall h ensures h !in b.waiting {
      assert h in b.waiting ==> Settled(b, h);
    }
  }

  /** The adapter's own fields and code, one method per piece. */
  class RedisRealtimePubSub {
    var handlers: set<Handler>
    var subscriber: Option<ConnId>
    var subscribing: Option<ConnId>
    var busAvailable: bool
    // the environment: connections made, calls under way, handles given out
    ghost var links: map<ConnId, Link>
    ghost var waiting: map<Handler, Option<ConnId>>
    ghost var handles: set<Handler>
    ghost var used: set<Handler>

    ghost function State(): Bus
      reads this
    {
      Bus(handlers, subscriber, subscribing, busAvailable, links, waiting, handles, used)
    }

    constructor ()
      ensures State() == IDLE
    {
      handlers, subscriber, subscribing, busAvailable := {}, None, None, true;
      links, waiting, handles, used := map[], map[], {}, {};
    }

    /** `subscribe` up to its await; `duplicate` is the connection `duplicate()` would give. */
    method Subscribe(h: Handler, duplicate: ConnId)
      modifies this
      ensures State() == Next(old(State()), Step.Subscribe(h, duplicate))
    {
      handlers := handlers + {h};
      used := used + {h};
      EnsureSubscriber(h, duplicate);
    }

    method EnsureSubscriber(h: Handler, duplicate: ConnId)
      modifies this`subscribing, this`links, this`waiting
      ensures subscriber.Some? ==>
                subscribing == old(subscribing) && links == old(links) && waiting == old(waiting)[h := None]
      ensures subscriber.None? && old(subscribing).Some? ==>
                subscribing == old(subscribing) && links == old(links) && waiting == old(waiting)[h := old(subscribing)]
      ensures subscriber.None? && old(subscribing).None? ==>
                && subscribing == Some(duplicate) && links == old(links)[duplicate := Creating]
                && waiting == old(waiting)[h := Some(duplicate)]
    {
      if subscriber.Some? {
        waiting := waiting[h := None];
        return;
      }
      if subscribing.Some? {
        waiting := waiting[h := subscribing];
        return;
      }
      links := links[duplicate := Creating];
      subscribing := Some(duplicate);
      waiting := waiting[h := subscribing];
    }

    method CreationSucceeds(k: ConnId)
      modifies this
      ensures State() == Next(old(State()), Step.CreationSucceeds(k))
    {
      links := links[k := Open];
      subscriber := Some(k);
      busAvailable := true;
    }

    method CreationFails(k: ConnId)
      modifies this
      ensures State() == Next(old(State()), Step.CreationFails(k))
    {
      links := links[k := Rejecting];
    }

    method RejectionCaught(k: ConnId)
      modifies this
      ensures State() == Next(old(State()), Step.RejectionCaught(k))
    {
      links := links[k := Failed];
      subscribing := None;
      busAvailable := false;
    }

    method SubscribeResumes(h: Handler, ok: bool)
      modifies this
      ensures State() == Next(old(State()), if ok then SubscribeReturns(h) else SubscribeThrows(h))
    {
      waiting := waiting - {h};
      if ok {
        handles := handles + {h};
      } else {
        handlers := handlers - {h};
      }
    }

    method Unsubscribe(h: Handler)
      modifies this
      ensures State() == Next(old(State()), Step.Unsubscribe(h))
    {
      handlers := handlers - {h};
      if handlers == {} {
        Close();
      }
    }

    method Close()
      modifies this
      ensures State() == CloseBus(old(State()))
    {
      var current := subscriber;
      subscriber := None;
      subscribing := None;
      handlers := {};
      if current.Some? {
        links := links[current.value := TearingDown];
      }
    }

    /** The connection's `ready`, and its `close` or `end`. */
    method LinkChanged(up: bool)
      modifies this
      ensures State() == Next(old(State()), LinkEvent(up))
    {
      busAvailable := up;
    }

    /** Publishing only moves the availability flag; a rejection is passed on. */
    method Publish(accepted: bool)
      modifies this
      ensures State() == Next(old(State()), Published(accepted))
    {
      busAvailable := accepted;
    }
  }
}
