/**
 * The client-to-server chat path: a message is re-emitted to a room only for a
 * registered connection that has joined it, under the registry's identity and within
 * the rate cap. A run is the sequence of everything that happens to the three stores
 * the gateway consults.
 */
module ChatGateway {
  import opened Options
  import opened ChatRateLimiter

  datatype Record = Record(userId: string, tenantId: Option<string>)

  /** A payload that passed the message schema. */
  datatype ChatInput = ChatInput(roomId: string, body: string)

  datatype Emission = Emission(roomId: string, from: string, tenantId: Option<string>, body: string)

  datatype Event =
    | Register(conn: string, record: Record)
    | Unregister(conn: string)
    | Join(conn: string, room: string)
    | Leave(conn: string, room: string)
    | TrackerDisconnect(conn: string)
    | Release(conn: string)
    | ChatMessage(conn: string, payload: Option<ChatInput>, now: int)

  datatype Gateway = Gateway(
    registry: map<string, Record>,
    rooms: map<string, set<string>>,
    windows: Windows)

  const FRESH := Gateway(map[], map[], map[])

  function RoomsOf(g: Gateway, conn: string): set<string> {
    if conn in g.rooms then g.rooms[conn] else {}
  }

  /** The admission chain of `onChatMessage`, in its order: rate, schema, registry, membership. */
  function Handle(g: Gateway, conn: string, payload: Option<ChatInput>, now: int): Option<Emission> {
    if !Consume(TimesOf(g.windows, conn), now).admitted then None
    else if payload.None? then None
    else if conn !in g.registry then None
    else if payload.value.roomId !in RoomsOf(g, conn) then None
    else
      var record := g.registry[conn];
      Some(Emission(payload.value.roomId, record.userId, record.tenantId, payload.value.body))
  }

  function Next(g: Gateway, e: Event): Gateway {
    match e
    case Register(c, r) => g.(registry := g.registry[c := r])
    case Unregister(c) => g.(registry := g.registry - {c})
    case Join(c, room) => g.(rooms := g.rooms[c := RoomsOf(g, c) + {room}])
    case Leave(c, room) => if c in g.rooms then g.(rooms := g.rooms[c := g.rooms[c] - {room}]) else g
    case TrackerDisconnect(c) => g.(rooms := g.rooms - {c})
    case Release(c) => g.(windows := g.windows - {c})
    case ChatMessage(c, _, now) =>
      g.(windows := g.windows[c := Consume(TimesOf(g.windows, c), now).times])
  }

  function After(run: seq<Event>): Gateway {
    if run == [] then FRESH else Next(After(run[..|run| - 1]), run[|run| - 1])
  }

  /** What the k-th event of the run makes the gateway emit. */
  function EmittedAt(run: seq<Event>, k: nat): Option<Emission>
    requires k < |run|
  {
    match run[k]
    case ChatMessage(c, payload, now) => Handle(After(run[..k]), c, payload, now)
    case _ => None
  }

  // ---- membership and identity, read off the history ----

  ghost predicate JoinedAt(run: seq<Event>, i: nat, conn: string, room: string) {
    i < |run| && run[i] == Join(conn, room)
    && forall j | i < j < |run| :: run[j] != Leave(conn, room) && run[j] != TrackerDisconnect(conn)
  }

  /** A join with no later leave, and no disconnect since. */
  ghost predicate MemberSince(run: seq<Event>, conn: string, room: string) {
    exists i: nat :: JoinedAt(run, i, conn, room)
  }

  ghost predicate RegisteredAt(run: seq<Event>, i: nat, conn: string, record: Record) {
    i < |run| && run[i] == Register(conn, record)
    && forall j | i < j < |run| :: run[j] != Unregister(conn) && !(run[j].Register? && run[j].conn == conn)
  }

  ghost predicate RegisteredAs(run: seq<Event>, conn: string, record: Record) {
    exists i: nat :: RegisteredAt(run, i, conn, record)
  }

  lemma {:induction false} RoomsFollowHistory(run: seq<Event>, conn: string, room: string)
    ensures room in RoomsOf(After(run), conn) <==> MemberSince(run, conn, room)
    decreases |run|
  {
    if run != [] {
      var init, last := run[..|run| - 1], run[|run| - 1];
      RoomsFollowHistory(init, conn, room);
      if MemberSince(init, conn, room) && last != Leave(conn, room) && last != TrackerDisconnect(conn) {
        var i: nat :| JoinedAt(init, i, conn, room);
        assert JoinedAt(run, i, conn, room);
      }
      if last == Join(conn, room) {
        assert JoinedAt(run, |run| - 1, conn, room);
      }
      if MemberSince(run, conn, room) && last != Join(conn, room) {
        var i: nat :| JoinedAt(run, i, conn, room);
        assert JoinedAt(init, i, conn, room);
      }
    }
  }

  lemma {:induction false} RegistryFollowsHistory(run: seq<Event>, conn: string, record: Record)
    ensures conn in After(run).registry && After(run).registry[conn] == record <==> RegisteredAs(run, conn, record)
    decreases |run|
  {
    if run != [] {
      var init, last := run[..|run| - 1], run[|run| - 1];
      RegistryFollowsHistory(init, conn, record);
      if RegisteredAs(init, conn, record) && last != Unregister(conn) && !(last.Register? && last.conn == conn) {
        var i: nat :| RegisteredAt(init, i, conn, record);
        assert RegisteredAt(run, i, conn, record);
      }
      if last == Register(conn, record) {
        assert RegisteredAt(run, |run| - 1, conn, record);
      }
      if RegisteredAs(run, conn, record) && last != Register(conn, record) {
        var i: nat :| RegisteredAt(run, i, conn, record);
        assert RegisteredAt(init, i, conn, record);
      }
    }
  }

  // ---- rate, read off the history ----

  /** The messages of `conn` the limiter let through since its last release. */
  function AdmittedTimes(run: seq<Event>, conn: string): seq<int> {
    if run == [] then []
    else
      var init, last := run[..|run| - 1], run[|run| - 1];
      var before := AdmittedTimes(init, conn);
      if last == Release(conn) then []
      else if last.ChatMessage? && last.conn == conn then ConsumeUnpruned(before, last.now).times
      else before
  }

  /** The times at which messages of `conn` were emitted since its last release. */
  function EmittedTimes(run: seq<Event>, conn: string): seq<int> {
    if run == [] then []
    else
      var init, last := run[..|run| - 1], run[|run| - 1];
      if last == Release(conn) then []
      else EmittedTimes(init, conn)
           + if last.ChatMessage? && last.conn == conn && EmittedAt(run, |run| - 1).Some? then [last.now] else []
  }

  ghost predicate ClockForward(run: seq<Event>) {
    forall i, j | 0 <= i < j < |run| && run[i].ChatMessage? && run[j].ChatMessage? :: run[i].now <= run[j].now
  }

  ghost predicate NotAfter(run: seq<Event>, now: int) {
    forall i | 0 <= i < |run| && run[i].ChatMessage? :: run[i].now <= now
  }

  lemma ClockPrefix(run: seq<Event>)
    requires ClockForward(run) && run != []
    ensures ClockForward(run[..|run| - 1])
    ensures run[|run| - 1].ChatMessage? ==> NotAfter(run[..|run| - 1], run[|run| - 1].now)
  {
    var init := run[..|run| - 1];
    assert forall i | 0 <= i < |init| :: init[i] == run[i];
  }

  /** The limiter's pruned state sees the same recent times as the full history would. */
  lemma {:induction false} WindowsFollowHistory(run: seq<Event>, conn: string, now: int)
    requires ClockForward(run) && NotAfter(run, now)
    ensures Recent(TimesOf(After(run).windows, conn), now) == Recent(AdmittedTimes(run, conn), now)
    decreases |run|
  {
    if run != [] {
      var init, last := run[..|run| - 1], run[|run| - 1];
      ClockPrefix(run);
      assert forall i | 0 <= i < |init| :: init[i] == run[i];
      if last.ChatMessage? && last.conn == conn {
        assert last.now <= now;
        WindowsFollowHistory(init, conn, last.now);
        OneMoreCall(TimesOf(After(init).windows, conn), AdmittedTimes(init, conn), last.now, now);
      } else {
        WindowsFollowHistory(init, conn, now);
      }
    }
  }

  lemma OneMoreCall(pruned: seq<int>, full: seq<int>, at: int, now: int)
    requires at <= now && Recent(pruned, at) == Recent(full, at)
    ensures Recent(Consume(pruned, at).times, now) == Recent(ConsumeUnpruned(full, at).times, now)
  {
    PruneTwice(pruned, at, now);
    PruneTwice(full, at, now);
    RecentSnoc(Recent(pruned, at), at, now);
    RecentSnoc(full, at, now);
  }

  lemma {:induction false} AdmittedSince(run: seq<Event>, conn: string)
    requires ClockForward(run)
    ensures Spaced(AdmittedTimes(run, conn))
    ensures forall now, i | NotAfter(run, now) && 0 <= i < |AdmittedTimes(run, conn)| ::
              AdmittedTimes(run, conn)[i] <= now
    decreases |run|
  {
    if run != [] {
      var init, last := run[..|run| - 1], run[|run| - 1];
      ClockPrefix(run);
      AdmittedSince(init, conn);
      assert forall now | NotAfter(run, now) :: NotAfter(init, now) by {
        assert forall i | 0 <= i < |init| :: init[i] == run[i];
      }
      if last.ChatMessage? && last.conn == conn {
        var before := AdmittedTimes(init, conn);
        if |Recent(before, last.now)| < MAX_MESSAGES_PER_WINDOW {
          AdmissionKeepsSpaced(before, last.now);
        }
      }
    }
  }

  /** A message is emitted only if the full-history limiter admits it too. */
  lemma EmittedIsAdmitted(init: seq<Event>, last: Event)
    requires ClockForward(init) && last.ChatMessage? && NotAfter(init, last.now)
    requires Handle(After(init), last.conn, last.payload, last.now).Some?
    ensures ConsumeUnpruned(AdmittedTimes(init, last.conn), last.now)
         == Verdict(AdmittedTimes(init, last.conn) + [last.now], true)
  {
    WindowsFollowHistory(init, last.conn, last.now);
  }

  lemma {:induction false} EmittedWereAdmitted(run: seq<Event>, conn: string, from: int, to: int)
    requires ClockForward(run)
    ensures Count(EmittedTimes(run, conn), from, to) <= Count(AdmittedTimes(run, conn), from, to)
    decreases |run|
  {
    if run != [] {
      var init, last := run[..|run| - 1], run[|run| - 1];
      ClockPrefix(run);
      EmittedWereAdmitted(init, conn, from, to);
      var emitted, admitted := EmittedTimes(init, conn), AdmittedTimes(init, conn);
      if last.ChatMessage? && last.conn == conn {
        CountSplit(emitted, [last.now], from, to);
        CountSplit(admitted, [last.now], from, to);
        if EmittedAt(run, |run| - 1).Some? {
          EmittedIsAdmitted(init, last);
          assert EmittedTimes(run, conn) == emitted + [last.now];
          assert AdmittedTimes(run, conn) == admitted + [last.now];
        } else {
          assert EmittedTimes(run, conn) == emitted;
        }
      } else if last != Release(conn) {
        assert EmittedTimes(run, conn) == emitted;
      }
    }
  }

  /**
   * The gateway emits exactly for a well-formed message, below the cap, from a connection
   * that is registered and a member of the room, and it emits the registry's identity.
   */
  lemma EmitsIff(run: seq<Event>, conn: string, payload: Option<ChatInput>, now: int, record: Record)
    requires ClockForward(run) && NotAfter(run, now)
    requires RegisteredAs(run, conn, record)
    ensures Handle(After(run), conn, payload, now)
         == if payload.Some? && MemberSince(run, conn, payload.value.roomId)
               && |LastSecond(AdmittedTimes(run, conn), now)| < 20
            then Some(Emission(payload.value.roomId, record.userId, record.tenantId, payload.value.body))
            else None
  {
    RegistryFollowsHistory(run, conn, record);
    WindowsFollowHistory(run, conn, now);
    RecentAreLastSecond(AdmittedTimes(run, conn), now);
    if payload.Some? {
      RoomsFollowHistory(run, conn, payload.value.roomId);
    }
  }

  /** In every run, whatever is emitted has a registered member of the room behind it. */
  lemma EmissionsAreSafe(run: seq<Event>, k: nat)
    requires k < |run| && EmittedAt(run, k).Some?
    ensures var e := EmittedAt(run, k).value;
            && run[k].ChatMessage? && run[k].payload == Some(ChatInput(e.roomId, e.body))
            && MemberSince(run[..k], run[k].conn, e.roomId)
            && RegisteredAs(run[..k], run[k].conn, Record(e.from, e.tenantId))
  {
    var e := EmittedAt(run, k).value;
    RoomsFollowHistory(run[..k], run[k].conn, e.roomId);
    RegistryFollowsHistory(run[..k], run[k].conn, Record(e.from, e.tenantId));
  }

  /** The positions of the times in `[from, to)`. */
  function Within(times: seq<int>, from: int, to: int): set<int> {
    set i | 0 <= i < |times| && from <= times[i] < to
  }

  lemma {:induction false} CountIsWithin(times: seq<int>, from: int, to: int)
    ensures Count(times, from, to) == |Within(times, from, to)|
    decreases |times|
  {
    if times != [] {
      var n, init := |times| - 1, times[..|times| - 1];
      CountIsWithin(init, from, to);
      assert Within(times, from, to) == Within(init, from, to) + if from <= times[n] < to then {n} else {};
    }
  }

  /** Between releases, no window of 1000 ms carries more than 20 emissions of a connection. */
  lemma EmissionsAreBounded(run: seq<Event>, conn: string, from: int, k: nat)
    requires ClockForward(run)
    ensures |Within(EmittedTimes(run, conn), from, from + 1000)| <= 20
    ensures |Within(EmittedTimes(run, conn), from, from + k * 1000)| <= k * 20
  {
    EmittedWithin(run, conn, from, from + 1000);
    EmittedWithin(run, conn, from, from + k * 1000);
    AdmittedSince(run, conn);
    WindowBound(AdmittedTimes(run, conn), from);
    IntervalBound(AdmittedTimes(run, conn), from, k);
  }

  lemma EmittedWithin(run: seq<Event>, conn: string, from: int, to: int)
    requires ClockForward(run)
    ensures |Within(EmittedTimes(run, conn), from, to)| <= Count(AdmittedTimes(run, conn), from, to)
  {
    CountIsWithin(EmittedTimes(run, conn), from, to);
    EmittedWereAdmitted(run, conn, from, to);
  }

  // ---- the objects ----

  class RoomMembershipTracker {
    var byConnection: map<string, set<string>>

    constructor ()
      ensures byConnection == map[]
    {
      byConnection := map[];
    }

    function Rooms(connectionId: string): set<string>
      reads this
    {
      if connectionId in byConnection then byConnection[connectionId] else {}
    }

    method Join(connectionId: string, roomId: string)
      modifies this
      ensures byConnection == old(byConnection)[connectionId := old(Rooms(connectionId)) + {roomId}]
    {
      var rooms := Rooms(connectionId);
      byConnection := byConnection[connectionId := rooms + {roomId}];
    }

    method Leave(connectionId: string, roomId: string)
      modifies this
      ensures byConnection.Keys == old(byConnection).Keys
      ensures Rooms(connectionId) == old(Rooms(connectionId)) - {roomId}
      ensures forall c | c != connectionId :: Rooms(c) == old(Rooms(c))
    {
      if connectionId in byConnection {
        byConnection := byConnection[connectionId := byConnection[connectionId] - {roomId}];
      }
    }

    method OnDisconnect(connectionId: string)
      modifies this
      ensures byConnection == old(byConnection) - {connectionId}
    {
      byConnection := byConnection - {connectionId};
    }
  }

  class Chat {
    const membership: RoomMembershipTracker
    const limiter: RateLimiter
    var registry: map<string, Record>
    var emitted: seq<Emission>

    constructor (membership: RoomMembershipTracker, limiter: RateLimiter, registry: map<string, Record>)
      ensures this.membership == membership && this.limiter == limiter
      ensures this.registry == registry && emitted == []
    {
      this.membership, this.limiter, this.registry, emitted := membership, limiter, registry, [];
    }

    ghost function State(): Gateway
      reads this, membership, limiter
    {
      Gateway(registry, membership.byConnection, limiter.timestampsByConnection)
    }

    method OnChatMessage(conn: string, payload: Option<ChatInput>, now: int)
      modifies this`emitted, limiter
      ensures State() == Next(old(State()), ChatMessage(conn, payload, now))
      ensures var out := Handle(old(State()), conn, payload, now);
              emitted == old(emitted) + if out.Some? then [out.value] else []
    {
      DecidesByLastSecond(TimesOf(limiter.timestampsByConnection, conn), now);
      var ok := limiter.TryConsume(conn, now);
      if !ok {
        return;
      }
      if payload.None? || conn !in registry {
        return;
      }
      var record := registry[conn];
      if payload.value.roomId !in membership.Rooms(conn) {
        return;
      }
      emitted := emitted + [Emission(payload.value.roomId, record.userId, record.tenantId, payload.value.body)];
    }

    method HandleDisconnect(conn: string)
      modifies limiter
      ensures State() == Next(old(State()), Release(conn))
    {
      limiter.Release(conn);
    }
  }
}
