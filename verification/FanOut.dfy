/**
 * Cross-instance fan-out. Instances share one Redis channel; each stamps what it
 * publishes with its own origin, drops its own messages on arrival, and counts what it
 * published and what it accepted from peers. Origins are instance numbers, hence distinct.
 */
module FanOut {
  import opened Options

  datatype Message = Message(origin: nat, id: int)

  datatype Node = Node(
    subscribedAt: Option<nat>,  // how many messages the channel had carried by then
    queue: seq<Message>,        // carried to this instance, not yet dispatched
    seen: seq<Message>,         // handed to the handler, in order
    unreported: nat,            // accepted by Redis, `publish` has not resumed to count it
    published: nat,
    receivedRemote: nat)

  /** `log` is everything the channel ever carried. */
  datatype Cluster = Cluster(nodes: seq<Node>, log: seq<Message>)

  datatype Step =
    | Subscribe(i: nat)
    | PublishAccepted(i: nat, id: int)
    | PublishCounted(i: nat)
    | PublishRejected(i: nat)
    | Deliver(i: nat)

  function Boot(n: nat): Cluster {
    Cluster(seq(n, _ => Node(None, [], [], 0, 0, 0)), [])
  }

  predicate Enabled(w: Cluster, s: Step) {
    s.i < |w.nodes|
    && match s
       case Subscribe(i) => w.nodes[i].subscribedAt.None?
       case PublishAccepted(i, id) => forall m | m in w.log :: m.id != id
       case PublishCounted(i) => w.nodes[i].unreported > 0
       case PublishRejected(i) => true
       case Deliver(i) => w.nodes[i].queue != []
  }

  function Carry(node: Node, m: Message): Node {
    if node.subscribedAt.Some? then node.(queue := node.queue + [m]) else node
  }

  /** The dispatch of the next queued message, which is the same whether or not the handler throws. */
  function Dispatched(node: Node, me: nat): Node
    requires node.queue != []
  {
    var m, rest := node.queue[0], node.queue[1..];
    if m.origin == me then node.(queue := rest)
    else node.(queue := rest, seen := node.seen + [m], receivedRemote := node.receivedRemote + 1)
  }

  function Next(w: Cluster, s: Step): Cluster
    requires Enabled(w, s)
  {
    var node := w.nodes[s.i];
    match s
    case Subscribe(i) => w.(nodes := w.nodes[i := node.(subscribedAt := Some(|w.log|))])
    case PublishAccepted(i, id) =>
      var m := Message(i, id);
      Cluster(
        seq(|w.nodes|, j requires 0 <= j < |w.nodes| =>
          var carried := Carry(w.nodes[j], m);
          if j == i then carried.(unreported := carried.unreported + 1) else carried),
        w.log + [m])
    case PublishCounted(i) =>
      w.(nodes := w.nodes[i := node.(unreported := node.unreported - 1, published := node.published + 1)])
    case PublishRejected(i) => w
    case Deliver(i) => w.(nodes := w.nodes[i := Dispatched(node, i)])
  }

  predicate Runs(w: Cluster, steps: seq<Step>)
    decreases |steps|
  {
    steps == [] || (Enabled(w, steps[0]) && Runs(Next(w, steps[0]), steps[1..]))
  }

  function After(w: Cluster, steps: seq<Step>): Cluster
    requires Runs(w, steps)
    decreases |steps|
  {
    if steps == [] then w else After(Next(w, steps[0]), steps[1..])
  }

  /** What an instance should accept of a stretch of the channel. */
  function Remote(log: seq<Message>, me: nat): seq<Message> {
    if log == [] then []
    else
      var last := log[|log| - 1];
      Remote(log[..|log| - 1], me) + if last.origin == me then [] else [last]
  }

  function FromOrigin(log: seq<Message>, i: nat): nat {
    if log == [] then 0
    else FromOrigin(log[..|log| - 1], i) + if log[|log| - 1].origin == i then 1 else 0
  }

  lemma RemoteSnoc(log: seq<Message>, m: Message, me: nat)
    ensures Remote(log + [m], me) == Remote(log, me) + if m.origin == me then [] else [m]
  {
    assert (log + [m])[..|log|] == log;
  }

  lemma {:induction false} RemoteMembers(log: seq<Message>, me: nat)
    requires forall i, j | 0 <= i < j < |log| :: log[i].id != log[j].id
    ensures forall m :: m in Remote(log, me) <==> m in log && m.origin != me
    ensures var r := Remote(log, me); forall i, j | 0 <= i < j < |r| :: r[i] != r[j]
    ensures |Remote(log, me)| + FromOrigin(log, me) == |log|
  {
    if log != [] {
      var init, last := log[..|log| - 1], log[|log| - 1];
      assert log == init + [last];
      RemoteMembers(init, me);
      assert last !in init;
    }
  }

  /** What has been dispatched so far is the channel since the subscription, less the queue. */
  ghost predicate NodeInv(node: Node, log: seq<Message>, me: nat) {
    && node.published + node.unreported == FromOrigin(log, me)
    && node.receivedRemote == |node.seen|
    && match node.subscribedAt
       case None => node.queue == [] && node.seen == []
       case Some(at) =>
         && at + |node.queue| <= |log|
         && node.queue == log[|log| - |node.queue|..]
         && node.seen == Remote(log[at..|log| - |node.queue|], me)
  }

  ghost predicate Inv(w: Cluster) {
    && (forall i | 0 <= i < |w.nodes| :: NodeInv(w.nodes[i], w.log, i))
    && (forall i, j | 0 <= i < j < |w.log| :: w.log[i].id != w.log[j].id)
    && (forall i | 0 <= i < |w.log| :: w.log[i].origin < |w.nodes|)
  }

  lemma PublishKeeps(node: Node, log: seq<Message>, me: nat, m: Message)
    requires NodeInv(node, log, me)
    ensures var carried := Carry(node, m);
            NodeInv(if m.origin == me then carried.(unreported := carried.unreported + 1) else carried, log + [m], me)
  {
    RemoteSnoc(log, m, me);
    FromOriginSnoc(log, m, me);
    if node.subscribedAt.Some? {
      var at := node.subscribedAt.value;
      var n := |log| - |node.queue|;
      assert (log + [m])[at..n] == log[at..n];
      assert (log + [m])[n..] == log[n..] + [m];
    }
  }

  lemma DispatchKeeps(node: Node, log: seq<Message>, me: nat)
    requires NodeInv(node, log, me) && node.queue != []
    ensures NodeInv(Dispatched(node, me), log, me)
  {
    var at := node.subscribedAt.value;
    var n := |log| - |node.queue|;
    assert log[at..n + 1] == log[at..n] + [log[n]];
    assert node.queue[0] == log[n] && node.queue[1..] == log[n + 1..];
    RemoteSnoc(log[at..n], log[n], me);
  }

  lemma PublishInv(w: Cluster, s: Step)
    requires Enabled(w, s) && Inv(w) && s.PublishAccepted?
    ensures Inv(Next(w, s))
  {
    var w' := Next(w, s);
    forall j | 0 <= j < |w.nodes| ensures NodeInv(w'.nodes[j], w'.log, j) {
      PublishKeeps(w.nodes[j], w.log, j, Message(s.i, s.id));
    }
    assert forall i | 0 <= i < |w.log| :: w.log[i] in w.log;
  }

  lemma SubscribeKeeps(node: Node, log: seq<Message>, me: nat)
    requires NodeInv(node, log, me) && node.subscribedAt.None?
    ensures NodeInv(node.(subscribedAt := Some(|log|)), log, me)
  {
    assert log[|log|..] == [];
  }

  lemma OneNodeInv(w: Cluster, s: Step)
    requires Enabled(w, s) && Inv(w) && !s.PublishAccepted?
    ensures NodeInv(Next(w, s).nodes[s.i], w.log, s.i)
  {
    assert NodeInv(w.nodes[s.i], w.log, s.i);
    if s.Deliver? {
      DispatchKeeps(w.nodes[s.i], w.log, s.i);
    } else if s.Subscribe? {
      SubscribeKeeps(w.nodes[s.i], w.log, s.i);
    }
  }

  lemma StepInv(w: Cluster, s: Step)
    requires Enabled(w, s) && Inv(w)
    ensures Inv(Next(w, s)) && |Next(w, s).nodes| == |w.nodes|
  {
    if s.PublishAccepted? {
      PublishInv(w, s);
    } else {
      OneNodeInv(w, s);
      assert forall j | 0 <= j < |w.nodes| && j != s.i :: Next(w, s).nodes[j] == w.nodes[j];
    }
  }

  lemma {:induction false} RunInv(w: Cluster, steps: seq<Step>)
    requires Runs(w, steps) && Inv(w)
    ensures Inv(After(w, steps)) && |After(w, steps).nodes| == |w.nodes|
    decreases |steps|
  {
    if steps != [] {
      StepInv(w, steps[0]);
      RunInv(Next(w, steps[0]), steps[1..]);
    }
  }

  /** No handler sees its own instance's message, or any message twice. */
  lemma NoEchoNoDuplicate(n: nat, steps: seq<Step>, j: nat)
    requires Runs(Boot(n), steps) && j < |After(Boot(n), steps).nodes|
    ensures var seen := After(Boot(n), steps).nodes[j].seen;
            && (forall m | m in seen :: m.origin != j)
            && (forall k, l | 0 <= k < l < |seen| :: seen[k] != seen[l])
  {
    RunInv(Boot(n), steps);
    var w := After(Boot(n), steps);
    SeenIsClean(w.nodes[j], w.log, j);
  }

  lemma SeenIsClean(node: Node, log: seq<Message>, me: nat)
    requires NodeInv(node, log, me)
    requires forall i, j | 0 <= i < j < |log| :: log[i].id != log[j].id
    ensures forall m | m in node.seen :: m.origin != me
    ensures forall k, l | 0 <= k < l < |node.seen| :: node.seen[k] != node.seen[l]
  {
    if node.subscribedAt.Some? {
      RemoteMembers(log[node.subscribedAt.value..|log| - |node.queue|], me);
    }
  }

  /** With its queue empty, an instance has accepted its peers' messages since it subscribed. */
  lemma ReceivedIsPeersPublishes(n: nat, steps: seq<Step>, j: nat)
    requires Runs(Boot(n), steps) && j < |After(Boot(n), steps).nodes|
    requires After(Boot(n), steps).nodes[j].queue == [] && After(Boot(n), steps).nodes[j].subscribedAt.Some?
    ensures var w := After(Boot(n), steps); var node := w.nodes[j];
            && node.subscribedAt.value <= |w.log|
            && (var since := w.log[node.subscribedAt.value..];
                && node.seen == Remote(since, j)
                && node.receivedRemote + FromOrigin(since, j) == |since|)
  {
    RunInv(Boot(n), steps);
    var w := After(Boot(n), steps);
    DrainedNode(w.nodes[j], w.log, j);
  }

  lemma DrainedNode(node: Node, log: seq<Message>, me: nat)
    requires NodeInv(node, log, me) && node.queue == [] && node.subscribedAt.Some?
    requires forall i, j | 0 <= i < j < |log| :: log[i].id != log[j].id
    ensures node.subscribedAt.value <= |log|
    ensures var since := log[node.subscribedAt.value..];
            node.seen == Remote(since, me) && node.receivedRemote + FromOrigin(since, me) == |since|
  {
    var since := log[node.subscribedAt.value..];
    assert since == log[node.subscribedAt.value..|log| - |node.queue|];
    RemoteMembers(since, me);
  }

  /** Every publish is counted and every queue is empty, on instances there from the start. */
  predicate AtRest(w: Cluster) {
    forall i | 0 <= i < |w.nodes| ::
      w.nodes[i].unreported == 0 && w.nodes[i].queue == [] && w.nodes[i].subscribedAt == Some(0)
  }

  function TotalPublished(nodes: seq<Node>): nat {
    if nodes == [] then 0 else TotalPublished(nodes[..|nodes| - 1]) + nodes[|nodes| - 1].published
  }

  function TotalReceived(nodes: seq<Node>): nat {
    if nodes == [] then 0 else TotalReceived(nodes[..|nodes| - 1]) + nodes[|nodes| - 1].receivedRemote
  }

  function OriginSum(log: seq<Message>, n: nat): nat {
    if n == 0 then 0 else OriginSum(log, n - 1) + FromOrigin(log, n - 1)
  }

  lemma {:induction false} OriginSumNone(n: nat)
    ensures OriginSum([], n) == 0
  {
    if n > 0 {
      OriginSumNone(n - 1);
    }
  }

  lemma FromOriginSnoc(log: seq<Message>, m: Message, i: nat)
    ensures FromOrigin(log + [m], i) == FromOrigin(log, i) + if m.origin == i then 1 else 0
  {
    assert (log + [m])[..|log|] == log;
  }

  lemma {:induction false} OriginSumSnoc(log: seq<Message>, m: Message, n: nat)
    ensures OriginSum(log + [m], n) == OriginSum(log, n) + if m.origin < n then 1 else 0
  {
    if n > 0 {
      var longer := log + [m];
      OriginSumSnoc(log, m, n - 1);
      FromOriginSnoc(log, m, n - 1);
      assert OriginSum(longer, n) == OriginSum(longer, n - 1) + FromOrigin(longer, n - 1);
    }
  }

  /** Counting by origin counts every message once. */
  lemma {:induction false} OriginSumAll(log: seq<Message>, n: nat)
    requires forall i | 0 <= i < |log| :: log[i].origin < n
    ensures OriginSum(log, n) == |log|
  {
    if log == [] {
      OriginSumNone(n);
    } else {
      var init := log[..|log| - 1];
      assert log == init + [log[|log| - 1]];
      OriginSumAll(init, n);
      OriginSumSnoc(init, log[|log| - 1], n);
    }
  }

  lemma {:induction false} Totals(nodes: seq<Node>, log: seq<Message>)
    requires forall i | 0 <= i < |nodes| :: NodeInv(nodes[i], log, i) && nodes[i].unreported == 0
                                            && nodes[i].receivedRemote + nodes[i].published == |log|
    ensures TotalPublished(nodes) == OriginSum(log, |nodes|)
    ensures TotalReceived(nodes) + TotalPublished(nodes) == |nodes| * |log|
  {
    if nodes != [] {
      Totals(nodes[..|nodes| - 1], log);
      assert (|nodes| - 1) * |log| + |log| == |nodes| * |log|;
    }
  }

  /**
   * Exactly-once fan-out, cluster-wide: at rest every instance's `deliveredLocal` is the
   * number of messages ever published, and each one was received by all peers but its origin.
   */
  lemma EveryPublishReachesEveryPeer(n: nat, steps: seq<Step>)
    requires Runs(Boot(n), steps) && AtRest(After(Boot(n), steps))
    ensures var w := After(Boot(n), steps);
            && |w.nodes| == n
            && (forall j | 0 <= j < n ::
                  w.nodes[j].published + w.nodes[j].receivedRemote == TotalPublished(w.nodes))
            && TotalReceived(w.nodes) == if n == 0 then 0 else (n - 1) * TotalPublished(w.nodes)
  {
    RunInv(Boot(n), steps);
    var w := After(Boot(n), steps);
    forall j | 0 <= j < n ensures w.nodes[j].receivedRemote + w.nodes[j].published == |w.log| {
      ReceivedIsPeersPublishes(n, steps, j);
      assert w.log[0..] == w.log;
      assert NodeInv(w.nodes[j], w.log, j);
    }
    Totals(w.nodes, w.log);
    OriginSumAll(w.log, n);
    AllButOne(n, |w.log|, TotalReceived(w.nodes));
  }

  lemma AllButOne(n: nat, published: nat, received: nat)
    requires received + published == n * published
    ensures received == if n == 0 then 0 else (n - 1) * published
  {
  }

  // ---- the adapters themselves ----

  datatype ClusterStats = ClusterStats(instance: string, published: nat, receivedRemote: nat, deliveredLocal: nat)

  class ClusterStatsService {
    const instance: string
    var published: nat
    var receivedRemote: nat

    constructor (instance: string)
      ensures this.instance == instance && published == 0 && receivedRemote == 0
    {
      this.instance, published, receivedRemote := instance, 0, 0;
    }

    method RecordPublish()
      modifies this`published
      ensures published == old(published) + 1
    {
      published := published + 1;
    }

    method RecordRemoteDelivery()
      modifies this`receivedRemote
      ensures receivedRemote == old(receivedRemote) + 1
    {
      receivedRemote := receivedRemote + 1;
    }

    method Snapshot() returns (s: ClusterStats)
      ensures s == ClusterStats(instance, published, receivedRemote, published + receivedRemote)
    {
      s := ClusterStats(instance, published, receivedRemote, published + receivedRemote);
    }
  }

  /** One call of every handler, in registration order. */
  function Fan(handlers: seq<int>, m: Message): seq<(int, Message)> {
    seq(|handlers|, k requires 0 <= k < |handlers| => (handlers[k], m))
  }

  function Throwers(handlers: seq<int>, throwing: set<int>): nat {
    if handlers == [] then 0
    else Throwers(handlers[..|handlers| - 1], throwing) + if handlers[|handlers| - 1] in throwing then 1 else 0
  }

  /** A step of another instance moves none of this one's counters and calls none of its handlers. */
  lemma OthersLeaveCounters(w: Cluster, s: Step, me: nat)
    requires Enabled(w, s) && s.i != me && me < |w.nodes|
    ensures me < |Next(w, s).nodes| && Next(w, s).nodes[me] == w.nodes[me].(queue := Next(w, s).nodes[me].queue)
  {
  }

  lemma OneStep(w: Cluster, s: Step)
    requires Enabled(w, s)
    ensures Runs(w, [s]) && After(w, [s]) == Next(w, s)
  {
    assert [s][1..] == [];
  }

  /** What one publish is in the cluster: carried and then counted, or rejected. */
  function PublishSteps(i: nat, id: int, accepted: bool): seq<Step> {
    if accepted then [PublishAccepted(i, id), PublishCounted(i)] else [PublishRejected(i)]
  }

  lemma PublishedOnce(w: Cluster, i: nat, id: int, accepted: bool)
    requires i < |w.nodes| && (accepted ==> Enabled(w, PublishAccepted(i, id)))
    ensures Runs(w, PublishSteps(i, id, accepted))
    ensures var w' := After(w, PublishSteps(i, id, accepted));
            && |w'.nodes| == |w.nodes|
            && w'.log == w.log + (if accepted then [Message(i, id)] else [])
            && (forall j | 0 <= j < |w.nodes| && w.nodes[j].subscribedAt.Some? ::
                  w'.nodes[j].queue == w.nodes[j].queue + if accepted then [Message(i, id)] else [])
            && (w'.nodes[i] == w.nodes[i].(queue := w'.nodes[i].queue,
                                           published := w.nodes[i].published + if accepted then 1 else 0))
  {
    if accepted {
      var w1 := Next(w, PublishAccepted(i, id));
      OneStep(w1, PublishCounted(i));
      assert [PublishAccepted(i, id), PublishCounted(i)][1..] == [PublishCounted(i)];
    } else {
      OneStep(w, PublishRejected(i));
    }
  }

  function Calls(handler: int, seen: seq<Message>): seq<(int, Message)> {
    seq(|seen|, k requires 0 <= k < |seen| => (handler, seen[k]))
  }

  /** Each handler is called once, in order, with the message. */
  lemma FanCalls(handlers: seq<int>, m: Message)
    ensures |Fan(handlers, m)| == |handlers|
    ensures forall k | 0 <= k < |handlers| :: Fan(handlers, m)[k] == (handlers[k], m)
  {
  }

  /** One warning for each handler that throws. */
  lemma {:induction false} ThrowersCounted(handlers: seq<int>, throwing: set<int>)
    ensures Throwers(handlers, throwing) == |set k | 0 <= k < |handlers| && handlers[k] in throwing|
    decreases |handlers|
  {
    if handlers != [] {
      var n, init := |handlers| - 1, handlers[..|handlers| - 1];
      ThrowersCounted(init, throwing);
      assert (set k | 0 <= k < n + 1 && handlers[k] in throwing)
          == (set k | 0 <= k < n && init[k] in throwing) + if handlers[n] in throwing then {n} else {};
    }
  }

  /** The counting decorator over the bus of one instance, with its registered handlers. */
  class CountingRealtimePubSub {
    const me: nat
    const channel: string
    const stats: ClusterStatsService
    var handlers: seq<int>
    var calls: seq<(int, Message)>
    ghost var world: Cluster  // the cluster this instance is part of

    /** With its one handler, this object is node `me` of the cluster. */
    ghost predicate Mirrors()
      reads this, stats
    {
      && me < |world.nodes| && |handlers| == 1
      && stats.published == world.nodes[me].published
      && stats.receivedRemote == world.nodes[me].receivedRemote
      && calls == Calls(handlers[0], world.nodes[me].seen)
    }

    constructor (me: nat, channel: string, stats: ClusterStatsService, handlers: seq<int>, ghost instances: nat)
      requires me < instances
      ensures this.me == me && this.channel == channel && this.stats == stats
      ensures this.handlers == handlers && calls == [] && world == Boot(instances)
      ensures |handlers| == 1 && stats.published == stats.receivedRemote == 0 ==> Mirrors()
    {
      this.me, this.channel, this.stats, this.handlers, calls := me, channel, stats, handlers, [];
      world := Boot(instances);
    }

    /** The node joins the channel; what the channel carried before is not for it. */
    method Subscribe()
      requires Mirrors() && Enabled(world, Step.Subscribe(me))
      modifies this`world
      ensures Mirrors() && world == Next(old(world), Step.Subscribe(me))
    {
      world := Next(world, Step.Subscribe(me));
    }

    /** Any step of another instance goes on around this object. */
    ghost method Elsewhere(s: Step)
      requires Mirrors() && Enabled(world, s) && s.i != me
      modifies this`world
      ensures Mirrors() && world == Next(old(world), s)
    {
      OthersLeaveCounters(world, s, me);
      world := Next(world, s);
    }

    /** One publish: carried to everybody subscribed and counted, both once, or neither. */
    method Publish(id: int, accepted: bool) returns (sent: Option<Message>)
      requires Mirrors() && (accepted ==> Enabled(world, PublishAccepted(me, id)))
      modifies this`world, stats`published
      ensures Mirrors() && Runs(old(world), PublishSteps(me, id, accepted))
      ensures world == After(old(world), PublishSteps(me, id, accepted))
      ensures sent == (if accepted then Some(Message(me, id)) else None)
      ensures world.log == old(world.log) + if sent.Some? then [sent.value] else []
    {
      PublishedOnce(world, me, id, accepted);
      world := After(world, PublishSteps(me, id, accepted));
      if !accepted {
        return None;
      }
      stats.RecordPublish();
      sent := Some(Message(me, id));
    }

    /** Redis hands over the next message: the cluster's `Deliver`, whoever throws. */
    method Receive(m: Message, throwing: set<int>)
      requires Mirrors() && Enabled(world, Deliver(me)) && m == world.nodes[me].queue[0]
      modifies this`calls, this`world, stats`receivedRemote
      ensures Mirrors() && world == Next(old(world), Deliver(me))
    {
      var _ := Dispatch(channel, Some(m), throwing);
      world := Next(world, Deliver(me));
    }

    /** The wrapped handler counts first, so the count stands whether or not it throws. */
    method Invoke(handler: int, m: Message, throwing: set<int>) returns (threw: bool)
      modifies this`calls, stats`receivedRemote
      ensures calls == old(calls) + [(handler, m)] && threw == (handler in throwing)
      ensures stats.receivedRemote == old(stats.receivedRemote) + 1
    {
      stats.RecordRemoteDelivery();
      calls := calls + [(handler, m)];
      threw := handler in throwing;
    }

    /** Foreign channels, malformed payloads and own messages reach nobody; others reach all. */
    method Dispatch(on: string, payload: Option<Message>, throwing: set<int>) returns (warnings: nat)
      modifies this`calls, stats`receivedRemote
      ensures var accepted := on == channel && payload.Some? && payload.value.origin != me;
              && calls == old(calls)
                 + (if accepted then Fan(handlers, payload.value) else [])
              && stats.receivedRemote == old(stats.receivedRemote) + (if accepted then |handlers| else 0)
              && (accepted ==> forall k | 0 <= k < |handlers| ::
                    calls[|old(calls)| + k] == (handlers[k], payload.value))
              && warnings == if accepted then |set k | 0 <= k < |handlers| && handlers[k] in throwing| else 0
    {
      warnings := 0;
      if on != channel || payload.None? || payload.value.origin == me {
        return;
      }
      var k := 0;
      while k < |handlers|
        invariant 0 <= k <= |handlers|
        invariant calls == old(calls) + Fan(handlers[..k], payload.value)
        invariant stats.receivedRemote == old(stats.receivedRemote) + k
        invariant warnings == Throwers(handlers[..k], throwing)
      {
        assert Fan(handlers[..k + 1], payload.value)
            == Fan(handlers[..k], payload.value) + [(handlers[k], payload.value)];
        assert handlers[..k + 1][..k] == handlers[..k];
        var threw := Invoke(handlers[k], payload.value, throwing);
        if threw {
          warnings := warnings + 1;
        }
        k := k + 1;
      }
      assert handlers[..k] == handlers;
      FanCalls(handlers, payload.value);
      ThrowersCounted(handlers, throwing);
    }
  }
}
