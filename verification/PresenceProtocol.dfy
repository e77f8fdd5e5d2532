/**
 * Presence as a protocol: every `MULTI` commit, every fallback command, every direct
 * read is one atomic step, and the steps of all connections on all instances interleave.
 *
 * A connection runs one program: its connect hook adds it, later its disconnect hook
 * (or, after a restart, a boot reclaim) removes it. Connection ids are never reused.
 */
module PresenceProtocol {
  import opened Options
  import opened RedisStore
  import opened PresenceKeys
  import opened PresenceModel

  /** Where a connection's program stands; `*Direct(n)` issues fallback command `n` next. */
  datatype Pc =
    | AddExec
    | AddDirect(next: nat)
    | AddCount
    | Live(count: nat)
    | RemoveExec
    | RemoveDirect(next: nat)
    | RemoveCount
    | ClearGet
    | ClearExec(tenant: Option<string>)
    | ClearDirect(tenant: Option<string>, next: nat)
    | Gone(count: nat)

  datatype Proc = Proc(user: string, tenant: Option<string>, inst: string, silent: bool, pc: Pc)

  /** A count that made its caller the owner of a transition. */
  datatype Transition = Transition(user: string, conn: string, arrival: bool, silent: bool)

  datatype World = World(p: Presence, procs: map<string, Proc>, log: seq<Transition>)

  const START := World(NOBODY, map[], [])

  datatype Step =
    | Connect(conn: string, user: string, tenant: Option<string>, inst: string)
    | Disconnect(conn: string, silent: bool)
    | Advance(conn: string, committed: bool)

  predicate Quiet(pc: Pc) {
    pc.Live? || pc.Gone?
  }

  predicate Enabled(w: World, s: Step) {
    match s
    case Connect(c, _, _, _) => c !in w.procs
    case Disconnect(c, _) => c in w.procs && w.procs[c].pc.Live?
    case Advance(c, _) => c in w.procs && !Quiet(w.procs[c].pc)
  }

  /** Issue the next command of a fallback list; at its end go to `done`. */
  function Direct(p: Presence, cmds: seq<Command<Key>>, next: nat, again: Pc, done: Pc): (Presence, Pc)
    requires forall i | 0 <= i < |cmds| :: TypedCommand(cmds[i])
  {
    if next < |cmds| then (Effect(p, cmds[next]), if next + 1 < |cmds| then again else done)
    else (p, done)
  }

  function AfterRemoval(p: Presence, user: string): Pc {
    if LiveCount(p, user) > 0 then Gone(LiveCount(p, user)) else ClearGet
  }

  /** One atomic step of connection `c`'s program. */
  function Move(p: Presence, c: string, proc: Proc, committed: bool): (Presence, Pc) {
    var u := proc.user;
    match proc.pc
    case AddExec =>
      if committed then
        var q := AddEffect(p, proc.inst, u, c, proc.tenant);
        (q, Live(LiveCount(q, u)))
      else (p, AddDirect(0))
    case AddDirect(n) =>
      Direct(p, AddCommands(proc.inst, u, c, proc.tenant), n, AddDirect(n + 1), AddCount)
    case AddCount => (p, Live(LiveCount(p, u)))
    case RemoveExec =>
      if committed then
        var q := ReleaseEffect(p, proc.inst, u, c);
        (q, AfterRemoval(q, u))
      else (p, RemoveDirect(0))
    case RemoveDirect(n) =>
      Direct(p, RemoveCommands(proc.inst, u, c), n, RemoveDirect(n + 1), RemoveCount)
    case RemoveCount => (p, AfterRemoval(p, u))
    case ClearGet => (p, ClearExec(TenantText(p, u)))
    case ClearExec(t) =>
      if committed then (ClearEffect(p, u, t), Gone(0)) else (p, ClearDirect(t, 0))
    case ClearDirect(t, n) =>
      Direct(p, ClearCommands(u, t), n, ClearDirect(t, n + 1), Gone(0))
    case _ => (p, proc.pc)
  }

  /** A count of 1 after an add, or of 0 after a removal, is a transition. */
  function Noted(c: string, proc: Proc, pc': Pc): seq<Transition> {
    if pc' == Live(1) && !proc.pc.Live? then [Transition(proc.user, c, true, proc.silent)]
    else if pc' == ClearGet then [Transition(proc.user, c, false, proc.silent)]
    else []
  }

  function Next(w: World, s: Step): World
    requires Enabled(w, s)
  {
    match s
    case Connect(c, u, t, i) => w.(procs := w.procs[c := Proc(u, t, i, false, AddExec)])
    case Disconnect(c, silent) =>
      w.(procs := w.procs[c := w.procs[c].(pc := RemoveExec, silent := silent)])
    case Advance(c, committed) =>
      var proc := w.procs[c];
      var (p', pc') := Move(w.p, c, proc, committed);
      World(p', w.procs[c := proc.(pc := pc')], w.log + Noted(c, proc, pc'))
  }

  predicate Runs(w: World, steps: seq<Step>)
    decreases |steps|
  {
    steps == [] || (Enabled(w, steps[0]) && Runs(Next(w, steps[0]), steps[1..]))
  }

  function After(w: World, steps: seq<Step>): World
    requires Runs(w, steps)
    decreases |steps|
  {
    if steps == [] then w else After(Next(w, steps[0]), steps[1..])
  }

  lemma InSteps(s: Step, steps: seq<Step>)
    requires steps != []
    ensures s in steps <==> s == steps[0] || s in steps[1..]
  {
    assert steps == [steps[0]] + steps[1..];
  }

  /** A program keeps its user, tenant and instance, and is connected once. */
  lemma {:induction false} ProcKept(w: World, steps: seq<Step>, c: string)
    requires Runs(w, steps) && c in w.procs
    ensures c in After(w, steps).procs && forall u, t, i :: Connect(c, u, t, i) !in steps
    ensures var proc, proc' := w.procs[c], After(w, steps).procs[c];
            proc'.user == proc.user && proc'.tenant == proc.tenant && proc'.inst == proc.inst
    decreases |steps|
  {
    if steps != [] {
      ProcKept(Next(w, steps[0]), steps[1..], c);
      forall u, t, i ensures Connect(c, u, t, i) !in steps {
        InSteps(Connect(c, u, t, i), steps);
      }
    }
  }

  /** A connection's program is that of its connect step. */
  lemma {:induction false} ProcFollowsConnect(
    w: World, steps: seq<Step>, c: string, u: string, t: Option<string>, i: string)
    requires Runs(w, steps) && Connect(c, u, t, i) in steps
    ensures var w' := After(w, steps);
            c in w'.procs && w'.procs[c].user == u && w'.procs[c].tenant == t && w'.procs[c].inst == i
    decreases |steps|
  {
    InSteps(Connect(c, u, t, i), steps);
    if steps[0] == Connect(c, u, t, i) {
      ProcKept(Next(w, steps[0]), steps[1..], c);
    } else {
      ProcFollowsConnect(Next(w, steps[0]), steps[1..], c, u, t, i);
    }
  }

  predicate Leaving(pc: Pc) {
    pc.RemoveExec? || pc.RemoveDirect? || pc.RemoveCount?
    || pc.ClearGet? || pc.ClearExec? || pc.ClearDirect? || pc.Gone?
  }

  lemma {:induction false} LeavingKept(w: World, steps: seq<Step>, c: string)
    requires Runs(w, steps) && c in w.procs && Leaving(w.procs[c].pc)
    ensures c in After(w, steps).procs && After(w, steps).procs[c].silent == w.procs[c].silent
    ensures Disconnect(c, true) !in steps
    decreases |steps|
  {
    if steps != [] {
      InSteps(Disconnect(c, true), steps);
      LeavingKept(Next(w, steps[0]), steps[1..], c);
    }
  }

  lemma {:induction false} SilentSince(w: World, steps: seq<Step>, c: string)
    requires Runs(w, steps) && c in After(w, steps).procs
    requires c in w.procs ==> !w.procs[c].silent && !Leaving(w.procs[c].pc)
    ensures After(w, steps).procs[c].silent <==> Disconnect(c, true) in steps
    decreases |steps|
  {
    if steps != [] {
      var s, w' := steps[0], Next(w, steps[0]);
      InSteps(Disconnect(c, true), steps);
      if s.Disconnect? && s.conn == c {
        LeavingKept(w', steps[1..], c);
      } else {
        SilentSince(w', steps[1..], c);
      }
    }
  }

  /** A program is silent exactly if it was disconnected by a boot reclaim. */
  lemma SilentIff(steps: seq<Step>, c: string)
    requires Runs(START, steps) && c in After(START, steps).procs
    ensures After(START, steps).procs[c].silent <==> Disconnect(c, true) in steps
  {
    SilentSince(START, steps, c);
  }

  /** Nothing is under way anywhere. */
  predicate Quiescent(w: World) {
    forall c | c in w.procs :: Quiet(w.procs[c].pc)
  }

  // ---- what a program counter implies about the user's connection set ----

  predicate Holds(pc: Pc) {
    pc.AddCount? || pc.Live? || pc.RemoveExec? || (pc.AddDirect? && pc.next >= 1)
    || (pc.RemoveDirect? && pc.next == 0)
  }

  /** A removal that still has to count, or to take the user out of the online set. */
  predicate Owes(pc: Pc) {
    pc.RemoveCount? || pc.ClearGet? || pc.ClearExec? || (pc.RemoveDirect? && pc.next >= 1)
    || (pc.ClearDirect? && pc.next == 0)
  }

  ghost predicate HoldsExactly(w: World) {
    && (forall c | c in w.procs :: Holds(w.procs[c].pc) ==> (w.procs[c].user, c) in w.p.conns)
    && (forall u, c | (u, c) in w.p.conns ::
          c in w.procs && w.procs[c].user == u && Holds(w.procs[c].pc))
  }

  ghost predicate Backs(w: World, user: string, c: string) {
    c in w.procs && w.procs[c].user == user && (Holds(w.procs[c].pc) || Owes(w.procs[c].pc))
  }

  ghost predicate NoGhosts(w: World) {
    forall u | u in w.p.online :: exists c :: Backs(w, u, c)
  }

  /** What one step does to the connection sets. */
  lemma MoveConns(p: Presence, c: string, proc: Proc, committed: bool)
    ensures var (p', pc') := Move(p, c, proc, committed);
            p'.conns == if Holds(pc') then (if Holds(proc.pc) then p.conns else p.conns + {(proc.user, c)})
                        else if Holds(proc.pc) then p.conns - {(proc.user, c)} else p.conns
  {
  }

  lemma StepHolds(w: World, s: Step)
    requires Enabled(w, s) && HoldsExactly(w)
    ensures HoldsExactly(Next(w, s))
  {
    if s.Advance? {
      MoveConns(w.p, s.conn, w.procs[s.conn], s.committed);
    }
  }

  /** Only an addition that holds its connection writes to the online set. */
  lemma MoveOnline(p: Presence, c: string, proc: Proc, committed: bool)
    ensures var (p', pc') := Move(p, c, proc, committed);
            && p'.online <= p.online + {proc.user}
            && (proc.user in p'.online - p.online ==> Holds(pc'))
            && (Owes(proc.pc) && !Owes(pc') && !(pc'.Gone? && pc'.count > 0)
                ==> p'.online == p.online - {proc.user})
  {
  }

  lemma OthersBack(w: World, user: string, c: string)
    requires HoldsExactly(w) && LiveCount(w.p, user) > 0
    requires c in w.procs && !Holds(w.procs[c].pc)
    ensures exists d :: d != c && Backs(w, user, d) && Holds(w.procs[d].pc)
  {
    assert ConnsOf(w.p, user) != {};
    var d :| d in ConnsOf(w.p, user);
    assert (user, d) in w.p.conns && d != c && Backs(w, user, d);
  }

  lemma StepNoGhosts(w: World, s: Step)
    requires Enabled(w, s) && HoldsExactly(w) && NoGhosts(w)
    ensures NoGhosts(Next(w, s))
  {
    var w' := Next(w, s);
    StepHolds(w, s);
    forall u | u in w'.p.online ensures exists c :: Backs(w', u, c) {
      var c := s.conn;
      if s.Advance? {
        var proc := w.procs[c];
        var pc' := w'.procs[c].pc;
        MoveOnline(w.p, c, proc, s.committed);
        if u == proc.user && (Holds(pc') || Owes(pc')) {
          assert Backs(w', u, c);
        } else if u == proc.user && pc'.Gone? && pc'.count > 0 {
          OthersBack(w', u, c);
        } else {
          var d :| Backs(w, u, d);
          assert d != c ==> Backs(w', u, d);
        }
      } else {
        var d :| Backs(w, u, d);
        assert Backs(w', u, d);
      }
    }
  }

  lemma {:induction false} RunNoGhosts(w: World, steps: seq<Step>)
    requires Runs(w, steps) && HoldsExactly(w) && NoGhosts(w)
    ensures HoldsExactly(After(w, steps)) && NoGhosts(After(w, steps))
    decreases |steps|
  {
    if steps != [] {
      StepHolds(w, steps[0]);
      StepNoGhosts(w, steps[0]);
      RunNoGhosts(Next(w, steps[0]), steps[1..]);
    }
  }

  /**
   * Under every interleaving, committed or not, a user in the online set holds a
   * connection or has a removal in flight that still has to count or clean up.
   */
  lemma NoGhostEver(steps: seq<Step>, user: string)
    requires Runs(START, steps) && user in After(START, steps).p.online
    ensures var w := After(START, steps);
            ConnsOf(w.p, user) != {}
            || exists c :: c in w.procs && w.procs[c].user == user && Owes(w.procs[c].pc)
  {
    RunNoGhosts(START, steps);
    var w := After(START, steps);
    var c :| Backs(w, user, c);
    if Holds(w.procs[c].pc) {
      assert c in ConnsOf(w.p, user);
    }
  }

  /** Once nothing is in flight, everybody in the online set holds a live connection. */
  lemma NoGhostAtRest(steps: seq<Step>, user: string)
    requires Runs(START, steps) && Quiescent(After(START, steps))
    requires user in After(START, steps).p.online
    ensures var w := After(START, steps);
            exists c :: c in w.procs && w.procs[c].user == user && w.procs[c].pc.Live?
                        && (user, c) in w.p.conns
  {
    RunNoGhosts(START, steps);
    var w := After(START, steps);
    var c :| Backs(w, user, c);
    assert w.procs[c].pc.Live?;
  }

  // ---- the limit: overlapping operations may drop a live user from the indexes ----

  /** An addition that has written the online set and whose connection is still held. */
  predicate Listed(pc: Pc) {
    Holds(pc) && !(pc.AddDirect? && pc.next == 1)
  }

  ghost predicate Complete(w: World) {
    forall c | c in w.procs && Listed(w.procs[c].pc) :: w.procs[c].user in w.p.online
  }

  predicate ClearsOnline(proc: Proc, committed: bool) {
    (proc.pc.ClearExec? && committed) || (proc.pc.ClearDirect? && proc.pc.next == 0)
  }

  /** The step is a cleanup whose user has a listed connection. */
  ghost predicate ClearsListed(w: World, s: Step)
    requires Enabled(w, s)
  {
    && s.Advance? && ClearsOnline(w.procs[s.conn], s.committed)
    && exists c :: c in w.procs && w.procs[c].user == w.procs[s.conn].user && Listed(w.procs[c].pc)
  }

  /**
   * Every step but one keeps all listed users in the online set; the delayed cleanup
   * keeps them exactly when the user has no listed connection at that moment.
   */
  lemma CompleteKeptIff(w: World, s: Step)
    requires Enabled(w, s) && HoldsExactly(w) && Complete(w)
    ensures Complete(Next(w, s)) <==> !ClearsListed(w, s)
  {
    var w' := Next(w, s);
    if s.Advance? && ClearsOnline(w.procs[s.conn], s.committed) {
      var user := w.procs[s.conn].user;
      assert w'.p.online == w.p.online - {user} && !Listed(w'.procs[s.conn].pc);
      if c :| c in w.procs && w.procs[c].user == user && Listed(w.procs[c].pc) {
        assert c in w'.procs && Listed(w'.procs[c].pc) && w'.procs[c].user !in w'.p.online;
      }
    } else if s.Advance? {
      MoveListed(w.p, s.conn, w.procs[s.conn], s.committed);
    }
  }

  /** No cleanup of the run takes a user with a listed connection out of the online set. */
  ghost predicate CleanupsTimely(w: World, steps: seq<Step>)
    requires Runs(w, steps)
    decreases |steps|
  {
    steps == [] || (!ClearsListed(w, steps[0]) && CleanupsTimely(Next(w, steps[0]), steps[1..]))
  }

  /** All listed users are in the online set in every state of the run. */
  ghost predicate CompleteThroughout(w: World, steps: seq<Step>)
    requires Runs(w, steps)
    decreases |steps|
  {
    Complete(w) && (steps == [] || CompleteThroughout(Next(w, steps[0]), steps[1..]))
  }

  lemma {:induction false} CompleteThroughoutFrom(w: World, steps: seq<Step>)
    requires Runs(w, steps) && HoldsExactly(w) && Complete(w)
    ensures CompleteThroughout(w, steps) <==> CleanupsTimely(w, steps)
    decreases |steps|
  {
    if steps != [] {
      var w' := Next(w, steps[0]);
      CompleteKeptIff(w, steps[0]);
      StepHolds(w, steps[0]);
      if Complete(w') {
        CompleteThroughoutFrom(w', steps[1..]);
      } else {
        assert !CompleteThroughout(w', steps[1..]);
      }
    }
  }

  /** In any run the online set is complete throughout exactly when every cleanup is timely. */
  lemma CompleteThroughoutIff(steps: seq<Step>)
    requires Runs(START, steps)
    ensures CompleteThroughout(START, steps) <==> CleanupsTimely(START, steps)
  {
    CompleteThroughoutFrom(START, steps);
  }

  lemma MoveListed(p: Presence, c: string, proc: Proc, committed: bool)
    requires !ClearsOnline(proc, committed) && (Listed(proc.pc) ==> proc.user in p.online)
    ensures var (p', pc') := Move(p, c, proc, committed);
            p.online <= p'.online && (Listed(pc') ==> proc.user in p'.online)
  {
  }

  lemma RunThen(w: World, s: Step, rest: seq<Step>)
    requires Enabled(w, s) && Runs(Next(w, s), rest)
    ensures Runs(w, [s] + rest) && After(w, [s] + rest) == After(Next(w, s), rest)
  {
    assert ([s] + rest)[1..] == rest;
  }

  lemma RunThenFour(w: World, a: Step, b: Step, c: Step, d: Step, rest: seq<Step>) returns (steps: seq<Step>)
    requires Enabled(w, a) && Enabled(Next(w, a), b) && Enabled(Next(Next(w, a), b), c)
    requires Enabled(Next(Next(Next(w, a), b), c), d)
    requires Runs(Next(Next(Next(Next(w, a), b), c), d), rest)
    ensures Runs(w, steps) && After(w, steps) == After(Next(Next(Next(Next(w, a), b), c), d), rest)
  {
    var w1 := Next(w, a);
    var w2 := Next(w1, b);
    RunThen(Next(w2, c), d, rest);
    RunThen(w2, c, [d] + rest);
    RunThen(w1, b, [c] + ([d] + rest));
    steps := [b] + ([c] + ([d] + rest));
    RunThen(w, a, steps);
    steps := [a] + steps;
  }

  /** A user's only connection is added, then removed up to the count, which is 0. */
  lemma AddThenCountZero(u: string, i: string, a: string) returns (w: World)
    ensures var w1 := Next(START, Connect(a, u, None, i));
            && Enabled(w1, Advance(a, true))
            && (var w2 := Next(w1, Advance(a, true));
                && Enabled(w2, Disconnect(a, false))
                && (var w3 := Next(w2, Disconnect(a, false));
                    Enabled(w3, Advance(a, true)) && w == Next(w3, Advance(a, true))))
    ensures w.procs == map[a := Proc(u, None, i, false, ClearGet)]
    ensures w.p.conns == {} && w.p.online == {u} && w.p.tenantOf == map[]
  {
    var w1 := Next(START, Connect(a, u, None, i));
    var w2 := Next(w1, Advance(a, true));
    var w3 := Next(w2, Disconnect(a, false));
    w := Next(w3, Advance(a, true));
    assert w2.p.conns == {(u, a)} && w2.p.online == {u};
    assert w.p.conns == {};
    assert ConnsOf(w.p, u) == {};
  }

  /** A second connection is added before the first one's cleanup gets to run. */
  lemma AddThenCleanup(w: World, u: string, i: string, a: string, b: string) returns (w': World)
    requires a != b && w.procs == map[a := Proc(u, None, i, false, ClearGet)]
    requires w.p.tenantOf == map[]
    ensures var w1 := Next(w, Connect(b, u, None, i));
            && Enabled(w1, Advance(b, true))
            && (var w2 := Next(w1, Advance(b, true));
                && Enabled(w2, Advance(a, true))
                && (var w3 := Next(w2, Advance(a, true));
                    Enabled(w3, Advance(a, true)) && w' == Next(w3, Advance(a, true))))
    ensures Quiescent(w') && (u, b) in w'.p.conns && u !in w'.p.online
  {
    var w1 := Next(w, Connect(b, u, None, i));
    var w2 := Next(w1, Advance(b, true));
    var w3 := Next(w2, Advance(a, true));
    w' := Next(w3, Advance(a, true));
  }

  /** Any user: some run ends at rest with that user live and missing from the online set. */
  lemma OverlapDropsLiveUser(u: string, i: string, a: string, b: string)
    requires a != b
    ensures exists steps :: Runs(START, steps) && Quiescent(After(START, steps))
                            && (u, b) in After(START, steps).p.conns && u !in After(START, steps).p.online
  {
    var w4 := AddThenCountZero(u, i, a);
    var w8 := AddThenCleanup(w4, u, i, a, b);
    var tail := RunThenFour(w4, Connect(b, u, None, i), Advance(b, true), Advance(a, true), Advance(a, true), []);
    var steps := RunThenFour(
      START, Connect(a, u, None, i), Advance(a, true), Disconnect(a, false), Advance(a, true), tail);
    assert After(START, steps) == w8;
  }
}
