/**
 * The protocol when processes crash at any point and boot again. A crash ends every program
 * of its instance where it stands; a boot reclaim starts a removal for each connection whose
 * claim it lists, in any order and without waiting for one to end before the next.
 */
module PresenceCrashes {
  import opened Options
  import opened RedisStore
  import opened PresenceKeys
  import opened PresenceModel
  import opened PresenceProtocol
  import opened PresenceRefinement
  import opened PresenceClaims
  import T = PresenceTransitions

  datatype Mode = Down | Booting | Up

  /** `dead` programs ended with their process and never move on by themselves. */
  datatype System = System(w: World, dead: set<string>, modes: map<string, Mode>)

  const INITIAL := System(START, {}, map[])

  datatype Event =
    | Act(step: Step)
    | Crash(inst: string)
    | Boot(inst: string)
    | Reclaim(conn: string)
    | FinishBoot(inst: string)

  function ModeOf(sys: System, inst: string): Mode {
    if inst in sys.modes then sys.modes[inst] else Down
  }

  predicate CanAct(sys: System, s: Step) {
    Enabled(sys.w, s)
    && match s
       case Connect(_, u, _, i) => ModeOf(sys, i) == Up && OWNER_SEPARATOR !in u
       case Disconnect(c, silent) => !silent && c !in sys.dead && ModeOf(sys, sys.w.procs[c].inst) == Up
       case Advance(c, _) => c !in sys.dead
  }

  predicate Able(sys: System, e: Event) {
    match e
    case Act(s) => CanAct(sys, s)
    case Crash(_) => true
    case Boot(i) => ModeOf(sys, i) == Down
    case Reclaim(c) =>
      && c in sys.dead && c in sys.w.procs && ModeOf(sys, sys.w.procs[c].inst) == Booting
      && (sys.w.procs[c].inst, OwnerMember(sys.w.procs[c].user, c)) in sys.w.p.owned
    case FinishBoot(i) =>
      && ModeOf(sys, i) == Booting && OwnedBy(sys.w.p, i) == {}
      && forall c | c in sys.w.procs && sys.w.procs[c].inst == i && c !in sys.dead :: Quiet(sys.w.procs[c].pc)
  }

  /** A removal of what is held; if only the claim is left, its first command finds nothing. */
  function Restarted(proc: Proc): Proc {
    proc.(silent := true, pc := if Holds(proc.pc) then RemoveExec else proc.pc)
  }

  function Following(sys: System, e: Event): System
    requires Able(sys, e)
  {
    match e
    case Act(s) => sys.(w := Next(sys.w, s))
    case Crash(i) =>
      sys.(dead := sys.dead + (set c | c in sys.w.procs && sys.w.procs[c].inst == i), modes := sys.modes[i := Down])
    case Boot(i) => sys.(modes := sys.modes[i := Booting])
    case Reclaim(c) =>
      sys.(w := sys.w.(procs := sys.w.procs[c := Restarted(sys.w.procs[c])]), dead := sys.dead - {c})
    case FinishBoot(i) =>
      sys.(w := sys.w.(p := Effect(sys.w.p, Del(InstanceKey(i)))), modes := sys.modes[i := Up])
  }

  predicate Lives(sys: System, events: seq<Event>)
    decreases |events|
  {
    events == [] || (Able(sys, events[0]) && Lives(Following(sys, events[0]), events[1..]))
  }

  function Outcome(sys: System, events: seq<Event>): System
    requires Lives(sys, events)
    decreases |events|
  {
    if events == [] then sys else Outcome(Following(sys, events[0]), events[1..])
  }

  // ---- what every run keeps ----

  predicate ProcFits(sys: System, c: string)
    requires c in sys.w.procs
  {
    var proc := sys.w.procs[c];
    && (ModeOf(sys, proc.inst) == Down ==> c in sys.dead)
    && (ModeOf(sys, proc.inst) == Booting && c !in sys.dead ==> Leaving(proc.pc))
  }

  predicate NoDeadClaim(sys: System, c: string)
    requires c in sys.w.procs
  {
    ModeOf(sys, sys.w.procs[c].inst) == Up && c in sys.dead ==> !Claiming(sys.w.procs[c].pc)
  }

  ghost predicate Inv(sys: System) {
    && HoldsExactly(sys.w) && ClaimsExactly(sys.w) && PlainProcs(sys.w) && NoGhosts(sys.w)
    && sys.dead <= sys.w.procs.Keys
    && forall c | c in sys.w.procs :: ProcFits(sys, c) && NoDeadClaim(sys, c)
  }

  lemma MoveLeaves(p: Presence, c: string, proc: Proc, committed: bool)
    requires Leaving(proc.pc)
    ensures Leaving(Move(p, c, proc, committed).1)
  {
  }

  lemma ActInv(sys: System, s: Step)
    requires Inv(sys) && CanAct(sys, s)
    ensures Inv(Following(sys, Act(s)))
  {
    var sys' := Following(sys, Act(s));
    StepHolds(sys.w, s);
    StepClaims(sys.w, s);
    StepNoGhosts(sys.w, s);
    if s.Advance? && Leaving(sys.w.procs[s.conn].pc) {
      MoveLeaves(sys.w.p, s.conn, sys.w.procs[s.conn], s.committed);
    }
    forall c | c in sys'.w.procs ensures ProcFits(sys', c) && NoDeadClaim(sys', c) {
      assert c != s.conn ==> sys'.w.procs[c] == sys.w.procs[c] && ProcFits(sys, c) && NoDeadClaim(sys, c);
      assert c == s.conn && !s.Connect? ==> ProcFits(sys, c);
    }
  }

  lemma DeadClaims(sys: System, c: string)
    requires Inv(sys) && c in sys.w.procs
    ensures Claiming(sys.w.procs[c].pc)
       <==> (sys.w.procs[c].inst, OwnerMember(sys.w.procs[c].user, c)) in sys.w.p.owned
  {
    var proc := sys.w.procs[c];
    var member := OwnerMember(proc.user, c);
    if d :| ClaimedBy(sys.w, proc.inst, member, d) {
      OneClaimant(sys.w, proc.inst, member, d, c);
    }
    assert Claiming(proc.pc) ==> ClaimedBy(sys.w, proc.inst, member, c);
  }

  lemma RestartKeeps(proc: Proc)
    requires Claiming(proc.pc)
    ensures Claiming(Restarted(proc).pc) && (Holds(Restarted(proc).pc) <==> Holds(proc.pc))
    ensures (Owes(proc.pc) ==> Owes(Restarted(proc).pc)) && Leaving(Restarted(proc).pc)
  {
  }

  lemma RestartBacks(w: World, w': World, c: string)
    requires c in w.procs && Claiming(w.procs[c].pc) && ClaimsExactly(w) && NoGhosts(w)
    requires w' == w.(procs := w.procs[c := Restarted(w.procs[c])])
    ensures ClaimsExactly(w') && NoGhosts(w')
  {
    RestartKeeps(w.procs[c]);
    forall i, m ensures (i, m) in w'.p.owned <==> exists d :: ClaimedBy(w', i, m, d) {
      assert forall d :: ClaimedBy(w', i, m, d) <==> ClaimedBy(w, i, m, d);
    }
    forall u | u in w'.p.online ensures exists d :: Backs(w', u, d) {
      var d :| Backs(w, u, d);
      assert Backs(w', u, d);
    }
  }

  /** Restarting a program for what it left behind changes neither pairs nor claims. */
  lemma ReclaimInv(sys: System, c: string)
    requires Inv(sys) && Able(sys, Reclaim(c))
    ensures Inv(Following(sys, Reclaim(c)))
    ensures var pc, pc' := sys.w.procs[c].pc, Following(sys, Reclaim(c)).w.procs[c].pc;
            Claiming(pc) && Claiming(pc') && (Holds(pc') <==> Holds(pc)) && (Owes(pc) ==> Owes(pc'))
  {
    DeadClaims(sys, c);
    RestartKeeps(sys.w.procs[c]);
    var sys' := Following(sys, Reclaim(c));
    RestartBacks(sys.w, sys'.w, c);
    forall d | d in sys'.w.procs ensures ProcFits(sys', d) && NoDeadClaim(sys', d) {
      assert ProcFits(sys, d) && NoDeadClaim(sys, d);
    }
  }

  lemma FinishInv(sys: System, i: string)
    requires Inv(sys) && Able(sys, FinishBoot(i))
    ensures Inv(Following(sys, FinishBoot(i))) && Following(sys, FinishBoot(i)).w == sys.w
  {
    var sys' := Following(sys, FinishBoot(i));
    forall q | q in sys.w.p.owned ensures q.0 != i {
      assert q.1 in OwnedBy(sys.w.p, q.0);
    }
    assert sys'.w.p.owned == sys.w.p.owned;
    assert sys'.w == sys.w;
    forall c | c in sys.w.procs ensures ProcFits(sys', c) && NoDeadClaim(sys', c) {
      assert ProcFits(sys, c) && NoDeadClaim(sys, c);
      DeadClaims(sys, c);
    }
  }

  lemma ModeInv(sys: System, e: Event)
    requires Inv(sys) && Able(sys, e) && (e.Crash? || e.Boot?)
    ensures Inv(Following(sys, e))
  {
    var sys' := Following(sys, e);
    forall c | c in sys'.w.procs ensures ProcFits(sys', c) && NoDeadClaim(sys', c) {
      assert ProcFits(sys, c) && NoDeadClaim(sys, c);
    }
  }

  lemma EventInv(sys: System, e: Event)
    requires Inv(sys) && Able(sys, e)
    ensures Inv(Following(sys, e))
  {
    match e
    case Act(s) => ActInv(sys, s);
    case Crash(_) => ModeInv(sys, e);
    case Boot(_) => ModeInv(sys, e);
    case Reclaim(c) => ReclaimInv(sys, c);
    case FinishBoot(i) => FinishInv(sys, i);
  }

  lemma {:induction false} LifeInv(sys: System, events: seq<Event>)
    requires Inv(sys) && Lives(sys, events)
    ensures Inv(Outcome(sys, events))
    decreases |events|
  {
    if events != [] {
      EventInv(sys, events[0]);
      LifeInv(Following(sys, events[0]), events[1..]);
    }
  }

  lemma InitialInv()
    ensures Inv(INITIAL)
  {
  }

  /** No ghosts, crashes or not: an online user holds a connection, or a removal, dead or alive, owes. */
  lemma NoGhostWithCrashes(events: seq<Event>, user: string)
    requires Lives(INITIAL, events) && user in Outcome(INITIAL, events).w.p.online
    ensures var w := Outcome(INITIAL, events).w;
            ConnsOf(w.p, user) != {}
            || exists c :: c in w.procs && w.procs[c].user == user && Owes(w.procs[c].pc)
  {
    InitialInv();
    LifeInv(INITIAL, events);
    var w := Outcome(INITIAL, events).w;
    var c :| Backs(w, user, c);
    if Holds(w.procs[c].pc) {
      assert c in ConnsOf(w.p, user);
    }
  }

  // ---- announcements ----

  lemma RestartCredits(log: seq<Transition>, c: string, proc: Proc)
    requires T.CreditsAgree(log, c, proc.pc) && Claiming(proc.pc)
    ensures T.CreditsAgree(log, c, Restarted(proc).pc)
  {
  }

  lemma EventLog(sys: System, e: Event, c: string)
    requires Inv(sys) && Able(sys, e) && T.LogAgrees(sys.w, c)
    ensures T.LogAgrees(Following(sys, e).w, c)
  {
    match e
    case Act(s) => T.StepLog(sys.w, s, c);
    case Reclaim(d) =>
      DeadClaims(sys, d);
      if c == d {
        RestartCredits(sys.w.log, c, sys.w.procs[c]);
      }
    case FinishBoot(i) => FinishInv(sys, i);
    case _ =>
  }

  lemma {:induction false} LifeLog(sys: System, events: seq<Event>, c: string)
    requires Inv(sys) && Lives(sys, events) && T.LogAgrees(sys.w, c)
    ensures T.LogAgrees(Outcome(sys, events).w, c)
    decreases |events|
  {
    if events != [] {
      EventInv(sys, events[0]);
      EventLog(sys, events[0], c);
      LifeLog(Following(sys, events[0]), events[1..], c);
    }
  }

  /** With crashes and reclaims anywhere, a hook announces exactly what the counts credit its connection with. */
  lemma HooksAnnounceWithCrashes(events: seq<Event>, c: string)
    requires Lives(INITIAL, events)
    requires c in Outcome(INITIAL, events).w.procs && Quiet(Outcome(INITIAL, events).w.procs[c].pc)
    ensures var w := Outcome(INITIAL, events).w; var proc := w.procs[c];
            T.HookAnnounces(proc)
            <==> !proc.silent && proc.tenant.Some? && T.Credited(w.log, c, proc.pc.Live?)
  {
    InitialInv();
    LifeLog(INITIAL, events, c);
    assert T.LogAgrees(Outcome(INITIAL, events).w, c);
  }

  lemma {:induction false} StaysSilent(sys: System, events: seq<Event>, c: string)
    requires Lives(sys, events) && c in sys.w.procs && sys.w.procs[c].silent && Leaving(sys.w.procs[c].pc)
    ensures c in Outcome(sys, events).w.procs && Outcome(sys, events).w.procs[c].silent
    decreases |events|
  {
    if events != [] {
      var e := events[0];
      if e.Act? && e.step.Advance? && e.step.conn == c {
        MoveLeaves(sys.w.p, c, sys.w.procs[c], e.step.committed);
      }
      StaysSilent(Following(sys, e), events[1..], c);
    }
  }

  /** What a boot reclaim took up announces nothing, then or later. */
  lemma {:induction false} ReclaimedIsSilent(sys: System, events: seq<Event>, c: string)
    requires Inv(sys) && Lives(sys, events) && Reclaim(c) in events
    ensures c in Outcome(sys, events).w.procs && !T.HookAnnounces(Outcome(sys, events).w.procs[c])
    decreases |events|
  {
    var sys' := Following(sys, events[0]);
    EventInv(sys, events[0]);
    if events[0] == Reclaim(c) {
      DeadClaims(sys, c);
      RestartKeeps(sys.w.procs[c]);
      StaysSilent(sys', events[1..], c);
    } else {
      assert events == [events[0]] + events[1..];
      ReclaimedIsSilent(sys', events[1..], c);
    }
  }

  // ---- who can still be taken out of the online set, without connecting anew ----

  predicate OfUser(sys: System, user: string, c: string) {
    c in sys.w.procs && sys.w.procs[c].user == user
  }

  /** A program that is about to take the user out of the online set. */
  predicate CanClear(sys: System, user: string, c: string) {
    OfUser(sys, user, c) && c !in sys.dead
    && var pc := sys.w.procs[c].pc; pc.ClearGet? || pc.ClearExec? || (pc.ClearDirect? && pc.next == 0)
  }

  /** A program whose removal can still come to count, if need be after a reclaim. */
  predicate CanCount(sys: System, user: string, c: string) {
    OfUser(sys, user, c)
    && var pc := sys.w.procs[c].pc; if c in sys.dead then Claiming(pc) else !pc.Gone? && !Clearing(pc)
  }

  /** A pair whose program died before it wrote the claim. */
  predicate Stranded(sys: System, user: string, c: string) {
    OfUser(sys, user, c) && c in sys.dead && Holds(sys.w.procs[c].pc) && !Claiming(sys.w.procs[c].pc)
  }

  ghost predicate Healable(sys: System, user: string) {
    (exists c :: CanClear(sys, user, c))
    || ((forall c :: !Stranded(sys, user, c)) && exists c :: CanCount(sys, user, c))
  }

  predicate Spares(e: Event, user: string) {
    e.Act? && e.step.Connect? ==> e.step.user != user
  }

  predicate Spared(events: seq<Event>, user: string) {
    forall e | e in events :: Spares(e, user)
  }

  // ---- a user who is not healable stays online ----

  lemma StrandedStays(sys: System, e: Event, user: string, d: string)
    requires Inv(sys) && Able(sys, e) && Stranded(sys, user, d)
    ensures Stranded(Following(sys, e), user, d)
  {
    DeadClaims(sys, d);
  }

  /** While a pair of the user is stranded, no count of theirs is 0. */
  lemma NoCountIsZero(sys: System, s: Step, user: string, d: string)
    requires Inv(sys) && CanAct(sys, s) && s.Advance? && sys.w.procs[s.conn].user == user
    requires Stranded(sys, user, d)
    ensures Next(sys.w, s).procs[s.conn].pc != ClearGet
  {
    var w' := Next(sys.w, s);
    StepHolds(sys.w, s);
    assert w'.procs[d] == sys.w.procs[d] && (user, d) in w'.p.conns;
    assert d in ConnsOf(w'.p, user);
    ZeroMeansNobody(sys.w.p, s.conn, sys.w.procs[s.conn], s.committed);
  }

  lemma ZeroMeansNobody(p: Presence, c: string, proc: Proc, committed: bool)
    requires !Quiet(proc.pc)
    ensures var (p', pc') := Move(p, c, proc, committed); pc' == ClearGet ==> LiveCount(p', proc.user) == 0
  {
  }

  /** A program comes to clear the online set only by a count of 0, and once past it never counts. */
  lemma OnlyToClear(p: Presence, c: string, proc: Proc, committed: bool)
    requires !proc.pc.ClearGet? && !proc.pc.ClearExec? && !(proc.pc.ClearDirect? && proc.pc.next == 0)
    ensures var pc' := Move(p, c, proc, committed).1;
            && !pc'.ClearExec? && !(pc'.ClearDirect? && pc'.next == 0)
            && (Clearing(proc.pc) ==> Clearing(pc') || pc'.Gone?) && (Clearing(proc.pc) ==> pc' != ClearGet)
  {
  }

  lemma OwnAdvance(sys: System, s: Step, user: string)
    requires Inv(sys) && CanAct(sys, s) && s.Advance? && sys.w.procs[s.conn].user == user
    requires !Healable(sys, user) && user in sys.w.p.online
    ensures user in Next(sys.w, s).p.online
    ensures !CanClear(Following(sys, Act(s)), user, s.conn)
    ensures (forall d :: !Stranded(sys, user, d)) ==> !CanCount(Following(sys, Act(s)), user, s.conn)
  {
    var proc := sys.w.procs[s.conn];
    assert !CanClear(sys, user, s.conn);
    MoveListed(sys.w.p, s.conn, proc, s.committed);
    OnlyToClear(sys.w.p, s.conn, proc, s.committed);
    if d :| Stranded(sys, user, d) {
      NoCountIsZero(sys, s, user, d);
    } else {
      assert !CanCount(sys, user, s.conn);
    }
  }

  lemma OthersAct(sys: System, s: Step, user: string)
    requires Inv(sys) && CanAct(sys, s) && Spares(Act(s), user)
    requires s.Connect? || sys.w.procs[s.conn].user != user
    ensures user in Next(sys.w, s).p.online <==> user in sys.w.p.online
    ensures var sys' := Following(sys, Act(s));
            forall c :: (CanClear(sys', user, c) <==> CanClear(sys, user, c))
                     && (CanCount(sys', user, c) <==> CanCount(sys, user, c))
                     && (Stranded(sys', user, c) <==> Stranded(sys, user, c))
  {
    if s.Advance? {
      MoveFrame(sys.w.p, s.conn, sys.w.procs[s.conn], s.committed, user);
    }
  }

  lemma ActStaysOnline(sys: System, s: Step, user: string)
    requires Inv(sys) && CanAct(sys, s) && Spares(Act(s), user)
    requires !Healable(sys, user) && user in sys.w.p.online
    ensures user in Next(sys.w, s).p.online && !Healable(Following(sys, Act(s)), user)
  {
    var sys' := Following(sys, Act(s));
    if s.Connect? || sys.w.procs[s.conn].user != user {
      OthersAct(sys, s, user);
    } else {
      if s.Advance? {
        OwnAdvance(sys, s, user);
      } else {
        assert CanCount(sys, user, s.conn);
      }
      forall c | c != s.conn
        ensures (CanClear(sys', user, c) <==> CanClear(sys, user, c))
             && (CanCount(sys', user, c) <==> CanCount(sys, user, c)) {}
      if d :| Stranded(sys, user, d) {
        StrandedStays(sys, Act(s), user, d);
      }
    }
  }

  /** A reclaim, a crash or a boot gives no program a way to clear or count that it did not have. */
  lemma NoNewCounter(sys: System, e: Event, user: string, c: string)
    requires Inv(sys) && Able(sys, e) && !e.Act?
    ensures CanClear(Following(sys, e), user, c) ==> CanClear(sys, user, c)
    ensures CanCount(Following(sys, e), user, c) ==> CanCount(sys, user, c)
  {
    if e.Reclaim? {
      ReclaimInv(sys, e.conn);
    }
  }

  lemma StaysOnline(sys: System, e: Event, user: string)
    requires Inv(sys) && Able(sys, e) && Spares(e, user)
    requires !Healable(sys, user) && user in sys.w.p.online
    ensures user in Following(sys, e).w.p.online && !Healable(Following(sys, e), user)
  {
    if e.Act? {
      ActStaysOnline(sys, e.step, user);
    } else {
      var sys' := Following(sys, e);
      forall c ensures (CanClear(sys', user, c) ==> CanClear(sys, user, c))
                    && (CanCount(sys', user, c) ==> CanCount(sys, user, c)) {
        NoNewCounter(sys, e, user, c);
      }
      if d :| Stranded(sys, user, d) {
        StrandedStays(sys, e, user, d);
      }
    }
  }

  lemma {:induction false} StaysOnlineForever(sys: System, events: seq<Event>, user: string)
    requires Inv(sys) && Lives(sys, events) && Spared(events, user)
    requires !Healable(sys, user) && user in sys.w.p.online
    ensures user in Outcome(sys, events).w.p.online
    decreases |events|
  {
    if events != [] {
      assert events[0] in events && forall e | e in events[1..] :: e in events;
      StaysOnline(sys, events[0], user);
      EventInv(sys, events[0]);
      StaysOnlineForever(Following(sys, events[0]), events[1..], user);
    }
  }

  // ---- a healable user can be taken out ----

  lemma LifeThen(sys: System, e: Event, rest: seq<Event>)
    requires Able(sys, e) && Lives(Following(sys, e), rest)
    ensures Lives(sys, [e] + rest) && Outcome(sys, [e] + rest) == Outcome(Following(sys, e), rest)
  {
    assert ([e] + rest)[1..] == rest;
  }

  lemma {:induction false} LivesCompose(sys: System, first: seq<Event>, rest: seq<Event>)
    requires Lives(sys, first) && Lives(Outcome(sys, first), rest)
    ensures Lives(sys, first + rest) && Outcome(sys, first + rest) == Outcome(Outcome(sys, first), rest)
    decreases |first|
  {
    if first == [] {
      assert first + rest == rest;
    } else {
      assert first + rest == [first[0]] + (first[1..] + rest);
      LivesCompose(Following(sys, first[0]), first[1..], rest);
      LifeThen(sys, first[0], first[1..] + rest);
    }
  }

  lemma ClearRun(sys: System, user: string, c: string) returns (events: seq<Event>)
    requires CanClear(sys, user, c)
    ensures Lives(sys, events) && Spared(events, user) && user !in Outcome(sys, events).w.p.online
  {
    var e := Act(Advance(c, true));
    var sys' := Following(sys, e);
    events := [];
    if sys.w.procs[c].pc.ClearGet? {
      LifeThen(sys', e, []);
      events := [e] + [];
      assert user !in Following(sys', e).w.p.online;
    }
    LifeThen(sys, e, events);
    events := [e] + events;
  }

  /** A bound on the events until the program's removal has counted. */
  function PcRank(pc: Pc): nat {
    match pc
    case AddExec => 30
    case AddDirect(n) => if n < 5 then 28 - n else 23
    case AddCount => 20
    case Live(_) => 15
    case RemoveExec => 14
    case RemoveDirect(n) => if n < 2 then 13 - n else 11
    case RemoveCount => 10
    case _ => 0
  }

  function Rank(sys: System, c: string): nat
    requires c in sys.w.procs
  {
    if c !in sys.dead then PcRank(sys.w.procs[c].pc)
    else if ModeOf(sys, sys.w.procs[c].inst) == Booting then 31 else 32
  }

  /** Only connection `c` moved. */
  predicate OnlyMoved(sys: System, sys': System, c: string) {
    && sys'.w.procs.Keys == sys.w.procs.Keys
    && forall d | d in sys.w.procs && d != c :: sys'.w.procs[d] == sys.w.procs[d] && (d in sys'.dead <==> d in sys.dead)
  }

  /** The removal has counted: nobody left to clear for but the user, or others are left. */
  ghost predicate HasCounted(sys: System, user: string, c: string) {
    CanClear(sys, user, c)
    || (OfUser(sys, user, c) && sys.w.procs[c].pc.Gone? && c !in sys.dead && ConnsOf(sys.w.p, user) != {})
  }

  function NextEvent(sys: System, c: string): Event
    requires c in sys.w.procs
  {
    var proc := sys.w.procs[c];
    if c in sys.dead then (if ModeOf(sys, proc.inst) == Booting then Reclaim(c) else Boot(proc.inst))
    else if proc.pc.Live? then Act(Disconnect(c, false))
    else Act(Advance(c, true))
  }

  lemma MoveToCount(p: Presence, c: string, proc: Proc)
    requires !Quiet(proc.pc) && !Clearing(proc.pc)
    ensures var (p', pc') := Move(p, c, proc, true);
            || pc' == AfterRemoval(p', proc.user)
            || (!pc'.Gone? && !Clearing(pc') && PcRank(pc') < PcRank(proc.pc))
  {
  }

  /** The event was possible, moved only `c`, and brought its removal nearer to its count. */
  ghost predicate Drives(sys: System, e: Event, user: string, c: string)
    requires c in sys.w.procs
  {
    && Able(sys, e) && Spares(e, user) && OnlyMoved(sys, Following(sys, e), c)
    && (HasCounted(Following(sys, e), user, c)
        || (CanCount(Following(sys, e), user, c) && Rank(Following(sys, e), c) < Rank(sys, c)))
  }

  lemma DriveAlive(sys: System, user: string, c: string)
    requires Inv(sys) && CanCount(sys, user, c) && c !in sys.dead && !sys.w.procs[c].pc.Live?
    ensures Drives(sys, Act(Advance(c, true)), user, c)
  {
    var proc, sys' := sys.w.procs[c], Following(sys, Act(Advance(c, true)));
    MoveToCount(sys.w.p, c, proc);
    var pc' := sys'.w.procs[c].pc;
    if pc' == AfterRemoval(sys'.w.p, user) && pc'.Gone? {
      assert ConnsOf(sys'.w.p, user) != {};
      assert HasCounted(sys', user, c);
    } else if pc' == AfterRemoval(sys'.w.p, user) {
      assert CanClear(sys', user, c);
    }
  }

  lemma DriveLive(sys: System, user: string, c: string)
    requires Inv(sys) && CanCount(sys, user, c) && c !in sys.dead && sys.w.procs[c].pc.Live?
    ensures Drives(sys, Act(Disconnect(c, false)), user, c)
  {
    assert ProcFits(sys, c);
  }

  lemma DriveDead(sys: System, user: string, c: string)
    requires Inv(sys) && CanCount(sys, user, c) && c in sys.dead
    ensures Drives(sys, NextEvent(sys, c), user, c)
  {
    assert NoDeadClaim(sys, c);
    DeadClaims(sys, c);
    if ModeOf(sys, sys.w.procs[c].inst) == Booting {
      ReclaimInv(sys, c);
      var pc' := Following(sys, Reclaim(c)).w.procs[c].pc;
      assert pc' == RemoveExec || (pc'.RemoveDirect? && pc'.next < 2);
    }
  }

  lemma Drive(sys: System, user: string, c: string)
    requires Inv(sys) && CanCount(sys, user, c)
    ensures Drives(sys, NextEvent(sys, c), user, c)
  {
    if c in sys.dead {
      DriveDead(sys, user, c);
    } else if sys.w.procs[c].pc.Live? {
      DriveLive(sys, user, c);
    } else {
      DriveAlive(sys, user, c);
    }
  }

  lemma CountRun(sys: System, user: string, c: string) returns (events: seq<Event>)
    requires Inv(sys) && CanCount(sys, user, c)
    ensures Lives(sys, events) && Spared(events, user)
    ensures var sys' := Outcome(sys, events); Inv(sys') && OnlyMoved(sys, sys', c) && HasCounted(sys', user, c)
    decreases Rank(sys, c)
  {
    var e := NextEvent(sys, c);
    Drive(sys, user, c);
    EventInv(sys, e);
    var sys' := Following(sys, e);
    events := [];
    if !HasCounted(sys', user, c) {
      events := CountRun(sys', user, c);
    }
    LifeThen(sys, e, events);
    events := [e] + events;
  }

  function Counters(sys: System, user: string): set<string> {
    set c | c in sys.w.procs && CanCount(sys, user, c)
  }

  /** One removal counted and found others: one of these can count next. */
  lemma NextCounter(sys: System, sys': System, user: string, c: string) returns (d: string)
    requires Inv(sys') && OnlyMoved(sys, sys', c) && CanCount(sys, user, c)
    requires OfUser(sys', user, c) && sys'.w.procs[c].pc.Gone? && c !in sys'.dead && ConnsOf(sys'.w.p, user) != {}
    requires forall x :: !Stranded(sys, user, x)
    ensures CanCount(sys', user, d) && (forall x :: !Stranded(sys', user, x))
    ensures |Counters(sys', user)| < |Counters(sys, user)|
  {
    d :| d in ConnsOf(sys'.w.p, user);
    assert (user, d) in sys'.w.p.conns;
    forall x ensures !Stranded(sys', user, x) {
      assert x != c ==> !Stranded(sys, user, x);
    }
    assert !Stranded(sys', user, d);
    assert Counters(sys', user) <= Counters(sys, user) - {c};
    Smaller(Counters(sys', user), Counters(sys, user) - {c});
    assert |Counters(sys, user) - {c}| == |Counters(sys, user)| - 1;
  }

  lemma {:induction false} Smaller(a: set<string>, b: set<string>)
    requires a <= b
    ensures |a| <= |b|
  {
    if x :| x in a {
      Smaller(a - {x}, b - {x});
    }
  }

  lemma HealRun(sys: System, user: string) returns (events: seq<Event>)
    requires Inv(sys) && Healable(sys, user)
    ensures Lives(sys, events) && Spared(events, user) && user !in Outcome(sys, events).w.p.online
    decreases |Counters(sys, user)|
  {
    if c :| CanClear(sys, user, c) {
      events := ClearRun(sys, user, c);
    } else {
      var c :| CanCount(sys, user, c);
      events := CountRun(sys, user, c);
      var sys', rest := Outcome(sys, events), [];
      if CanClear(sys', user, c) {
        rest := ClearRun(sys', user, c);
      } else {
        var d := NextCounter(sys, sys', user, c);
        rest := HealRun(sys', user);
      }
      LivesCompose(sys, events, rest);
      events := events + rest;
    }
  }

  /**
   * After any run with crashes anywhere: some continuation in which the user does not connect
   * anew takes them out of the online set, if and only if a live program is about to do so, or
   * none of their pairs is stranded and some program, alive or claimed, has yet to count.
   */
  lemma LeftBehindIff(first: seq<Event>, user: string)
    requires Lives(INITIAL, first) && user in Outcome(INITIAL, first).w.p.online
    ensures var sys := Outcome(INITIAL, first);
            (exists more :: Lives(sys, more) && Spared(more, user) && user !in Outcome(sys, more).w.p.online)
            <==> Healable(sys, user)
  {
    InitialInv();
    LifeInv(INITIAL, first);
    var sys := Outcome(INITIAL, first);
    if Healable(sys, user) {
      var more := HealRun(sys, user);
    } else {
      forall more | Lives(sys, more) && Spared(more, user) ensures user in Outcome(sys, more).w.p.online {
        StaysOnlineForever(sys, more, user);
      }
    }
  }

  // ---- a removal that dies after its count ----

  /** No program of the user is left that a live process or a reclaim could move. */
  ghost predicate Frozen(sys: System, user: string) {
    forall c | OfUser(sys, user, c) ::
      if c in sys.dead then !Claiming(sys.w.procs[c].pc) else sys.w.procs[c].pc.Gone?
  }

  /** The user's entries: connections, online flag, tenant string and every tenant's index. */
  ghost predicate SameEntries(p: Presence, q: Presence, user: string) {
    && (forall c :: (user, c) in q.conns <==> (user, c) in p.conns)
    && (user in q.online <==> user in p.online)
    && TenantText(q, user) == TenantText(p, user)
    && forall t :: (t, user) in q.roster <==> (t, user) in p.roster
  }

  lemma FrozenStays(sys: System, e: Event, user: string)
    requires Inv(sys) && Able(sys, e) && Spares(e, user) && Frozen(sys, user)
    ensures Frozen(Following(sys, e), user) && SameEntries(sys.w.p, Following(sys, e).w.p, user)
  {
    var sys' := Following(sys, e);
    if e.Act? {
      var s := e.step;
      assert s.Connect? || sys.w.procs[s.conn].user != user by {
        assert !s.Connect? ==> s.conn !in sys.dead && !sys.w.procs[s.conn].pc.Gone?;
      }
      if s.Advance? {
        MoveFrame(sys.w.p, s.conn, sys.w.procs[s.conn], s.committed, user);
        MoveConns(sys.w.p, s.conn, sys.w.procs[s.conn], s.committed);
      }
    } else if e.Reclaim? {
      DeadClaims(sys, e.conn);
    }
  }

  lemma {:induction false} FrozenForever(sys: System, events: seq<Event>, user: string)
    requires Inv(sys) && Lives(sys, events) && Spared(events, user) && Frozen(sys, user)
    ensures SameEntries(sys.w.p, Outcome(sys, events).w.p, user)
    decreases |events|
  {
    if events != [] {
      assert events[0] in events && forall e | e in events[1..] :: e in events;
      FrozenStays(sys, events[0], user);
      EventInv(sys, events[0]);
      FrozenForever(Following(sys, events[0]), events[1..], user);
    }
  }

  /** After any run, what is stored of a frozen user stays as it is until they connect anew. */
  lemma FrozenUserStays(first: seq<Event>, more: seq<Event>, user: string)
    requires Lives(INITIAL, first) && Frozen(Outcome(INITIAL, first), user)
    requires Lives(Outcome(INITIAL, first), more) && Spared(more, user)
    ensures var sys := Outcome(INITIAL, first); SameEntries(sys.w.p, Outcome(sys, more).w.p, user)
  {
    InitialInv();
    LifeInv(INITIAL, first);
    FrozenForever(Outcome(INITIAL, first), more, user);
  }

  lemma Booted(i: string) returns (sys: System)
    ensures Able(INITIAL, Boot(i)) && Able(Following(INITIAL, Boot(i)), FinishBoot(i))
    ensures sys == Following(Following(INITIAL, Boot(i)), FinishBoot(i))
    ensures sys == System(START, {}, map[i := Up])
  {
    sys := Following(Following(INITIAL, Boot(i)), FinishBoot(i));
    assert OwnedBy(NOBODY, i) == {};
    assert sys.w.p.owned == {};
  }

  lemma Added1(sys: System, i: string, u: string, c: string, t: string) returns (events: seq<Event>, sys': System)
    requires sys == System(START, {}, map[i := Up]) && OWNER_SEPARATOR !in u
    ensures Lives(sys, events) && Outcome(sys, events) == sys' && sys'.dead == {} && sys'.modes == sys.modes
    ensures sys'.w.procs == map[c := Proc(u, Some(t), i, false, Live(1))]
    ensures sys'.w.p == Presence({(u, c)}, {u}, map[u := t], {(t, u)}, {(i, OwnerMember(u, c))})
  {
    var connect, add := Act(Connect(c, u, Some(t), i)), Act(Advance(c, true));
    var s1 := Following(sys, connect);
    sys' := Following(s1, add);
    assert sys'.w.p.conns == {(u, c)} && ConnsOf(sys'.w.p, u) == {c};
    LifeThen(s1, add, []);
    LifeThen(sys, connect, [add] + []);
    events := [connect] + ([add] + []);
  }

  /** The user's one connection is added and removed up to the count of 0. */
  lemma Counted0(sys: System, i: string, u: string, c: string, t: string) returns (events: seq<Event>, sys': System)
    requires sys == System(START, {}, map[i := Up]) && OWNER_SEPARATOR !in u
    ensures Lives(sys, events) && Outcome(sys, events) == sys' && sys'.dead == {}
    ensures sys'.w.procs == map[c := Proc(u, Some(t), i, false, ClearGet)]
    ensures sys'.w.p == Presence({}, {u}, map[u := t], {(t, u)}, {})
  {
    var first, s2 := Added1(sys, i, u, c, t);
    var leave, remove := Act(Disconnect(c, false)), Act(Advance(c, true));
    var s3 := Following(s2, leave);
    sys' := Following(s3, remove);
    assert sys'.w.p.conns == {} && sys'.w.p.owned == {};
    assert ConnsOf(sys'.w.p, u) == {};
    LifeThen(s3, remove, []);
    LifeThen(s2, leave, [remove] + []);
    LivesCompose(sys, first, [leave] + ([remove] + []));
    events := first + ([leave] + ([remove] + []));
  }

  /** From boot through some events, up to the crash that ends the instance. */
  lemma CrashAfter(i: string, events: seq<Event>, sys: System)
    requires var up := System(START, {}, map[i := Up]); Lives(up, events) && Outcome(up, events) == sys
    ensures exists all :: Lives(INITIAL, all) && Outcome(INITIAL, all) == Following(sys, Crash(i))
  {
    var up := Booted(i);
    LifeThen(sys, Crash(i), []);
    LivesCompose(up, events, [Crash(i)] + []);
    var all := events + ([Crash(i)] + []);
    LifeThen(Following(INITIAL, Boot(i)), FinishBoot(i), all);
    LifeThen(INITIAL, Boot(i), [FinishBoot(i)] + all);
    assert Outcome(INITIAL, [Boot(i)] + ([FinishBoot(i)] + all)) == Following(sys, Crash(i));
  }

  /** One dead connection, past all its claims: nothing of its user moves any more. */
  lemma DeadAndFrozen(sys: System, c: string, proc: Proc)
    requires sys.w.procs == map[c := proc] && sys.dead == {c} && !Holds(proc.pc) && !Claiming(proc.pc)
    ensures Frozen(sys, proc.user) && !Healable(sys, proc.user)
  {
  }

  /**
   * A process that dies between a removal's count and its cleanup leaves the user online and
   * in the tenant's index, holding nothing and claimed by nobody, out of reach of any reclaim.
   */
  lemma CrashLeavesUserOnline(i: string, u: string, c: string, t: string)
    requires OWNER_SEPARATOR !in u
    ensures exists events :: Lives(INITIAL, events)
              && var sys := Outcome(INITIAL, events);
                 && sys.w.p == Presence({}, {u}, map[u := t], {(t, u)}, {})
                 && Frozen(sys, u) && !Healable(sys, u)
  {
    var up := Booted(i);
    var events, sys := Counted0(up, i, u, c, t);
    CrashAfter(i, events, sys);
    DeadAndFrozen(Following(sys, Crash(i)), c, sys.w.procs[c]);
  }

  lemma LifeOfTwo(sys: System, a: Event, b: Event)
    requires Able(sys, a) && Able(Following(sys, a), b)
    ensures Lives(sys, [a, b]) && Outcome(sys, [a, b]) == Following(Following(sys, a), b)
  {
    LifeThen(Following(sys, a), b, []);
    assert [b] + [] == [b] && [a] + [b] == [a, b];
    LifeThen(sys, a, [b]);
  }

  /** The cleanup reads the tenant and its transaction is discarded. */
  lemma ClearDiscarded(sys: System, u: string, i: string, c: string, t: string)
    requires sys.w.procs == map[c := Proc(u, Some(t), i, false, ClearGet)] && sys.dead == {}
    requires u in sys.w.p.tenantOf && sys.w.p.tenantOf[u] == t
    ensures var events := [Act(Advance(c, true)), Act(Advance(c, false))];
            && Lives(sys, events) && Outcome(sys, events).w.p == sys.w.p && Outcome(sys, events).dead == {}
            && Outcome(sys, events).w.procs == map[c := Proc(u, Some(t), i, false, ClearDirect(Some(t), 0))]
  {
    LifeOfTwo(sys, Act(Advance(c, true)), Act(Advance(c, false)));
  }

  /** Its first two fallback commands: out of the online set, and the tenant string deleted. */
  lemma ClearsTwo(sys: System, u: string, i: string, c: string, t: string)
    requires sys.w.procs == map[c := Proc(u, Some(t), i, false, ClearDirect(Some(t), 0))] && sys.dead == {}
    requires sys.w.p == Presence({}, {u}, map[u := t], {(t, u)}, {})
    ensures var events := [Act(Advance(c, true)), Act(Advance(c, true))];
            && Lives(sys, events) && Outcome(sys, events).dead == {}
            && Outcome(sys, events).w.p == Presence({}, {}, map[], {(t, u)}, {})
            && Outcome(sys, events).w.procs == map[c := Proc(u, Some(t), i, false, ClearDirect(Some(t), 2))]
  {
    var once := Following(sys, Act(Advance(c, true)));
    assert once.w.p == Presence({}, {}, map[u := t], {(t, u)}, {});
    LifeOfTwo(sys, Act(Advance(c, true)), Act(Advance(c, true)));
    assert Following(once, Act(Advance(c, true))).w.p.tenantOf == map[];
  }

  /** A process that dies within a discarded cleanup leaves an offline user in the tenant's index. */
  lemma CrashLeavesTenantEntry(i: string, u: string, c: string, t: string)
    requires OWNER_SEPARATOR !in u
    ensures exists events :: Lives(INITIAL, events)
              && var sys := Outcome(INITIAL, events);
                 sys.w.p == Presence({}, {}, map[], {(t, u)}, {}) && Frozen(sys, u)
  {
    var up := Booted(i);
    var events, sys := Counted0(up, i, u, c, t);
    var read := [Act(Advance(c, true)), Act(Advance(c, false))];
    var clear := [Act(Advance(c, true)), Act(Advance(c, true))];
    ClearDiscarded(sys, u, i, c, t);
    LivesCompose(up, events, read);
    var begun := Outcome(sys, read);
    ClearsTwo(begun, u, i, c, t);
    LivesCompose(up, events + read, clear);
    var sys' := Outcome(begun, clear);
    CrashAfter(i, events + read + clear, sys');
    DeadAndFrozen(Following(sys', Crash(i)), c, sys'.w.procs[c]);
  }
}
