/**
 * When operations on one user never overlap, the shared entries are at rest exactly an
 * abstract map from users to connections: the connections whose connect hook completed
 * and whose removal has not begun. Operations on different users interleave freely, on
 * any instance, and any transaction may be discarded.
 */
module PresenceRefinement {
  import opened Options
  import opened RedisStore
  import opened PresenceKeys
  import opened PresenceModel
  import opened PresenceProtocol

  /** The abstract map. */
  function LiveConns(w: World, user: string): set<string> {
    set c | c in w.procs && w.procs[c].user == user && w.procs[c].pc.Live?
  }

  /** Nothing is under way for this user. */
  predicate Idle(w: World, user: string) {
    forall c | c in w.procs && w.procs[c].user == user :: Quiet(w.procs[c].pc)
  }

  predicate SameTenant(w: World, user: string, tenant: Option<string>) {
    forall c | c in w.procs && w.procs[c].user == user :: w.procs[c].tenant == tenant
  }

  /** An operation starts only while its user is idle, and a user keeps one tenant. */
  predicate Orderly(w: World, s: Step) {
    && Enabled(w, s)
    && (s.Connect? ==> Idle(w, s.user) && SameTenant(w, s.user, s.tenant))
    && (s.Disconnect? ==> Idle(w, w.procs[s.conn].user))
  }

  predicate OrderlyRun(w: World, steps: seq<Step>)
    decreases |steps|
  {
    steps == [] || (Orderly(w, steps[0]) && OrderlyRun(Next(w, steps[0]), steps[1..]))
  }

  // ---- which entries a program counter accounts for ----

  predicate InOnline(pc: Pc) {
    pc.AddCount? || pc.Live? || pc.RemoveExec? || pc.RemoveDirect? || pc.RemoveCount? || pc.ClearGet?
    || pc.ClearExec? || (pc.AddDirect? && pc.next >= 2) || (pc.ClearDirect? && pc.next == 0)
  }

  predicate InText(pc: Pc) {
    pc.AddCount? || pc.Live? || pc.RemoveExec? || pc.RemoveDirect? || pc.RemoveCount? || pc.ClearGet?
    || pc.ClearExec? || (pc.AddDirect? && pc.next >= 4) || (pc.ClearDirect? && pc.next <= 1)
  }

  predicate InRoster(pc: Pc) {
    pc.AddCount? || pc.Live? || pc.RemoveExec? || pc.RemoveDirect? || pc.RemoveCount? || pc.ClearGet?
    || pc.ClearExec? || (pc.AddDirect? && pc.next >= 5) || (pc.ClearDirect? && pc.next <= 2)
  }

  predicate Clearing(pc: Pc) {
    pc.ClearGet? || pc.ClearExec? || pc.ClearDirect?
  }

  predicate OtherLive(w: World, user: string, c: string) {
    exists d :: d in w.procs && d != c && w.procs[d].user == user && w.procs[d].pc.Live?
  }

  predicate InRange(proc: Proc) {
    match proc.pc
    case AddDirect(n) => n < if proc.tenant.Some? then 5 else 3
    case RemoveDirect(n) => n < 2
    case ClearExec(t) => t == proc.tenant
    case ClearDirect(t, n) => t == proc.tenant && n < if t.Some? then 3 else 2
    case _ => true
  }

  /** What the indexes say of a user, given what their programs account for. */
  ghost predicate Indexed(p: Presence, user: string, tenant: Option<string>,
                          online: bool, text: bool, roster: bool) {
    && (user in p.online <==> online)
    && TenantText(p, user) == (if text then tenant else None)
    && (forall t :: (t, user) in p.roster <==> roster && tenant == Some(t))
  }

  /** `c` is what its user is busy with, or the user is idle. */
  predicate Focus(w: World, c: string)
    requires c in w.procs
  {
    !Quiet(w.procs[c].pc) || Idle(w, w.procs[c].user)
  }

  ghost predicate IndexedBy(w: World, c: string)
    requires c in w.procs
  {
    var proc := w.procs[c];
    var other := OtherLive(w, proc.user, c);
    Indexed(w.p, proc.user, proc.tenant, other || InOnline(proc.pc), other || InText(proc.pc),
            other || InRoster(proc.pc))
  }

  ghost predicate AllIndexed(w: World) {
    && (forall c | c in w.procs && Focus(w, c) :: IndexedBy(w, c))
    && (forall u | NewUser(w, u) :: Indexed(w.p, u, None, false, false, false))
  }

  ghost predicate NewUser(w: World, user: string) {
    forall c | c in w.procs :: w.procs[c].user != user
  }

  ghost predicate Sequenced(w: World) {
    && (forall c, d | c in w.procs && d in w.procs && c != d && w.procs[c].user == w.procs[d].user ::
          && w.procs[c].tenant == w.procs[d].tenant
          && (Quiet(w.procs[c].pc) || Quiet(w.procs[d].pc))
          && (Clearing(w.procs[c].pc) ==> w.procs[d].pc.Gone?))
    && (forall c | c in w.procs :: InRange(w.procs[c]))
  }

  ghost predicate Refines(w: World) {
    HoldsExactly(w) && Sequenced(w) && AllIndexed(w)
  }

  /** The user holds `c` or not, and others or not, as the counters say. */
  ghost predicate Counted(p: Presence, c: string, proc: Proc, other: bool) {
    && (Holds(proc.pc) <==> c in ConnsOf(p, proc.user))
    && (other <==> ConnsOf(p, proc.user) - {c} != {})
    && (Clearing(proc.pc) ==> !other)
  }

  /** The counts a step reports, and where it goes when it finds nobody left. */
  lemma MoveReports(p: Presence, c: string, proc: Proc, committed: bool)
    requires !Quiet(proc.pc)
    ensures var (p', pc') := Move(p, c, proc, committed);
            && (pc'.Live? ==> pc'.count == LiveCount(p', proc.user))
            && (pc'.Gone? ==> if Clearing(proc.pc) then pc'.count == 0
                              else pc'.count == LiveCount(p', proc.user) > 0)
            && (Clearing(pc') && !Clearing(proc.pc) ==> LiveCount(p', proc.user) == 0)
            && (Clearing(proc.pc) ==> !Holds(pc') && p'.conns == p.conns && (Clearing(pc') || pc'.Gone?))
  {
  }

  lemma MoveCounted(p: Presence, c: string, proc: Proc, committed: bool, other: bool)
    requires !Quiet(proc.pc) && Counted(p, c, proc, other)
    ensures var (p', pc') := Move(p, c, proc, committed);
            && Counted(p', c, proc.(pc := pc'), other)
            && (Quiet(pc') ==> pc'.count == LiveCount(p', proc.user))
            && (pc'.Gone? && !Clearing(proc.pc) ==> other)
  {
    var (p', pc') := Move(p, c, proc, committed);
    MoveConns(p, c, proc, committed);
    MoveReports(p, c, proc, committed);
    CountedAfter(p, p', c, proc, pc', other);
  }

  lemma CountedAfter(p: Presence, p': Presence, c: string, proc: Proc, pc': Pc, other: bool)
    requires Counted(p, c, proc, other)
    requires p'.conns == if Holds(pc') then (if Holds(proc.pc) then p.conns else p.conns + {(proc.user, c)})
                         else if Holds(proc.pc) then p.conns - {(proc.user, c)} else p.conns
    requires Clearing(pc') && !Clearing(proc.pc) ==> LiveCount(p', proc.user) == 0
    requires Clearing(proc.pc) ==> !Holds(pc')
    ensures Counted(p', c, proc.(pc := pc'), other)
    ensures !other && !Holds(pc') ==> LiveCount(p', proc.user) == 0
  {
    var before, after := ConnsOf(p, proc.user), ConnsOf(p', proc.user);
    assert after - {c} == before - {c};
    assert c in after <==> Holds(pc');
    assert !other && !Holds(pc') ==> after == {};
  }

  lemma MoveOnlineBit(p: Presence, c: string, proc: Proc, committed: bool)
    requires InRange(proc)
    ensures var (p', _) := Move(p, c, proc, committed); var pc := proc.pc;
            proc.user in p'.online <==>
              if (pc.AddExec? && committed) || pc == AddDirect(1) then true
              else if ClearsOnline(proc, committed) then false
              else proc.user in p.online
  {
  }

  lemma MoveInOnline(p: Presence, c: string, proc: Proc, committed: bool, other: bool)
    requires !Quiet(proc.pc) && InRange(proc) && Counted(p, c, proc, other)
    requires proc.user in p.online <==> other || InOnline(proc.pc)
    ensures var (p', pc') := Move(p, c, proc, committed);
            proc.user in p'.online <==> other || InOnline(pc')
  {
    MoveCounted(p, c, proc, committed, other);
    MoveOnlineBit(p, c, proc, committed);
  }

  lemma MoveText(p: Presence, c: string, proc: Proc, committed: bool)
    requires InRange(proc) && !Quiet(proc.pc)
    ensures var (p', pc') := Move(p, c, proc, committed); var pc := proc.pc;
            && (pc != ClearGet ==> InRange(proc.(pc := pc')))
            && (pc == ClearGet ==> pc' == ClearExec(TenantText(p, proc.user)))
            && TenantText(p', proc.user)
                 == if ((pc.AddExec? && committed) || pc == AddDirect(3)) && proc.tenant.Some? then proc.tenant
                    else if (pc.ClearExec? && committed) || (pc.ClearDirect? && pc.next == 1) then None
                    else TenantText(p, proc.user)
  {
  }

  lemma MoveInText(p: Presence, c: string, proc: Proc, committed: bool, other: bool)
    requires !Quiet(proc.pc) && InRange(proc) && Counted(p, c, proc, other)
    requires TenantText(p, proc.user) == if other || InText(proc.pc) then proc.tenant else None
    ensures var (p', pc') := Move(p, c, proc, committed);
            && InRange(proc.(pc := pc'))
            && TenantText(p', proc.user) == if other || InText(pc') then proc.tenant else None
  {
    var (p', pc') := Move(p, c, proc, committed);
    MoveCounted(p, c, proc, committed, other);
    MoveText(p, c, proc, committed);
    assert pc'.Gone? && !Clearing(proc.pc) ==> other;
  }

  lemma MoveRoster(p: Presence, c: string, proc: Proc, committed: bool, t: string)
    requires InRange(proc)
    ensures var (p', _) := Move(p, c, proc, committed); var pc := proc.pc;
            (t, proc.user) in p'.roster <==>
              if proc.tenant != Some(t) then (t, proc.user) in p.roster
              else if (pc.AddExec? && committed) || pc == AddDirect(4) then true
              else if (pc.ClearExec? && committed) || (pc.ClearDirect? && pc.next == 2) then false
              else (t, proc.user) in p.roster
  {
  }

  lemma MoveInRoster(p: Presence, c: string, proc: Proc, committed: bool, other: bool, t: string)
    requires !Quiet(proc.pc) && InRange(proc) && Counted(p, c, proc, other)
    requires (t, proc.user) in p.roster <==> (other || InRoster(proc.pc)) && proc.tenant == Some(t)
    ensures var (p', pc') := Move(p, c, proc, committed);
            (t, proc.user) in p'.roster <==> (other || InRoster(pc')) && proc.tenant == Some(t)
  {
    var (p', pc') := Move(p, c, proc, committed);
    MoveCounted(p, c, proc, committed, other);
    MoveRoster(p, c, proc, committed, t);
    if proc.tenant == Some(t) && !other {
      assert pc'.Gone? ==> Clearing(proc.pc);
    }
  }

  /** With nothing else under way for the user, one step keeps the accounting right. */
  lemma MoveIndexes(p: Presence, c: string, proc: Proc, committed: bool, other: bool)
    requires !Quiet(proc.pc) && InRange(proc) && Counted(p, c, proc, other)
    requires Indexed(p, proc.user, proc.tenant, other || InOnline(proc.pc), other || InText(proc.pc),
                     other || InRoster(proc.pc))
    ensures var (p', pc') := Move(p, c, proc, committed);
            && InRange(proc.(pc := pc'))
            && Indexed(p', proc.user, proc.tenant, other || InOnline(pc'), other || InText(pc'),
                       other || InRoster(pc'))
  {
    MoveInOnline(p, c, proc, committed, other);
    MoveInText(p, c, proc, committed, other);
    var (p', pc') := Move(p, c, proc, committed);
    forall t ensures (t, proc.user) in p'.roster <==> (other || InRoster(pc')) && proc.tenant == Some(t) {
      MoveInRoster(p, c, proc, committed, other, t);
    }
  }

  /** A step for one user leaves every other user's entries alone. */
  lemma MoveFrame(p: Presence, c: string, proc: Proc, committed: bool, v: string)
    requires v != proc.user
    ensures var (p', _) := Move(p, c, proc, committed);
            && (v in p'.online <==> v in p.online)
            && TenantText(p', v) == TenantText(p, v)
            && (forall t :: (t, v) in p'.roster <==> (t, v) in p.roster)
  {
  }

  lemma BusyCounted(w: World, c: string)
    requires HoldsExactly(w) && Sequenced(w) && c in w.procs && !Quiet(w.procs[c].pc)
    ensures Counted(w.p, c, w.procs[c], OtherLive(w, w.procs[c].user, c))
  {
    var user := w.procs[c].user;
    assert c in ConnsOf(w.p, user) <==> (user, c) in w.p.conns;
    if d :| d in w.procs && d != c && w.procs[d].user == user && w.procs[d].pc.Live? {
      assert (user, d) in w.p.conns && d in ConnsOf(w.p, user) - {c};
    }
    if d :| d in ConnsOf(w.p, user) - {c} {
      assert (user, d) in w.p.conns;
    }
  }

  lemma SameOthers(w: World, s: Step)
    requires Enabled(w, s)
    ensures var user := Next(w, s).procs[s.conn].user;
            OtherLive(Next(w, s), user, s.conn) <==> OtherLive(w, user, s.conn)
  {
    var w' := Next(w, s);
    var user := w'.procs[s.conn].user;
    if d :| d in w.procs && d != s.conn && w.procs[d].user == user && w.procs[d].pc.Live? {
      assert w'.procs[d] == w.procs[d];
    }
    if d :| d in w'.procs && d != s.conn && w'.procs[d].user == user && w'.procs[d].pc.Live? {
      assert d in w.procs && w'.procs[d] == w.procs[d];
    }
  }

  /** A step for one user leaves every other user's programs alone. */
  lemma OtherPrograms(w: World, s: Step, v: string)
    requires Enabled(w, s) && Next(w, s).procs[s.conn].user != v
    ensures var w' := Next(w, s);
            && (forall d :: d in w.procs && w.procs[d].user == v <==> d in w'.procs && w'.procs[d].user == v)
            && forall d | d in w.procs && w.procs[d].user == v :: w'.procs[d] == w.procs[d]
  {
  }

  lemma OtherUser(w: World, s: Step, c: string)
    requires Enabled(w, s) && c in w.procs && Next(w, s).procs[s.conn].user != w.procs[c].user
    ensures Focus(Next(w, s), c) <==> Focus(w, c)
    ensures IndexedBy(Next(w, s), c) <==> IndexedBy(w, c)
  {
    var w', v := Next(w, s), w.procs[c].user;
    OtherPrograms(w, s, v);
    assert OtherLive(w', v, c) <==> OtherLive(w, v, c);
    if s.Advance? {
      MoveFrame(w.p, s.conn, w.procs[s.conn], s.committed, v);
    }
  }

  lemma AdvanceSequenced(w: World, s: Step)
    requires Refines(w) && Orderly(w, s) && s.Advance?
    ensures Sequenced(Next(w, s)) && IndexedBy(Next(w, s), s.conn)
    ensures var proc := Next(w, s).procs[s.conn];
            Quiet(proc.pc) ==> proc.pc.count == LiveCount(Next(w, s).p, proc.user)
  {
    var c, proc := s.conn, w.procs[s.conn];
    var other := OtherLive(w, proc.user, c);
    BusyCounted(w, c);
    assert IndexedBy(w, c);
    MoveCounted(w.p, c, proc, s.committed, other);
    MoveIndexes(w.p, c, proc, s.committed, other);
    SameOthers(w, s);
    NowClearing(w, s);
  }

  /** A removal that finds nobody left is alone with its user. */
  lemma NowClearing(w: World, s: Step)
    requires Sequenced(w) && Orderly(w, s) && s.Advance?
    requires InRange(Next(w, s).procs[s.conn])
    requires Clearing(Next(w, s).procs[s.conn].pc) ==> !OtherLive(w, w.procs[s.conn].user, s.conn)
    ensures Sequenced(Next(w, s))
  {
    var w', c := Next(w, s), s.conn;
    if Clearing(w'.procs[c].pc) {
      forall d | d in w'.procs && d != c && w'.procs[d].user == w'.procs[c].user ensures w'.procs[d].pc.Gone? {
        assert w'.procs[d] == w.procs[d];
      }
    }
  }

  lemma StartSequenced(w: World, s: Step)
    requires Sequenced(w) && Orderly(w, s) && !s.Advance?
    ensures Sequenced(Next(w, s))
  {
    var w' := Next(w, s);
    assert InRange(w'.procs[s.conn]) && !Clearing(w'.procs[s.conn].pc);
    forall d | d in w'.procs && d != s.conn && w'.procs[d].user == w'.procs[s.conn].user
      ensures Quiet(w'.procs[d].pc) && w'.procs[d].tenant == w'.procs[s.conn].tenant
    {
      assert w'.procs[d] == w.procs[d];
    }
  }

  /** Between operations a user is indexed exactly when some connection is live. */
  lemma IdleIndexed(w: World, user: string, tenant: Option<string>)
    requires AllIndexed(w) && Idle(w, user) && SameTenant(w, user, tenant)
    ensures var live := LiveConns(w, user) != {}; Indexed(w.p, user, tenant, live, live, live)
  {
    if c :| c in w.procs && w.procs[c].user == user {
      assert Focus(w, c) && IndexedBy(w, c);
      IdleLive(w, c);
    } else {
      assert NewUser(w, user);
      assert LiveConns(w, user) == {};
    }
  }

  lemma IdleLive(w: World, c: string)
    requires c in w.procs && Quiet(w.procs[c].pc)
    ensures OtherLive(w, w.procs[c].user, c) || w.procs[c].pc.Live? <==> LiveConns(w, w.procs[c].user) != {}
  {
    if d :| d in LiveConns(w, w.procs[c].user) {
      assert d == c || OtherLive(w, w.procs[c].user, c);
    }
    if d :| d in w.procs && w.procs[d].user == w.procs[c].user && w.procs[d].pc.Live? {
      assert d in LiveConns(w, w.procs[c].user);
    }
  }

  lemma StartIndexed(w: World, s: Step)
    requires Refines(w) && Orderly(w, s) && !s.Advance?
    ensures IndexedBy(Next(w, s), s.conn)
  {
    var c, w' := s.conn, Next(w, s);
    var proc := w'.procs[c];
    SameOthers(w, s);
    if s.Disconnect? {
      assert Focus(w, c) && IndexedBy(w, c);
    } else {
      IdleIndexed(w, proc.user, proc.tenant);
      if d :| d in LiveConns(w, proc.user) {
        assert OtherLive(w, proc.user, c);
      }
      if OtherLive(w, proc.user, c) {
        var d :| d in w.procs && d != c && w.procs[d].user == proc.user && w.procs[d].pc.Live?;
        assert d in LiveConns(w, proc.user);
      }
    }
  }

  /** If an idle user is rightly indexed seen from one connection, so from any other. */
  lemma SeenFrom(w: World, c: string, d: string)
    requires c in w.procs && d in w.procs && w.procs[c].user == w.procs[d].user
    requires w.procs[c].tenant == w.procs[d].tenant && Idle(w, w.procs[c].user) && IndexedBy(w, c)
    ensures IndexedBy(w, d)
  {
    IdleLive(w, c);
    IdleLive(w, d);
  }

  lemma StepIndexed(w: World, s: Step)
    requires Refines(w) && Orderly(w, s) && Sequenced(Next(w, s)) && IndexedBy(Next(w, s), s.conn)
    ensures AllIndexed(Next(w, s))
  {
    var w' := Next(w, s);
    forall c | c in w'.procs && Focus(w', c) ensures IndexedBy(w', c) {
      if w'.procs[c].user != w'.procs[s.conn].user {
        OtherUser(w, s, c);
      } else if c != s.conn {
        assert Idle(w', w'.procs[c].user);
        SeenFrom(w', s.conn, c);
      }
    }
    StrangersAbsent(w, s);
  }

  lemma StrangersAbsent(w: World, s: Step)
    requires AllIndexed(w) && Enabled(w, s)
    ensures forall u | NewUser(Next(w, s), u) :: Indexed(Next(w, s).p, u, None, false, false, false)
  {
    var w' := Next(w, s);
    assert forall c | c in w.procs :: c in w'.procs && w'.procs[c].user == w.procs[c].user;
    forall u | NewUser(w', u) ensures Indexed(w'.p, u, None, false, false, false) {
      assert NewUser(w, u);
      if s.Advance? {
        MoveFrame(w.p, s.conn, w.procs[s.conn], s.committed, u);
      }
    }
  }

  lemma StepRefines(w: World, s: Step)
    requires Refines(w) && Orderly(w, s)
    ensures Refines(Next(w, s))
  {
    StepHolds(w, s);
    if s.Advance? {
      AdvanceSequenced(w, s);
    } else {
      StartSequenced(w, s);
      StartIndexed(w, s);
    }
    StepIndexed(w, s);
  }

  lemma {:induction false} RunRefines(w: World, steps: seq<Step>)
    requires OrderlyRun(w, steps) && Refines(w)
    ensures Runs(w, steps) && Refines(After(w, steps))
    decreases |steps|
  {
    if steps != [] {
      StepRefines(w, steps[0]);
      RunRefines(Next(w, steps[0]), steps[1..]);
    }
  }

  lemma IdleConns(w: World, user: string)
    requires Refines(w) && Idle(w, user)
    ensures ConnsOf(w.p, user) == LiveConns(w, user)
  {
    forall c ensures c in ConnsOf(w.p, user) <==> c in LiveConns(w, user) {
      assert c in ConnsOf(w.p, user) <==> (user, c) in w.p.conns;
    }
  }

  lemma OneTenant(w: World, user: string) returns (tenant: Option<string>)
    requires Sequenced(w)
    ensures SameTenant(w, user, tenant)
  {
    tenant := None;
    if c :| c in w.procs && w.procs[c].user == user {
      tenant := w.procs[c].tenant;
    }
  }

  /**
   * The refinement: after any orderly run, an idle user's entries are the abstract
   * ones, whatever the operations of other users are doing meanwhile.
   */
  lemma IdleUserAgrees(steps: seq<Step>, user: string)
    requires OrderlyRun(START, steps)
    requires Runs(START, steps) && Idle(After(START, steps), user)
    ensures var w := After(START, steps); var live := LiveConns(w, user) != {};
            && ConnsOf(w.p, user) == LiveConns(w, user)
            && exists tenant :: SameTenant(w, user, tenant) && Indexed(w.p, user, tenant, live, live, live)
  {
    RunRefines(START, steps);
    var w := After(START, steps);
    IdleConns(w, user);
    var tenant := OneTenant(w, user);
    IdleIndexed(w, user, tenant);
  }

  /** A completed add or removal returns the size of the abstract connection set. */
  lemma ReturnedCountAgrees(steps: seq<Step>, s: Step)
    requires OrderlyRun(START, steps) && Runs(START, steps) && Orderly(After(START, steps), s) && s.Advance?
    requires Quiet(Next(After(START, steps), s).procs[s.conn].pc)
    ensures var w := Next(After(START, steps), s);
            w.procs[s.conn].pc.count == |LiveConns(w, w.procs[s.conn].user)|
  {
    RunRefines(START, steps);
    var w := After(START, steps);
    AdvanceSequenced(w, s);
    StepRefines(w, s);
    var w' := Next(w, s);
    var user := w'.procs[s.conn].user;
    forall c | c in w'.procs && w'.procs[c].user == user ensures Quiet(w'.procs[c].pc) {
      assert c != s.conn ==> w'.procs[c] == w.procs[c];
    }
    IdleConns(w', user);
  }

  /** At rest the answers of the queries are those of the abstract map. */
  lemma QueriesAgree(steps: seq<Step>, user: string, tenant: string)
    requires OrderlyRun(START, steps) && Runs(START, steps) && Quiescent(After(START, steps))
    ensures var w := After(START, steps); var live := LiveConns(w, user);
            && ConnsOf(w.p, user) == live
            && (user in w.p.online <==> live != {})
            && (user in RosterOf(w.p, tenant) <==> exists c :: c in live && w.procs[c].tenant == Some(tenant))
  {
    var w := After(START, steps);
    IdleUserAgrees(steps, user);
    var live := LiveConns(w, user);
    var home :| SameTenant(w, user, home) && Indexed(w.p, user, home, live != {}, live != {}, live != {});
    RosteredAs(w, user, tenant, home);
  }

  lemma RosteredAs(w: World, user: string, tenant: string, home: Option<string>)
    requires SameTenant(w, user, home)
    requires (tenant, user) in w.p.roster <==> LiveConns(w, user) != {} && home == Some(tenant)
    ensures user in RosterOf(w.p, tenant)
       <==> exists c :: c in LiveConns(w, user) && w.procs[c].tenant == Some(tenant)
  {
    assert user in RosterOf(w.p, tenant) <==> (tenant, user) in w.p.roster;
    if c :| c in LiveConns(w, user) {
      assert w.procs[c].tenant == home;
    }
  }

  /** `countOnline` is the number of users with a live connection. */
  lemma CountAgrees(steps: seq<Step>)
    requires OrderlyRun(START, steps) && Runs(START, steps) && Quiescent(After(START, steps))
    ensures var w := After(START, steps);
            |w.p.online| == |set c | c in w.procs && w.procs[c].pc.Live? :: w.procs[c].user|
  {
    var w := After(START, steps);
    var users := set c | c in w.procs && w.procs[c].pc.Live? :: w.procs[c].user;
    forall u ensures u in w.p.online <==> u in users {
      QueriesAgree(steps, u, "");
      if c :| c in LiveConns(w, u) {}
      if c :| c in w.procs && w.procs[c].pc.Live? && w.procs[c].user == u {
        assert c in LiveConns(w, u);
      }
    }
    assert w.p.online == users;
  }
}
