/**
 * The machine of crashes and the machine of ownership are one: every run of the first is a
 * run of the second on the same connection sets and instance sets. And what the first says
 * of its state holds of the strings in Redis.
 */
module PresenceRestarts {
  import opened Options
  import opened RedisStore
  import opened PresenceKeys
  import opened PresenceModel
  import opened PresenceProtocol
  import opened PresenceRefinement
  import opened PresenceClaims
  import opened PresenceKeyed
  import opened PresenceCrashes
  import O = PresenceOwnership

  // ---- what the ownership machine sees of a system ----

  predicate AliveAt(sys: System, i: string, u: string, c: string) {
    c in sys.w.procs && c !in sys.dead && sys.w.procs[c].inst == i && sys.w.procs[c].user == u
  }

  /** The pair is written, its claim is not. */
  predicate Unclaimed(pc: Pc) {
    Holds(pc) && !Claiming(pc)
  }

  /** The pair is withdrawn, its claim is not. */
  predicate Unpaired(pc: Pc) {
    Claiming(pc) && !Holds(pc)
  }

  predicate Begun(pc: Pc) {
    !pc.AddExec? && pc != AddDirect(0)
  }

  predicate UnpairedBy(w: World, i: string, m: string, c: string) {
    ClaimedBy(w, i, m, c) && Unpaired(w.procs[c].pc)
  }

  ghost predicate SamePhases(sys: System, v: O.Cluster) {
    forall i :: (ModeOf(sys, i) == Down <==> O.PhaseOf(v, i) == O.Down)
             && (ModeOf(sys, i) == Up <==> O.PhaseOf(v, i) == O.Up)
  }

  ghost predicate SameMemory(sys: System, v: O.Cluster) {
    && (forall i, u, c :: (i, u, c) in v.serving
          <==> AliveAt(sys, i, u, c) && ModeOf(sys, i) == Up && Claiming(sys.w.procs[c].pc))
    && (forall i, u, c :: (i, u, c) in v.adding <==> AliveAt(sys, i, u, c) && Unclaimed(sys.w.procs[c].pc))
  }

  ghost predicate SameHalves(sys: System, v: O.Cluster) {
    && (forall u, c :: (u, c) in v.orphans
          <==> c in sys.w.procs && sys.w.procs[c].user == u && Unclaimed(sys.w.procs[c].pc))
    && (forall i, m :: (i, m) in v.unpaired <==> exists c :: UnpairedBy(sys.w, i, m, c))
    && (forall c :: c in v.used <==> c in sys.w.procs && Begun(sys.w.procs[c].pc))
  }

  /** The cluster `v` is what the ownership machine sees of `sys`. */
  ghost predicate Seen(sys: System, v: O.Cluster) {
    && v.p.conns == sys.w.p.conns && v.p.owned == sys.w.p.owned
    && SamePhases(sys, v) && SameMemory(sys, v) && SameHalves(sys, v)
  }

  // ---- which ownership step an event is, if any ----

  predicate Same(a: Pc, b: Pc) {
    (Holds(a) <==> Holds(b)) && (Claiming(a) <==> Claiming(b)) && (Begun(a) <==> Begun(b))
  }

  /** A program's step as the ownership machine names it, by what it changes. */
  function NameOf(proc: Proc, c: string, mode: Mode, pc': Pc): O.Step {
    var member := OwnerMember(proc.user, c);
    if !Claiming(proc.pc) && !Holds(proc.pc) then
      (if Claiming(pc') then O.Connect(proc.inst, proc.user, c, proc.tenant)
       else O.ConnectHalf(proc.inst, proc.user, c))
    else if !Claiming(proc.pc) then O.ConnectRest(proc.inst, proc.user, c)
    else if Claiming(pc') then
      (if mode == Up then O.DisconnectHalf(proc.inst, proc.user, c) else O.ReclaimHalf(proc.inst, member))
    else if mode == Up then O.Disconnect(proc.inst, proc.user, c)
    else O.Reclaim(proc.inst, member)
  }

  /** The first write, the claim of an addition, or a withdrawal. */
  predicate Changes(pc: Pc, pc': Pc) {
    || (!Leaving(pc) && !Begun(pc) && Begun(pc') && !Claiming(pc) && !Holds(pc) && Holds(pc'))
    || (!Leaving(pc) && Begun(pc) && Begun(pc') && Unclaimed(pc) && Claiming(pc') && Holds(pc'))
    || Withdraws(pc, pc')
  }

  lemma MoveChanges(p: Presence, c: string, proc: Proc, committed: bool)
    requires !Quiet(proc.pc)
    ensures var pc' := Move(p, c, proc, committed).1; Same(proc.pc, pc') || Changes(proc.pc, pc')
  {
  }

  lemma OwnUnpaired(w: World, c: string)
    requires PlainProcs(w) && c in w.procs
    ensures (exists d :: UnpairedBy(w, w.procs[c].inst, OwnerMember(w.procs[c].user, c), d))
       <==> Unpaired(w.procs[c].pc)
  {
    var i, m := w.procs[c].inst, OwnerMember(w.procs[c].user, c);
    if Unpaired(w.procs[c].pc) {
      assert UnpairedBy(w, i, m, c);
    } else {
      OnlyClaimant(w, i, m, c);
      assert forall d | UnpairedBy(w, i, m, d) :: ClaimedBy(w, i, m, d);
    }
  }

  /** A claim is unpaired after a step of `c` as before, except its own. */
  lemma UnpairedAfter(w: World, w': World, c: string)
    requires PlainProcs(w) && c in w.procs && w'.procs.Keys == w.procs.Keys
    requires w'.procs[c].user == w.procs[c].user && w'.procs[c].inst == w.procs[c].inst
    requires forall d | d in w.procs && d != c :: w'.procs[d] == w.procs[d]
    ensures var own := (w.procs[c].inst, OwnerMember(w.procs[c].user, c));
            && ((exists d :: UnpairedBy(w', own.0, own.1, d)) <==> Unpaired(w'.procs[c].pc))
            && ((exists d :: UnpairedBy(w, own.0, own.1, d)) <==> Unpaired(w.procs[c].pc))
            && forall i, m | (i, m) != own ::
                 (exists d :: UnpairedBy(w', i, m, d)) <==> (exists d :: UnpairedBy(w, i, m, d))
  {
    OwnUnpaired(w, c);
    assert PlainProcs(w');
    OwnUnpaired(w', c);
    forall j, n | (j, n) != (w.procs[c].inst, OwnerMember(w.procs[c].user, c))
      ensures (exists d :: UnpairedBy(w', j, n, d)) <==> (exists d :: UnpairedBy(w, j, n, d))
    {
      assert forall d :: UnpairedBy(w', j, n, d) <==> UnpairedBy(w, j, n, d);
    }
  }

  /** Connection `c`, alive, moved, and the stored pair and claim are what its counter says. */
  ghost predicate Moved(sys: System, sys': System, c: string) {
    && c in sys.w.procs && c in sys'.w.procs && c !in sys.dead && sys'.dead == sys.dead && sys'.modes == sys.modes
    && sys'.w.procs == sys.w.procs[c := sys.w.procs[c].(pc := sys'.w.procs[c].pc)]
    && (var proc, pc' := sys.w.procs[c], sys'.w.procs[c].pc;
        var pair, claim := (proc.user, c), (proc.inst, OwnerMember(proc.user, c));
        && sys'.w.p.conns == (if Holds(pc') then sys.w.p.conns + {pair} else sys.w.p.conns - {pair})
        && sys'.w.p.owned == (if Claiming(pc') then sys.w.p.owned + {claim} else sys.w.p.owned - {claim}))
  }

  lemma AdvanceMoves(sys: System, s: Step)
    requires Inv(sys) && CanAct(sys, s) && s.Advance?
    ensures Moved(sys, Following(sys, Act(s)), s.conn)
  {
    var c, proc := s.conn, sys.w.procs[s.conn];
    MoveConns(sys.w.p, c, proc, s.committed);
    MoveOwned(sys.w.p, c, proc, s.committed);
    DeadClaims(sys, c);
  }

  /** What the ownership machine holds of an alive connection is what its counter says. */
  predicate Agrees(proc: Proc, c: string, mode: Mode, v: O.Cluster) {
    var own, pair := (proc.inst, proc.user, c), (proc.user, c);
    var claim := (proc.inst, OwnerMember(proc.user, c));
    && (own in v.serving <==> mode == Up && Claiming(proc.pc))
    && (own in v.adding <==> Unclaimed(proc.pc)) && (pair in v.orphans <==> Unclaimed(proc.pc))
    && (claim in v.unpaired <==> Unpaired(proc.pc)) && (c in v.used <==> Begun(proc.pc))
    && (pair in v.p.conns <==> Holds(proc.pc)) && (claim in v.p.owned <==> Claiming(proc.pc))
  }

  function With<T(==)>(s: set<T>, x: T, there: bool): set<T> {
    if there then s + {x} else s - {x}
  }

  /** Nothing but what is held of `c` changed, and that to what the counter `pc'` says. */
  predicate Updated(proc: Proc, c: string, mode: Mode, v: O.Cluster, pc': Pc, v': O.Cluster) {
    var own, pair := (proc.inst, proc.user, c), (proc.user, c);
    var claim := (proc.inst, OwnerMember(proc.user, c));
    && v'.serving == With(v.serving, own, mode == Up && Claiming(pc'))
    && v'.adding == With(v.adding, own, Unclaimed(pc')) && v'.orphans == With(v.orphans, pair, Unclaimed(pc'))
    && v'.unpaired == With(v.unpaired, claim, Unpaired(pc')) && v'.used == With(v.used, c, Begun(pc'))
    && v'.p.conns == With(v.p.conns, pair, Holds(pc')) && v'.p.owned == With(v.p.owned, claim, Claiming(pc'))
  }

  lemma SeenAgrees(sys: System, v: O.Cluster, c: string)
    requires Inv(sys) && Seen(sys, v) && c in sys.w.procs && c !in sys.dead
    ensures Agrees(sys.w.procs[c], c, ModeOf(sys, sys.w.procs[c].inst), v)
  {
    var proc := sys.w.procs[c];
    assert AliveAt(sys, proc.inst, proc.user, c);
    OwnUnpaired(sys.w, c);
    DeadClaims(sys, c);
  }

  lemma HalvesSeen(sys: System, v: O.Cluster, sys': System, v': O.Cluster, c: string)
    requires PlainProcs(sys.w) && Moved(sys, sys', c) && SameHalves(sys, v)
    requires Updated(sys.w.procs[c], c, ModeOf(sys, sys.w.procs[c].inst), v, sys'.w.procs[c].pc, v')
    ensures SameHalves(sys', v')
  {
    UnpairedSeen(sys, v, sys', v', c);
  }

  lemma UnpairedSeen(sys: System, v: O.Cluster, sys': System, v': O.Cluster, c: string)
    requires PlainProcs(sys.w) && Moved(sys, sys', c)
    requires forall i, m :: (i, m) in v.unpaired <==> exists d :: UnpairedBy(sys.w, i, m, d)
    requires v'.unpaired == With(v.unpaired, (sys.w.procs[c].inst, OwnerMember(sys.w.procs[c].user, c)),
                                 Unpaired(sys'.w.procs[c].pc))
    ensures forall i, m :: (i, m) in v'.unpaired <==> exists d :: UnpairedBy(sys'.w, i, m, d)
  {
    UnpairedAfter(sys.w, sys'.w, c);
  }

  lemma MemorySeen(sys: System, v: O.Cluster, sys': System, v': O.Cluster, c: string)
    requires Moved(sys, sys', c) && SameMemory(sys, v)
    requires Updated(sys.w.procs[c], c, ModeOf(sys, sys.w.procs[c].inst), v, sys'.w.procs[c].pc, v')
    ensures SameMemory(sys', v')
  {
    assert forall i :: ModeOf(sys', i) == ModeOf(sys, i);
  }

  lemma UpdatedSeen(sys: System, v: O.Cluster, sys': System, v': O.Cluster, c: string)
    requires PlainProcs(sys.w) && Seen(sys, v) && Moved(sys, sys', c) && SamePhases(sys', v')
    requires Updated(sys.w.procs[c], c, ModeOf(sys, sys.w.procs[c].inst), v, sys'.w.procs[c].pc, v')
    ensures Seen(sys', v')
  {
    MemorySeen(sys, v, sys', v', c);
    HalvesSeen(sys, v, sys', v', c);
  }

  lemma OneMode(sys: System, v: O.Cluster, sys': System, v': O.Cluster, i: string, mode: Mode, phase: O.Phase)
    requires SamePhases(sys, v) && (mode == Down <==> phase == O.Down) && (mode == Up <==> phase == O.Up)
    requires sys'.modes == sys.modes[i := mode] && v'.phases == v.phases[i := phase]
    ensures SamePhases(sys', v')
  {
    forall j ensures (ModeOf(sys', j) == Down <==> O.PhaseOf(v', j) == O.Down)
                  && (ModeOf(sys', j) == Up <==> O.PhaseOf(v', j) == O.Up) {
      assert j != i ==> ModeOf(sys', j) == ModeOf(sys, j) && O.PhaseOf(v', j) == O.PhaseOf(v, j);
    }
  }

  lemma SameModes(sys: System, v: O.Cluster, sys': System, v': O.Cluster)
    requires SamePhases(sys, v) && sys'.modes == sys.modes && v'.phases == v.phases
    ensures SamePhases(sys', v')
  {
    forall j ensures (ModeOf(sys', j) == Down <==> O.PhaseOf(v', j) == O.Down)
                  && (ModeOf(sys', j) == Up <==> O.PhaseOf(v', j) == O.Up) {
      assert ModeOf(sys', j) == ModeOf(sys, j) && O.PhaseOf(v', j) == O.PhaseOf(v, j);
    }
  }

  ghost predicate SeenAs(v: O.Cluster, t: O.Step, sys': System) {
    O.Enabled(v, t) && Seen(sys', O.Next(v, t))
  }

  /** The first write of an addition, with its claim or without; or the claim of one already written. */
  lemma AdditionNamed(proc: Proc, c: string, v: O.Cluster, pc': Pc)
    requires Agrees(proc, c, Up, v) && O.PhaseOf(v, proc.inst) == O.Up && OWNER_SEPARATOR !in proc.user
    requires Begun(pc') && Holds(pc') && !Claiming(proc.pc)
    requires if Begun(proc.pc) then Holds(proc.pc) && Claiming(pc') else !Holds(proc.pc)
    ensures var t := NameOf(proc, c, Up, pc');
            && O.Enabled(v, t) && Updated(proc, c, Up, v, pc', O.Next(v, t)) && O.Next(v, t).phases == v.phases
  {
  }

  predicate Withdraws(pc: Pc, pc': Pc) {
    Begun(pc) && Begun(pc') && Claiming(pc) && !Holds(pc') && (Holds(pc) || !Claiming(pc'))
  }

  /** A withdrawal, whole or half, by an instance that is up. */
  lemma LeaveNamed(proc: Proc, c: string, v: O.Cluster, pc': Pc)
    requires Agrees(proc, c, Up, v) && O.PhaseOf(v, proc.inst) == O.Up && Withdraws(proc.pc, pc')
    ensures var t := NameOf(proc, c, Up, pc');
            && O.Enabled(v, t) && Updated(proc, c, Up, v, pc', O.Next(v, t)) && O.Next(v, t).phases == v.phases
  {
  }

  /** A boot reclaim that works on this connection: its claim is listed. */
  predicate OnItsList(proc: Proc, c: string, v: O.Cluster) {
    var member := OwnerMember(proc.user, c);
    && proc.inst in v.phases && v.phases[proc.inst].Booting? && member in v.phases[proc.inst].todo
    && ParseOwner(member) == Some((proc.user, c))
  }

  /** The first write of a boot reclaim's withdrawal. */
  lemma ReclaimHalfNamed(proc: Proc, c: string, v: O.Cluster, pc': Pc)
    requires Agrees(proc, c, Booting, v) && Withdraws(proc.pc, pc') && OnItsList(proc, c, v) && Claiming(pc')
    ensures var t := NameOf(proc, c, Booting, pc');
            && O.Enabled(v, t) && Updated(proc, c, Booting, v, pc', O.Next(v, t))
            && OnePhase(v, O.Next(v, t), proc.inst)
  {
  }

  /** What completes a boot reclaim's withdrawal. */
  lemma ReclaimNamed(proc: Proc, c: string, v: O.Cluster, pc': Pc)
    requires Agrees(proc, c, Booting, v) && Withdraws(proc.pc, pc') && OnItsList(proc, c, v) && !Claiming(pc')
    ensures var t := NameOf(proc, c, Booting, pc');
            && O.Enabled(v, t) && Updated(proc, c, Booting, v, pc', O.Next(v, t))
            && OnePhase(v, O.Next(v, t), proc.inst)
  {
    var v' := O.Next(v, O.Reclaim(proc.inst, OwnerMember(proc.user, c)));
    assert v'.p == ReleaseEffect(v.p, proc.inst, proc.user, c);
  }

  /** At most one instance's phase changed, and it is still booting. */
  predicate OnePhase(v: O.Cluster, v': O.Cluster, i: string) {
    i in v'.phases && v'.phases[i].Booting? && v'.phases == v.phases[i := v'.phases[i]]
  }

  /** A booting instance has the claim of a program that still claims on its list. */
  lemma OnList(sys: System, v: O.Cluster, c: string)
    requires Inv(sys) && O.Inv(v) && Seen(sys, v) && c in sys.w.procs && Claiming(sys.w.procs[c].pc)
    requires ModeOf(sys, sys.w.procs[c].inst) == Booting
    ensures OnItsList(sys.w.procs[c], c, v)
  {
    var i := sys.w.procs[c].inst;
    O.Codec(sys.w.procs[c].user, c);
    DeadClaims(sys, c);
    assert O.BootAgrees(v, i);
    assert ModeOf(sys, i) != Down && ModeOf(sys, i) != Up;
  }

  lemma UpSeen(sys: System, v: O.Cluster, sys': System, c: string)
    requires Inv(sys) && Seen(sys, v) && Moved(sys, sys', c) && ModeOf(sys, sys.w.procs[c].inst) == Up
    requires var proc, pc' := sys.w.procs[c], sys'.w.procs[c].pc;
             var t := NameOf(proc, c, Up, pc');
             && O.Enabled(v, t) && Updated(proc, c, Up, v, pc', O.Next(v, t)) && O.Next(v, t).phases == v.phases
    ensures SeenAs(v, NameOf(sys.w.procs[c], c, Up, sys'.w.procs[c].pc), sys')
  {
    var v' := O.Next(v, NameOf(sys.w.procs[c], c, Up, sys'.w.procs[c].pc));
    SameModes(sys, v, sys', v');
    UpdatedSeen(sys, v, sys', v', c);
  }

  lemma ReclaimSeen(sys: System, v: O.Cluster, sys': System, c: string)
    requires Inv(sys) && O.Inv(v) && Seen(sys, v) && Moved(sys, sys', c)
    requires ModeOf(sys, sys.w.procs[c].inst) == Booting && Withdraws(sys.w.procs[c].pc, sys'.w.procs[c].pc)
    ensures SeenAs(v, NameOf(sys.w.procs[c], c, Booting, sys'.w.procs[c].pc), sys')
  {
    var proc, pc' := sys.w.procs[c], sys'.w.procs[c].pc;
    OnList(sys, v, c);
    SeenAgrees(sys, v, c);
    if Claiming(pc') {
      ReclaimHalfNamed(proc, c, v, pc');
    } else {
      ReclaimNamed(proc, c, v, pc');
    }
    var v' := O.Next(v, NameOf(proc, c, Booting, pc'));
    assert sys'.modes == sys.modes[proc.inst := Booting];
    OneMode(sys, v, sys', v', proc.inst, Booting, v'.phases[proc.inst]);
    UpdatedSeen(sys, v, sys', v', c);
  }

  /** A step that changes what is held or claimed is one step of the ownership machine. */
  lemma ChangeSeen(sys: System, v: O.Cluster, sys': System, c: string)
    requires Inv(sys) && O.Inv(v) && Seen(sys, v) && Moved(sys, sys', c)
    requires Changes(sys.w.procs[c].pc, sys'.w.procs[c].pc)
    ensures SeenAs(v, NameOf(sys.w.procs[c], c, ModeOf(sys, sys.w.procs[c].inst), sys'.w.procs[c].pc), sys')
  {
    var proc, pc' := sys.w.procs[c], sys'.w.procs[c].pc;
    assert ProcFits(sys, c);
    if ModeOf(sys, proc.inst) == Booting {
      ReclaimSeen(sys, v, sys', c);
    } else {
      assert O.PhaseOf(v, proc.inst) == O.Up;
      SeenAgrees(sys, v, c);
      if Withdraws(proc.pc, pc') {
        LeaveNamed(proc, c, v, pc');
      } else {
        AdditionNamed(proc, c, v, pc');
      }
      UpSeen(sys, v, sys', c);
    }
  }

  lemma SameSeen(sys: System, v: O.Cluster, sys': System, c: string)
    requires Inv(sys) && Seen(sys, v) && Moved(sys, sys', c) && Same(sys.w.procs[c].pc, sys'.w.procs[c].pc)
    ensures Seen(sys', v)
  {
    DeadClaims(sys, c);
    UnseenMove(sys, v, sys', c);
  }

  lemma AdvanceSeen(sys: System, v: O.Cluster, s: Step) returns (steps: seq<O.Step>)
    requires Inv(sys) && O.Inv(v) && Seen(sys, v) && CanAct(sys, s) && s.Advance?
    ensures O.Runs(v, steps) && Seen(Following(sys, Act(s)), O.After(v, steps))
  {
    var c, sys' := s.conn, Following(sys, Act(s));
    var proc, pc' := sys.w.procs[c], sys'.w.procs[c].pc;
    AdvanceMoves(sys, s);
    MoveChanges(sys.w.p, c, proc, s.committed);
    if Same(proc.pc, pc') {
      steps := [];
      SameSeen(sys, v, sys', c);
    } else {
      ChangeSeen(sys, v, sys', c);
      steps := [NameOf(proc, c, ModeOf(sys, proc.inst), pc')];
      OneStep(v, steps[0]);
    }
  }

  lemma OneStep(v: O.Cluster, t: O.Step)
    requires O.Enabled(v, t)
    ensures O.Runs(v, [t]) && O.After(v, [t]) == O.Next(v, t)
  {
    assert [t][1..] == [];
  }

  /** Only `c`'s counter changed; a reclaim may also have taken it up. */
  ghost predicate Kept(sys: System, sys': System, c: string) {
    && c in sys.w.procs && sys'.modes == sys.modes && sys'.w.procs.Keys == sys.w.procs.Keys
    && Same(sys.w.procs[c].pc, sys'.w.procs[c].pc)
    && sys'.w.procs[c].user == sys.w.procs[c].user && sys'.w.procs[c].inst == sys.w.procs[c].inst
    && (forall d | d in sys.w.procs && d != c :: sys'.w.procs[d] == sys.w.procs[d])
    && (sys'.dead == sys.dead
        || (ModeOf(sys, sys.w.procs[c].inst) != Up && Claiming(sys.w.procs[c].pc) && sys'.dead == sys.dead - {c}))
  }

  lemma KeptMemory(sys: System, v: O.Cluster, sys': System, c: string)
    requires SameMemory(sys, v) && Kept(sys, sys', c)
    ensures SameMemory(sys', v)
  {
    assert forall i :: ModeOf(sys', i) == ModeOf(sys, i);
  }

  /** A change of counter that keeps what it holds and claims is not seen. */
  lemma UnseenMove(sys: System, v: O.Cluster, sys': System, c: string)
    requires PlainProcs(sys.w) && Seen(sys, v) && Kept(sys, sys', c)
    requires sys'.w.p.conns == sys.w.p.conns && sys'.w.p.owned == sys.w.p.owned
    ensures Seen(sys', v)
  {
    SameModes(sys, v, sys', v);
    KeptMemory(sys, v, sys', c);
    UnpairedAfter(sys.w, sys'.w, c);
  }

  /** A new program that has written nothing is not seen either. */
  lemma ConnectSeen(sys: System, v: O.Cluster, s: Step)
    requires Inv(sys) && Seen(sys, v) && CanAct(sys, s) && s.Connect?
    ensures Seen(Following(sys, Act(s)), v)
  {
    var sys' := Following(sys, Act(s));
    assert forall i, m, d :: UnpairedBy(sys'.w, i, m, d) <==> UnpairedBy(sys.w, i, m, d);
    assert forall i, u, d :: AliveAt(sys', i, u, d) && d != s.conn <==> AliveAt(sys, i, u, d);
  }

  lemma CrashSeen(sys: System, v: O.Cluster, i: string)
    requires Inv(sys) && Seen(sys, v)
    ensures Seen(Following(sys, Crash(i)), O.Next(v, O.Crash(i)))
  {
    var sys', v' := Following(sys, Crash(i)), O.Next(v, O.Crash(i));
    OneMode(sys, v, sys', v', i, Down, O.Down);
    assert forall j | j != i :: ModeOf(sys', j) == ModeOf(sys, j);
    assert forall j, u, c :: AliveAt(sys', j, u, c) <==> j != i && AliveAt(sys, j, u, c);
    assert forall j, m, d :: UnpairedBy(sys'.w, j, m, d) <==> UnpairedBy(sys.w, j, m, d);
  }

  lemma BootSeen(sys: System, v: O.Cluster, i: string)
    requires Inv(sys) && Seen(sys, v) && Able(sys, Boot(i))
    ensures SeenAs(v, O.Boot(i), Following(sys, Boot(i)))
  {
    var sys', v' := Following(sys, Boot(i)), O.Next(v, O.Boot(i));
    OneMode(sys, v, sys', v', i, Booting, v'.phases[i]);
    assert forall j | j != i :: ModeOf(sys', j) == ModeOf(sys, j);
    assert forall j, u, c :: AliveAt(sys', j, u, c) <==> AliveAt(sys, j, u, c);
    assert forall j, m, d :: UnpairedBy(sys'.w, j, m, d) <==> UnpairedBy(sys.w, j, m, d);
  }

  /** An instance whose set is empty has no program that still claims. */
  lemma NoneClaims(sys: System, i: string)
    requires Inv(sys) && OwnedBy(sys.w.p, i) == {}
    ensures forall c | c in sys.w.procs && sys.w.procs[c].inst == i :: !Claiming(sys.w.procs[c].pc)
  {
    forall c | c in sys.w.procs && sys.w.procs[c].inst == i ensures !Claiming(sys.w.procs[c].pc) {
      DeadClaims(sys, c);
      assert OwnerMember(sys.w.procs[c].user, c) !in OwnedBy(sys.w.p, i);
    }
  }

  lemma FinishSeen(sys: System, v: O.Cluster, i: string)
    requires Inv(sys) && O.Inv(v) && Seen(sys, v) && Able(sys, FinishBoot(i))
    ensures SeenAs(v, O.FinishBoot(i), Following(sys, FinishBoot(i)))
  {
    var sys' := Following(sys, FinishBoot(i));
    FinishInv(sys, i);
    assert O.BootAgrees(v, i);
    O.StepFinish(v, O.FinishBoot(i));
    var v' := O.Next(v, O.FinishBoot(i));
    forall q | q in v.unpaired ensures q.0 != i {
      assert q in v.p.owned && q.1 in OwnedBy(v.p, q.0);
    }
    assert v'.unpaired == v.unpaired;
    OneMode(sys, v, sys', v', i, Up, O.Up);
    NoneClaims(sys, i);
    assert forall j | j != i :: ModeOf(sys', j) == ModeOf(sys, j);
    assert forall j, u, c :: AliveAt(sys', j, u, c) <==> AliveAt(sys, j, u, c);
  }

  lemma ActSeen(sys: System, v: O.Cluster, s: Step) returns (steps: seq<O.Step>)
    requires Inv(sys) && O.Inv(v) && Seen(sys, v) && CanAct(sys, s)
    ensures O.Runs(v, steps) && Seen(Following(sys, Act(s)), O.After(v, steps))
  {
    steps := [];
    if s.Advance? {
      steps := AdvanceSeen(sys, v, s);
    } else if s.Connect? {
      ConnectSeen(sys, v, s);
    } else {
      UnseenMove(sys, v, Following(sys, Act(s)), s.conn);
    }
  }

  /** Every event of the system is at most one step of the ownership machine. */
  lemma EventSeen(sys: System, v: O.Cluster, e: Event) returns (steps: seq<O.Step>)
    requires Inv(sys) && O.Inv(v) && Seen(sys, v) && Able(sys, e)
    ensures O.Runs(v, steps) && Seen(Following(sys, e), O.After(v, steps))
  {
    match e {
      case Act(s) => steps := ActSeen(sys, v, s);
      case Crash(i) =>
        CrashSeen(sys, v, i);
        OneStep(v, O.Crash(i));
        steps := [O.Crash(i)];
      case Boot(i) =>
        BootSeen(sys, v, i);
        OneStep(v, O.Boot(i));
        steps := [O.Boot(i)];
      case Reclaim(c) =>
        RestartSeen(sys, v, c);
        steps := [];
      case FinishBoot(i) =>
        FinishSeen(sys, v, i);
        OneStep(v, O.FinishBoot(i));
        steps := [O.FinishBoot(i)];
    }
  }

  /** That a reclaim takes up a connection is not seen before it writes. */
  lemma RestartSeen(sys: System, v: O.Cluster, c: string)
    requires Inv(sys) && Seen(sys, v) && Able(sys, Reclaim(c))
    ensures Seen(Following(sys, Reclaim(c)), v)
  {
    ReclaimInv(sys, c);
    UnseenMove(sys, v, Following(sys, Reclaim(c)), c);
  }

  lemma {:induction false} StepsCompose(v: O.Cluster, first: seq<O.Step>, rest: seq<O.Step>)
    requires O.Runs(v, first) && O.Runs(O.After(v, first), rest)
    ensures O.Runs(v, first + rest) && O.After(v, first + rest) == O.After(O.After(v, first), rest)
    decreases |first|
  {
    if first == [] {
      assert first + rest == rest;
    } else {
      assert (first + rest)[1..] == first[1..] + rest;
      StepsCompose(O.Next(v, first[0]), first[1..], rest);
    }
  }

  lemma {:induction false} LifeSeen(sys: System, v: O.Cluster, events: seq<Event>) returns (steps: seq<O.Step>)
    requires Inv(sys) && O.Inv(v) && Seen(sys, v) && Lives(sys, events)
    ensures O.Runs(v, steps) && Seen(Outcome(sys, events), O.After(v, steps))
    decreases |events|
  {
    if events == [] {
      steps := [];
    } else {
      var first := EventSeen(sys, v, events[0]);
      EventInv(sys, events[0]);
      O.RunInv(v, first);
      var rest := LifeSeen(Following(sys, events[0]), O.After(v, first), events[1..]);
      StepsCompose(v, first, rest);
      steps := first + rest;
    }
  }

  lemma InitialSeen()
    ensures Seen(INITIAL, O.START)
  {
  }

  /** Every run with crashes and fallbacks is a run of the ownership machine on the same pairs and claims. */
  lemma OwnershipSimulates(events: seq<Event>)
    requires Lives(INITIAL, events)
    ensures exists steps :: O.Runs(O.START, steps) && Seen(Outcome(INITIAL, events), O.After(O.START, steps))
  {
    InitialInv();
    O.StartInv();
    InitialSeen();
    var steps := LifeSeen(INITIAL, O.START, events);
  }

  /** No program stands, alive or dead, between the two writes of its addition or removal. */
  predicate NoneHalfway(w: World) {
    forall c | c in w.procs :: Holds(w.procs[c].pc) <==> Claiming(w.procs[c].pc)
  }

  /** The instance sets decode to exactly the pairs of the user sets. */
  ghost predicate DecodesTo(p: Presence) {
    forall u, c :: (u, c) in p.conns <==> exists i :: (u, c) in Decoded(OwnedBy(p, i))
  }

  lemma PartitionedSame(v: O.Cluster, p: Presence)
    requires v.p.conns == p.conns && v.p.owned == p.owned
    ensures O.Partitioned(v) <==> DecodesTo(p)
  {
    forall i ensures O.Claimed(v, i) == Decoded(OwnedBy(p, i)) {
      assert OwnedBy(v.p, i) == OwnedBy(p, i);
    }
    forall u, c
      ensures (exists i :: (u, c) in O.Claimed(v, i)) <==> (exists i :: (u, c) in Decoded(OwnedBy(p, i)))
    {
      if i :| (u, c) in O.Claimed(v, i) {
        assert (u, c) in Decoded(OwnedBy(p, i));
      }
      if i :| (u, c) in Decoded(OwnedBy(p, i)) {
        assert (u, c) in O.Claimed(v, i);
      }
    }
  }

  /** The instance sets decode to exactly the user sets if and only if nobody is halfway. */
  lemma PartitionedIffNoneHalfway(events: seq<Event>)
    requires Lives(INITIAL, events)
    ensures DecodesTo(Outcome(INITIAL, events).w.p) <==> NoneHalfway(Outcome(INITIAL, events).w)
  {
    OwnershipSimulates(events);
    var sys := Outcome(INITIAL, events);
    var steps :| O.Runs(O.START, steps) && Seen(sys, O.After(O.START, steps));
    O.PartitionedIff(steps);
    PartitionedSame(O.After(O.START, steps), sys.w.p);
    HalvesEmptyIff(sys, O.After(O.START, steps));
  }

  lemma HalvesEmptyIff(sys: System, v: O.Cluster)
    requires SameHalves(sys, v)
    ensures v.orphans == {} && v.unpaired == {} <==> NoneHalfway(sys.w)
  {
    if c :| c in sys.w.procs && Holds(sys.w.procs[c].pc) != Claiming(sys.w.procs[c].pc) {
      var proc := sys.w.procs[c];
      assert Unclaimed(proc.pc) ==> (proc.user, c) in v.orphans;
      assert Unpaired(proc.pc) ==> UnpairedBy(sys.w, proc.inst, OwnerMember(proc.user, c), c);
      assert Unpaired(proc.pc) ==> (proc.inst, OwnerMember(proc.user, c)) in v.unpaired;
    }
    if pair :| pair in v.orphans {
      assert (pair.0, pair.1) in v.orphans;
    }
    if q :| q in v.unpaired {
      assert (q.0, q.1) in v.unpaired;
      var c :| UnpairedBy(sys.w, q.0, q.1, c);
      assert c in sys.w.procs;
    }
  }

  // ---- the strings in Redis after a run with crashes ----

  /** What an event sends to Redis, commands that find nothing to change left out. */
  function EventCommands(sys: System, e: Event): (cmds: seq<Command<Key>>)
    requires Able(sys, e)
    ensures forall i | 0 <= i < |cmds| :: TypedCommand(cmds[i])
  {
    match e
    case Act(s) => StepCommands(sys.w, s)
    case FinishBoot(i) => [Del(InstanceKey(i))]
    case _ => []
  }

  function Sent(sys: System, events: seq<Event>): (cmds: seq<Command<Key>>)
    requires Lives(sys, events)
    ensures forall i | 0 <= i < |cmds| :: TypedCommand(cmds[i])
    decreases |events|
  {
    if events == [] then [] else EventCommands(sys, events[0]) + Sent(Following(sys, events[0]), events[1..])
  }

  lemma EventEffect(sys: System, e: Event)
    requires Able(sys, e)
    ensures Following(sys, e).w.p == EffectAll(sys.w.p, EventCommands(sys, e))
  {
    if e.Act? {
      StepEffect(sys.w, e.step);
    } else if e.FinishBoot? {
      assert [Del(InstanceKey(e.inst))][1..] == [];
    }
  }

  lemma {:induction false} SentEffect(sys: System, events: seq<Event>)
    requires Lives(sys, events)
    ensures EffectAll(sys.w.p, Sent(sys, events)) == Outcome(sys, events).w.p
    decreases |events|
  {
    if events != [] {
      var sys' := Following(sys, events[0]);
      EventEffect(sys, events[0]);
      EffectsCompose(sys.w.p, EventCommands(sys, events[0]), Sent(sys', events[1..]));
      SentEffect(sys', events[1..]);
    }
  }

  function UsersIn(events: seq<Event>): set<string> {
    set e | e in events && e.Act? && e.step.Connect? :: e.step.user
  }

  lemma {:induction false} SentKeys(sys: System, events: seq<Event>, users: set<string>)
    requires Lives(sys, events) && UsersIn(events) <= users
    requires forall c | c in sys.w.procs :: sys.w.procs[c].user in users
    ensures forall cmd | cmd in Sent(sys, events) :: UserIn(cmd.key) <= users
    decreases |events|
  {
    if events != [] {
      var e, sys' := events[0], Following(sys, events[0]);
      assert e in events && (e.Act? && e.step.Connect? ==> e.step.user in UsersIn(events));
      assert UsersIn(events[1..]) <= UsersIn(events);
      SentKeys(sys', events[1..], users);
      if e.Act? && e.step.Advance? {
        StepKeys(sys.w, e.step);
      }
    }
  }

  function RedisOf(events: seq<Event>): map<string, Entry>
    requires Lives(INITIAL, events)
  {
    ApplyAll(map[], RenderedAll(Sent(INITIAL, events)))
  }

  /** After any run with crashes and fallbacks, every entry in Redis is what the state says. */
  lemma RedisHoldsTheSystem(events: seq<Event>, k: Key)
    requires Lives(INITIAL, events) && SeparateUsers(UsersIn(events) + UserIn(k))
    ensures MembersAt(RedisOf(events), Render(k)) == MembersOf(Outcome(INITIAL, events).w.p, k)
    ensures TextAt(RedisOf(events), Render(k)) == TextOf(Outcome(INITIAL, events).w.p, k)
  {
    var users := UsersIn(events) + UserIn(k);
    SentKeys(INITIAL, events, users);
    SentEffect(INITIAL, events);
    CommandsHold(Sent(INITIAL, events), users, k);
  }

  ghost predicate HeldInRedis(events: seq<Event>, user: string, conn: string)
    requires Lives(INITIAL, events)
  {
    conn in MembersAt(RedisOf(events), Render(UserKey(user)))
  }

  ghost predicate ClaimedInRedis(events: seq<Event>, i: string, user: string, conn: string)
    requires Lives(INITIAL, events)
  {
    OwnerMember(user, conn) in MembersAt(RedisOf(events), Render(InstanceKey(i)))
  }

  /**
   * In Redis after any run: a connection is in its user's set but in no instance's exactly
   * between the two writes of its addition, and the other way round exactly between the two
   * of its removal, whether the program stands there or died there; never in two instances'.
   */
  lemma ClaimsInRedis(events: seq<Event>, user: string, conn: string)
    requires Lives(INITIAL, events) && SeparateUsers(UsersIn(events) + {user}) && OWNER_SEPARATOR !in user
    ensures var w := Outcome(INITIAL, events).w; var there := conn in w.procs && w.procs[conn].user == user;
            && (HeldInRedis(events, user, conn) && (forall i :: !ClaimedInRedis(events, i, user, conn))
                <==> there && Unclaimed(w.procs[conn].pc))
            && (!HeldInRedis(events, user, conn) && (exists i :: ClaimedInRedis(events, i, user, conn))
                <==> there && Unpaired(w.procs[conn].pc))
            && forall i, j | ClaimedInRedis(events, i, user, conn) && ClaimedInRedis(events, j, user, conn) :: i == j
  {
    var w := Outcome(INITIAL, events).w;
    HeldIff(events, user, conn);
    forall i ensures ClaimedInRedis(events, i, user, conn) <==> ThereClaiming(w, i, user, conn) {
      ClaimedIff(events, i, user, conn);
    }
    if conn in w.procs && w.procs[conn].user == user {
      assert ClaimedInRedis(events, w.procs[conn].inst, user, conn) <==> Claiming(w.procs[conn].pc);
    }
  }

  predicate ThereClaiming(w: World, i: string, user: string, conn: string) {
    conn in w.procs && w.procs[conn].user == user && w.procs[conn].inst == i && Claiming(w.procs[conn].pc)
  }

  lemma HeldIff(events: seq<Event>, user: string, conn: string)
    requires Lives(INITIAL, events) && SeparateUsers(UsersIn(events) + {user})
    ensures var w := Outcome(INITIAL, events).w;
            HeldInRedis(events, user, conn)
            <==> conn in w.procs && w.procs[conn].user == user && Holds(w.procs[conn].pc)
  {
    InitialInv();
    LifeInv(INITIAL, events);
    RedisHoldsTheSystem(events, UserKey(user));
    assert HeldInRedis(events, user, conn) <==> (user, conn) in Outcome(INITIAL, events).w.p.conns;
  }

  lemma ClaimedIff(events: seq<Event>, i: string, user: string, conn: string)
    requires Lives(INITIAL, events) && SeparateUsers(UsersIn(events) + {user}) && OWNER_SEPARATOR !in user
    ensures ClaimedInRedis(events, i, user, conn) <==> ThereClaiming(Outcome(INITIAL, events).w, i, user, conn)
  {
    InitialInv();
    LifeInv(INITIAL, events);
    SubsetSeparate(UsersIn(events) + {user}, UsersIn(events));
    assert UsersIn(events) + UserIn(InstanceKey(i)) == UsersIn(events);
    RedisHoldsTheSystem(events, InstanceKey(i));
    MemberClaimed(Outcome(INITIAL, events).w, i, user, conn);
  }

  lemma MemberClaimed(w: World, i: string, user: string, conn: string)
    requires ClaimsExactly(w) && PlainProcs(w) && OWNER_SEPARATOR !in user
    ensures OwnerMember(user, conn) in OwnedBy(w.p, i)
       <==> ThereClaiming(w, i, user, conn)
  {
    var member := OwnerMember(user, conn);
    assert member in OwnedBy(w.p, i) <==> (i, member) in w.p.owned;
    OwnerRoundTrip(user, conn);
    if c :| ClaimedBy(w, i, member, c) {
      OwnerRoundTrip(w.procs[c].user, c);
    }
    if ThereClaiming(w, i, user, conn) {
      assert ClaimedBy(w, i, member, conn);
    }
  }

  /** When a boot reclaim may end, its set in Redis is already empty and no pair of its former life is left. */
  lemma ReclaimedInRedis(events: seq<Event>, i: string, user: string, conn: string)
    requires Lives(INITIAL, events) && Able(Outcome(INITIAL, events), FinishBoot(i))
    requires SeparateUsers(UsersIn(events) + {user})
    ensures MembersAt(RedisOf(events), Render(InstanceKey(i))) == {}
    ensures HeldInRedis(events, user, conn)
            ==> conn in Outcome(INITIAL, events).w.procs
                && (Outcome(INITIAL, events).w.procs[conn].inst == i
                    ==> Stranded(Outcome(INITIAL, events), user, conn))
  {
    InitialInv();
    LifeInv(INITIAL, events);
    var sys := Outcome(INITIAL, events);
    RedisHoldsTheSystem(events, UserKey(user));
    SubsetSeparate(UsersIn(events) + {user}, UsersIn(events));
    assert UsersIn(events) + UserIn(InstanceKey(i)) == UsersIn(events);
    RedisHoldsTheSystem(events, InstanceKey(i));
    NoneClaims(sys, i);
    assert HeldInRedis(events, user, conn) <==> (user, conn) in sys.w.p.conns;
  }
}
