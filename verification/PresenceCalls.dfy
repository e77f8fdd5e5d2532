/**
 * The protocol's programs and the adapter's calls agree: a program that runs without
 * interference does what the call promises, whichever transactions are discarded.
 */
module PresenceCalls {
  import opened Options
  import opened PresenceKeys
  import opened PresenceModel
  import opened PresenceProtocol

  /** How many steps a program has left at most. */
  function Left(pc: Pc): nat {
    match pc
    case AddExec => 9
    case AddDirect(n) => if n < 5 then 8 - n else 2
    case AddCount => 1
    case RemoveExec => 12
    case RemoveDirect(n) => if n < 2 then 11 - n else 9
    case RemoveCount => 8
    case ClearGet => 7
    case ClearExec(_) => 6
    case ClearDirect(_, n) => if n < 3 then 5 - n else 1
    case _ => 0
  }

  /** `commits` says, per program counter, whether Redis commits the transaction there. */
  function Alone(p: Presence, c: string, proc: Proc, commits: Pc -> bool): (Presence, Pc)
    decreases Left(proc.pc)
  {
    if Quiet(proc.pc) then (p, proc.pc)
    else
      var (p', pc') := Move(p, c, proc, commits(proc.pc));
      Alone(p', c, proc.(pc := pc'), commits)
  }

  lemma {:induction false} DirectAdds(p: Presence, c: string, proc: Proc, commits: Pc -> bool, n: nat)
    requires proc.pc == AddDirect(n)
    requires n < |AddCommands(proc.inst, proc.user, c, proc.tenant)|
    ensures var q := EffectAll(p, AddCommands(proc.inst, proc.user, c, proc.tenant)[n..]);
            Alone(p, c, proc, commits) == (q, Live(LiveCount(q, proc.user)))
    decreases 5 - n
  {
    var cmds := AddCommands(proc.inst, proc.user, c, proc.tenant);
    var p' := Effect(p, cmds[n]);
    assert cmds[n..][1..] == cmds[n + 1..] && cmds[n..][0] == cmds[n];
    if n + 1 < |cmds| {
      DirectAdds(p', c, proc.(pc := AddDirect(n + 1)), commits, n + 1);
    } else {
      assert cmds[n + 1..] == [];
      assert Alone(p', c, proc.(pc := Live(LiveCount(p', proc.user))), commits) == (p', Live(LiveCount(p', proc.user)));
      assert Alone(p', c, proc.(pc := AddCount), commits) == (p', Live(LiveCount(p', proc.user)));
    }
  }

  /** Alone, an addition ends in the state and with the count of `AddConnection`. */
  lemma AddAlone(p: Presence, c: string, proc: Proc, commits: Pc -> bool)
    requires proc.pc == AddExec
    ensures var q := AddEffect(p, proc.inst, proc.user, c, proc.tenant);
            Alone(p, c, proc, commits) == (q, Live(LiveCount(q, proc.user)))
  {
    var cmds := AddCommands(proc.inst, proc.user, c, proc.tenant);
    if commits(AddExec) {
      var q := AddEffect(p, proc.inst, proc.user, c, proc.tenant);
      assert Alone(q, c, proc.(pc := Live(LiveCount(q, proc.user))), commits) == (q, Live(LiveCount(q, proc.user)));
    } else {
      AddCommandsAchieve(p, proc.inst, proc.user, c, proc.tenant);
      assert cmds[0..] == cmds;
      DirectAdds(p, c, proc.(pc := AddDirect(0)), commits, 0);
    }
  }

  lemma {:induction false} DirectClears(
    p: Presence, c: string, proc: Proc, commits: Pc -> bool, t: Option<string>, n: nat)
    requires proc.pc == ClearDirect(t, n) && n < |ClearCommands(proc.user, t)|
    ensures Alone(p, c, proc, commits) == (EffectAll(p, ClearCommands(proc.user, t)[n..]), Gone(0))
    decreases 3 - n
  {
    var cmds := ClearCommands(proc.user, t);
    var p' := Effect(p, cmds[n]);
    assert cmds[n..][1..] == cmds[n + 1..] && cmds[n..][0] == cmds[n];
    if n + 1 < |cmds| {
      DirectClears(p', c, proc.(pc := ClearDirect(t, n + 1)), commits, t, n + 1);
    } else {
      assert cmds[n + 1..] == [];
      assert Alone(p', c, proc.(pc := Gone(0)), commits) == (p', Gone(0));
    }
  }

  lemma ClearAlone(p: Presence, c: string, proc: Proc, commits: Pc -> bool)
    requires proc.pc == ClearGet
    ensures Alone(p, c, proc, commits) == (ClearEffect(p, proc.user, TenantText(p, proc.user)), Gone(0))
  {
    var t := TenantText(p, proc.user);
    var cmds := ClearCommands(proc.user, t);
    var next := proc.(pc := ClearExec(t));
    if commits(ClearExec(t)) {
      var q := ClearEffect(p, proc.user, t);
      assert Alone(q, c, proc.(pc := Gone(0)), commits) == (q, Gone(0));
      assert Alone(p, c, next, commits) == (q, Gone(0));
    } else {
      ClearCommandsAchieve(p, proc.user, t);
      assert cmds[0..] == cmds;
      DirectClears(p, c, proc.(pc := ClearDirect(t, 0)), commits, t, 0);
      assert Alone(p, c, next, commits) == (ClearEffect(p, proc.user, t), Gone(0));
    }
  }

  lemma CountedAlone(p: Presence, c: string, proc: Proc, commits: Pc -> bool)
    requires proc.pc == AfterRemoval(p, proc.user)
    ensures Alone(p, c, proc, commits)
         == if LiveCount(p, proc.user) > 0 then (p, Gone(LiveCount(p, proc.user)))
            else (ClearEffect(p, proc.user, TenantText(p, proc.user)), Gone(0))
  {
    if LiveCount(p, proc.user) == 0 {
      ClearAlone(p, c, proc, commits);
    }
  }

  /** Alone, a removal ends in the state and with the count of `RemoveConnection`. */
  lemma RemoveAlone(p: Presence, c: string, proc: Proc, commits: Pc -> bool)
    requires proc.pc == RemoveExec
    ensures var q := RemoveEffect(p, proc.inst, proc.user, c);
            Alone(p, c, proc, commits) == (q, Gone(LiveCount(q, proc.user)))
  {
    var released := ReleaseEffect(p, proc.inst, proc.user, c);
    var counted := proc.(pc := AfterRemoval(released, proc.user));
    CountedAlone(released, c, counted, commits);
    assert ConnsOf(RemoveEffect(p, proc.inst, proc.user, c), proc.user) == ConnsOf(released, proc.user);
    if !commits(RemoveExec) {
      var cmds := RemoveCommands(proc.inst, proc.user, c);
      var first := Effect(p, cmds[0]);
      assert Effect(first, cmds[1]) == released;
      assert Alone(released, c, proc.(pc := RemoveCount), commits) == Alone(released, c, counted, commits);
      assert Alone(first, c, proc.(pc := RemoveDirect(1)), commits) == Alone(released, c, counted, commits);
      assert Alone(p, c, proc.(pc := RemoveDirect(0)), commits) == Alone(released, c, counted, commits);
    }
  }
}
