/**
 * The instance sets under every interleaving, discarded transactions included: a member
 * stands there exactly while the program of its connection is between writing its claim
 * and withdrawing it.
 */
module PresenceClaims {
  import opened Options
  import opened RedisStore
  import opened PresenceKeys
  import opened PresenceModel
  import opened PresenceProtocol

  /** The claim is written after the user's set and the online set, withdrawn after the user's set. */
  predicate Claiming(pc: Pc) {
    pc.AddCount? || pc.Live? || pc.RemoveExec? || (pc.AddDirect? && pc.next >= 3)
    || (pc.RemoveDirect? && pc.next < 2)
  }

  predicate ClaimedBy(w: World, inst: string, member: string, c: string) {
    && c in w.procs && w.procs[c].inst == inst && Claiming(w.procs[c].pc)
    && member == OwnerMember(w.procs[c].user, c)
  }

  ghost predicate ClaimsExactly(w: World) {
    forall i, m :: (i, m) in w.p.owned <==> exists c :: ClaimedBy(w, i, m, c)
  }

  /** The user ids that the codec of the members can tell from connection ids. */
  predicate PlainUsers(steps: seq<Step>) {
    forall s | s in steps && s.Connect? :: OWNER_SEPARATOR !in s.user
  }

  ghost predicate PlainProcs(w: World) {
    forall c | c in w.procs :: OWNER_SEPARATOR !in w.procs[c].user
  }

  lemma MoveOwned(p: Presence, c: string, proc: Proc, committed: bool)
    ensures var (p', pc') := Move(p, c, proc, committed);
            var claim := (proc.inst, OwnerMember(proc.user, c));
            p'.owned == if Claiming(pc') then (if Claiming(proc.pc) then p.owned else p.owned + {claim})
                        else if Claiming(proc.pc) then p.owned - {claim} else p.owned
  {
  }

  lemma OneClaimant(w: World, i: string, m: string, c: string, d: string)
    requires PlainProcs(w) && ClaimedBy(w, i, m, c) && d in w.procs && m == OwnerMember(w.procs[d].user, d)
    ensures c == d
  {
    OwnerRoundTrip(w.procs[c].user, c);
    OwnerRoundTrip(w.procs[d].user, d);
  }

  lemma AdvanceClaims(w: World, s: Step)
    requires Enabled(w, s) && s.Advance? && ClaimsExactly(w) && PlainProcs(w)
    ensures ClaimsExactly(Next(w, s))
  {
    var c, proc, w' := s.conn, w.procs[s.conn], Next(w, s);
    var member := OwnerMember(proc.user, c);
    MoveOwned(w.p, c, proc, s.committed);
    forall i, m ensures (i, m) in w'.p.owned <==> exists d :: ClaimedBy(w', i, m, d) {
      assert forall d | d != c :: ClaimedBy(w', i, m, d) <==> ClaimedBy(w, i, m, d);
      if m == member && i == proc.inst {
        OnlyClaimant(w, i, m, c);
        assert ClaimedBy(w, i, m, c) <==> Claiming(proc.pc);
        assert ClaimedBy(w', i, m, c) <==> Claiming(w'.procs[c].pc);
      } else {
        assert !ClaimedBy(w, i, m, c) && !ClaimedBy(w', i, m, c);
      }
    }
  }

  lemma OnlyClaimant(w: World, i: string, m: string, c: string)
    requires PlainProcs(w) && c in w.procs && m == OwnerMember(w.procs[c].user, c)
    ensures forall d | ClaimedBy(w, i, m, d) :: d == c
  {
    forall d | ClaimedBy(w, i, m, d) ensures d == c {
      OneClaimant(w, i, m, d, c);
    }
  }

  lemma StepClaims(w: World, s: Step)
    requires Enabled(w, s) && ClaimsExactly(w) && PlainProcs(w)
    requires s.Connect? ==> OWNER_SEPARATOR !in s.user
    ensures ClaimsExactly(Next(w, s)) && PlainProcs(Next(w, s))
  {
    if s.Advance? {
      AdvanceClaims(w, s);
    } else {
      var w' := Next(w, s);
      forall i, m, d ensures ClaimedBy(w', i, m, d) <==> ClaimedBy(w, i, m, d) {}
    }
  }

  lemma {:induction false} RunClaims(w: World, steps: seq<Step>)
    requires Runs(w, steps) && ClaimsExactly(w) && PlainProcs(w) && HoldsExactly(w) && PlainUsers(steps)
    ensures ClaimsExactly(After(w, steps)) && PlainProcs(After(w, steps)) && HoldsExactly(After(w, steps))
    decreases |steps|
  {
    if steps != [] {
      assert steps[0] in steps && forall s | s in steps[1..] :: s in steps;
      StepClaims(w, steps[0]);
      StepHolds(w, steps[0]);
      RunClaims(Next(w, steps[0]), steps[1..]);
    }
  }

  /** In every run each claim has exactly one connection behind it, and each such connection its claim. */
  lemma ClaimsExactEver(steps: seq<Step>, inst: string, member: string)
    requires Runs(START, steps) && PlainUsers(steps)
    ensures var w := After(START, steps);
            && ((inst, member) in w.p.owned <==> exists c :: ClaimedBy(w, inst, member, c))
            && forall c, d | ClaimedBy(w, inst, member, c) && ClaimedBy(w, inst, member, d) :: c == d
  {
    RunClaims(START, steps);
    var w := After(START, steps);
    forall c, d | ClaimedBy(w, inst, member, c) && ClaimedBy(w, inst, member, d) ensures c == d {
      OneClaimant(w, inst, member, c, d);
    }
  }

  /** The live connections of one instance, as members of its set. */
  function LiveMembers(w: World, inst: string): set<string> {
    set c | c in w.procs && w.procs[c].inst == inst && w.procs[c].pc.Live? :: OwnerMember(w.procs[c].user, c)
  }

  /**
   * At rest, whatever was discarded on the way, an instance's set is its live connections,
   * and the instance sets together decode to exactly the pairs of the user sets.
   */
  lemma ClaimsAtRest(steps: seq<Step>, inst: string)
    requires Runs(START, steps) && PlainUsers(steps) && Quiescent(After(START, steps))
    ensures var w := After(START, steps);
            && OwnedBy(w.p, inst) == LiveMembers(w, inst)
            && forall u, c :: (u, c) in Decoded(OwnedBy(w.p, inst)) <==>
                                (u, c) in w.p.conns && c in w.procs && w.procs[c].inst == inst
  {
    RunClaims(START, steps);
    var w := After(START, steps);
    forall m ensures m in OwnedBy(w.p, inst) <==> m in LiveMembers(w, inst) {
      assert m in OwnedBy(w.p, inst) <==> (inst, m) in w.p.owned;
      if c :| ClaimedBy(w, inst, m, c) {
        assert w.procs[c].pc.Live?;
      }
      if m in LiveMembers(w, inst) {
        var c :| c in w.procs && w.procs[c].inst == inst && w.procs[c].pc.Live? && m == OwnerMember(w.procs[c].user, c);
        assert ClaimedBy(w, inst, m, c);
      }
    }
    forall u, c ensures (u, c) in Decoded(OwnedBy(w.p, inst)) <==>
                          (u, c) in w.p.conns && c in w.procs && w.procs[c].inst == inst {
      DecodesLive(w, inst, u, c);
    }
  }

  lemma DecodesLive(w: World, inst: string, user: string, conn: string)
    requires HoldsExactly(w) && PlainProcs(w) && Quiescent(w)
    ensures (user, conn) in Decoded(LiveMembers(w, inst))
       <==> (user, conn) in w.p.conns && conn in w.procs && w.procs[conn].inst == inst
  {
    if m :| m in LiveMembers(w, inst) && ParseOwner(m) == Some((user, conn)) {
      var c :| c in w.procs && w.procs[c].inst == inst && w.procs[c].pc.Live? && m == OwnerMember(w.procs[c].user, c);
      OwnerRoundTrip(w.procs[c].user, c);
    }
    if (user, conn) in w.p.conns && w.procs[conn].inst == inst {
      OwnerRoundTrip(user, conn);
      assert OwnerMember(user, conn) in LiveMembers(w, inst);
    }
  }
}
