/**
 * Exactly-once announcements. When the add and remove transactions commit, the counts
 * they return name one owner for every transition, however a user's operations
 * interleave; the fallback path loses that.
 */
module PresenceTransitions {
  import opened Options
  import opened PresenceKeys
  import opened PresenceModel
  import opened PresenceProtocol

  predicate Commits(w: World, s: Step) {
    Enabled(w, s)
    && (s.Advance? && (w.procs[s.conn].pc.AddExec? || w.procs[s.conn].pc.RemoveExec?) ==> s.committed)
  }

  predicate CommittedRun(w: World, steps: seq<Step>)
    decreases |steps|
  {
    steps == [] || (Commits(w, steps[0]) && CommittedRun(Next(w, steps[0]), steps[1..]))
  }

  /** The arrivals and departures of one user, in commit order. */
  function Of(log: seq<Transition>, user: string): seq<bool> {
    if log == [] then []
    else
      var last := log[|log| - 1];
      Of(log[..|log| - 1], user) + if last.user == user then [last.arrival] else []
  }

  /** Arrival, departure, arrival, and so on. */
  predicate Alternates(marks: seq<bool>) {
    forall i | 0 <= i < |marks| :: marks[i] <==> i % 2 == 0
  }

  function Arrivals(marks: seq<bool>): nat {
    if marks == [] then 0 else Arrivals(marks[..|marks| - 1]) + if marks[|marks| - 1] then 1 else 0
  }

  lemma {:induction false} AlternatingBalance(marks: seq<bool>)
    requires Alternates(marks)
    ensures Arrivals(marks) - (|marks| - Arrivals(marks)) == |marks| % 2
  {
    if marks != [] {
      AlternatingBalance(marks[..|marks| - 1]);
    }
  }

  /** Counted in: the add has returned its count, the removal has not. */
  predicate CountedIn(pc: Pc) {
    pc.Live? || pc.RemoveExec? || pc.RemoveDirect? || pc.RemoveCount?
  }

  function CountedConns(w: World, user: string): set<string> {
    set c | c in w.procs && w.procs[c].user == user && CountedIn(w.procs[c].pc)
  }

  /** A user's marks alternate and end with an arrival exactly while a connection is counted in. */
  ghost predicate UserMarks(w: World, user: string) {
    Alternates(Of(w.log, user)) && (|Of(w.log, user)| % 2 == 1 <==> CountedConns(w, user) != {})
  }

  /** No fallback is under way, so every count was taken inside its own transaction. */
  predicate NoFallback(w: World) {
    forall c | c in w.procs :: var pc := w.procs[c].pc;
      !pc.AddDirect? && !pc.AddCount? && !pc.RemoveDirect? && !pc.RemoveCount?
  }

  /** What connection `c` has in the log is what its program counter remembers. */
  ghost predicate LogAgrees(w: World, c: string) {
    && (forall t | t in w.log && t.conn == c :: c in w.procs && t.user == w.procs[c].user)
    && (c in w.procs ==> CreditsAgree(w.log, c, w.procs[c].pc))
  }

  ghost predicate Credited(log: seq<Transition>, c: string, arrival: bool) {
    exists t :: t in log && t.conn == c && t.arrival == arrival
  }

  ghost predicate CreditsAgree(log: seq<Transition>, c: string, pc: Pc) {
    match pc
    case Live(count) => (count == 1 <==> Credited(log, c, true)) && !Credited(log, c, false)
    case RemoveExec => !Credited(log, c, false)
    case RemoveDirect(_) => !Credited(log, c, false)
    case RemoveCount => !Credited(log, c, false)
    case ClearGet => Credited(log, c, false)
    case ClearExec(_) => Credited(log, c, false)
    case ClearDirect(_, _) => Credited(log, c, false)
    case Gone(count) => count == 0 <==> Credited(log, c, false)
    case _ => !Credited(log, c, true) && !Credited(log, c, false)
  }

  ghost predicate Inv(w: World) {
    HoldsExactly(w) && NoFallback(w) && forall u :: UserMarks(w, u)
  }

  lemma OfNoted(log: seq<Transition>, noted: seq<Transition>, user: string)
    requires |noted| <= 1
    ensures Of(log + noted, user)
         == Of(log, user) + if noted != [] && noted[0].user == user then [noted[0].arrival] else []
  {
    if noted == [] {
      assert log + noted == log;
    } else {
      assert (log + noted)[..|log|] == log;
    }
  }

  // ---- when a count credits the right caller ----

  /** The step takes the count its caller acts on: inside the transaction, or by a read of its own. */
  predicate TakesCount(pc: Pc, committed: bool) {
    pc.AddCount? || pc.RemoveCount? || ((pc.AddExec? || pc.RemoveExec?) && committed)
  }

  ghost predicate OthersHeld(w: World, user: string, c: string) {
    exists d :: d != c && (user, d) in w.p.conns
  }

  lemma CountsOthers(p: Presence, user: string, c: string)
    ensures (user, c) in p.conns ==> (LiveCount(p, user) == 1 <==> forall d | (user, d) in p.conns :: d == c)
    ensures LiveCount(p, user) == 0 <==> forall d :: (user, d) !in p.conns
  {
    var held := ConnsOf(p, user);
    assert forall d :: d in held <==> (user, d) in p.conns;
    if c in held && held != {c} {
      var d :| d in held && d != c;
      assert d in held - {c} && |held - {c}| == |held| - 1;
    }
  }

  /** What is counted in, and where the counts lead, by program counter. */
  lemma MoveCounts(p: Presence, c: string, proc: Proc, committed: bool)
    requires !Quiet(proc.pc) && (proc.pc.AddCount? ==> (proc.user, c) in p.conns)
    requires proc.pc.RemoveCount? ==> (proc.user, c) !in p.conns
    ensures var (p', pc') := Move(p, c, proc, committed);
            if TakesCount(proc.pc, committed) then
              && CountedIn(pc') != CountedIn(proc.pc)
              && CountedIn(pc') == ((proc.user, c) in p'.conns)
              && p'.conns - {(proc.user, c)} == p.conns - {(proc.user, c)}
              && (if CountedIn(pc') then pc' == Live(LiveCount(p', proc.user)) else pc' == AfterRemoval(p', proc.user))
            else CountedIn(pc') == CountedIn(proc.pc) && !pc'.Live? && pc' != ClearGet
  {
  }

  /**
   * A count credits a transition exactly when no other connection is held at that moment,
   * and moves its connection into or out of what is counted in; no other step does either.
   */
  lemma CountCreditsIff(w: World, s: Step)
    requires Enabled(w, s) && HoldsExactly(w) && s.Advance?
    ensures var c, proc := s.conn, w.procs[s.conn]; var pc' := Next(w, s).procs[c].pc;
            if TakesCount(proc.pc, s.committed) then
              && CountedIn(pc') != CountedIn(proc.pc)
              && Noted(c, proc, pc') == if OthersHeld(w, proc.user, c) then []
                                        else [Transition(proc.user, c, CountedIn(pc'), proc.silent)]
            else CountedIn(pc') == CountedIn(proc.pc) && Noted(c, proc, pc') == []
  {
    var proc, w' := w.procs[s.conn], Next(w, s);
    MoveCounts(w.p, s.conn, proc, s.committed);
    CountsOthers(w'.p, proc.user, s.conn);
    if TakesCount(proc.pc, s.committed) {
      forall d | d != s.conn ensures (proc.user, d) in w'.p.conns <==> (proc.user, d) in w.p.conns {
        assert (proc.user, d) in w'.p.conns - {(proc.user, s.conn)}
          <==> (proc.user, d) in w.p.conns - {(proc.user, s.conn)};
      }
    }
  }

  /** The count is taken while others are held exactly if others are counted in. */
  ghost predicate TrueCount(w: World, s: Step)
    requires Enabled(w, s)
  {
    s.Advance? && TakesCount(w.procs[s.conn].pc, s.committed) ==>
      (OthersHeld(w, w.procs[s.conn].user, s.conn) <==> CountedConns(w, w.procs[s.conn].user) - {s.conn} != {})
  }

  predicate Concerns(w: World, s: Step, user: string)
    requires Enabled(w, s)
  {
    s.Advance? && w.procs[s.conn].user == user
  }

  lemma CountedAfter(w: World, s: Step, user: string)
    requires Enabled(w, s) && HoldsExactly(w)
    ensures var c, w' := s.conn, Next(w, s);
            CountedConns(w', user) == if Concerns(w, s, user) && CountedIn(w'.procs[c].pc)
                                      then CountedConns(w, user) + {c}
                                      else if Concerns(w, s, user) then CountedConns(w, user) - {c}
                                      else CountedConns(w, user)
  {
  }

  /** One step keeps a user's arrivals and departures alternating exactly when its count is true. */
  lemma AlternationKeptIff(w: World, s: Step, user: string)
    requires Enabled(w, s) && HoldsExactly(w) && UserMarks(w, user)
    ensures UserMarks(Next(w, s), user) <==> (Concerns(w, s, user) ==> TrueCount(w, s))
  {
    CountedAfter(w, s, user);
    if s.Advance? {
      CountCreditsIff(w, s);
      var proc, pc' := w.procs[s.conn], Next(w, s).procs[s.conn].pc;
      OfNoted(w.log, Noted(s.conn, proc, pc'), user);
      if Concerns(w, s, user) && TakesCount(proc.pc, s.committed) {
        MarksWith(Of(w.log, user), CountedIn(pc'));
      }
    }
  }

  lemma MarksWith(marks: seq<bool>, arrival: bool)
    requires Alternates(marks)
    ensures Alternates(marks + [arrival]) <==> (arrival <==> |marks| % 2 == 0)
  {
    assert (marks + [arrival])[|marks|] == arrival;
  }

  ghost predicate TrueCounts(w: World, steps: seq<Step>, user: string)
    requires Runs(w, steps)
    decreases |steps|
  {
    steps == [] || ((Concerns(w, steps[0], user) ==> TrueCount(w, steps[0]))
                    && TrueCounts(Next(w, steps[0]), steps[1..], user))
  }

  /** The user's marks are right in every state of the run. */
  ghost predicate MarkedThroughout(w: World, steps: seq<Step>, user: string)
    requires Runs(w, steps)
    decreases |steps|
  {
    UserMarks(w, user) && (steps == [] || MarkedThroughout(Next(w, steps[0]), steps[1..], user))
  }

  lemma {:induction false} MarkedThroughoutIff(w: World, steps: seq<Step>, user: string)
    requires Runs(w, steps) && HoldsExactly(w) && UserMarks(w, user)
    ensures MarkedThroughout(w, steps, user) <==> TrueCounts(w, steps, user)
    decreases |steps|
  {
    if steps != [] {
      var s, w' := steps[0], Next(w, steps[0]);
      AlternationKeptIff(w, s, user);
      StepHolds(w, s);
      if UserMarks(w', user) {
        MarkedThroughoutIff(w', steps[1..], user);
      } else {
        assert !MarkedThroughout(w', steps[1..], user);
      }
    }
  }

  /**
   * In any run, committed or not, transitions stay exactly-once for a user throughout if
   * and only if every count of theirs is taken while others are held exactly if others
   * are counted in.
   */
  lemma ExactlyOnceIff(steps: seq<Step>, user: string)
    requires Runs(START, steps)
    ensures MarkedThroughout(START, steps, user) <==> TrueCounts(START, steps, user)
  {
    assert CountedConns(START, user) == {};
    MarkedThroughoutIff(START, steps, user);
  }

  // ---- committed runs ----

  /** With no fallback under way, what is held is what is counted in. */
  lemma HeldIsCounted(w: World, user: string)
    requires HoldsExactly(w) && NoFallback(w)
    ensures ConnsOf(w.p, user) == CountedConns(w, user)
  {
    forall c ensures c in ConnsOf(w.p, user) <==> c in CountedConns(w, user) {
      assert c in ConnsOf(w.p, user) <==> (user, c) in w.p.conns;
    }
  }

  lemma StepMarks(w: World, s: Step, user: string)
    requires Commits(w, s) && HoldsExactly(w) && NoFallback(w) && UserMarks(w, user)
    ensures UserMarks(Next(w, s), user)
  {
    AlternationKeptIff(w, s, user);
    HeldIsCounted(w, user);
    if Concerns(w, s, user) {
      assert forall d :: (user, d) in w.p.conns <==> d in ConnsOf(w.p, user);
      assert forall d :: d != s.conn && d in CountedConns(w, user) <==> d in CountedConns(w, user) - {s.conn};
    }
  }

  lemma {:induction false} RunInv(w: World, steps: seq<Step>)
    requires CommittedRun(w, steps) && Inv(w)
    ensures Runs(w, steps) && Inv(After(w, steps))
    decreases |steps|
  {
    if steps != [] {
      var s, w' := steps[0], Next(w, steps[0]);
      StepHolds(w, s);
      forall u ensures UserMarks(w', u) {
        StepMarks(w, s, u);
      }
      RunInv(w', steps[1..]);
    }
  }

  /**
   * In every committed run a user's transitions strictly alternate, beginning with an
   * arrival, and arrivals minus departures is 1 exactly while a connection is held.
   */
  lemma TransitionsAlternate(steps: seq<Step>, user: string)
    requires CommittedRun(START, steps) && Runs(START, steps)
    ensures var w := After(START, steps); var marks := Of(w.log, user);
            && Alternates(marks)
            && 2 * Arrivals(marks) - |marks| == if ConnsOf(w.p, user) != {} then 1 else 0
  {
    assert Inv(START);
    RunInv(START, steps);
    assert UserMarks(After(START, steps), user);
    HeldIsCounted(After(START, steps), user);
    AlternatingBalance(Of(After(START, steps).log, user));
  }

  // ---- the tracker ----

  lemma CreditedAfter(log: seq<Transition>, noted: seq<Transition>, c: string, arrival: bool)
    ensures Credited(log + noted, c, arrival) <==> Credited(log, c, arrival) || Credited(noted, c, arrival)
  {
    assert forall t :: t in log + noted <==> t in log || t in noted;
  }

  lemma MoveCredits(p: Presence, c: string, proc: Proc, committed: bool, log: seq<Transition>)
    requires !Quiet(proc.pc) && CreditsAgree(log, c, proc.pc)
    ensures var pc' := Move(p, c, proc, committed).1; CreditsAgree(log + Noted(c, proc, pc'), c, pc')
  {
    var pc' := Move(p, c, proc, committed).1;
    var noted := Noted(c, proc, pc');
    CreditedAfter(log, noted, c, true);
    CreditedAfter(log, noted, c, false);
    if noted != [] {
      assert noted[0] in noted;
    }
  }

  lemma StepLog(w: World, s: Step, c: string)
    requires Enabled(w, s) && LogAgrees(w, c)
    ensures LogAgrees(Next(w, s), c)
  {
    if s.Advance? {
      var w' := Next(w, s);
      var noted := Noted(s.conn, w.procs[s.conn], w'.procs[s.conn].pc);
      assert forall t | t in noted :: t.conn == s.conn && t.user == w.procs[s.conn].user;
      CreditedAfter(w.log, noted, c, true);
      CreditedAfter(w.log, noted, c, false);
      if s.conn == c {
        MoveCredits(w.p, c, w.procs[c], s.committed, w.log);
      }
    }
  }

  lemma {:induction false} RunLog(w: World, steps: seq<Step>, c: string)
    requires Runs(w, steps) && LogAgrees(w, c)
    ensures LogAgrees(After(w, steps), c)
    decreases |steps|
  {
    if steps != [] {
      StepLog(w, steps[0], c);
      RunLog(Next(w, steps[0]), steps[1..], c);
    }
  }

  /** The connect hook announces when its add returned 1, the disconnect hook on a 0. */
  predicate HookAnnounces(proc: Proc) {
    !proc.silent && proc.tenant.Some?
    && ((proc.pc.Live? && proc.pc.count == 1) || (proc.pc.Gone? && proc.pc.count == 0))
  }

  /**
   * In every run, a hook that has its count announces exactly when the log credits its
   * connection with that transition; a boot reclaim announces nothing.
   */
  lemma HooksAnnounceTransitions(steps: seq<Step>, c: string)
    requires Runs(START, steps)
    requires c in After(START, steps).procs && Quiet(After(START, steps).procs[c].pc)
    ensures var w := After(START, steps); var proc := w.procs[c];
            HookAnnounces(proc)
            <==> !proc.silent && proc.tenant.Some?
                 && exists t :: t in w.log && t.conn == c && t.user == proc.user && t.arrival == proc.pc.Live?
  {
    RunLog(START, steps, c);
    var w := After(START, steps);
    assert LogAgrees(w, c);
    assert Credited(w.log, c, w.procs[c].pc.Live?)
      <==> exists t :: t in w.log && t.conn == c && t.user == w.procs[c].user && t.arrival == w.procs[c].pc.Live?;
  }

  // ---- the limit: when transactions are discarded, counts are no longer exclusive ----

  function Racing(p: Presence, pcA: Pc, pcB: Pc): World {
    World(p, map["a" := Proc("u", Some("t"), "i", false, pcA), "b" := Proc("u", Some("t"), "i", false, pcB)], [])
  }

  lemma RaceA(p: Presence, pcA: Pc, pcB: Pc, committed: bool)
    requires !Quiet(pcA) && Noted("a", Proc("u", Some("t"), "i", false, pcA),
                                  Move(p, "a", Proc("u", Some("t"), "i", false, pcA), committed).1) == []
    ensures var (p', pc') := Move(p, "a", Proc("u", Some("t"), "i", false, pcA), committed);
            && Enabled(Racing(p, pcA, pcB), Advance("a", committed))
            && Next(Racing(p, pcA, pcB), Advance("a", committed)) == Racing(p', pc', pcB)
  {
  }

  lemma RaceB(p: Presence, pcA: Pc, pcB: Pc, committed: bool)
    requires !Quiet(pcB) && Noted("b", Proc("u", Some("t"), "i", false, pcB),
                                  Move(p, "b", Proc("u", Some("t"), "i", false, pcB), committed).1) == []
    ensures var (p', pc') := Move(p, "b", Proc("u", Some("t"), "i", false, pcB), committed);
            && Enabled(Racing(p, pcA, pcB), Advance("b", committed))
            && Next(Racing(p, pcA, pcB), Advance("b", committed)) == Racing(p', pcA, pc')
  {
  }

  /** Once both sets of commands have added their connection, each finishes with count 2. */
  lemma FinishA(p: Presence, n: nat, pcB: Pc) returns (p': Presence, steps: seq<Step>)
    requires 1 <= n <= 4 && ConnsOf(p, "u") == {"a", "b"}
    ensures Runs(Racing(p, AddDirect(n), pcB), steps)
    ensures After(Racing(p, AddDirect(n), pcB), steps) == Racing(p', Live(2), pcB)
    ensures ConnsOf(p', "u") == {"a", "b"}
    decreases 4 - n
  {
    RaceA(p, AddDirect(n), pcB, true);
    var (q, pc) := Move(p, "a", Proc("u", Some("t"), "i", false, AddDirect(n)), true);
    assert q.conns == p.conns;
    assert ConnsOf(q, "u") == ConnsOf(p, "u");
    if n < 4 {
      p', steps := FinishA(q, n + 1, pcB);
    } else {
      assert |{"a", "b"}| == 2;
      RaceA(q, AddCount, pcB, true);
      p' := q;
      RunThen(Racing(q, AddCount, pcB), Advance("a", true), []);
      steps := [Advance("a", true)] + [];
    }
    RunThen(Racing(p, AddDirect(n), pcB), Advance("a", true), steps);
    steps := [Advance("a", true)] + steps;
  }

  lemma FinishB(p: Presence, n: nat, pcA: Pc) returns (p': Presence, steps: seq<Step>)
    requires 1 <= n <= 4 && ConnsOf(p, "u") == {"a", "b"}
    ensures Runs(Racing(p, pcA, AddDirect(n)), steps)
    ensures After(Racing(p, pcA, AddDirect(n)), steps) == Racing(p', pcA, Live(2))
    ensures ConnsOf(p', "u") == {"a", "b"}
    decreases 4 - n
  {
    RaceB(p, pcA, AddDirect(n), true);
    var (q, pc) := Move(p, "b", Proc("u", Some("t"), "i", false, AddDirect(n)), true);
    assert q.conns == p.conns;
    assert ConnsOf(q, "u") == ConnsOf(p, "u");
    if n < 4 {
      p', steps := FinishB(q, n + 1, pcA);
    } else {
      assert |{"a", "b"}| == 2;
      RaceB(q, pcA, AddCount, true);
      p' := q;
      RunThen(Racing(q, pcA, AddCount), Advance("b", true), []);
      steps := [Advance("b", true)] + [];
    }
    RunThen(Racing(p, pcA, AddDirect(n)), Advance("b", true), steps);
    steps := [Advance("b", true)] + steps;
  }

  lemma {:induction false} RunsCompose(w: World, first: seq<Step>, then_: seq<Step>)
    requires Runs(w, first) && Runs(After(w, first), then_)
    ensures Runs(w, first + then_) && After(w, first + then_) == After(After(w, first), then_)
    decreases |first|
  {
    if first == [] {
      assert first + then_ == then_;
    } else {
      RunsCompose(Next(w, first[0]), first[1..], then_);
      assert first + then_ == [first[0]] + (first[1..] + then_);
      RunThen(w, first[0], first[1..] + then_);
    }
  }

  lemma RaceStarts() returns (steps: seq<Step>, p: Presence)
    ensures Runs(START, steps) && After(START, steps) == Racing(p, AddDirect(1), AddDirect(1))
    ensures ConnsOf(p, "u") == {"a", "b"}
  {
    var w1 := Next(START, Connect("a", "u", Some("t"), "i"));
    var w2 := Next(w1, Connect("b", "u", Some("t"), "i"));
    assert w2 == Racing(NOBODY, AddExec, AddExec);
    RaceA(NOBODY, AddExec, AddExec, false);
    RaceB(NOBODY, AddDirect(0), AddExec, false);
    RaceA(NOBODY, AddDirect(0), AddDirect(0), true);
    var q := NOBODY.(conns := {("u", "a")});
    assert Effect(NOBODY, AddCommands("i", "u", "a", Some("t"))[0]) == q;
    RaceB(q, AddDirect(1), AddDirect(0), true);
    p := Effect(q, AddCommands("i", "u", "b", Some("t"))[0]);
    assert p.conns == {("u", "a"), ("u", "b")};
    steps := [];
    RunThen(Racing(q, AddDirect(1), AddDirect(0)), Advance("b", true), steps);
    steps := [Advance("b", true)] + steps;
    RunThen(Racing(NOBODY, AddDirect(0), AddDirect(0)), Advance("a", true), steps);
    steps := [Advance("a", true)] + steps;
    RunThen(Racing(NOBODY, AddDirect(0), AddExec), Advance("b", false), steps);
    steps := [Advance("b", false)] + steps;
    RunThen(w2, Advance("a", false), steps);
    steps := [Advance("a", false)] + steps;
    RunThen(w1, Connect("b", "u", Some("t"), "i"), steps);
    steps := [Connect("b", "u", Some("t"), "i")] + steps;
    RunThen(START, Connect("a", "u", Some("t"), "i"), steps);
    steps := [Connect("a", "u", Some("t"), "i")] + steps;
  }

  /** Two discarded additions of one user can both count 2: the arrival has no owner. */
  lemma FallbackLosesArrival()
    ensures exists steps :: Runs(START, steps) && Quiescent(After(START, steps))
              && ConnsOf(After(START, steps).p, "u") == {"a", "b"} && After(START, steps).log == []
  {
    var first, p := RaceStarts();
    var p1, second := FinishA(p, 1, AddDirect(1));
    var p2, third := FinishB(p1, 1, Live(2));
    RunsCompose(START, first, second);
    RunsCompose(START, first + second, third);
    assert After(START, first + second + third) == Racing(p2, Live(2), Live(2));
  }
}
