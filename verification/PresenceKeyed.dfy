/**
 * From the protocol to the strings in Redis: the commands a run issues, applied to the
 * string-keyed Redis, leave exactly the entries that the protocol's state stands for.
 */
module PresenceKeyed {
  import opened Options
  import opened RedisStore
  import opened PresenceKeys
  import opened PresenceModel
  import opened PresenceProtocol
  import opened PresenceRefinement
  import opened PresenceClaims

  // ---- the commands of a run ----

  function OneCommand(cmds: seq<Command<Key>>, n: nat): seq<Command<Key>> {
    if n < |cmds| then [cmds[n]] else []
  }

  /** What a step sends to Redis: a committed transaction at once, a fallback command alone. */
  function StepCommands(w: World, s: Step): (cmds: seq<Command<Key>>)
    requires Enabled(w, s)
    ensures forall i | 0 <= i < |cmds| :: TypedCommand(cmds[i])
  {
    if !s.Advance? then []
    else
      var proc := w.procs[s.conn];
      match proc.pc
      case AddExec => if s.committed then AddCommands(proc.inst, proc.user, s.conn, proc.tenant) else []
      case AddDirect(n) => OneCommand(AddCommands(proc.inst, proc.user, s.conn, proc.tenant), n)
      case RemoveExec => if s.committed then RemoveCommands(proc.inst, proc.user, s.conn) else []
      case RemoveDirect(n) => OneCommand(RemoveCommands(proc.inst, proc.user, s.conn), n)
      case ClearExec(t) => if s.committed then ClearCommands(proc.user, t) else []
      case ClearDirect(t, n) => OneCommand(ClearCommands(proc.user, t), n)
      case _ => []
  }

  function Issued(w: World, steps: seq<Step>): (cmds: seq<Command<Key>>)
    requires Runs(w, steps)
    ensures forall i | 0 <= i < |cmds| :: TypedCommand(cmds[i])
    decreases |steps|
  {
    if steps == [] then [] else StepCommands(w, steps[0]) + Issued(Next(w, steps[0]), steps[1..])
  }

  lemma OneEffect(p: Presence, cmds: seq<Command<Key>>, n: nat)
    requires forall i | 0 <= i < |cmds| :: TypedCommand(cmds[i])
    ensures EffectAll(p, OneCommand(cmds, n)) == if n < |cmds| then Effect(p, cmds[n]) else p
  {
    if n < |cmds| {
      assert [cmds[n]][1..] == [];
    }
  }

  lemma StepEffect(w: World, s: Step)
    requires Enabled(w, s)
    ensures Next(w, s).p == EffectAll(w.p, StepCommands(w, s))
  {
    if s.Advance? {
      var c, proc := s.conn, w.procs[s.conn];
      match proc.pc
      case AddExec => AddCommandsAchieve(w.p, proc.inst, proc.user, c, proc.tenant);
      case AddDirect(n) => OneEffect(w.p, AddCommands(proc.inst, proc.user, c, proc.tenant), n);
      case RemoveExec => RemoveCommandsAchieve(w.p, proc.inst, proc.user, c);
      case RemoveDirect(n) => OneEffect(w.p, RemoveCommands(proc.inst, proc.user, c), n);
      case ClearExec(t) => ClearCommandsAchieve(w.p, proc.user, t);
      case ClearDirect(t, n) => OneEffect(w.p, ClearCommands(proc.user, t), n);
      case _ =>
    }
  }

  lemma {:induction false} EffectsCompose(p: Presence, a: seq<Command<Key>>, b: seq<Command<Key>>)
    requires forall i | 0 <= i < |a| :: TypedCommand(a[i])
    requires forall i | 0 <= i < |b| :: TypedCommand(b[i])
    ensures EffectAll(p, a + b) == EffectAll(EffectAll(p, a), b)
    decreases |a|
  {
    if a == [] {
      assert a + b == b;
    } else {
      assert (a + b)[1..] == a[1..] + b;
      EffectsCompose(Effect(p, a[0]), a[1..], b);
    }
  }

  lemma {:induction false} IssuedEffect(w: World, steps: seq<Step>)
    requires Runs(w, steps)
    ensures EffectAll(w.p, Issued(w, steps)) == After(w, steps).p
    decreases |steps|
  {
    if steps != [] {
      var w' := Next(w, steps[0]);
      StepEffect(w, steps[0]);
      EffectsCompose(w.p, StepCommands(w, steps[0]), Issued(w', steps[1..]));
      IssuedEffect(w', steps[1..]);
    }
  }

  // ---- the keys of a run ----

  function UsersOf(steps: seq<Step>): set<string> {
    set s | s in steps && s.Connect? :: s.user
  }

  function UserIn(k: Key): set<string> {
    if k.UserKey? || k.UserTenantKey? then {k.userId} else {}
  }

  /** No user id is another one followed by ':tenant'. */
  predicate SeparateUsers(users: set<string>) {
    forall u, v | u in users && v in users :: u != v + TENANT_SUFFIX
  }

  /** A command list of one user names no other. */
  predicate Names(cmds: seq<Command<Key>>, user: string) {
    forall cmd | cmd in cmds :: UserIn(cmd.key) <= {user}
  }

  lemma ListsName(inst: string, user: string, conn: string, tenant: Option<string>)
    ensures Names(AddCommands(inst, user, conn, tenant), user)
    ensures Names(RemoveCommands(inst, user, conn), user)
    ensures Names(ClearCommands(user, tenant), user)
  {
  }

  lemma OneName(cmds: seq<Command<Key>>, n: nat, user: string)
    requires Names(cmds, user)
    ensures Names(OneCommand(cmds, n), user)
  {
  }

  lemma StepKeys(w: World, s: Step)
    requires Enabled(w, s) && s.Advance?
    ensures Names(StepCommands(w, s), w.procs[s.conn].user)
  {
    var c, proc := s.conn, w.procs[s.conn];
    ListsName(proc.inst, proc.user, c, proc.tenant);
    match proc.pc
    case AddDirect(n) => OneName(AddCommands(proc.inst, proc.user, c, proc.tenant), n, proc.user);
    case RemoveDirect(n) => OneName(RemoveCommands(proc.inst, proc.user, c), n, proc.user);
    case ClearExec(t) => ListsName(proc.inst, proc.user, c, t);
    case ClearDirect(t, n) =>
      ListsName(proc.inst, proc.user, c, t);
      OneName(ClearCommands(proc.user, t), n, proc.user);
    case _ =>
  }

  lemma {:induction false} IssuedKeys(w: World, steps: seq<Step>, users: set<string>)
    requires Runs(w, steps) && UsersOf(steps) <= users && forall c | c in w.procs :: w.procs[c].user in users
    ensures forall cmd | cmd in Issued(w, steps) :: UserIn(cmd.key) <= users
    decreases |steps|
  {
    if steps != [] {
      var s, w' := steps[0], Next(w, steps[0]);
      assert s in steps && (s.Connect? ==> s.user in UsersOf(steps));
      assert UsersOf(steps[1..]) <= UsersOf(steps);
      IssuedKeys(w', steps[1..], users);
      if s.Advance? {
        StepKeys(w, s);
      }
    }
  }

  lemma SeparateKeys(keys: set<Key>, users: set<string>)
    requires SeparateUsers(users) && forall k | k in keys :: UserIn(k) <= users
    ensures Separate(keys)
  {
    forall a, b | a in keys && b in keys ensures !Shadows(a, b) {
      if a.UserKey? && b.UserTenantKey? {
        assert a.userId in UserIn(a) && b.userId in UserIn(b);
      }
    }
  }

  // ---- what Redis holds after a run ----

  /** The string-keyed Redis after the run, from an empty one. */
  function RedisAfter(steps: seq<Step>): map<string, Entry>
    requires Runs(START, steps)
  {
    ApplyAll(map[], RenderedAll(Issued(START, steps)))
  }

  function MembersOf(p: Presence, k: Key): set<string> {
    match k
    case OnlineKey => p.online
    case UserKey(u) => ConnsOf(p, u)
    case UserTenantKey(_) => {}
    case TenantKey(t) => RosterOf(p, t)
    case InstanceKey(i) => OwnedBy(p, i)
  }

  function TextOf(p: Presence, k: Key): Option<string> {
    if k.UserTenantKey? then TenantText(p, k.userId) else None
  }

  lemma ViewEntry(db: map<Key, Entry>, k: Key)
    requires WellTyped(db)
    ensures MembersAt(db, k) == MembersOf(View(db), k) && TextAt(db, k) == TextOf(View(db), k)
  {
    match k
    case OnlineKey =>
    case UserKey(u) => ViewReads(db, u);
    case UserTenantKey(u) => ViewText(db, u);
    case TenantKey(t) => ViewReads(db, t);
    case InstanceKey(i) => ViewReads(db, i);
  }

  /** What the string-keyed Redis holds after any commands on keys of separate users. */
  lemma CommandsHold(cmds: seq<Command<Key>>, users: set<string>, k: Key)
    requires forall i | 0 <= i < |cmds| :: TypedCommand(cmds[i])
    requires SeparateUsers(users) && UserIn(k) <= users && forall cmd | cmd in cmds :: UserIn(cmd.key) <= users
    ensures var redis, p := ApplyAll(map[], RenderedAll(cmds)), EffectAll(NOBODY, cmds);
            MembersAt(redis, Render(k)) == MembersOf(p, k) && TextAt(redis, Render(k)) == TextOf(p, k)
  {
    var keys := (set cmd | cmd in cmds :: cmd.key) + {k};
    SeparateKeys(keys, users);
    var empty: map<Key, Entry> := map[];
    assert View(empty) == NOBODY;
    FlatRun(map[], empty, keys, cmds);
    ViewApplyAll(empty, cmds);
    FlatReads(ApplyAll(map[], RenderedAll(cmds)), ApplyAll(empty, cmds), keys, k);
    ViewEntry(ApplyAll(empty, cmds), k);
  }

  /** The run's state and Redis agree on what is stored under `k`. */
  ghost predicate EntryAgrees(steps: seq<Step>, k: Key)
    requires Runs(START, steps)
  {
    && MembersAt(RedisAfter(steps), Render(k)) == MembersOf(After(START, steps).p, k)
    && TextAt(RedisAfter(steps), Render(k)) == TextOf(After(START, steps).p, k)
  }

  /**
   * After any run of any instances, overlapping or not, committed or not, every entry of
   * the string-keyed Redis is what the protocol's state says.
   */
  lemma RedisHoldsTheState(steps: seq<Step>, k: Key)
    requires Runs(START, steps) && SeparateUsers(UsersOf(steps) + UserIn(k))
    ensures EntryAgrees(steps, k)
  {
    var users := UsersOf(steps) + UserIn(k);
    IssuedKeys(START, steps, users);
    IssuedEffect(START, steps);
    CommandsHold(Issued(START, steps), users, k);
  }

  ghost predicate AlwaysAgrees(users: set<string>) {
    forall steps, k | Runs(START, steps) && UsersOf(steps) + UserIn(k) <= users :: EntryAgrees(steps, k)
  }

  lemma SubsetSeparate(users: set<string>, some: set<string>)
    requires SeparateUsers(users) && some <= users
    ensures SeparateUsers(some)
  {
  }

  /** One committed addition for a user whose key is spelled like another's tenant key. */
  lemma ShadowingRun(u: string) returns (steps: seq<Step>)
    ensures Runs(START, steps) && UsersOf(steps) == {u + TENANT_SUFFIX}
    ensures !EntryAgrees(steps, UserTenantKey(u))
  {
    var name := u + TENANT_SUFFIX;
    var w1 := Next(START, Connect("c", name, None, "i"));
    RunThen(w1, Advance("c", true), []);
    steps := [Advance("c", true)] + [];
    var w2 := After(w1, steps);
    assert w2.p.conns == {(name, "c")};
    RunThen(START, Connect("c", name, None, "i"), steps);
    steps := [Connect("c", name, None, "i")] + steps;
    assert steps[0] in steps && UsersOf(steps) == {name};
    RedisHoldsTheState(steps, UserKey(name));
    assert "c" in ConnsOf(w2.p, name);
    RenderCollides(UserKey(name), UserTenantKey(u));
  }

  /** For users named in `users`, Redis always agrees exactly when no two of them shadow each other. */
  lemma AgreesIffSeparate(users: set<string>)
    ensures AlwaysAgrees(users) <==> SeparateUsers(users)
  {
    if SeparateUsers(users) {
      forall steps, k | Runs(START, steps) && UsersOf(steps) + UserIn(k) <= users ensures EntryAgrees(steps, k) {
        SubsetSeparate(users, UsersOf(steps) + UserIn(k));
        RedisHoldsTheState(steps, k);
      }
    } else {
      var u, v :| u in users && v in users && u == v + TENANT_SUFFIX;
      var steps := ShadowingRun(v);
      assert UsersOf(steps) + UserIn(UserTenantKey(v)) <= users;
    }
  }

  // ---- the properties of runs, on the strings in Redis ----

  lemma ReadsAgree(steps: seq<Step>, user: string)
    requires Runs(START, steps) && SeparateUsers(UsersOf(steps) + {user})
    ensures var p, redis := After(START, steps).p, RedisAfter(steps);
            && MembersAt(redis, Render(UserKey(user))) == ConnsOf(p, user)
            && MembersAt(redis, Render(OnlineKey)) == p.online
            && TextAt(redis, Render(UserTenantKey(user))) == TenantText(p, user)
            && (forall t :: user in MembersAt(redis, Render(TenantKey(t))) <==> (t, user) in p.roster)
            && (forall i :: MembersAt(redis, Render(InstanceKey(i))) == OwnedBy(p, i))
  {
    var p := After(START, steps).p;
    SubsetSeparate(UsersOf(steps) + {user}, UsersOf(steps));
    RedisHoldsTheState(steps, UserKey(user));
    RedisHoldsTheState(steps, OnlineKey);
    RedisHoldsTheState(steps, UserTenantKey(user));
    forall t ensures user in MembersAt(RedisAfter(steps), Render(TenantKey(t))) <==> (t, user) in p.roster {
      RedisHoldsTheState(steps, TenantKey(t));
    }
    forall i ensures MembersAt(RedisAfter(steps), Render(InstanceKey(i))) == OwnedBy(p, i) {
      RedisHoldsTheState(steps, InstanceKey(i));
    }
  }

  /** No ghosts in Redis: the refined statement of `NoGhostEver`, over the stored strings. */
  lemma NoGhostInRedis(steps: seq<Step>, user: string)
    requires Runs(START, steps) && SeparateUsers(UsersOf(steps) + {user})
    requires user in MembersAt(RedisAfter(steps), "presence:online")
    ensures var w := After(START, steps);
            MembersAt(RedisAfter(steps), "presence:user:" + user) != {}
            || exists c :: c in w.procs && w.procs[c].user == user && Owes(w.procs[c].pc)
  {
    ReadsAgree(steps, user);
    NoGhostEver(steps, user);
  }

  /**
   * The whole refinement: after any orderly run, while others' operations are still under
   * way, every entry of an idle user in Redis is the one of the abstract map.
   */
  lemma IdleUserInRedis(steps: seq<Step>, user: string)
    requires OrderlyRun(START, steps) && Runs(START, steps) && Idle(After(START, steps), user)
    requires SeparateUsers(UsersOf(steps) + {user})
    ensures var w, redis := After(START, steps), RedisAfter(steps);
            var live := LiveConns(w, user);
            && MembersAt(redis, "presence:user:" + user) == live
            && (user in MembersAt(redis, "presence:online") <==> live != {})
            && exists home :: SameTenant(w, user, home)
                 && TextAt(redis, "presence:user:" + user + ":tenant") == (if live != {} then home else None)
                 && forall t :: user in MembersAt(redis, "presence:tenant:" + t) <==> live != {} && home == Some(t)
  {
    ReadsAgree(steps, user);
    IdleUserAgrees(steps, user);
    var w, holds := After(START, steps), LiveConns(After(START, steps), user) != {};
    var home :| SameTenant(w, user, home) && Indexed(w.p, user, home, holds, holds, holds);
    var redis := RedisAfter(steps);
    assert Render(UserTenantKey(user)) == "presence:user:" + user + ":tenant";
    forall t ensures user in MembersAt(redis, "presence:tenant:" + t) <==> holds && home == Some(t) {
      assert Render(TenantKey(t)) == "presence:tenant:" + t;
    }
    assert SameTenant(w, user, home);
  }

  /** At rest, Redis answers the connection, tenant and count queries from the live connections. */
  lemma QueriesInRedis(steps: seq<Step>, user: string, tenant: string)
    requires OrderlyRun(START, steps) && Runs(START, steps) && Quiescent(After(START, steps))
    requires SeparateUsers(UsersOf(steps) + {user})
    ensures var w, redis := After(START, steps), RedisAfter(steps);
            var live := LiveConns(w, user);
            && MembersAt(redis, "presence:user:" + user) == live
            && (user in MembersAt(redis, "presence:tenant:" + tenant)
                <==> exists c :: c in live && w.procs[c].tenant == Some(tenant))
            && |MembersAt(redis, "presence:online")|
                 == |set c | c in w.procs && w.procs[c].pc.Live? :: w.procs[c].user|
  {
    ReadsAgree(steps, user);
    QueriesAgree(steps, user, tenant);
    CountAgrees(steps);
    assert user in RosterOf(After(START, steps).p, tenant) <==> (tenant, user) in After(START, steps).p.roster;
  }

  /** At rest, overlapping or not, an instance's set in Redis is its live connections. */
  lemma InstanceSetsInRedis(steps: seq<Step>, inst: string)
    requires Runs(START, steps) && Quiescent(After(START, steps))
    requires SeparateUsers(UsersOf(steps)) && PlainUsers(steps)
    ensures MembersAt(RedisAfter(steps), "presence:instance:" + inst) == LiveMembers(After(START, steps), inst)
  {
    assert UsersOf(steps) + UserIn(InstanceKey(inst)) == UsersOf(steps);
    RedisHoldsTheState(steps, InstanceKey(inst));
    ClaimsAtRest(steps, inst);
  }
}
