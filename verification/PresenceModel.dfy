/**
 * What the presence entries mean: who holds which connection, who is indexed as
 * online and in which tenant, and which instance claims which connection.
 */
module PresenceModel {
  import opened Options
  import opened RedisStore
  import opened PresenceKeys

  datatype Presence = Presence(
    conns: set<(string, string)>,   // (user, connection)
    online: set<string>,
    tenantOf: map<string, string>,
    roster: set<(string, string)>,  // (tenant, user)
    owned: set<(string, string)>)   // (instance, ownership member)

  const NOBODY := Presence({}, {}, map[], {}, {})

  function ConnsOf(p: Presence, user: string): set<string> {
    set q | q in p.conns && q.0 == user :: q.1
  }

  function LiveCount(p: Presence, user: string): nat {
    |ConnsOf(p, user)|
  }

  function TenantText(p: Presence, user: string): Option<string> {
    if user in p.tenantOf then Some(p.tenantOf[user]) else None
  }

  function OwnedBy(p: Presence, inst: string): set<string> {
    set q | q in p.owned && q.0 == inst :: q.1
  }

  function RosterOf(p: Presence, tenant: string): set<string> {
    set q | q in p.roster && q.0 == tenant :: q.1
  }

  // ---- reading a typed store ----

  ghost predicate WellTyped(db: map<Key, Entry>) {
    forall k | k in db :: k.UserTenantKey? <==> db[k].Text?
  }

  ghost function View(db: map<Key, Entry>): Presence {
    Presence(
      set k, m | k in db && k.UserKey? && m in MembersAt(db, k) :: (k.userId, m),
      MembersAt(db, OnlineKey),
      map k | k in db && k.UserTenantKey? && db[k].Text? :: k.userId := db[k].text,
      set k, m | k in db && k.TenantKey? && m in MembersAt(db, k) :: (k.tenantId, m),
      set k, m | k in db && k.InstanceKey? && m in MembersAt(db, k) :: (k.instanceId, m))
  }

  predicate TypedCommand(cmd: Command<Key>) {
    match cmd
    case SAdd(k, _) => !k.UserTenantKey?
    case SRem(k, _) => !k.UserTenantKey?
    case SetText(k, _) => k.UserTenantKey?
    case Del(_) => true
  }

  function Effect(p: Presence, cmd: Command<Key>): Presence
    requires TypedCommand(cmd)
  {
    match cmd
    case SAdd(OnlineKey, u) => p.(online := p.online + {u})
    case SAdd(UserKey(u), c) => p.(conns := p.conns + {(u, c)})
    case SAdd(TenantKey(t), u) => p.(roster := p.roster + {(t, u)})
    case SAdd(InstanceKey(i), m) => p.(owned := p.owned + {(i, m)})
    case SRem(OnlineKey, u) => p.(online := p.online - {u})
    case SRem(UserKey(u), c) => p.(conns := p.conns - {(u, c)})
    case SRem(TenantKey(t), u) => p.(roster := p.roster - {(t, u)})
    case SRem(InstanceKey(i), m) => p.(owned := p.owned - {(i, m)})
    case SetText(UserTenantKey(u), t) => p.(tenantOf := p.tenantOf[u := t])
    case Del(OnlineKey) => p.(online := {})
    case Del(UserKey(u)) => p.(conns := set q | q in p.conns && q.0 != u)
    case Del(UserTenantKey(u)) => p.(tenantOf := p.tenantOf - {u})
    case Del(TenantKey(t)) => p.(roster := set q | q in p.roster && q.0 != t)
    case Del(InstanceKey(i)) => p.(owned := set q | q in p.owned && q.0 != i)
  }

  function EffectAll(p: Presence, cmds: seq<Command<Key>>): Presence
    requires forall i | 0 <= i < |cmds| :: TypedCommand(cmds[i])
    decreases |cmds|
  {
    if cmds == [] then p else EffectAll(Effect(p, cmds[0]), cmds[1..])
  }

  /** A pair is in the view exactly when its member is in the entry. */
  lemma ViewPair(db: map<Key, Entry>, a: string, b: string)
    ensures (a, b) in View(db).conns <==> b in MembersAt(db, UserKey(a))
    ensures (a, b) in View(db).roster <==> b in MembersAt(db, TenantKey(a))
    ensures (a, b) in View(db).owned <==> b in MembersAt(db, InstanceKey(a))
  {
  }

  lemma ViewText(db: map<Key, Entry>, user: string)
    requires WellTyped(db)
    ensures TextAt(db, UserTenantKey(user)) == TenantText(View(db), user)
  {
  }

  lemma ViewReads(db: map<Key, Entry>, id: string)
    ensures MembersAt(db, UserKey(id)) == ConnsOf(View(db), id)
    ensures MembersAt(db, InstanceKey(id)) == OwnedBy(View(db), id)
    ensures MembersAt(db, TenantKey(id)) == RosterOf(View(db), id)
  {
    var p := View(db);
    forall b ensures b in MembersAt(db, UserKey(id)) <==> b in ConnsOf(p, id)
    {
      ViewPair(db, id, b);
      assert b in ConnsOf(p, id) <==> (id, b) in p.conns;
    }
    forall b ensures b in MembersAt(db, InstanceKey(id)) <==> b in OwnedBy(p, id)
    {
      ViewPair(db, id, b);
      assert b in OwnedBy(p, id) <==> (id, b) in p.owned;
    }
    forall b ensures b in MembersAt(db, TenantKey(id)) <==> b in RosterOf(p, id)
    {
      ViewPair(db, id, b);
      assert b in RosterOf(p, id) <==> (id, b) in p.roster;
    }
  }

  function MembersAfter(before: set<string>, cmd: Command<Key>): set<string> {
    match cmd
    case SAdd(_, m) => before + {m}
    case SRem(_, m) => before - {m}
    case SetText(_, _) => before
    case Del(_) => {}
  }

  function TextAfter(before: Option<string>, cmd: Command<Key>): Option<string> {
    match cmd
    case SetText(_, t) => Some(t)
    case Del(_) => None
    case _ => before
  }

  /** A command touches the entry it names and no other. */
  ghost predicate Touches(db: map<Key, Entry>, db': map<Key, Entry>, cmd: Command<Key>) {
    && MembersAt(db', cmd.key) == MembersAfter(MembersAt(db, cmd.key), cmd)
    && TextAt(db', cmd.key) == TextAfter(TextAt(db, cmd.key), cmd)
    && (forall k | k != cmd.key :: MembersAt(db', k) == MembersAt(db, k))
    && (forall k | k != cmd.key :: TextAt(db', k) == TextAt(db, k))
  }

  lemma ApplyTouches(db: map<Key, Entry>, cmd: Command<Key>)
    requires WellTyped(db) && TypedCommand(cmd)
    ensures WellTyped(Apply(db, cmd)) && Touches(db, Apply(db, cmd), cmd)
  {
  }

  lemma TouchedConns(db: map<Key, Entry>, db': map<Key, Entry>, cmd: Command<Key>)
    requires TypedCommand(cmd) && Touches(db, db', cmd)
    ensures View(db').conns == Effect(View(db), cmd).conns
  {
    forall u, c ensures (u, c) in View(db').conns <==> (u, c) in Effect(View(db), cmd).conns {
      ViewPair(db, u, c);
      ViewPair(db', u, c);
      assert UserKey(u) == cmd.key || UserKey(u) != cmd.key;
    }
  }

  lemma TouchedRoster(db: map<Key, Entry>, db': map<Key, Entry>, cmd: Command<Key>)
    requires TypedCommand(cmd) && Touches(db, db', cmd)
    ensures View(db').roster == Effect(View(db), cmd).roster
  {
    forall t, u ensures (t, u) in View(db').roster <==> (t, u) in Effect(View(db), cmd).roster {
      ViewPair(db, t, u);
      ViewPair(db', t, u);
      assert TenantKey(t) == cmd.key || TenantKey(t) != cmd.key;
    }
  }

  lemma TouchedOwned(db: map<Key, Entry>, db': map<Key, Entry>, cmd: Command<Key>)
    requires TypedCommand(cmd) && Touches(db, db', cmd)
    ensures View(db').owned == Effect(View(db), cmd).owned
  {
    forall i, m ensures (i, m) in View(db').owned <==> (i, m) in Effect(View(db), cmd).owned {
      ViewPair(db, i, m);
      ViewPair(db', i, m);
      assert InstanceKey(i) == cmd.key || InstanceKey(i) != cmd.key;
    }
  }

  lemma SameTexts(p: Presence, q: Presence)
    requires forall u :: TenantText(p, u) == TenantText(q, u)
    ensures p.tenantOf == q.tenantOf
  {
    forall u ensures u in p.tenantOf <==> u in q.tenantOf {
      assert TenantText(p, u) == TenantText(q, u);
    }
    forall u | u in p.tenantOf ensures p.tenantOf[u] == q.tenantOf[u] {
      assert TenantText(p, u) == TenantText(q, u);
    }
  }

  lemma TouchedText(db: map<Key, Entry>, db': map<Key, Entry>, cmd: Command<Key>, u: string)
    requires WellTyped(db) && WellTyped(db') && TypedCommand(cmd) && Touches(db, db', cmd)
    ensures TenantText(View(db'), u) == TenantText(Effect(View(db), cmd), u)
  {
    ViewText(db, u);
    ViewText(db', u);
    if UserTenantKey(u) != cmd.key {
      assert TextAt(db', UserTenantKey(u)) == TextAt(db, UserTenantKey(u));
    }
  }

  lemma TouchedTexts(db: map<Key, Entry>, db': map<Key, Entry>, cmd: Command<Key>)
    requires WellTyped(db) && WellTyped(db') && TypedCommand(cmd) && Touches(db, db', cmd)
    ensures View(db').tenantOf == Effect(View(db), cmd).tenantOf
  {
    forall u ensures TenantText(View(db'), u) == TenantText(Effect(View(db), cmd), u) {
      TouchedText(db, db', cmd, u);
    }
    SameTexts(View(db'), Effect(View(db), cmd));
  }

  /** Each command changes what the entries mean as `Effect` says. */
  lemma ViewApply(db: map<Key, Entry>, cmd: Command<Key>)
    requires WellTyped(db) && TypedCommand(cmd)
    ensures WellTyped(Apply(db, cmd))
    ensures View(Apply(db, cmd)) == Effect(View(db), cmd)
  {
    ApplyTouches(db, cmd);
    var db' := Apply(db, cmd);
    TouchedConns(db, db', cmd);
    TouchedRoster(db, db', cmd);
    TouchedOwned(db, db', cmd);
    TouchedTexts(db, db', cmd);
    assert View(db').online == Effect(View(db), cmd).online;
  }

  lemma {:induction false} ViewApplyAll(db: map<Key, Entry>, cmds: seq<Command<Key>>)
    requires WellTyped(db) && forall i | 0 <= i < |cmds| :: TypedCommand(cmds[i])
    ensures WellTyped(ApplyAll(db, cmds))
    ensures View(ApplyAll(db, cmds)) == EffectAll(View(db), cmds)
    decreases |cmds|
  {
    if cmds != [] {
      ViewApply(db, cmds[0]);
      ViewApplyAll(Apply(db, cmds[0]), cmds[1..]);
    }
  }

  // ---- the three command lists; each is queued in a MULTI or reissued one by one ----

  function AddCommands(inst: string, user: string, conn: string, tenant: Option<string>)
    : (cmds: seq<Command<Key>>)
    ensures forall i | 0 <= i < |cmds| :: TypedCommand(cmds[i])
    ensures |cmds| == if tenant.Some? then 5 else 3
  {
    [SAdd(UserKey(user), conn),
     SAdd(OnlineKey, user),
     SAdd(InstanceKey(inst), OwnerMember(user, conn))]
    + if tenant.Some?
      then [SetText(UserTenantKey(user), tenant.value), SAdd(TenantKey(tenant.value), user)]
      else []
  }

  function RemoveCommands(inst: string, user: string, conn: string): (cmds: seq<Command<Key>>)
    ensures forall i | 0 <= i < |cmds| :: TypedCommand(cmds[i])
  {
    [SRem(UserKey(user), conn), SRem(InstanceKey(inst), OwnerMember(user, conn))]
  }

  function ClearCommands(user: string, tenant: Option<string>): (cmds: seq<Command<Key>>)
    ensures forall i | 0 <= i < |cmds| :: TypedCommand(cmds[i])
    ensures |cmds| == if tenant.Some? then 3 else 2
  {
    [SRem(OnlineKey, user), Del(UserTenantKey(user))]
    + if tenant.Some? then [SRem(TenantKey(tenant.value), user)] else []
  }

  // ---- what each list achieves ----

  function AddEffect(p: Presence, inst: string, user: string, conn: string, tenant: Option<string>)
    : Presence
  {
    Presence(
      p.conns + {(user, conn)},
      p.online + {user},
      if tenant.Some? then p.tenantOf[user := tenant.value] else p.tenantOf,
      if tenant.Some? then p.roster + {(tenant.value, user)} else p.roster,
      p.owned + {(inst, OwnerMember(user, conn))})
  }

  function ReleaseEffect(p: Presence, inst: string, user: string, conn: string): Presence {
    p.(conns := p.conns - {(user, conn)}, owned := p.owned - {(inst, OwnerMember(user, conn))})
  }

  function ClearEffect(p: Presence, user: string, tenant: Option<string>): Presence {
    p.(online := p.online - {user},
       tenantOf := p.tenantOf - {user},
       roster := if tenant.Some? then p.roster - {(tenant.value, user)} else p.roster)
  }

  /** A whole removal with nothing in between. */
  function RemoveEffect(p: Presence, inst: string, user: string, conn: string): Presence {
    var released := ReleaseEffect(p, inst, user, conn);
    if LiveCount(released, user) > 0 then released
    else ClearEffect(released, user, TenantText(released, user))
  }

  lemma EffectAllTwo(p: Presence, a: Command<Key>, b: Command<Key>)
    requires TypedCommand(a) && TypedCommand(b)
    ensures EffectAll(p, [a, b]) == Effect(Effect(p, a), b)
  {
    assert [a, b][1..] == [b] && [b][1..] == [];
    assert EffectAll(Effect(p, a), [b]) == EffectAll(Effect(Effect(p, a), b), [b][1..]);
  }

  lemma EffectAllThree(p: Presence, a: Command<Key>, b: Command<Key>, c: Command<Key>)
    requires TypedCommand(a) && TypedCommand(b) && TypedCommand(c)
    ensures EffectAll(p, [a, b, c]) == Effect(Effect(Effect(p, a), b), c)
  {
    assert [a, b, c][1..] == [b, c];
    EffectAllTwo(Effect(p, a), b, c);
  }

  lemma AddCommandsAchieve(
    p: Presence, inst: string, user: string, conn: string, tenant: Option<string>)
    ensures EffectAll(p, AddCommands(inst, user, conn, tenant)) == AddEffect(p, inst, user, conn, tenant)
  {
    var cmds := AddCommands(inst, user, conn, tenant);
    if tenant.None? {
      assert cmds == [cmds[0], cmds[1], cmds[2]];
      EffectAllThree(p, cmds[0], cmds[1], cmds[2]);
    } else {
      var q := Effect(Effect(p, cmds[0]), cmds[1]);
      assert cmds[1..][1..] == [cmds[2], cmds[3], cmds[4]];
      EffectAllThree(q, cmds[2], cmds[3], cmds[4]);
      assert EffectAll(p, cmds) == EffectAll(Effect(p, cmds[0]), cmds[1..]);
      assert EffectAll(Effect(p, cmds[0]), cmds[1..]) == EffectAll(q, cmds[1..][1..]);
    }
  }

  lemma RemoveCommandsAchieve(p: Presence, inst: string, user: string, conn: string)
    ensures EffectAll(p, RemoveCommands(inst, user, conn)) == ReleaseEffect(p, inst, user, conn)
  {
    var cmds := RemoveCommands(inst, user, conn);
    EffectAllTwo(p, cmds[0], cmds[1]);
  }

  lemma ClearCommandsAchieve(p: Presence, user: string, tenant: Option<string>)
    ensures EffectAll(p, ClearCommands(user, tenant)) == ClearEffect(p, user, tenant)
  {
    var cmds := ClearCommands(user, tenant);
    if tenant.None? {
      assert cmds == [cmds[0], cmds[1]];
      EffectAllTwo(p, cmds[0], cmds[1]);
    } else {
      assert cmds == [cmds[0], cmds[1], cmds[2]];
      EffectAllThree(p, cmds[0], cmds[1], cmds[2]);
    }
  }

  /** The state a user's indexes are in while nothing is under way for them. */
  predicate Settled(p: Presence, user: string, tenant: Option<string>) {
    var holds := ConnsOf(p, user) != {};
    && (user in p.online <==> holds)
    && TenantText(p, user) == (if holds then tenant else None)
    && forall q | q in p.roster && q.1 == user :: holds && tenant == Some(q.0)
  }

  predicate Rostered(p: Presence, user: string, tenant: Option<string>) {
    ConnsOf(p, user) != {} && tenant.Some? ==> (tenant.value, user) in p.roster
  }

  /** A removal undoes the addition of a connection the user did not hold. */
  lemma RemoveUndoesAdd(
    p: Presence, inst: string, user: string, conn: string, tenant: Option<string>)
    requires Settled(p, user, tenant) && Rostered(p, user, tenant)
    requires (user, conn) !in p.conns && (inst, OwnerMember(user, conn)) !in p.owned
    ensures RemoveEffect(AddEffect(p, inst, user, conn, tenant), inst, user, conn) == p
  {
    var added := AddEffect(p, inst, user, conn, tenant);
    var released := ReleaseEffect(added, inst, user, conn);
    assert released.conns == p.conns && released.owned == p.owned;
    assert ConnsOf(released, user) == ConnsOf(p, user);
    if LiveCount(released, user) > 0 {
      assert released.tenantOf == p.tenantOf;
      assert released == p;
    } else {
      var text := TenantText(released, user);
      assert text == tenant;
      var cleared := ClearEffect(released, user, text);
      assert cleared.tenantOf == p.tenantOf;
      assert cleared.online == p.online;
      assert cleared.roster == p.roster;
    }
  }
}
