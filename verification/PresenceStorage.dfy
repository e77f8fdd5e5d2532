/** The presence adapter and the tracker that drives it, one call at a time. */
module PresenceStorage {
  import opened Options
  import opened RedisStore
  import opened PresenceKeys
  import opened PresenceModel

  /** The shared Redis. Whether a transaction is discarded is not the caller's choice. */
  class Redis {
    var db: map<Key, Entry>

    constructor ()
      ensures db == map[]
    {
      db := map[];
    }

    method Run(cmd: Command<Key>)
      requires WellTyped(db) && TypedCommand(cmd)
      modifies this
      ensures WellTyped(db) && View(db) == Effect(old(View(db)), cmd)
    {
      ViewApply(db, cmd);
      db := Apply(db, cmd);
    }

    method Exec(cmds: seq<Command<Key>>) returns (committed: bool)
      requires WellTyped(db) && forall i | 0 <= i < |cmds| :: TypedCommand(cmds[i])
      modifies this
      ensures WellTyped(db)
      ensures View(db) == if committed then EffectAll(old(View(db)), cmds) else old(View(db))
    {
      committed := *;
      if committed {
        ViewApplyAll(db, cmds);
        db := ApplyAll(db, cmds);
      }
    }

    method SCard(key: Key) returns (n: nat)
      ensures n == |MembersAt(db, key)|
    {
      n := |MembersAt(db, key)|;
    }

    method SMembers(key: Key) returns (members: seq<string>)
      ensures forall m :: m in members <==> m in MembersAt(db, key)
      ensures forall i, j | 0 <= i < j < |members| :: members[i] != members[j]
    {
      members := [];
      var all := MembersAt(db, key);
      var rest := all;
      while rest != {}
        invariant rest <= all
        invariant forall m :: m in members <==> m in all && m !in rest
        invariant forall i, j | 0 <= i < j < |members| :: members[i] != members[j]
        decreases rest
      {
        var m :| m in rest;
        assert m !in members && forall x :: x in members + [m] <==> x in members || x == m;
        members := members + [m];
        rest := rest - {m};
      }
    }
  }

  /** A user's indexes say exactly what their connections and remembered tenant say. */
  predicate ConsistentUser(p: Presence, user: string) {
    Settled(p, user, TenantText(p, user)) && Rostered(p, user, TenantText(p, user))
  }

  ghost predicate Consistent(p: Presence) {
    forall u :: ConsistentUser(p, u)
  }

  lemma AddKeepsConsistent(
    p: Presence, inst: string, user: string, conn: string, tenant: Option<string>)
    requires Consistent(p)
    requires ConnsOf(p, user) != {} ==> TenantText(p, user) == tenant
    ensures Consistent(AddEffect(p, inst, user, conn, tenant))
  {
    var q := AddEffect(p, inst, user, conn, tenant);
    assert (user, conn) in q.conns && conn in ConnsOf(q, user);
    forall u ensures ConsistentUser(q, u) {
      assert ConsistentUser(p, u) && ConsistentUser(p, user);
      if u != user {
        assert ConnsOf(q, u) == ConnsOf(p, u);
        assert TenantText(q, u) == TenantText(p, u);
      }
    }
  }

  lemma RemoveKeepsConsistent(p: Presence, inst: string, user: string, conn: string)
    requires Consistent(p)
    ensures Consistent(RemoveEffect(p, inst, user, conn))
  {
    var released := ReleaseEffect(p, inst, user, conn);
    var q := RemoveEffect(p, inst, user, conn);
    assert ConnsOf(released, user) == ConnsOf(p, user) - {conn};
    forall u ensures ConsistentUser(q, u) {
      assert ConsistentUser(p, u);
      if u != user {
        assert ConnsOf(q, u) == ConnsOf(p, u);
        assert TenantText(q, u) == TenantText(p, u);
      } else {
        assert ConnsOf(q, user) == ConnsOf(released, user);
        assert TenantText(released, user) == TenantText(p, user);
      }
    }
  }

  lemma AddLeaves(p: Presence, inst: string, user: string, conn: string, tenant: Option<string>)
    ensures LiveCount(AddEffect(p, inst, user, conn, tenant), user) == 1 <==> ConnsOf(p, user) <= {conn}
  {
    assert ConnsOf(AddEffect(p, inst, user, conn, tenant), user) == ConnsOf(p, user) + {conn};
    SingletonCount(ConnsOf(p, user), conn);
  }

  lemma RemoveLeaves(p: Presence, inst: string, user: string, conn: string)
    ensures ConnsOf(RemoveEffect(p, inst, user, conn), user) == ConnsOf(p, user) - {conn}
    ensures LiveCount(RemoveEffect(p, inst, user, conn), user) == 0 <==> ConnsOf(p, user) <= {conn}
  {
    assert RemoveEffect(p, inst, user, conn).conns == p.conns - {(user, conn)};
  }

  ghost function PairMembers(members: set<string>): set<string> {
    set m | m in members && OWNER_SEPARATOR in m
  }

  lemma ParsedMember(member: string)
    requires ParseOwner(member).Some?
    ensures OwnerMember(ParseOwner(member).value.0, ParseOwner(member).value.1) == member
  {
    var i := IndexOf(member, OWNER_SEPARATOR);
    assert member == member[..i] + [member[i]] + member[i + 1..];
  }

  ghost function ReclaimedOne(p: Presence, inst: string, member: string): Presence {
    match ParseOwner(member)
    case None => p
    case Some(pair) => RemoveEffect(p, inst, pair.0, pair.1)
  }

  /** One removal after another, in the order the members were listed. */
  ghost function Reclaimed(p: Presence, inst: string, members: seq<string>): Presence
    decreases |members|
  {
    if members == [] then p
    else Reclaimed(ReclaimedOne(p, inst, members[0]), inst, members[1..])
  }

  ghost function SetOf(members: seq<string>): set<string> {
    set m | m in members
  }

  lemma SetOfCons(members: seq<string>)
    requires members != []
    ensures SetOf(members) == {members[0]} + SetOf(members[1..])
    ensures Decoded(SetOf(members)) == Decoded({members[0]}) + Decoded(SetOf(members[1..]))
    ensures PairMembers(SetOf(members)) == PairMembers({members[0]}) + PairMembers(SetOf(members[1..]))
  {
    assert members == [members[0]] + members[1..];
  }

  lemma ReclaimedOneState(p: Presence, inst: string, member: string)
    ensures var q := ReclaimedOne(p, inst, member);
            && q.conns == p.conns - Decoded({member})
            && (forall o :: o in q.owned <==> o in p.owned && !(o.0 == inst && o.1 in PairMembers({member})))
  {
    match ParseOwner(member)
    case None =>
      assert Decoded({member}) == {} && PairMembers({member}) == {};
    case Some(pair) =>
      ParsedMember(member);
      assert Decoded({member}) == {pair} && PairMembers({member}) == {member};
      var q := RemoveEffect(p, inst, pair.0, pair.1);
      assert q.conns == p.conns - {pair} && q.owned == p.owned - {(inst, member)};
  }

  lemma ReclaimedOneConsistent(p: Presence, inst: string, member: string)
    requires Consistent(p)
    ensures Consistent(ReclaimedOne(p, inst, member))
  {
    match ParseOwner(member)
    case None =>
    case Some(pair) => RemoveKeepsConsistent(p, inst, pair.0, pair.1);
  }

  lemma {:induction false} ReclaimedState(p: Presence, inst: string, members: seq<string>)
    ensures var q := Reclaimed(p, inst, members);
            && q.conns == p.conns - Decoded(SetOf(members))
            && (forall o :: o in q.owned <==> o in p.owned && !(o.0 == inst && o.1 in PairMembers(SetOf(members))))
    decreases |members|
  {
    if members != [] {
      SetOfCons(members);
      ReclaimedOneState(p, inst, members[0]);
      ReclaimedState(ReclaimedOne(p, inst, members[0]), inst, members[1..]);
    }
  }

  lemma {:induction false} ReclaimedConsistent(p: Presence, inst: string, members: seq<string>)
    requires Consistent(p)
    ensures Consistent(Reclaimed(p, inst, members))
    decreases |members|
  {
    if members != [] {
      ReclaimedOneConsistent(p, inst, members[0]);
      ReclaimedConsistent(ReclaimedOne(p, inst, members[0]), inst, members[1..]);
    }
  }

  function PairCount(members: seq<string>): nat {
    if members == [] then 0
    else PairCount(members[..|members| - 1]) + if OWNER_SEPARATOR in members[|members| - 1] then 1 else 0
  }

  lemma {:induction false} PairCountIs(members: seq<string>)
    requires forall i, j | 0 <= i < j < |members| :: members[i] != members[j]
    ensures PairCount(members) == |PairMembers(SetOf(members))|
    decreases |members|
  {
    if members != [] {
      PairCountIs(members[..|members| - 1]);
      CountedMember(members, |members| - 1);
      assert members[..|members| - 1 + 1] == members;
    }
  }

  lemma CountedMember(members: seq<string>, k: nat)
    requires k < |members| && forall i, j | 0 <= i < j < |members| :: members[i] != members[j]
    ensures |PairMembers(SetOf(members[..k + 1]))|
         == |PairMembers(SetOf(members[..k]))| + if OWNER_SEPARATOR in members[k] then 1 else 0
  {
    assert members[..k + 1] == members[..k] + [members[k]];
    var before, after := PairMembers(SetOf(members[..k])), PairMembers(SetOf(members[..k + 1]));
    if OWNER_SEPARATOR in members[k] {
      assert after == before + {members[k]} && members[k] !in before;
    } else {
      assert after == before;
    }
  }

  lemma DropClaims(p: Presence, inst: string)
    ensures Consistent(p) ==> Consistent(Effect(p, Del(InstanceKey(inst))))
  {
    var q := Effect(p, Del(InstanceKey(inst)));
    forall u | ConsistentUser(p, u) ensures ConsistentUser(q, u) {
      assert ConnsOf(q, u) == ConnsOf(p, u);
    }
  }

  lemma ReclaimLeaves(p: Presence, inst: string, members: seq<string>)
    requires SetOf(members) == OwnedBy(p, inst)
    ensures var q := Effect(Reclaimed(p, inst, members), Del(InstanceKey(inst)));
            && q.conns == p.conns - Decoded(OwnedBy(p, inst))
            && q.owned == (set o | o in p.owned && o.0 != inst)
            && (Consistent(p) ==> Consistent(q))
  {
    ReclaimedState(p, inst, members);
    if Consistent(p) {
      ReclaimedConsistent(p, inst, members);
    }
    DropClaims(Reclaimed(p, inst, members), inst);
  }

  /** The loop at member `k`: what remains leads from `p` to `target`, and `released` were counted. */
  ghost predicate Reclaiming(p: Presence, inst: string, members: seq<string>, k: nat, released: nat, target: Presence) {
    k <= |members| && Reclaimed(p, inst, members[k..]) == target && released == PairCount(members[..k])
  }

  lemma ReclaimStarts(p: Presence, inst: string, members: seq<string>)
    ensures Reclaiming(p, inst, members, 0, 0, Reclaimed(p, inst, members))
  {
    assert members[0..] == members;
  }

  lemma ReclaimNext(p: Presence, inst: string, members: seq<string>, k: nat, released: nat, target: Presence)
    requires k < |members| && Reclaiming(p, inst, members, k, released, target)
    ensures Reclaiming(ReclaimedOne(p, inst, members[k]), inst, members, k + 1,
                       released + if OWNER_SEPARATOR in members[k] then 1 else 0, target)
  {
    assert members[k..][1..] == members[k + 1..];
    assert members[..k + 1][..k] == members[..k];
  }

  lemma ReclaimEnds(p: Presence, inst: string, members: seq<string>, released: nat, target: Presence)
    requires Reclaiming(p, inst, members, |members|, released, target)
    ensures p == target && released == PairCount(members)
  {
    assert members[..|members|] == members && members[|members|..] == [];
  }

  class RedisPresenceStorage {
    const client: Redis
    const instanceId: string

    constructor (client: Redis, instanceId: string)
      ensures this.client == client && this.instanceId == instanceId
    {
      this.client := client;
      this.instanceId := instanceId;
    }

    ghost function State(): Presence
      reads this, client
    {
      View(client.db)
    }

    method LiveCountOf(userId: string) returns (n: nat)
      requires WellTyped(client.db)
      ensures n == LiveCount(State(), userId)
    {
      ViewReads(client.db, userId);
      n := client.SCard(UserKey(userId));
    }

    method RunAll(cmds: seq<Command<Key>>)
      requires WellTyped(client.db) && forall i | 0 <= i < |cmds| :: TypedCommand(cmds[i])
      modifies client
      ensures WellTyped(client.db) && State() == EffectAll(old(State()), cmds)
    {
      var k := 0;
      while k < |cmds|
        invariant 0 <= k <= |cmds| && WellTyped(client.db)
        invariant EffectAll(State(), cmds[k..]) == EffectAll(old(State()), cmds)
      {
        assert cmds[k..][1..] == cmds[k + 1..];
        client.Run(cmds[k]);
        k := k + 1;
      }
    }

    /** Committed or discarded, the connection ends up recorded and counted. */
    method AddConnection(userId: string, connectionId: string, tenantId: Option<string>)
      returns (live: nat)
      requires WellTyped(client.db)
      modifies client
      ensures WellTyped(client.db)
      ensures State() == AddEffect(old(State()), instanceId, userId, connectionId, tenantId)
      ensures live == LiveCount(State(), userId)
    {
      var cmds := AddCommands(instanceId, userId, connectionId, tenantId);
      AddCommandsAchieve(State(), instanceId, userId, connectionId, tenantId);
      var committed := client.Exec(cmds);
      if !committed {
        RunAll(cmds);
      }
      live := LiveCountOf(userId);
    }

    method RemoveConnection(userId: string, connectionId: string) returns (remaining: nat)
      requires WellTyped(client.db)
      modifies client
      ensures WellTyped(client.db)
      ensures State() == RemoveEffect(old(State()), instanceId, userId, connectionId)
      ensures remaining == LiveCount(State(), userId)
    {
      var cmds := RemoveCommands(instanceId, userId, connectionId);
      RemoveCommandsAchieve(State(), instanceId, userId, connectionId);
      var committed := client.Exec(cmds);
      if !committed {
        RunAll(cmds);
      }
      remaining := LiveCountOf(userId);
      if remaining > 0 {
        return;
      }
      ghost var released := State();
      ClearUserIndexes(userId);
      assert State().conns == released.conns;
    }

    method ClearUserIndexes(userId: string)
      requires WellTyped(client.db)
      modifies client
      ensures WellTyped(client.db)
      ensures State() == ClearEffect(old(State()), userId, TenantText(old(State()), userId))
    {
      ViewText(client.db, userId);
      var tenantId := TextAt(client.db, UserTenantKey(userId));
      var cmds := ClearCommands(userId, tenantId);
      ClearCommandsAchieve(State(), userId, tenantId);
      var committed := client.Exec(cmds);
      if !committed {
        RunAll(cmds);
      }
    }

    method ReleaseMember(member: string) returns (counted: bool)
      requires WellTyped(client.db)
      modifies client
      ensures WellTyped(client.db)
      ensures State() == ReclaimedOne(old(State()), instanceId, member)
      ensures counted <==> OWNER_SEPARATOR in member
    {
      var separator := IndexOf(member, OWNER_SEPARATOR);
      counted := separator != -1;
      if counted {
        var _ := RemoveConnection(member[..separator], member[separator + 1..]);
      }
    }

    /** The reclaim loop's body. */
    method ReleaseNext(owned: seq<string>, k: nat, released: nat, ghost target: Presence) returns (more: nat)
      requires WellTyped(client.db) && k < |owned|
      requires Reclaiming(State(), instanceId, owned, k, released, target)
      modifies client
      ensures WellTyped(client.db)
      ensures Reclaiming(State(), instanceId, owned, k + 1, more, target)
    {
      ReclaimNext(State(), instanceId, owned, k, released, target);
      var counted := ReleaseMember(owned[k]);
      more := released + if counted then 1 else 0;
    }

    /** The reclaim loop: withdraw every well-formed claim in `owned`, counting them. */
    method ReleaseListed(owned: seq<string>) returns (released: nat)
      requires WellTyped(client.db)
      modifies client
      ensures WellTyped(client.db)
      ensures State() == Reclaimed(old(State()), instanceId, owned)
      ensures released == PairCount(owned)
    {
      ghost var target := Reclaimed(State(), instanceId, owned);
      ReclaimStarts(State(), instanceId, owned);
      released := 0;
      for k := 0 to |owned|
        invariant WellTyped(client.db)
        invariant Reclaiming(State(), instanceId, owned, k, released, target)
      {
        released := ReleaseNext(owned, k, released, target);
      }
      ReclaimEnds(State(), instanceId, owned, released, target);
    }

    /**
     * Boot reclaim: exactly this instance's claims are withdrawn, malformed members
     * go with the set but are not counted, and the indexes stay in agreement.
     */
    method ReclaimOwnConnections() returns (released: nat)
      requires WellTyped(client.db)
      modifies client
      ensures WellTyped(client.db)
      ensures var mine := OwnedBy(old(State()), instanceId);
              State().conns == old(State()).conns - Decoded(mine) && released == |PairMembers(mine)|
      ensures State().owned == set q | q in old(State()).owned && q.0 != instanceId
      ensures Consistent(old(State())) ==> Consistent(State())
    {
      ghost var p := State();
      ViewReads(client.db, instanceId);
      var owned := client.SMembers(InstanceKey(instanceId));
      assert SetOf(owned) == OwnedBy(p, instanceId);
      released := ReleaseListed(owned);
      PairCountIs(owned);
      ReclaimLeaves(p, instanceId, owned);
      client.Run(Del(InstanceKey(instanceId)));
    }

    method IsOnline(userId: string) returns (online: bool)
      requires WellTyped(client.db)
      ensures online <==> exists c :: (userId, c) in State().conns
    {
      var n := LiveCountOf(userId);
      online := n > 0;
      if online {
        assert ConnsOf(State(), userId) != {};
        ghost var c :| c in ConnsOf(State(), userId);
        assert (userId, c) in State().conns;
      } else {
        forall c ensures (userId, c) !in State().conns {
          assert c !in ConnsOf(State(), userId);
        }
      }
    }

    method ListOnlineByTenant(tenantId: string) returns (users: seq<string>)
      requires WellTyped(client.db)
      ensures forall u :: u in users <==> (tenantId, u) in State().roster
      ensures forall i, j | 0 <= i < j < |users| :: users[i] != users[j]
    {
      ViewReads(client.db, tenantId);
      users := client.SMembers(TenantKey(tenantId));
      assert forall u :: u in RosterOf(State(), tenantId) <==> (tenantId, u) in State().roster;
    }

    method CountOnline() returns (n: nat)
      ensures n == |State().online|
    {
      n := client.SCard(OnlineKey);
    }

    method IsConnectionOwnedByUser(userId: string, connectionId: string) returns (owned: bool)
      ensures owned <==> (userId, connectionId) in State().conns
    {
      ViewPair(client.db, userId, connectionId);
      owned := connectionId in MembersAt(client.db, UserKey(userId));
    }
  }

  datatype Announcement = Arrived(tenant: string, user: string) | Departed(tenant: string, user: string)

  datatype Meta = Meta(userId: string, connectionId: string, tenantId: Option<string>)

  /** Announces a transition only when the storage write says this call owned it. */
  class PresenceTracker {
    const presence: RedisPresenceStorage
    var emitted: seq<Announcement>

    constructor (presence: RedisPresenceStorage)
      ensures this.presence == presence && emitted == []
    {
      this.presence := presence;
      emitted := [];
    }

    /** An arrival goes out exactly when the user held no other connection. */
    method OnConnect(meta: Meta)
      requires WellTyped(presence.client.db)
      modifies this, presence.client
      ensures WellTyped(presence.client.db)
      ensures presence.State()
           == AddEffect(old(presence.State()), presence.instanceId, meta.userId, meta.connectionId, meta.tenantId)
      ensures emitted == old(emitted)
           + if meta.tenantId.Some? && ConnsOf(old(presence.State()), meta.userId) <= {meta.connectionId}
             then [Arrived(meta.tenantId.value, meta.userId)] else []
    {
      AddLeaves(presence.State(), presence.instanceId, meta.userId, meta.connectionId, meta.tenantId);
      var live := presence.AddConnection(meta.userId, meta.connectionId, meta.tenantId);
      if live == 1 && meta.tenantId.Some? {
        emitted := emitted + [Arrived(meta.tenantId.value, meta.userId)];
      }
    }

    /** A departure goes out exactly when the user holds no other connection. */
    method OnDisconnect(meta: Meta)
      requires WellTyped(presence.client.db)
      modifies this, presence.client
      ensures WellTyped(presence.client.db)
      ensures presence.State()
           == RemoveEffect(old(presence.State()), presence.instanceId, meta.userId, meta.connectionId)
      ensures emitted == old(emitted)
           + if meta.tenantId.Some? && ConnsOf(old(presence.State()), meta.userId) <= {meta.connectionId}
             then [Departed(meta.tenantId.value, meta.userId)] else []
    {
      RemoveLeaves(presence.State(), presence.instanceId, meta.userId, meta.connectionId);
      var live := presence.RemoveConnection(meta.userId, meta.connectionId);
      if live == 0 && meta.tenantId.Some? {
        emitted := emitted + [Departed(meta.tenantId.value, meta.userId)];
      }
    }
  }

  lemma SingletonCount(s: set<string>, x: string)
    ensures |s + {x}| == 1 <==> s <= {x}
  {
    if s <= {x} {
      assert s + {x} == {x};
    } else {
      var y :| y in s && y != x;
      assert (s + {x}) - {x} - {y} <= s;
      assert |(s + {x}) - {x}| == |s + {x}| - 1;
      assert y in (s + {x}) - {x};
    }
  }
}
