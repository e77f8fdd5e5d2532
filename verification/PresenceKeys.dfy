/** The key scheme of presence and the codec of an instance's ownership members. */
module PresenceKeys {
  import opened Options
  import opened RedisStore

  datatype Key =
    | OnlineKey
    | UserKey(userId: string)
    | UserTenantKey(userId: string)
    | TenantKey(tenantId: string)
    | InstanceKey(instanceId: string)

  const TENANT_SUFFIX := ":tenant"
  const OWNER_SEPARATOR := '\n'

  /** The string Redis sees. */
  function Render(key: Key): string {
    match key
    case OnlineKey => "presence:online"
    case UserKey(u) => "presence:user:" + u
    case UserTenantKey(u) => "presence:user:" + u + TENANT_SUFFIX
    case TenantKey(t) => "presence:tenant:" + t
    case InstanceKey(i) => "presence:instance:" + i
  }

  /** User key `a` is spelled like the remembered-tenant key `b`. */
  predicate Shadows(a: Key, b: Key) {
    a.UserKey? && b.UserTenantKey? && a.userId == b.userId + TENANT_SUFFIX
  }

  /** The tenth character tells the kinds apart; user keys and tenant strings share theirs. */
  function Kind(key: Key): char {
    match key
    case OnlineKey => 'o'
    case UserKey(_) => 'u'
    case UserTenantKey(_) => 'u'
    case TenantKey(_) => 't'
    case InstanceKey(_) => 'i'
  }

  lemma RenderKind(key: Key)
    ensures |Render(key)| > 9 && Render(key)[9] == Kind(key)
  {
  }

  lemma PrefixInjective(prefix: string, a: string, b: string)
    ensures prefix + a == prefix + b <==> a == b
  {
    assert (prefix + a)[|prefix|..] == a;
    assert (prefix + b)[|prefix|..] == b;
  }

  lemma SuffixInjective(a: string, b: string, suffix: string)
    ensures a + suffix == b + suffix <==> a == b
  {
    if a + suffix == b + suffix {
      assert (a + suffix)[..|a|] == a;
      assert (b + suffix)[..|b|] == b;
    }
  }

  /** Two keys collide in Redis exactly when they are equal or one user id ends a tenant key. */
  lemma RenderCollides(a: Key, b: Key)
    ensures Render(a) == Render(b) <==> a == b || Shadows(a, b) || Shadows(b, a)
  {
    RenderKind(a);
    RenderKind(b);
    match (a, b)
    case (UserKey(u), UserKey(v)) => PrefixInjective("presence:user:", u, v);
    case (UserKey(u), UserTenantKey(v)) =>
      assert Render(b) == "presence:user:" + (v + TENANT_SUFFIX);
      PrefixInjective("presence:user:", u, v + TENANT_SUFFIX);
    case (UserTenantKey(u), UserKey(v)) =>
      assert Render(a) == "presence:user:" + (u + TENANT_SUFFIX);
      PrefixInjective("presence:user:", u + TENANT_SUFFIX, v);
    case (UserTenantKey(u), UserTenantKey(v)) =>
      SuffixInjective("presence:user:" + u, "presence:user:" + v, TENANT_SUFFIX);
      PrefixInjective("presence:user:", u, v);
    case (TenantKey(t), TenantKey(s)) => PrefixInjective("presence:tenant:", t, s);
    case (InstanceKey(i), InstanceKey(j)) => PrefixInjective("presence:instance:", i, j);
    case _ =>
  }

  /** No user id among the keys is another one followed by ':tenant'. */
  ghost predicate Separate(keys: set<Key>) {
    forall a, b | a in keys && b in keys :: !Shadows(a, b)
  }

  lemma RenderInjective(keys: set<Key>)
    requires Separate(keys)
    ensures forall a, b | a in keys && b in keys :: Render(a) == Render(b) ==> a == b
  {
    forall a, b | a in keys && b in keys ensures Render(a) == Render(b) ==> a == b {
      RenderCollides(a, b);
    }
  }

  /** What the string-keyed Redis holds when the typed store is `db`. */
  ghost predicate Flattens(flat: map<string, Entry>, db: map<Key, Entry>, keys: set<Key>) {
    && db.Keys <= keys
    && flat.Keys == (set k | k in db :: Render(k))
    && forall k | k in db :: flat[Render(k)] == db[k]
  }

  function Rendered(cmd: Command<Key>): Command<string> {
    match cmd
    case SAdd(k, m) => SAdd(Render(k), m)
    case SRem(k, m) => SRem(Render(k), m)
    case SetText(k, t) => SetText(Render(k), t)
    case Del(k) => Del(Render(k))
  }

  function RenderedAll(cmds: seq<Command<Key>>): seq<Command<string>> {
    seq(|cmds|, i requires 0 <= i < |cmds| => Rendered(cmds[i]))
  }

  /** Reads through a rendered key see what the typed store holds. */
  lemma FlatReads(flat: map<string, Entry>, db: map<Key, Entry>, keys: set<Key>, k: Key)
    requires Separate(keys) && Flattens(flat, db, keys) && k in keys
    ensures MembersAt(flat, Render(k)) == MembersAt(db, k)
    ensures TextAt(flat, Render(k)) == TextAt(db, k)
    ensures Render(k) in flat <==> k in db
  {
    RenderInjective(keys);
  }

  lemma FlatPut(flat: map<string, Entry>, db: map<Key, Entry>, keys: set<Key>, k: Key, e: Entry)
    requires Separate(keys) && Flattens(flat, db, keys) && k in keys
    ensures Flattens(flat[Render(k) := e], db[k := e], keys)
  {
    RenderInjective(keys);
    var flat', db' := flat[Render(k) := e], db[k := e];
    assert flat'.Keys == (set j | j in db' :: Render(j)) by {
      assert k in db';
      assert forall j | j in db :: j in db';
    }
  }

  lemma FlatDrop(flat: map<string, Entry>, db: map<Key, Entry>, keys: set<Key>, k: Key)
    requires Separate(keys) && Flattens(flat, db, keys) && k in keys
    ensures Flattens(flat - {Render(k)}, db - {k}, keys)
  {
    RenderInjective(keys);
    var flat', db' := flat - {Render(k)}, db - {k};
    forall s ensures s in flat' <==> s in (set j | j in db' :: Render(j)) {
      if s in flat' {
        var j :| j in db && Render(j) == s;
        assert j in db';
      }
    }
  }

  lemma FlatApply(flat: map<string, Entry>, db: map<Key, Entry>, keys: set<Key>, cmd: Command<Key>)
    requires Separate(keys) && Flattens(flat, db, keys) && cmd.key in keys
    ensures Flattens(Apply(flat, Rendered(cmd)), Apply(db, cmd), keys)
  {
    var k := cmd.key;
    FlatReads(flat, db, keys, k);
    assert k in db ==> flat[Render(k)] == db[k];
    match cmd
    case SAdd(_, m) => FlatPut(flat, db, keys, k, Members(MembersAt(db, k) + {m}));
    case SRem(_, m) =>
      FlatPut(flat, db, keys, k, Members(MembersAt(db, k) - {m}));
      FlatDrop(flat, db, keys, k);
    case SetText(_, t) => FlatPut(flat, db, keys, k, Text(t));
    case Del(_) => FlatDrop(flat, db, keys, k);
  }

  /** Every run of commands acts on the string-keyed Redis as on the typed store. */
  lemma {:induction false} FlatRun(
    flat: map<string, Entry>, db: map<Key, Entry>, keys: set<Key>, cmds: seq<Command<Key>>)
    requires Separate(keys) && Flattens(flat, db, keys)
    requires forall i | 0 <= i < |cmds| :: cmds[i].key in keys
    ensures Flattens(ApplyAll(flat, RenderedAll(cmds)), ApplyAll(db, cmds), keys)
    decreases |cmds|
  {
    if cmds != [] {
      FlatApply(flat, db, keys, cmds[0]);
      assert RenderedAll(cmds)[1..] == RenderedAll(cmds[1..]);
      FlatRun(Apply(flat, Rendered(cmds[0])), Apply(db, cmds[0]), keys, cmds[1..]);
    }
  }

  /** A user id ending in ':tenant' of another makes one entry serve two purposes. */
  lemma ShadowedKeyClashes(u: string)
    ensures var db := map[UserKey(u + TENANT_SUFFIX) := Members({"c"})];
            var flat := map[Render(UserKey(u + TENANT_SUFFIX)) := Members({"c"})];
            var cmd := SetText(UserTenantKey(u), "t");
            && MembersAt(Apply(db, cmd), UserKey(u + TENANT_SUFFIX)) == {"c"}
            && MembersAt(Apply(flat, Rendered(cmd)), Render(UserKey(u + TENANT_SUFFIX))) == {}
  {
    RenderCollides(UserKey(u + TENANT_SUFFIX), UserTenantKey(u));
  }

  // The members of an instance's own set: a user id, a separator and a connection id.

  function OwnerMember(userId: string, connectionId: string): string {
    userId + [OWNER_SEPARATOR] + connectionId
  }

  /** JavaScript's `indexOf` for one character. */
  function IndexOf(s: string, ch: char): (i: int)
    ensures -1 <= i < |s|
    ensures i == -1 <==> ch !in s
    ensures i >= 0 ==> s[i] == ch && ch !in s[..i]
  {
    if s == [] then -1
    else if s[0] == ch then 0
    else
      var rest := IndexOf(s[1..], ch);
      assert s == [s[0]] + s[1..];
      assert rest >= 0 ==> s[..rest + 1] == [s[0]] + s[1..][..rest];
      if rest == -1 then -1 else rest + 1
  }

  function ParseOwner(member: string): Option<(string, string)> {
    var separator := IndexOf(member, OWNER_SEPARATOR);
    if separator == -1 then None
    else Some((member[..separator], member[separator + 1..]))
  }

  /** The (user, connection) pairs that well-formed members stand for. */
  function Decoded(members: set<string>): set<(string, string)> {
    set m | m in members && ParseOwner(m).Some? :: ParseOwner(m).value
  }

  /** Splitting at the first newline inverts the encoding exactly for newline-free user ids. */
  lemma OwnerRoundTrip(userId: string, connectionId: string)
    ensures ParseOwner(OwnerMember(userId, connectionId)) == Some((userId, connectionId))
            <==> OWNER_SEPARATOR !in userId
  {
    var member := OwnerMember(userId, connectionId);
    var i := IndexOf(member, OWNER_SEPARATOR);
    assert member[|userId|] == OWNER_SEPARATOR;
    assert member[..|userId|] == userId && member[|userId| + 1..] == connectionId;
    if i < |userId| {
      assert userId[i] == member[i];
    }
  }
}
