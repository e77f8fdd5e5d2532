/**
 * The kill switch: a revocation marker must outlive every session and bearer issued up to
 * the revocation. Tokens expire on whole seconds, the marker on the millisecond.
 */
module Revocation {
  import opened Options
  import opened SessionTokens

  const MS_PER_SECOND: int := 1000

  /** A session or bearer, with the millisecond at which it was issued. */
  datatype Credential = Credential(user: Traits, issuedAt: nat, bearer: bool)

  datatype Auth = Auth(
    now: nat,                          // one millisecond clock
    markers: map<string, int>,         // when Redis expires the user's marker
    credentials: set<Credential>,
    revokedAt: map<string, nat>)       // latest revocation not undone since

  datatype Step =
    | Tick(ms: nat)
    | IssueSession(user: Traits)
    | MintBearer(user: Traits)
    | Revoke(userId: string)
    | Unrevoke(userId: string)

  const START := Auth(0, map[], {}, map[])

  /** The token itself; both signers read the clock in whole seconds. */
  function TokenOf(s: Signer, c: Credential): string {
    if c.bearer then Mint(s, c.user, c.issuedAt / MS_PER_SECOND) else Issue(s, c.user, c.issuedAt / MS_PER_SECOND)
  }

  /** The first gate: a connection with this token is refused. */
  predicate Refused(s: Signer, c: Credential, now: nat) {
    Authenticate(s, Some(TokenOf(s, c)), now / MS_PER_SECOND) == None
  }

  predicate IsRevoked(markers: map<string, int>, userId: string, now: nat) {
    userId in markers && now < markers[userId]
  }

  /** The second gate: an open connection of this user is kept. */
  predicate Revalidates(a: Auth, userId: string) {
    !IsRevoked(a.markers, userId, a.now)
  }

  function Next(a: Auth, s: Step): Auth {
    match s
    case Tick(ms) => a.(now := a.now + ms)
    case IssueSession(u) => a.(credentials := a.credentials + {Credential(u, a.now, false)})
    case MintBearer(u) => a.(credentials := a.credentials + {Credential(u, a.now, true)})
    case Revoke(u) =>
      a.(markers := a.markers[u := a.now + SESSION_TTL_SECONDS * MS_PER_SECOND], revokedAt := a.revokedAt[u := a.now])
    case Unrevoke(u) => a.(markers := a.markers - {u}, revokedAt := a.revokedAt - {u})
  }

  function After(a: Auth, steps: seq<Step>): Auth
    decreases |steps|
  {
    if steps == [] then a else After(Next(a, steps[0]), steps[1..])
  }

  ghost predicate Inv(a: Auth) {
    && (forall u | u in a.revokedAt ::
          u in a.markers && a.markers[u] == a.revokedAt[u] + SESSION_TTL_SECONDS * MS_PER_SECOND
          && a.revokedAt[u] <= a.now)
    && (forall u | u in a.markers :: u in a.revokedAt)
    && (forall c | c in a.credentials :: c.issuedAt <= a.now)
  }

  lemma {:induction false} RunInv(a: Auth, steps: seq<Step>)
    requires Inv(a)
    ensures Inv(After(a, steps))
    decreases |steps|
  {
    if steps != [] {
      RunInv(Next(a, steps[0]), steps[1..]);
    }
  }

  // ---- what the history says ----

  lemma {:induction false} AfterSnoc(a: Auth, steps: seq<Step>, s: Step)
    ensures After(a, steps + [s]) == Next(After(a, steps), s)
    decreases |steps|
  {
    if steps == [] {
      assert [] + [s] == [s] && [s][1..] == [];
    } else {
      assert (steps + [s])[1..] == steps[1..] + [s];
      AfterSnoc(Next(a, steps[0]), steps[1..], s);
    }
  }

  function At(steps: seq<Step>, k: nat): Auth
    requires k <= |steps|
  {
    After(START, steps[..k])
  }

  /** The k-th step gave out this credential, at the time it carries. */
  predicate GivenAt(steps: seq<Step>, k: nat, c: Credential)
    requires k < |steps|
  {
    steps[k] == (if c.bearer then MintBearer(c.user) else IssueSession(c.user)) && c.issuedAt == At(steps, k).now
  }

  /** The k-th step revoked the user at this time, and none undid or repeated it since. */
  predicate LastRevokedAt(steps: seq<Step>, k: nat, userId: string, at: nat)
    requires k < |steps|
  {
    && steps[k] == Revoke(userId) && at == At(steps, k).now
    && forall j | k < j < |steps| :: steps[j] != Revoke(userId) && steps[j] != Unrevoke(userId)
  }

  function Ticks(steps: seq<Step>): nat {
    if steps == [] then 0
    else
      var last := steps[|steps| - 1];
      Ticks(steps[..|steps| - 1]) + if last.Tick? then last.ms else 0
  }

  lemma SameBefore(steps: seq<Step>, k: nat)
    requires k < |steps|
    ensures At(steps[..|steps| - 1], k) == At(steps, k)
  {
    assert steps[..|steps| - 1][..k] == steps[..k];
  }

  lemma OneMoreStep(steps: seq<Step>)
    requires steps != []
    ensures After(START, steps) == Next(At(steps, |steps| - 1), steps[|steps| - 1])
    ensures forall k | 0 <= k < |steps| :: At(steps[..|steps| - 1], k) == At(steps, k)
  {
    var init, last := steps[..|steps| - 1], steps[|steps| - 1];
    assert steps == init + [last];
    AfterSnoc(START, init, last);
    forall k | 0 <= k < |steps| ensures At(init, k) == At(steps, k) {
      SameBefore(steps, k);
    }
  }

  /** The clock shows what has ticked; credentials and revocations carry the time of their steps. */
  lemma {:induction false} HistoryIff(steps: seq<Step>, c: Credential, userId: string, at: nat)
    ensures After(START, steps).now == Ticks(steps)
    ensures c in After(START, steps).credentials <==> exists k | 0 <= k < |steps| :: GivenAt(steps, k, c)
    ensures userId in After(START, steps).revokedAt && After(START, steps).revokedAt[userId] == at
       <==> exists k | 0 <= k < |steps| :: LastRevokedAt(steps, k, userId, at)
    decreases |steps|
  {
    if steps != [] {
      var init, n := steps[..|steps| - 1], |steps| - 1;
      HistoryIff(init, c, userId, at);
      OneMoreStep(steps);
      GivenOneMore(steps, c);
      RevokedOneMore(steps, userId, at);
    }
  }

  lemma GivenOneMore(steps: seq<Step>, c: Credential)
    requires steps != []
    ensures var init, n := steps[..|steps| - 1], |steps| - 1;
            (exists k | 0 <= k < |steps| :: GivenAt(steps, k, c))
            <==> (exists k | 0 <= k < n :: GivenAt(init, k, c)) || GivenAt(steps, n, c)
  {
    var init, n := steps[..|steps| - 1], |steps| - 1;
    OneMoreStep(steps);
    assert forall k | 0 <= k < n :: GivenAt(init, k, c) <==> GivenAt(steps, k, c);
  }

  lemma RevokedOneMore(steps: seq<Step>, userId: string, at: nat)
    requires steps != []
    ensures var init, n := steps[..|steps| - 1], |steps| - 1; var last := steps[n];
            (exists k | 0 <= k < |steps| :: LastRevokedAt(steps, k, userId, at))
            <==> if last == Revoke(userId) then at == At(steps, n).now
                 else last != Unrevoke(userId) && exists k | 0 <= k < n :: LastRevokedAt(init, k, userId, at)
  {
    var init, n := steps[..|steps| - 1], |steps| - 1;
    OneMoreStep(steps);
    if steps[n] == Revoke(userId) {
      assert LastRevokedAt(steps, n, userId, at) <==> at == At(steps, n).now;
    } else if steps[n] != Unrevoke(userId) {
      assert forall k | 0 <= k < n :: LastRevokedAt(init, k, userId, at) <==> LastRevokedAt(steps, k, userId, at);
    }
  }

  /** A token is refused exactly when its user is unnamed or its lifetime, from the whole second, is over. */
  lemma RefusedIff(s: Signer, c: Credential, now: nat)
    requires Sound(s)
    ensures Refused(s, c, now)
       <==> !Named(c.user) || now / 1000 >= c.issuedAt / 1000 + if c.bearer then 600 else 28_800
  {
    IssuedThenAuthenticated(s, c.user, c.issuedAt / MS_PER_SECOND, now / MS_PER_SECOND);
  }

  /**
   * At every instant of every run, one of the two gates is shut for the very token of a
   * credential issued up to its user's latest revocation not undone.
   */
  lemma RevocationOutlastsCredentials(s: Signer, steps: seq<Step>, c: Credential)
    requires Sound(s)
    requires c in After(START, steps).credentials && c.user.userId in After(START, steps).revokedAt
    requires c.issuedAt <= After(START, steps).revokedAt[c.user.userId]
    ensures var a := After(START, steps); Refused(s, c, a.now) || !Revalidates(a, c.user.userId)
  {
    RunInv(START, steps);
    var a := After(START, steps);
    FloorArithmetic(c.issuedAt, a.revokedAt[c.user.userId], a.now);
    RefusedIff(s, c, a.now);
  }

  /** Nobody is shut out without a revocation in force: it counts for exactly its lifetime. */
  lemma RevokedIff(steps: seq<Step>, userId: string)
    ensures var a := After(START, steps);
            Revalidates(a, userId)
            <==> userId !in a.revokedAt || a.now >= a.revokedAt[userId] + 28_800_000
  {
    RunInv(START, steps);
  }

  lemma FloorArithmetic(issued: nat, revoked: nat, now: nat)
    requires issued <= revoked
    ensures now / MS_PER_SECOND >= issued / MS_PER_SECOND + SESSION_TTL_SECONDS
            || now < revoked + SESSION_TTL_SECONDS * MS_PER_SECOND
  {
  }

  /** At `now`, a session issued then and revoked then is stopped by one of the gates. */
  predicate Stopped(s: Signer, user: Traits, ttlSeconds: nat, issued: nat, revoked: nat, now: nat) {
    Refused(s, Credential(user, issued, false), now) || now < revoked + ttlSeconds * MS_PER_SECOND
  }

  /** A marker lifetime is long enough when it always covers the sessions it must kill. */
  ghost predicate Outlasts(s: Signer, user: Traits, ttlSeconds: nat) {
    forall issued: nat, revoked: nat, now: nat ::
      issued <= revoked <= now ==> Stopped(s, user, ttlSeconds, issued, revoked, now)
  }

  /** The session lifetime is the shortest marker lifetime, to the second, that does. */
  lemma MarkerLifetimeIsTight(s: Signer, user: Traits, ttlSeconds: nat)
    requires Sound(s) && Named(user)
    ensures Outlasts(s, user, ttlSeconds) <==> ttlSeconds >= 28_800
  {
    if ttlSeconds >= SESSION_TTL_SECONDS {
      forall issued: nat, revoked: nat, now: nat
        ensures issued <= revoked <= now ==> Stopped(s, user, ttlSeconds, issued, revoked, now)
      {
        RefusedIff(s, Credential(user, issued, false), now);
        if issued <= revoked {
          FloorArithmetic(issued, revoked, now);
        }
      }
    } else {
      RefusedIff(s, Credential(user, 0, false), ttlSeconds * MS_PER_SECOND);
      assert !Stopped(s, user, ttlSeconds, 0, 0, ttlSeconds * MS_PER_SECOND);
    }
  }

  /** The adapter on a Redis whose clock is `now`; Redis forgets a marker when it expires. */
  class RedisRevocationStore {
    var now: nat
    var markers: map<string, int>
    ghost var credentials: set<Credential>
    ghost var revokedAt: map<string, nat>

    ghost function State(): Auth
      reads this
    {
      Auth(now, markers, credentials, revokedAt)
    }

    constructor ()
      ensures State() == START
    {
      now, markers, credentials, revokedAt := 0, map[], {}, map[];
    }

    method IsUserRevoked(userId: string) returns (revoked: bool)
      ensures revoked <==> !Revalidates(State(), userId)
    {
      revoked := userId in markers && now < markers[userId];
    }

    /** From now on, for exactly one session lifetime, the user and nobody else is revoked by this. */
    method Revoke(userId: string)
      modifies this
      ensures State() == Next(old(State()), Step.Revoke(userId))
      ensures forall t: nat :: IsRevoked(markers, userId, t) <==> t < now + 28_800_000
      ensures forall u, t: nat | u != userId :: IsRevoked(markers, u, t) <==> IsRevoked(old(markers), u, t)
    {
      markers := markers[userId := now + SESSION_TTL_SECONDS * MS_PER_SECOND];
      revokedAt := revokedAt[userId := now];
    }

    method Unrevoke(userId: string)
      modifies this
      ensures State() == Next(old(State()), Step.Unrevoke(userId))
      ensures forall t: nat :: !IsRevoked(markers, userId, t)
      ensures forall u, t: nat | u != userId :: IsRevoked(markers, u, t) <==> IsRevoked(old(markers), u, t)
    {
      markers := markers - {userId};
      revokedAt := revokedAt - {userId};
    }
  }
}
