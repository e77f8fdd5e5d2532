/**
 * Which instance claims which connection, when transactions may be discarded, processes
 * crash at any point, and reclaim their old claims as they boot. A discarded addition
 * writes the user's set and later the claim; a discarded removal withdraws them in the
 * same order. Commands on the online and tenant indexes touch neither and are not steps.
 */
module PresenceOwnership {
  import opened Options
  import opened RedisStore
  import opened PresenceKeys
  import opened PresenceModel

  /**
   * A booting process has `todo` left of the members it listed, and listed `stale` as
   * pairs. Redis lists a set in any order, so any member left may come next.
   */
  datatype Phase =
    | Down
    | Booting(todo: set<string>, released: nat, stale: set<(string, string)>)
    | Up

  datatype Cluster = Cluster(
    p: Presence,
    phases: map<string, Phase>,
    serving: set<(string, string, string)>,  // (instance, user, connection) in some process's memory
    used: set<string>,                       // connection ids ever handed out
    adding: set<(string, string, string)>,   // additions in flight whose claim is not written yet
    orphans: set<(string, string)>,          // pairs written whose claim never was, so far
    unpaired: set<(string, string)>)         // claims whose pair was already withdrawn

  const START := Cluster(NOBODY, map[], {}, {}, {}, {}, {})

  /**
   * `Half` is the first command of a discarded transaction, where it matters here; then
   * `ConnectRest`, `Disconnect` or `Reclaim` is the second. On their own `Connect`,
   * `Disconnect` and `Reclaim` are committed transactions.
   */
  datatype Step =
    | Boot(inst: string)
    | ReclaimHalf(inst: string, member: string)
    | Reclaim(inst: string, member: string)
    | FinishBoot(inst: string)
    | Connect(inst: string, user: string, conn: string, tenant: Option<string>)
    | ConnectHalf(inst: string, user: string, conn: string)
    | ConnectRest(inst: string, user: string, conn: string)
    | Disconnect(inst: string, user: string, conn: string)
    | DisconnectHalf(inst: string, user: string, conn: string)
    | Crash(inst: string)

  function PhaseOf(w: Cluster, inst: string): Phase {
    if inst in w.phases then w.phases[inst] else Down
  }

  /** The pairs that an instance's set decodes to. */
  function Claimed(w: Cluster, inst: string): set<(string, string)> {
    Decoded(OwnedBy(w.p, inst))
  }

  predicate Enabled(w: Cluster, s: Step) {
    match s
    case Boot(i) => PhaseOf(w, i) == Down
    case ReclaimHalf(i, m) => PhaseOf(w, i).Booting? && m in PhaseOf(w, i).todo && ParseOwner(m).Some?
    case Reclaim(i, m) => PhaseOf(w, i).Booting? && m in PhaseOf(w, i).todo
    case FinishBoot(i) => PhaseOf(w, i).Booting? && PhaseOf(w, i).todo == {}
    case Connect(i, u, c, _) => PhaseOf(w, i) == Up && c !in w.used && OWNER_SEPARATOR !in u
    case ConnectHalf(i, u, c) => PhaseOf(w, i) == Up && c !in w.used && OWNER_SEPARATOR !in u
    case ConnectRest(i, u, c) => PhaseOf(w, i) == Up && (i, u, c) in w.adding
    case Disconnect(i, u, c) => PhaseOf(w, i) == Up && (i, u, c) in w.serving
    case DisconnectHalf(i, u, c) => PhaseOf(w, i) == Up && (i, u, c) in w.serving
    case Crash(_) => true
  }

  /** The user's set loses the pair; the claim stays for now. */
  function DropPair(w: Cluster, i: string, user: string, conn: string): Cluster {
    w.(p := Effect(w.p, SRem(UserKey(user), conn)), unpaired := w.unpaired + {(i, OwnerMember(user, conn))})
  }

  /** Pair and claim are gone, whether in one transaction or by the second command. */
  function Release(w: Cluster, i: string, user: string, conn: string): Cluster {
    w.(p := ReleaseEffect(w.p, i, user, conn), unpaired := w.unpaired - {(i, OwnerMember(user, conn))})
  }

  function Next(w: Cluster, s: Step): Cluster
    requires Enabled(w, s)
  {
    match s
    case Boot(i) => w.(phases := w.phases[i := Booting(OwnedBy(w.p, i), 0, Claimed(w, i))])
    case ReclaimHalf(i, m) =>
      var pair := ParseOwner(m).value;
      DropPair(w, i, pair.0, pair.1)
    case Reclaim(i, m) =>
      var boot := PhaseOf(w, i);
      (match ParseOwner(m)
       case None => w.(phases := w.phases[i := boot.(todo := boot.todo - {m})])
       case Some(pair) =>
         Release(w, i, pair.0, pair.1).(
            phases := w.phases[i := boot.(todo := boot.todo - {m}, released := boot.released + 1)]))
    case FinishBoot(i) =>
      w.(p := Effect(w.p, Del(InstanceKey(i))), phases := w.phases[i := Up],
         unpaired := set q | q in w.unpaired && q.0 != i)
    case Connect(i, u, c, t) =>
      w.(p := AddEffect(w.p, i, u, c, t), serving := w.serving + {(i, u, c)}, used := w.used + {c})
    case ConnectHalf(i, u, c) =>
      w.(p := Effect(w.p, SAdd(UserKey(u), c)), adding := w.adding + {(i, u, c)},
         orphans := w.orphans + {(u, c)}, used := w.used + {c})
    case ConnectRest(i, u, c) =>
      w.(p := Effect(w.p, SAdd(InstanceKey(i), OwnerMember(u, c))), adding := w.adding - {(i, u, c)},
         orphans := w.orphans - {(u, c)}, serving := w.serving + {(i, u, c)})
    case Disconnect(i, u, c) => Release(w, i, u, c).(serving := w.serving - {(i, u, c)})
    case DisconnectHalf(i, u, c) => DropPair(w, i, u, c)
    case Crash(i) =>
      w.(phases := w.phases[i := Down], serving := (set q | q in w.serving && q.0 != i),
         adding := set q | q in w.adding && q.0 != i)
  }

  predicate Runs(w: Cluster, steps: seq<Step>)
    decreases |steps|
  {
    steps == [] || (Enabled(w, steps[0]) && Runs(Next(w, steps[0]), steps[1..]))
  }

  function After(w: Cluster, steps: seq<Step>): Cluster
    requires Runs(w, steps)
    decreases |steps|
  {
    if steps == [] then w else After(Next(w, steps[0]), steps[1..])
  }

  // ---- the invariant, on claims as (instance, user, connection) ----

  ghost predicate Claims(w: Cluster, inst: string, user: string, conn: string) {
    (inst, OwnerMember(user, conn)) in w.p.owned
  }

  /** A claim decodes to a pair that is held, unless that was already withdrawn. */
  ghost predicate WellFormed(w: Cluster, q: (string, string)) {
    && ParseOwner(q.1).Some? && OWNER_SEPARATOR !in ParseOwner(q.1).value.0
    && OwnerMember(ParseOwner(q.1).value.0, ParseOwner(q.1).value.1) == q.1
    && ParseOwner(q.1).value.1 in w.used
    && (ParseOwner(q.1).value in w.p.conns <==> q !in w.unpaired)
  }

  ghost predicate WellFormedClaims(w: Cluster) {
    && (forall q | q in w.p.owned :: WellFormed(w, q))
    && (forall u, c | (u, c) in w.p.conns :: OWNER_SEPARATOR !in u && c in w.used)
    && w.unpaired <= w.p.owned && w.orphans <= w.p.conns
  }

  ghost predicate OneClaimEach(w: Cluster) {
    && (forall u, c | (u, c) in w.p.conns :: (u, c) in w.orphans <==> forall i :: !Claims(w, i, u, c))
    && (forall q, r | q in w.p.owned && r in w.p.owned && q.1 == r.1 :: q.0 == r.0)
  }

  ghost predicate BootAgrees(w: Cluster, i: string) {
    var boot := PhaseOf(w, i);
    && (boot.Booting? ==>
          && boot.todo == OwnedBy(w.p, i)
          && boot.released + |boot.todo| == |boot.stale|
          && (forall pair | pair in boot.stale :: pair.1 in w.used)
          && forall pair | pair in boot.stale && pair in w.p.conns :: Claims(w, i, pair.0, pair.1))
    && (boot != Up ==> (forall q | q in w.serving :: q.0 != i) && forall q | q in w.adding :: q.0 != i)
  }

  ghost predicate BootsAgree(w: Cluster) {
    forall i :: BootAgrees(w, i)
  }

  ghost predicate Serves(w: Cluster) {
    && (forall i, u, c | (i, u, c) in w.serving :: Claims(w, i, u, c) && OWNER_SEPARATOR !in u)
    && (forall i, u, c | (i, u, c) in w.adding :: (u, c) in w.orphans)
    && (forall i, j, u, c | (i, u, c) in w.adding && (j, u, c) in w.adding :: i == j)
  }

  ghost predicate Inv(w: Cluster) {
    WellFormedClaims(w) && OneClaimEach(w) && BootsAgree(w) && Serves(w)
  }

  lemma Codec(user: string, conn: string)
    requires OWNER_SEPARATOR !in user
    ensures ParseOwner(OwnerMember(user, conn)) == Some((user, conn))
  {
    OwnerRoundTrip(user, conn);
  }

  lemma Codecs()
    ensures forall u, c {:trigger OwnerMember(u, c)} ::
              OWNER_SEPARATOR !in u ==> ParseOwner(OwnerMember(u, c)) == Some((u, c))
  {
    forall u, c | OWNER_SEPARATOR !in u ensures ParseOwner(OwnerMember(u, c)) == Some((u, c)) {
      Codec(u, c);
    }
  }

  ghost predicate Codes(members: set<string>) {
    forall m | m in members ::
      ParseOwner(m).Some? && OwnerMember(ParseOwner(m).value.0, ParseOwner(m).value.1) == m
  }

  lemma {:induction false} DecodedSize(members: set<string>)
    requires Codes(members)
    ensures |Decoded(members)| == |members|
    decreases members
  {
    if m :| m in members {
      var rest, pair := members - {m}, ParseOwner(m).value;
      DecodedSize(rest);
      assert Decoded(members) == Decoded(rest) + {pair};
      assert pair !in Decoded(rest);
    } else {
      assert Decoded(members) == {};
    }
  }

  // ---- what the four writes do to claims and pairs ----

  /** A new pair, without a claim. */
  lemma PairWritten(w: Cluster, user: string, conn: string, w': Cluster)
    requires WellFormedClaims(w) && OneClaimEach(w) && conn !in w.used && OWNER_SEPARATOR !in user
    requires w'.p.conns == w.p.conns + {(user, conn)} && w'.p.owned == w.p.owned
    requires w'.used == w.used + {conn} && w'.unpaired == w.unpaired && w'.orphans == w.orphans + {(user, conn)}
    ensures WellFormedClaims(w') && OneClaimEach(w')
  {
    Codec(user, conn);
    forall i ensures !Claims(w, i, user, conn) {
      assert Claims(w, i, user, conn) ==> WellFormed(w, (i, OwnerMember(user, conn)));
    }
    forall q | q in w'.p.owned ensures WellFormed(w', q) {
      assert WellFormed(w, q);
    }
    forall u, c | (u, c) in w'.p.conns ensures (u, c) in w'.orphans <==> forall i :: !Claims(w', i, u, c) {
      assert forall i :: Claims(w', i, u, c) <==> Claims(w, i, u, c);
    }
  }

  lemma OnlyItsMember(user: string, conn: string, u: string, c: string)
    requires OWNER_SEPARATOR !in user && OWNER_SEPARATOR !in u
    ensures OwnerMember(user, conn) == OwnerMember(u, c) <==> (user, conn) == (u, c)
  {
    Codec(user, conn);
    Codec(u, c);
  }

  /** An orphan gets its claim. */
  lemma ClaimWritten(w: Cluster, i: string, user: string, conn: string, w': Cluster)
    requires WellFormedClaims(w) && OneClaimEach(w) && (user, conn) in w.orphans
    requires w'.p.conns == w.p.conns && w'.p.owned == w.p.owned + {(i, OwnerMember(user, conn))}
    requires w'.used == w.used && w'.unpaired == w.unpaired && w'.orphans == w.orphans - {(user, conn)}
    ensures WellFormedClaims(w') && OneClaimEach(w')
  {
    var claim := (i, OwnerMember(user, conn));
    assert (user, conn) in w.p.conns;
    Codec(user, conn);
    assert !Claims(w, i, user, conn);
    forall q | q in w'.p.owned ensures WellFormed(w', q) {
      assert q != claim ==> WellFormed(w, q);
    }
    forall u, c | (u, c) in w'.p.conns ensures (u, c) in w'.orphans <==> forall j :: !Claims(w', j, u, c) {
      OnlyItsMember(user, conn, u, c);
      assert forall j :: Claims(w', j, u, c) <==> Claims(w, j, u, c) || (j == i && (u, c) == (user, conn));
    }
    forall q | q in w.p.owned ensures q.1 != claim.1 {
      assert q.1 == claim.1 ==> Claims(w, q.0, user, conn);
    }
  }

  /** A claimed pair is withdrawn, its claim not yet. */
  lemma PairDropped(w: Cluster, i: string, user: string, conn: string)
    requires WellFormedClaims(w) && OneClaimEach(w) && Claims(w, i, user, conn) && OWNER_SEPARATOR !in user
    ensures WellFormedClaims(DropPair(w, i, user, conn)) && OneClaimEach(DropPair(w, i, user, conn))
  {
    var w', claim := DropPair(w, i, user, conn), (i, OwnerMember(user, conn));
    Codec(user, conn);
    forall q | q in w'.p.owned ensures WellFormed(w', q) {
      assert WellFormed(w, q);
      if ParseOwner(q.1).value == (user, conn) {
        assert q.1 == claim.1 && q == claim;
      }
    }
    forall u, c | (u, c) in w'.p.conns ensures (u, c) in w'.orphans <==> forall j :: !Claims(w', j, u, c) {
      assert forall j :: Claims(w', j, u, c) <==> Claims(w, j, u, c);
    }
    assert (user, conn) !in w.orphans;
  }

  /** A claim goes, with its pair if that is still there. */
  lemma ReleaseClaims(w: Cluster, i: string, user: string, conn: string)
    requires WellFormedClaims(w) && OneClaimEach(w) && Claims(w, i, user, conn) && OWNER_SEPARATOR !in user
    ensures WellFormedClaims(Release(w, i, user, conn)) && OneClaimEach(Release(w, i, user, conn))
  {
    var w', claim := Release(w, i, user, conn), (i, OwnerMember(user, conn));
    Codec(user, conn);
    forall q | q in w'.p.owned ensures WellFormed(w', q) {
      assert WellFormed(w, q) && (ParseOwner(q.1).value == (user, conn) ==> q.1 == claim.1);
    }
    forall u, c | (u, c) in w'.p.conns ensures (u, c) in w'.orphans <==> forall j :: !Claims(w', j, u, c) {
      OnlyItsMember(user, conn, u, c);
      assert forall j :: Claims(w', j, u, c) <==> Claims(w, j, u, c);
    }
    assert (user, conn) !in w.orphans;
  }

  lemma ReleaseOwned(w: Cluster, i: string, user: string, conn: string)
    requires OWNER_SEPARATOR !in user
    ensures var w' := Release(w, i, user, conn);
            && OwnedBy(w'.p, i) == OwnedBy(w.p, i) - {OwnerMember(user, conn)}
            && (forall j | j != i :: OwnedBy(w'.p, j) == OwnedBy(w.p, j))
            && forall j, u, c | OWNER_SEPARATOR !in u ::
                 Claims(w', j, u, c) <==> Claims(w, j, u, c) && (j, u, c) != (i, user, conn)
  {
    Codecs();
  }

  // ---- every step keeps the invariant ----

  lemma SameClaims(w: Cluster, w': Cluster)
    requires w'.p.owned == w.p.owned && w'.p.conns == w.p.conns && w'.used == w.used
    requires w'.unpaired == w.unpaired && w'.orphans == w.orphans
    requires WellFormedClaims(w) && OneClaimEach(w)
    ensures WellFormedClaims(w') && OneClaimEach(w')
    ensures forall j, u, c :: Claims(w', j, u, c) <==> Claims(w, j, u, c)
  {
    forall q | q in w'.p.owned ensures WellFormed(w', q) {
      assert WellFormed(w, q);
    }
    forall u, c | (u, c) in w'.p.conns ensures (u, c) in w'.orphans <==> forall j :: !Claims(w', j, u, c) {
      assert forall j :: Claims(w', j, u, c) <==> Claims(w, j, u, c);
    }
  }

  lemma StaleClaims(w: Cluster, i: string)
    requires WellFormedClaims(w)
    ensures forall m | m in OwnedBy(w.p, i) :: WellFormed(w, (i, m))
    ensures forall pair | pair in Claimed(w, i) :: pair.1 in w.used && Claims(w, i, pair.0, pair.1)
  {
    forall m | m in OwnedBy(w.p, i) ensures WellFormed(w, (i, m)) {
      assert (i, m) in w.p.owned;
    }
  }

  lemma BootStarts(w: Cluster, s: Step)
    requires Enabled(w, s) && Inv(w) && s.Boot?
    ensures BootAgrees(Next(w, s), s.inst)
  {
    StaleClaims(w, s.inst);
    DecodedSize(OwnedBy(w.p, s.inst));
    assert BootAgrees(w, s.inst);
    assert OwnedBy(Next(w, s).p, s.inst) == OwnedBy(w.p, s.inst);
  }

  lemma StepBoot(w: Cluster, s: Step)
    requires Enabled(w, s) && Inv(w) && s.Boot?
    ensures Inv(Next(w, s))
  {
    var w' := Next(w, s);
    BootStarts(w, s);
    SameClaims(w, w');
    forall j ensures BootAgrees(w', j) {
      assert BootAgrees(w, j);
    }
  }

  /** The member a reclaim works on, as a claim of its instance. */
  lemma ReclaimTarget(w: Cluster, i: string, member: string) returns (pair: (string, string))
    requires Inv(w) && PhaseOf(w, i).Booting? && member in PhaseOf(w, i).todo
    ensures ParseOwner(member) == Some(pair) && OwnerMember(pair.0, pair.1) == member
    ensures Claims(w, i, pair.0, pair.1) && OWNER_SEPARATOR !in pair.0
  {
    assert BootAgrees(w, i) && member in OwnedBy(w.p, i);
    assert WellFormed(w, (i, member));
    pair := ParseOwner(member).value;
  }

  lemma DropBoots(w: Cluster, i: string, user: string, conn: string)
    requires Inv(w)
    ensures BootsAgree(DropPair(w, i, user, conn))
  {
    var w' := DropPair(w, i, user, conn);
    forall j ensures BootAgrees(w', j) {
      assert BootAgrees(w, j);
      assert OwnedBy(w'.p, j) == OwnedBy(w.p, j);
    }
  }

  lemma StepDrop(w: Cluster, i: string, user: string, conn: string)
    requires Inv(w) && Claims(w, i, user, conn) && OWNER_SEPARATOR !in user
    ensures Inv(DropPair(w, i, user, conn))
  {
    PairDropped(w, i, user, conn);
    DropBoots(w, i, user, conn);
    assert (user, conn) !in w.orphans;
  }

  lemma ReleaseBoots(w: Cluster, i: string, user: string, conn: string, w': Cluster, j: string)
    requires BootAgrees(w, j) && OWNER_SEPARATOR !in user && j != i
    requires w'.p == Release(w, i, user, conn).p && w'.used == w.used && w'.adding == w.adding
    requires w'.serving <= w.serving && PhaseOf(w', j) == PhaseOf(w, j)
    ensures BootAgrees(w', j)
  {
    assert OwnedBy(w'.p, j) == OwnedBy(w.p, j);
    assert forall u, c :: Claims(w', j, u, c) <==> Claims(w, j, u, c);
  }

  lemma ReclaimBoot(w: Cluster, s: Step, pair: (string, string))
    requires Enabled(w, s) && Inv(w) && s.Reclaim?
    requires ParseOwner(s.member) == Some(pair) && OWNER_SEPARATOR !in pair.0
    requires OwnerMember(pair.0, pair.1) == s.member
    ensures BootAgrees(Next(w, s), s.inst)
  {
    var w', boot := Next(w, s), PhaseOf(w, s.inst);
    assert BootAgrees(w, s.inst);
    ReleaseOwned(w, s.inst, pair.0, pair.1);
    forall q | q in boot.stale && q in w'.p.conns ensures Claims(w', s.inst, q.0, q.1) {
      assert q in w.p.conns && q != pair && q == (q.0, q.1);
    }
  }

  lemma StepReclaim(w: Cluster, s: Step)
    requires Enabled(w, s) && Inv(w) && s.Reclaim?
    ensures Inv(Next(w, s))
  {
    var w', i := Next(w, s), s.inst;
    var pair := ReclaimTarget(w, i, s.member);
    ReleaseClaims(w, i, pair.0, pair.1);
    ReleaseOwned(w, i, pair.0, pair.1);
    SameClaims(Release(w, i, pair.0, pair.1), w');
    ReclaimBoot(w, s, pair);
    forall j ensures BootAgrees(w', j) {
      assert BootAgrees(w, j);
      if j != i {
        ReleaseBoots(w, i, pair.0, pair.1, w', j);
      }
    }
    assert BootAgrees(w, i);
  }

  lemma StepFinish(w: Cluster, s: Step)
    requires Enabled(w, s) && Inv(w) && s.FinishBoot?
    ensures OwnedBy(w.p, s.inst) == {} && Next(w, s).p == w.p && Inv(Next(w, s))
  {
    var w' := Next(w, s);
    assert BootAgrees(w, s.inst);
    forall q | q in w.p.owned ensures q.0 != s.inst {
      assert q.1 in OwnedBy(w.p, q.0);
    }
    assert w'.p.owned == w.p.owned && w'.unpaired == w.unpaired;
    forall j ensures BootAgrees(w', j) {
      assert BootAgrees(w, j);
    }
    SameClaims(w, w');
  }

  /** A new claim of one instance is in no other instance's set. */
  lemma OwnedGrows(p: Presence, q: Presence, i: string, member: string, j: string)
    requires q.owned == p.owned + {(i, member)} && j != i
    ensures OwnedBy(q, j) == OwnedBy(p, j)
  {
  }

  lemma StepConnectHalf(w: Cluster, s: Step)
    requires Enabled(w, s) && Inv(w) && s.ConnectHalf?
    ensures Inv(Next(w, s))
  {
    var w' := Next(w, s);
    PairWritten(w, s.user, s.conn, w');
    forall j ensures BootAgrees(w', j) {
      assert BootAgrees(w, j);
      assert OwnedBy(w'.p, j) == OwnedBy(w.p, j);
      assert forall u, c :: Claims(w', j, u, c) <==> Claims(w, j, u, c);
    }
    assert forall q | q in w.adding :: (q.1, q.2) in w.p.conns;
  }

  lemma ClaimBoot(w: Cluster, s: Step, j: string)
    requires Enabled(w, s) && Inv(w) && s.ConnectRest?
    ensures BootAgrees(Next(w, s), j)
  {
    assert BootAgrees(w, j);
    if j != s.inst {
      OwnedGrows(w.p, Next(w, s).p, s.inst, OwnerMember(s.user, s.conn), j);
    }
    assert forall u, c :: Claims(w, j, u, c) ==> Claims(Next(w, s), j, u, c);
  }

  lemma StepConnectRest(w: Cluster, s: Step)
    requires Enabled(w, s) && Inv(w) && s.ConnectRest?
    ensures Inv(Next(w, s))
  {
    var w' := Next(w, s);
    ClaimWritten(w, s.inst, s.user, s.conn, w');
    assert forall j, u, c :: Claims(w, j, u, c) ==> Claims(w', j, u, c);
    forall j ensures BootAgrees(w', j) {
      ClaimBoot(w, s, j);
    }
    assert (s.user, s.conn) in w.p.conns;
  }

  lemma ConnectBoot(w: Cluster, s: Step, j: string)
    requires Enabled(w, s) && Inv(w) && s.Connect?
    ensures BootAgrees(Next(w, s), j)
  {
    var w' := Next(w, s);
    assert BootAgrees(w, j);
    if j != s.inst {
      OwnedGrows(w.p, w'.p, s.inst, OwnerMember(s.user, s.conn), j);
    }
    assert forall u, c :: Claims(w, j, u, c) ==> Claims(w', j, u, c);
  }

  /** A committed addition is the pair and, at once, its claim. */
  lemma StepConnect(w: Cluster, s: Step)
    requires Enabled(w, s) && Inv(w) && s.Connect?
    ensures Inv(Next(w, s))
  {
    var half, w' := Next(w, ConnectHalf(s.inst, s.user, s.conn)), Next(w, s);
    assert (s.user, s.conn) !in w.orphans by {
      assert w.orphans <= w.p.conns;
    }
    PairWritten(w, s.user, s.conn, half);
    ClaimWritten(half, s.inst, s.user, s.conn, w');
    assert forall j, u, c :: Claims(w, j, u, c) ==> Claims(w', j, u, c);
    forall j ensures BootAgrees(w', j) {
      ConnectBoot(w, s, j);
    }
  }

  lemma StepDisconnect(w: Cluster, s: Step)
    requires Enabled(w, s) && Inv(w) && s.Disconnect?
    ensures Inv(Next(w, s))
  {
    var w' := Next(w, s);
    assert Claims(w, s.inst, s.user, s.conn);
    ReleaseClaims(w, s.inst, s.user, s.conn);
    ReleaseOwned(w, s.inst, s.user, s.conn);
    SameClaims(Release(w, s.inst, s.user, s.conn), w');
    forall j ensures BootAgrees(w', j) {
      assert BootAgrees(w, j);
      if j != s.inst {
        ReleaseBoots(w, s.inst, s.user, s.conn, w', j);
      }
    }
  }

  lemma StepCrash(w: Cluster, s: Step)
    requires Enabled(w, s) && Inv(w) && s.Crash?
    ensures Inv(Next(w, s))
  {
    var w' := Next(w, s);
    forall j ensures BootAgrees(w', j) {
      assert BootAgrees(w, j);
    }
    SameClaims(w, w');
  }

  lemma StepInv(w: Cluster, s: Step)
    requires Enabled(w, s) && Inv(w)
    ensures Inv(Next(w, s))
  {
    match s
    case Boot(_) => StepBoot(w, s);
    case ReclaimHalf(i, m) =>
      var pair := ReclaimTarget(w, i, m);
      StepDrop(w, i, pair.0, pair.1);
    case Reclaim(_, _) => StepReclaim(w, s);
    case FinishBoot(_) => StepFinish(w, s);
    case Connect(_, _, _, _) => StepConnect(w, s);
    case ConnectHalf(_, _, _) => StepConnectHalf(w, s);
    case ConnectRest(_, _, _) => StepConnectRest(w, s);
    case Disconnect(_, _, _) => StepDisconnect(w, s);
    case DisconnectHalf(i, u, c) => StepDrop(w, i, u, c);
    case Crash(_) => StepCrash(w, s);
  }

  lemma {:induction false} RunInv(w: Cluster, steps: seq<Step>)
    requires Runs(w, steps) && Inv(w)
    ensures Inv(After(w, steps))
    decreases |steps|
  {
    if steps != [] {
      StepInv(w, steps[0]);
      RunInv(Next(w, steps[0]), steps[1..]);
    }
  }

  lemma StartInv()
    ensures Inv(START)
  {
  }

  // ---- the partition ----

  lemma ClaimedPair(w: Cluster, i: string, u: string, c: string)
    requires WellFormedClaims(w)
    ensures (u, c) in Claimed(w, i) <==> OWNER_SEPARATOR !in u && Claims(w, i, u, c)
  {
    if m :| m in OwnedBy(w.p, i) && ParseOwner(m) == Some((u, c)) {
      assert (i, m) in w.p.owned && WellFormed(w, (i, m));
    }
    if OWNER_SEPARATOR !in u && Claims(w, i, u, c) {
      Codec(u, c);
      assert OwnerMember(u, c) in OwnedBy(w.p, i);
    }
  }

  ghost predicate Accounted(w: Cluster, u: string, c: string) {
    (u, c) in w.orphans || exists i :: (u, c) in Claimed(w, i) && (i, OwnerMember(u, c)) !in w.unpaired
  }

  /** A pair is held exactly when it is an orphan or an instance claims it and has not withdrawn it. */
  lemma PairAccounted(w: Cluster, u: string, c: string)
    requires Inv(w)
    ensures (u, c) in w.p.conns <==> Accounted(w, u, c)
    ensures (u, c) in w.orphans ==> forall i :: (u, c) !in Claimed(w, i)
    ensures forall i, j :: (u, c) in Claimed(w, i) && (u, c) in Claimed(w, j) ==> i == j
  {
    forall i ensures (u, c) in Claimed(w, i) <==> OWNER_SEPARATOR !in u && Claims(w, i, u, c) {
      ClaimedPair(w, i, u, c);
    }
    forall i | (u, c) in Claimed(w, i) ensures (u, c) in w.p.conns <==> (i, OwnerMember(u, c)) !in w.unpaired {
      Codec(u, c);
      assert WellFormed(w, (i, OwnerMember(u, c)));
    }
    if (u, c) in w.p.conns && (u, c) !in w.orphans {
      var i :| Claims(w, i, u, c);
      assert (u, c) in Claimed(w, i);
    }
  }

  /**
   * In every run, with crashes and discarded transactions anywhere: the pairs of the user
   * sets are those the instance sets decode to, less the withdrawn ones, and the orphans;
   * no pair has two claims, and no orphan has one.
   */
  lemma OwnershipPartition(steps: seq<Step>)
    requires Runs(START, steps)
    ensures var w := After(START, steps);
            && (forall u, c :: (u, c) in w.p.conns <==> Accounted(w, u, c))
            && (forall i :: w.orphans !! Claimed(w, i))
            && forall i, j | i != j :: Claimed(w, i) !! Claimed(w, j)
  {
    StartInv();
    RunInv(START, steps);
    var w := After(START, steps);
    forall u, c ensures (u, c) in w.p.conns <==> Accounted(w, u, c) {
      PairAccounted(w, u, c);
    }
    forall i ensures w.orphans !! Claimed(w, i) {
      forall u, c ensures !((u, c) in w.orphans && (u, c) in Claimed(w, i)) {
        PairAccounted(w, u, c);
      }
    }
    forall i, j | i != j ensures Claimed(w, i) !! Claimed(w, j) {
      forall u, c ensures !((u, c) in Claimed(w, i) && (u, c) in Claimed(w, j)) {
        PairAccounted(w, u, c);
      }
    }
  }

  /** The instance sets decode to exactly the pairs of the user sets. */
  ghost predicate Partitioned(w: Cluster) {
    forall u, c :: (u, c) in w.p.conns <==> exists i :: (u, c) in Claimed(w, i)
  }

  /** They do exactly when no fallback stands between its two writes, or crashed there. */
  lemma PartitionedIff(steps: seq<Step>)
    requires Runs(START, steps)
    ensures Partitioned(After(START, steps))
       <==> After(START, steps).orphans == {} && After(START, steps).unpaired == {}
  {
    StartInv();
    RunInv(START, steps);
    var w := After(START, steps);
    if w.orphans == {} && w.unpaired == {} {
      forall u, c ensures (u, c) in w.p.conns <==> exists i :: (u, c) in Claimed(w, i) {
        PairAccounted(w, u, c);
      }
    } else if pair :| pair in w.orphans {
      PairAccounted(w, pair.0, pair.1);
      assert (pair.0, pair.1) in w.p.conns;
    } else {
      var q :| q in w.unpaired;
      assert WellFormed(w, q);
      var pair := ParseOwner(q.1).value;
      ClaimedPair(w, q.0, pair.0, pair.1);
      assert (pair.0, pair.1) in Claimed(w, q.0) && (pair.0, pair.1) !in w.p.conns;
    }
  }

  predicate AllCommitted(steps: seq<Step>) {
    forall s | s in steps :: !s.ReclaimHalf? && !s.ConnectHalf? && !s.DisconnectHalf?
  }

  lemma {:induction false} NothingHalfDone(w: Cluster, steps: seq<Step>)
    requires Runs(w, steps) && AllCommitted(steps) && w.orphans == {} && w.unpaired == {}
    ensures After(w, steps).orphans == {} && After(w, steps).unpaired == {}
    decreases |steps|
  {
    if steps != [] {
      assert steps[0] in steps && forall s | s in steps[1..] :: s in steps;
      assert Next(w, steps[0]).unpaired == {};
      NothingHalfDone(Next(w, steps[0]), steps[1..]);
    }
  }

  /** With all transactions committed the partition is exact in every state, crashes or not. */
  lemma CommittedPartition(steps: seq<Step>)
    requires Runs(START, steps) && AllCommitted(steps)
    ensures Partitioned(After(START, steps))
  {
    NothingHalfDone(START, steps);
    PartitionedIff(steps);
  }

  // ---- reclaim ----

  lemma ReclaimedAll(w: Cluster, inst: string)
    requires Inv(w) && Enabled(w, FinishBoot(inst))
    ensures var boot := PhaseOf(w, inst);
            && boot.released == |boot.stale| && boot.stale !! w.p.conns
            && Claimed(w, inst) == {} && Next(w, FinishBoot(inst)).p == w.p
  {
    StepFinish(w, FinishBoot(inst));
    assert BootAgrees(w, inst);
    forall pair | pair in PhaseOf(w, inst).stale ensures pair !in w.p.conns {
      assert Claims(w, inst, pair.0, pair.1) ==> OwnerMember(pair.0, pair.1) in OwnedBy(w.p, inst);
    }
  }

  /**
   * When a boot reclaim ends, whatever was discarded, whatever the other instances did
   * meanwhile and however many earlier reclaims crashed: it released every stale pair and
   * counted each once, none of them is left, and the final delete finds nothing to drop.
   */
  lemma ReclaimReleasesAll(steps: seq<Step>, inst: string)
    requires Runs(START, steps) && Enabled(After(START, steps), FinishBoot(inst))
    ensures var w := After(START, steps); var boot := PhaseOf(w, inst);
            && boot.released == |boot.stale|
            && boot.stale !! w.p.conns
            && Claimed(w, inst) == {}
            && Next(w, FinishBoot(inst)).p == w.p
  {
    StartInv();
    RunInv(START, steps);
    ReclaimedAll(After(START, steps), inst);
  }

  lemma StepFrame(w: Cluster, s: Step, other: string, m: string)
    requires Enabled(w, s) && s.inst != other
    ensures (other, m) in Next(w, s).p.owned <==> (other, m) in w.p.owned
    ensures (other, m) in Next(w, s).unpaired <==> (other, m) in w.unpaired
  {
  }

  lemma SameOwned(p: Presence, q: Presence, i: string)
    requires forall m :: (i, m) in q.owned <==> (i, m) in p.owned
    ensures OwnedBy(q, i) == OwnedBy(p, i)
  {
    forall m ensures m in OwnedBy(q, i) <==> m in OwnedBy(p, i) {
      assert m in OwnedBy(q, i) <==> (i, m) in q.owned;
    }
  }

  lemma ClaimedHeld(w: Cluster, i: string, pair: (string, string))
    requires Inv(w) && pair in Claimed(w, i)
    ensures pair in w.p.conns <==> (i, OwnerMember(pair.0, pair.1)) !in w.unpaired
  {
    ClaimedPair(w, i, pair.0, pair.1);
    Codec(pair.0, pair.1);
    assert WellFormed(w, (i, OwnerMember(pair.0, pair.1)));
  }

  /** A step of one instance, reclaim included, changes no other instance's claims or pairs. */
  lemma OthersKeepTheirPairs(steps: seq<Step>, s: Step, other: string)
    requires Runs(START, steps) && Enabled(After(START, steps), s) && s.inst != other
    ensures var w := After(START, steps); var w' := Next(w, s);
            && Claimed(w', other) == Claimed(w, other)
            && forall pair | pair in Claimed(w, other) :: pair in w'.p.conns <==> pair in w.p.conns
  {
    StartInv();
    RunInv(START, steps);
    var w := After(START, steps);
    StepInv(w, s);
    forall m ensures ((other, m) in Next(w, s).p.owned <==> (other, m) in w.p.owned)
                  && ((other, m) in Next(w, s).unpaired <==> (other, m) in w.unpaired) {
      StepFrame(w, s, other, m);
    }
    SameOwned(w.p, Next(w, s).p, other);
    forall pair | pair in Claimed(w, other) ensures pair in Next(w, s).p.conns <==> pair in w.p.conns {
      ClaimedHeld(w, other, pair);
      ClaimedHeld(Next(w, s), other, pair);
    }
  }

  // ---- the limit: a pair whose process died before it wrote the claim ----

  /** Held, claimed by nobody, and no addition is left that would claim it. */
  ghost predicate Stuck(w: Cluster, user: string, conn: string) {
    (user, conn) in w.orphans && forall i :: (i, user, conn) !in w.adding
  }

  lemma StuckStays(w: Cluster, s: Step, user: string, conn: string)
    requires Enabled(w, s) && Inv(w) && Stuck(w, user, conn)
    ensures Stuck(Next(w, s), user, conn)
  {
    assert (user, conn) in w.p.conns;
    assert s.ConnectHalf? ==> (user, conn) != (s.user, s.conn);
  }

  lemma {:induction false} StuckForever(w: Cluster, steps: seq<Step>, user: string, conn: string)
    requires Runs(w, steps) && Inv(w) && Stuck(w, user, conn)
    ensures (user, conn) in After(w, steps).p.conns
    decreases |steps|
  {
    if steps != [] {
      StuckStays(w, steps[0], user, conn);
      StepInv(w, steps[0]);
      StuckForever(Next(w, steps[0]), steps[1..], user, conn);
    }
  }

  lemma RunThen(w: Cluster, s: Step, rest: seq<Step>)
    requires Enabled(w, s) && Runs(Next(w, s), rest)
    ensures Runs(w, [s] + rest) && After(w, [s] + rest) == After(Next(w, s), rest)
  {
    assert ([s] + rest)[1..] == rest;
  }

  /** These steps take a boot through the rest of its list. */
  ghost predicate Empties(w: Cluster, i: string, steps: seq<Step>)
    requires PhaseOf(w, i).Booting?
  {
    && Runs(w, steps) && PhaseOf(After(w, steps), i).Booting? && PhaseOf(After(w, steps), i).todo == {}
    && PhaseOf(After(w, steps), i).stale == PhaseOf(w, i).stale
  }

  /** A boot that is left alone gets through its list. */
  lemma ReclaimRun(w: Cluster, i: string)
    requires Inv(w) && PhaseOf(w, i).Booting?
    ensures exists steps :: Empties(w, i, steps)
    decreases PhaseOf(w, i).todo
  {
    if m :| m in PhaseOf(w, i).todo {
      var s := Reclaim(i, m);
      StepInv(w, s);
      ReclaimRun(Next(w, s), i);
      var rest :| Empties(Next(w, s), i, rest);
      RunThen(w, s, rest);
      assert Empties(w, i, [s] + rest);
    } else {
      assert Empties(w, i, []);
    }
  }

  /** Some continuation removes the pair. */
  ghost predicate Removable(w: Cluster, user: string, conn: string) {
    exists steps :: Runs(w, steps) && (user, conn) !in After(w, steps).p.conns
  }

  lemma RemovableThen(w: Cluster, s: Step, user: string, conn: string)
    requires Enabled(w, s) && Removable(Next(w, s), user, conn)
    ensures Removable(w, user, conn)
  {
    var rest :| Runs(Next(w, s), rest) && (user, conn) !in After(Next(w, s), rest).p.conns;
    RunThen(w, s, rest);
    assert Runs(w, [s] + rest);
  }

  /** A claimed pair goes when its instance crashes and boots again. */
  lemma RestartReleases(w: Cluster, i: string, user: string, conn: string)
    requires Inv(w) && (user, conn) in Claimed(w, i)
    ensures Removable(w, user, conn)
  {
    var down := Next(w, Crash(i));
    StepInv(w, Crash(i));
    var booting := Next(down, Boot(i));
    StepInv(down, Boot(i));
    assert (user, conn) in PhaseOf(booting, i).stale;
    ReclaimRun(booting, i);
    var steps :| Empties(booting, i, steps);
    RunInv(booting, steps);
    ReclaimedAll(After(booting, steps), i);
    assert Removable(booting, user, conn);
    RemovableThen(down, Boot(i), user, conn);
    RemovableThen(w, Crash(i), user, conn);
  }

  /** An addition in flight can still complete, and its connection leave. */
  lemma CompletionReleases(w: Cluster, i: string, user: string, conn: string)
    requires Inv(w) && (i, user, conn) in w.adding
    ensures Removable(w, user, conn)
  {
    assert BootAgrees(w, i);
    var served := Next(w, ConnectRest(i, user, conn));
    var gone := Next(served, Disconnect(i, user, conn));
    assert Runs(gone, []) && (user, conn) !in After(gone, []).p.conns;
    RemovableThen(served, Disconnect(i, user, conn), user, conn);
    RemovableThen(w, ConnectRest(i, user, conn), user, conn);
  }

  /**
   * The connection sets heal themselves exactly this far: after any run, a held pair can
   * still be removed by some continuation if and only if it is not stuck.
   */
  lemma RemovableIff(first: seq<Step>, user: string, conn: string)
    requires Runs(START, first) && (user, conn) in After(START, first).p.conns
    ensures Removable(After(START, first), user, conn) <==> !Stuck(After(START, first), user, conn)
  {
    StartInv();
    RunInv(START, first);
    var w := After(START, first);
    if Stuck(w, user, conn) {
      forall more | Runs(w, more) ensures (user, conn) in After(w, more).p.conns {
        StuckForever(w, more, user, conn);
      }
    } else if i :| (i, user, conn) in w.adding {
      CompletionReleases(w, i, user, conn);
    } else {
      PairAccounted(w, user, conn);
      var i :| (user, conn) in Claimed(w, i);
      RestartReleases(w, i, user, conn);
    }
  }

  /** A crash between the two writes of a discarded addition leaves a user online for good. */
  lemma CrashStrandsPair(i: string, user: string, conn: string)
    requires OWNER_SEPARATOR !in user
    ensures exists steps :: Runs(START, steps) && Stuck(After(START, steps), user, conn)
  {
    assert OwnedBy(START.p, i) == {};
    var booting := Next(START, Boot(i));
    var up := Next(booting, FinishBoot(i));
    var half := Next(up, ConnectHalf(i, user, conn));
    var dead := Next(half, Crash(i));
    assert Stuck(dead, user, conn);
    RunThen(half, Crash(i), []);
    RunThen(up, ConnectHalf(i, user, conn), [Crash(i)] + []);
    var tail := [ConnectHalf(i, user, conn)] + ([Crash(i)] + []);
    RunThen(booting, FinishBoot(i), tail);
    RunThen(START, Boot(i), [FinishBoot(i)] + tail);
    var steps := [Boot(i)] + ([FinishBoot(i)] + tail);
    assert Runs(START, steps) && After(START, steps) == dead;
  }
}
