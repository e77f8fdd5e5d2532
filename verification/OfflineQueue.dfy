/** The durable offline queue: one Redis sorted set per user. */
module OfflineQueue {
  import opened EventIds

  /** A stored JSON text together with the event id it decodes to. */
  datatype Event = Event(text: string, id: string)

  datatype Entry = Entry(score: int, event: Event)

  /** The order of a sorted set: by score, then by member text. */
  predicate Before(a: Entry, b: Entry) {
    a.score < b.score || (a.score == b.score && Less(a.event.text, b.event.text))
  }

  function Without(z: seq<Entry>, text: string): seq<Entry> {
    if z == [] then []
    else (if z[0].event.text == text then [] else [z[0]]) + Without(z[1..], text)
  }

  function Insert(z: seq<Entry>, e: Entry): seq<Entry> {
    if z == [] || Before(e, z[0]) then [e] + z else [z[0]] + Insert(z[1..], e)
  }

  function ZAdd(z: seq<Entry>, e: Entry): seq<Entry> {
    Insert(Without(z, e.event.text), e)
  }

  /** `ZREMRANGEBYRANK`: negative ranks count from the end. */
  function ZRemRangeByRank(z: seq<Entry>, start: int, stop: int): seq<Entry> {
    var n := |z|;
    var lo := if start >= 0 then start else if start + n >= 0 then start + n else 0;
    var hi := if stop >= 0 then stop else stop + n;
    if lo > hi || lo >= n then z
    else z[..lo] + z[(if hi >= n then n - 1 else hi) + 1..]
  }

  function ZRem(z: seq<Entry>, gone: set<Event>): seq<Entry> {
    if z == [] then []
    else (if z[0].event in gone then [] else [z[0]]) + ZRem(z[1..], gone)
  }

  function Events(z: seq<Entry>): seq<Event> {
    seq(|z|, i requires 0 <= i < |z| => z[i].event)
  }

  function Newest<T>(s: seq<T>, n: nat): seq<T> {
    if |s| <= n then s else s[|s| - n..]
  }

  /** The rank `-(max + 1)` trims exactly what exceeds the newest `max`. */
  lemma TrimKeepsNewest(z: seq<Entry>, max: nat)
    ensures ZRemRangeByRank(z, 0, -(max + 1)) == Newest(z, max)
  {
  }

  // ---- the sorted set is sorted ----

  ghost predicate Sorted(z: seq<Entry>) {
    forall i, j | 0 <= i < j < |z| :: Before(z[i], z[j])
  }

  lemma BeforeTotal(a: Entry, b: Entry)
    requires a.event.text != b.event.text
    ensures Before(a, b) <==> !Before(b, a)
  {
    LessTotal(a.event.text, b.event.text);
    LessAsymmetric(a.event.text, b.event.text);
  }

  lemma BeforeTransitive(a: Entry, b: Entry, c: Entry)
    requires Before(a, b) && Before(b, c)
    ensures Before(a, c)
  {
    if a.score == b.score == c.score {
      LessTransitive(a.event.text, b.event.text, c.event.text);
    }
  }

  lemma BeforeIrreflexive(a: Entry)
    ensures !Before(a, a)
  {
    LessAsymmetric(a.event.text, a.event.text);
  }

  lemma {:induction false} InsertHolds(z: seq<Entry>, e: Entry)
    ensures |Insert(z, e)| == |z| + 1
    ensures forall x :: x in Insert(z, e) <==> x in z || x == e
  {
    if z != [] && !Before(e, z[0]) {
      assert z == [z[0]] + z[1..];
      InsertHolds(z[1..], e);
    }
  }

  lemma SortedCons(e: Entry, rest: seq<Entry>)
    requires Sorted(rest) && forall x | x in rest :: Before(e, x)
    ensures Sorted([e] + rest)
  {
    assert forall i | 0 <= i < |rest| :: rest[i] in rest;
  }

  lemma SortedTail(z: seq<Entry>)
    requires Sorted(z) && z != []
    ensures Sorted(z[1..]) && forall x | x in z[1..] :: Before(z[0], x)
  {
  }

  lemma {:induction false} InsertSorted(z: seq<Entry>, e: Entry)
    requires Sorted(z) && forall x | x in z :: x.event.text != e.event.text
    ensures Sorted(Insert(z, e))
  {
    if z == [] || Before(e, z[0]) {
      forall x | x in z ensures Before(e, x) {
        var i :| 0 <= i < |z| && z[i] == x;
        if i > 0 {
          BeforeTransitive(e, z[0], x);
        }
      }
      SortedCons(e, z);
    } else {
      assert z[0] in z;
      assert forall x | x in z[1..] :: x in z;
      SortedTail(z);
      InsertSorted(z[1..], e);
      InsertHolds(z[1..], e);
      BeforeTotal(z[0], e);
      SortedCons(z[0], Insert(z[1..], e));
    }
  }

  lemma {:induction false} WithoutHolds(z: seq<Entry>, text: string)
    ensures forall x :: x in Without(z, text) <==> x in z && x.event.text != text
    ensures Sorted(z) ==> Sorted(Without(z, text))
  {
    if z != [] {
      assert z == [z[0]] + z[1..];
      WithoutHolds(z[1..], text);
      if Sorted(z) && z[0].event.text != text {
        SortedTail(z);
        SortedCons(z[0], Without(z[1..], text));
      }
    }
  }

  /** `ZADD` keeps the order, replaces the entry of the same text, and touches no other. */
  lemma ZAddIsExact(z: seq<Entry>, e: Entry)
    ensures Sorted(z) ==> Sorted(ZAdd(z, e))
    ensures forall x :: x in ZAdd(z, e) <==> x == e || (x in z && x.event.text != e.event.text)
  {
    var others := Without(z, e.event.text);
    WithoutHolds(z, e.event.text);
    InsertHolds(others, e);
    if Sorted(z) {
      InsertSorted(others, e);
    }
  }

  lemma {:induction false} ZRemSorted(z: seq<Entry>, gone: set<Event>)
    requires Sorted(z)
    ensures Sorted(ZRem(z, gone))
  {
    if z != [] {
      SortedTail(z);
      ZRemSorted(z[1..], gone);
      RemovedMembers(z[1..], gone);
      if z[0].event !in gone {
        SortedCons(z[0], ZRem(z[1..], gone));
      }
    }
  }

  /** The entries that sort after `x`. */
  function Later(z: seq<Entry>, x: Entry): set<Entry> {
    set y | y in z && Before(x, y)
  }

  lemma {:induction false} EntriesOfSorted(z: seq<Entry>)
    requires Sorted(z)
    ensures |set y | y in z| == |z|
  {
    if z != [] {
      SortedTail(z);
      EntriesOfSorted(z[1..]);
      BeforeIrreflexive(z[0]);
      assert (set y | y in z) == {z[0]} + set y | y in z[1..];
    }
  }

  /** In a sorted set an entry's rank from the end is the number of entries after it. */
  lemma RankFromEnd(z: seq<Entry>, i: nat)
    requires Sorted(z) && i < |z|
    ensures |Later(z, z[i])| == |z| - 1 - i
  {
    var rest := z[i + 1..];
    EntriesOfSorted(rest);
    forall y ensures y in Later(z, z[i]) <==> y in (set x | x in rest) {
      if y in Later(z, z[i]) {
        var j :| 0 <= j < |z| && z[j] == y;
        BeforeIrreflexive(y);
        if j < i {
          BeforeTransitive(z[i], y, z[i]);
          BeforeIrreflexive(z[i]);
        }
        assert rest[j - i - 1] == y;
      }
    }
    assert Later(z, z[i]) == set x | x in rest;
  }

  /** The trim keeps exactly the entries with fewer than `max` after them. */
  lemma TrimKeepsHighest(z: seq<Entry>, max: nat)
    requires Sorted(z)
    ensures var kept := ZRemRangeByRank(z, 0, -(max + 1));
            Sorted(kept) && forall x :: x in kept <==> x in z && |Later(z, x)| < max
  {
    var kept := ZRemRangeByRank(z, 0, -(max + 1));
    TrimKeepsNewest(z, max);
    assert kept == z[|z| - |kept|..];
    forall x ensures x in kept <==> x in z && |Later(z, x)| < max {
      KeptIff(z, max, kept, x);
    }
  }

  lemma KeptIff(z: seq<Entry>, max: nat, kept: seq<Entry>, x: Entry)
    requires Sorted(z) && |kept| == (if |z| <= max then |z| else max) && kept == z[|z| - |kept|..]
    ensures x in kept <==> x in z && |Later(z, x)| < max
  {
    var cut := |z| - |kept|;
    if x in kept {
      var i :| 0 <= i < |kept| && kept[i] == x;
      assert z[cut + i] == x;
      RankFromEnd(z, cut + i);
    }
    if x in z && |Later(z, x)| < max {
      var i :| 0 <= i < |z| && z[i] == x;
      RankFromEnd(z, i);
      assert kept[i - cut] == x;
    }
  }

  // ---- reading ----

  function Above(z: seq<Entry>, cursor: string): seq<Entry> {
    if z == [] then []
    else (if Less(cursor, z[0].event.id) then [z[0]] else []) + Above(z[1..], cursor)
  }

  function InsertById(s: seq<Entry>, e: Entry): seq<Entry> {
    if s != [] && Less(e.event.id, s[|s| - 1].event.id)
    then InsertById(s[..|s| - 1], e) + [s[|s| - 1]]
    else s + [e]
  }

  /** A stable sort by id. */
  function SortById(z: seq<Entry>): seq<Entry> {
    if z == [] then [] else InsertById(SortById(z[..|z| - 1]), z[|z| - 1])
  }

  lemma {:induction false} AboveMembers(z: seq<Entry>, cursor: string)
    ensures forall e :: e in Above(z, cursor) <==> e in z && Less(cursor, e.event.id)
    ensures |Above(z, cursor)| <= |z|
  {
    if z != [] {
      assert z == [z[0]] + z[1..];
      AboveMembers(z[1..], cursor);
    }
  }

  lemma {:induction false} InsertMembers(s: seq<Entry>, e: Entry)
    ensures |InsertById(s, e)| == |s| + 1
    ensures forall x :: x in InsertById(s, e) <==> x in s || x == e
    decreases |s|
  {
    if s != [] {
      assert s == s[..|s| - 1] + [s[|s| - 1]];
      InsertMembers(s[..|s| - 1], e);
    }
  }

  lemma {:induction false} SortMembers(z: seq<Entry>)
    ensures |SortById(z)| == |z|
    ensures forall x :: x in SortById(z) <==> x in z
    decreases |z|
  {
    if z != [] {
      assert z == z[..|z| - 1] + [z[|z| - 1]];
      SortMembers(z[..|z| - 1]);
      InsertMembers(SortById(z[..|z| - 1]), z[|z| - 1]);
    }
  }

  function RetrieveSince(z: seq<Entry>, sinceId: string, limit: nat): seq<Entry> {
    Take(SortById(Above(z, sinceId)), limit)
  }

  function Take(found: seq<Entry>, limit: nat): seq<Entry> {
    if |found| <= limit then found else found[..limit]
  }

  /** What an acknowledgement reads: the events at or below the watermark. */
  function Delivered(z: seq<Entry>, upToId: string): set<Event> {
    set e | e in z && AtMost(e.event.id, upToId) :: e.event
  }

  function Acknowledge(z: seq<Entry>, upToId: string): seq<Entry> {
    ZRem(z, Delivered(z, upToId))
  }

  predicate DistinctIds(z: seq<Entry>) {
    forall i, j | 0 <= i < j < |z| :: z[i].event.id != z[j].event.id
  }

  predicate NoRepeat(z: seq<Entry>) {
    forall i, j | 0 <= i < j < |z| :: z[i].event != z[j].event
  }

  predicate AscendingIds(z: seq<Entry>) {
    forall i, j | 0 <= i < j < |z| :: Less(z[i].event.id, z[j].event.id)
  }

  lemma {:induction false} InsertByIdAscends(s: seq<Entry>, e: Entry)
    requires AscendingIds(s) && forall x | x in s :: x.event.id != e.event.id
    ensures AscendingIds(InsertById(s, e))
    decreases |s|
  {
    if s != [] {
      var init, last := s[..|s| - 1], s[|s| - 1];
      assert s == init + [last];
      LessTotal(e.event.id, last.event.id);
      if Less(e.event.id, last.event.id) {
        InsertByIdAscends(init, e);
        InsertMembers(init, e);
        var r := InsertById(init, e);
        forall i | 0 <= i < |r| ensures Less(r[i].event.id, last.event.id) {
          assert r[i] in r;
          if r[i] in init {
            var k :| 0 <= k < |init| && init[k] == r[i];
            assert s[k] == r[i];
          }
        }
      } else {
        forall i | 0 <= i < |s| ensures Less(s[i].event.id, e.event.id) {
          assert s[i] in s && last in s;
          if i < |s| - 1 {
            LessTransitive(s[i].event.id, last.event.id, e.event.id);
          }
        }
      }
    }
  }

  lemma {:induction false} SortAscends(z: seq<Entry>)
    requires DistinctIds(z)
    ensures AscendingIds(SortById(z))
    decreases |z|
  {
    if z != [] {
      SortAscends(z[..|z| - 1]);
      SortMembers(z[..|z| - 1]);
      InsertByIdAscends(SortById(z[..|z| - 1]), z[|z| - 1]);
    }
  }

  lemma AscendingHead(a: seq<Entry>, b: seq<Entry>)
    requires AscendingIds(a) && AscendingIds(b) && a != []
    requires forall e :: e in a <==> e in b
    ensures b != [] && a[0] == b[0]
    ensures forall e | e in a[1..] :: e in b[1..]
  {
    assert a[0] in a;
    var i :| 0 <= i < |b| && b[i] == a[0];
    assert b[0] in b;
    var j :| 0 <= j < |a| && a[j] == b[0];
    LessAsymmetric(a[0].event.id, b[0].event.id);
    assert forall n | 0 < n < |b| :: Less(b[0].event.id, b[n].event.id);
    assert forall n | 0 < n < |a| :: Less(a[0].event.id, a[n].event.id);
    forall e | e in a[1..] ensures e in b[1..] {
      var k :| 0 <= k < |a[1..]| && a[1..][k] == e;
      assert Less(a[0].event.id, a[k + 1].event.id);
      LessAsymmetric(e.event.id, e.event.id);
      assert e in a && e != b[0];
      assert b == [b[0]] + b[1..];
    }
  }

  /** A strictly ascending sequence is determined by its elements. */
  lemma {:induction false} AscendingUnique(a: seq<Entry>, b: seq<Entry>)
    requires AscendingIds(a) && AscendingIds(b)
    requires forall e :: e in a <==> e in b
    ensures a == b
    decreases |a|
  {
    if a != [] {
      AscendingHead(a, b);
      AscendingHead(b, a);
      AscendingUnique(a[1..], b[1..]);
      assert a == [a[0]] + a[1..] && b == [b[0]] + b[1..];
    } else if b != [] {
      AscendingHead(b, a);
    }
  }

  lemma {:induction false} AboveDistinct(z: seq<Entry>, cursor: string)
    requires DistinctIds(z)
    ensures DistinctIds(Above(z, cursor))
  {
    if z != [] {
      AboveDistinct(z[1..], cursor);
      AboveMembers(z[1..], cursor);
      assert forall i | 0 <= i < |Above(z[1..], cursor)| :: Above(z[1..], cursor)[i] in z[1..];
    }
  }

  lemma {:induction false} RemovedMembers(z: seq<Entry>, gone: set<Event>)
    ensures forall e :: e in ZRem(z, gone) <==> e in z && e.event !in gone
    ensures |ZRem(z, gone)| <= |z|
  {
    if z != [] {
      assert z == [z[0]] + z[1..];
      RemovedMembers(z[1..], gone);
    }
  }

  lemma {:induction false} RemovedDistinct(z: seq<Entry>, gone: set<Event>)
    ensures DistinctIds(z) ==> DistinctIds(ZRem(z, gone))
    ensures NoRepeat(z) ==> NoRepeat(ZRem(z, gone))
  {
    if z != [] {
      RemovedDistinct(z[1..], gone);
      RemovedMembers(z[1..], gone);
      PrependDistinct(z[0], ZRem(z[1..], gone), z[1..]);
      assert z == [z[0]] + z[1..];
    }
  }

  /** Some of `all`, without repetition, stay so after what precedes `all`. */
  lemma PrependDistinct(e: Entry, some: seq<Entry>, all: seq<Entry>)
    requires forall x | x in some :: x in all
    ensures DistinctIds([e] + all) ==> DistinctIds(all) && (DistinctIds(some) ==> DistinctIds([e] + some))
    ensures NoRepeat([e] + all) ==> NoRepeat(all) && (NoRepeat(some) ==> NoRepeat([e] + some))
  {
    var whole := [e] + all;
    assert forall i | 0 <= i < |all| :: whole[i + 1] == all[i];
    forall i | 0 <= i < |some|
      ensures (DistinctIds(whole) ==> some[i].event.id != e.event.id) && (NoRepeat(whole) ==> some[i].event != e.event)
    {
      assert some[i] in some;
      var k :| 0 <= k < |all| && all[k] == some[i];
      assert whole[0] == e && whole[k + 1] == some[i];
    }
  }

  /** In an ascending sequence the first `k` are the ones below the rest. */
  lemma AscendingPrefix(found: seq<Entry>, k: nat)
    requires AscendingIds(found) && k <= |found|
    ensures forall e, p | e in found && p in found[..k] && Less(e.event.id, p.event.id) :: e in found[..k]
  {
    forall e, p | e in found && p in found[..k] && Less(e.event.id, p.event.id) ensures e in found[..k] {
      var i :| 0 <= i < |found| && found[i] == e;
      var j :| 0 <= j < k && found[j] == p;
      LessAsymmetric(e.event.id, p.event.id);
      assert i < j;
      assert found[..k][i] == e;
    }
  }

  lemma AscendingSuffix(found: seq<Entry>, k: nat)
    requires AscendingIds(found) && 0 < k <= |found|
    ensures AscendingIds(found[k..])
    ensures forall e :: e in found[k..] <==> e in found && Less(found[k - 1].event.id, e.event.id)
  {
    forall e ensures e in found[k..] <==> e in found && Less(found[k - 1].event.id, e.event.id) {
      if e in found[k..] {
        var i :| 0 <= i < |found[k..]| && found[k..][i] == e;
        assert found[k + i] == e;
      } else if e in found {
        assert found == found[..k] + found[k..];
        var i :| 0 <= i < k && found[..k][i] == e;
        LessAsymmetric(e.event.id, found[k - 1].event.id);
      }
    }
  }

  lemma FoundMembers(z: seq<Entry>, cursor: string)
    ensures |SortById(Above(z, cursor))| == |Above(z, cursor)|
    ensures forall e :: e in SortById(Above(z, cursor)) <==> e in z && Less(cursor, e.event.id)
  {
    AboveMembers(z, cursor);
    SortMembers(Above(z, cursor));
  }

  lemma Found(z: seq<Entry>, cursor: string)
    requires DistinctIds(z)
    ensures AscendingIds(SortById(Above(z, cursor)))
    ensures forall e :: e in SortById(Above(z, cursor)) <==> e in z && Less(cursor, e.event.id)
  {
    FoundMembers(z, cursor);
    AboveDistinct(z, cursor);
    SortAscends(Above(z, cursor));
  }

  lemma TakeIsPrefix(found: seq<Entry>, limit: nat)
    ensures Take(found, limit) == found[..|Take(found, limit)|]
    ensures forall e | e in Take(found, limit) :: e in found
  {
  }

  /** Of what is newer than the cursor, a page leaves out only what is newer than all it has. */
  predicate SkipsNothing(z: seq<Entry>, sinceId: string, page: seq<Entry>, e: Entry) {
    e in z && Less(sinceId, e.event.id) && e !in page ==> forall p | p in page :: !Less(e.event.id, p.event.id)
  }

  lemma PageSkipsNothing(z: seq<Entry>, sinceId: string, limit: nat, e: Entry)
    requires DistinctIds(z)
    ensures SkipsNothing(z, sinceId, RetrieveSince(z, sinceId, limit), e)
  {
    var found := SortById(Above(z, sinceId));
    Found(z, sinceId);
    TakeIsPrefix(found, limit);
    AscendingPrefix(found, |Take(found, limit)|);
  }

  lemma PageAscends(found: seq<Entry>, limit: nat)
    requires AscendingIds(found)
    ensures AscendingIds(Take(found, limit))
  {
  }

  /**
   * One page: ascending, all newer than the cursor, as many as there are up to the limit,
   * and nothing newer than the cursor and older than the page's end is skipped.
   */
  lemma PageIsExact(z: seq<Entry>, sinceId: string, limit: nat)
    requires DistinctIds(z)
    ensures AscendingIds(RetrieveSince(z, sinceId, limit))
    ensures forall e | e in RetrieveSince(z, sinceId, limit) :: e in z && Less(sinceId, e.event.id)
    ensures |RetrieveSince(z, sinceId, limit)| == if |Above(z, sinceId)| <= limit then |Above(z, sinceId)| else limit
    ensures forall e :: SkipsNothing(z, sinceId, RetrieveSince(z, sinceId, limit), e)
  {
    var found := SortById(Above(z, sinceId));
    Found(z, sinceId);
    FoundMembers(z, sinceId);
    TakeIsPrefix(found, limit);
    PageAscends(found, limit);
    forall e ensures SkipsNothing(z, sinceId, RetrieveSince(z, sinceId, limit), e) {
      PageSkipsNothing(z, sinceId, limit, e);
    }
  }

  // ---- draining by pages ----

  /** An acknowledgement removes the events at or below its watermark, and no others. */
  lemma AcknowledgedExactly(z: seq<Entry>, upToId: string)
    ensures forall e :: e in Acknowledge(z, upToId) <==> e in z && Less(upToId, e.event.id)
    ensures DistinctIds(z) ==> DistinctIds(Acknowledge(z, upToId))
  {
    RemovedMembers(z, Delivered(z, upToId));
    RemovedDistinct(z, Delivered(z, upToId));
    forall e | e in z ensures e.event in Delivered(z, upToId) <==> !Less(upToId, e.event.id) {
      LessTotal(upToId, e.event.id);
      LessAsymmetric(upToId, e.event.id);
      if e.event in Delivered(z, upToId) {
        var d :| d in z && AtMost(d.event.id, upToId) && d.event == e.event;
      }
    }
  }

  function LastId(page: seq<Entry>): string
    requires page != []
  {
    page[|page| - 1].event.id
  }

  lemma SameRest(z: seq<Entry>, z': seq<Entry>, cursor: string, last: string, rest: seq<Entry>)
    requires DistinctIds(z') && AscendingIds(rest) && Less(cursor, last)
    requires forall e :: e in z' <==> e in z && Less(last, e.event.id)
    requires forall e :: e in rest <==> e in z && Less(cursor, e.event.id) && Less(last, e.event.id)
    ensures SortById(Above(z', last)) == rest
  {
    Found(z', last);
    forall e ensures e in rest <==> e in SortById(Above(z', last)) {
      if Less(last, e.event.id) {
        LessTransitive(cursor, last, e.event.id);
      }
    }
    AscendingUnique(rest, SortById(Above(z', last)));
  }

  /** Acknowledging the first `k` of what is above the cursor leaves, above them, the rest. */
  lemma AcknowledgedFirst(z: seq<Entry>, cursor: string, k: nat)
    requires DistinctIds(z) && 0 < k <= |SortById(Above(z, cursor))|
    ensures var found := SortById(Above(z, cursor)); var last := found[k - 1].event.id;
            && DistinctIds(Acknowledge(z, last))
            && SortById(Above(Acknowledge(z, last), last)) == found[k..]
  {
    var found := SortById(Above(z, cursor));
    var last := found[k - 1].event.id;
    Found(z, cursor);
    assert found[k - 1] in found;
    AscendingSuffix(found, k);
    AcknowledgedExactly(z, last);
    SameRest(z, Acknowledge(z, last), cursor, last, found[k..]);
  }

  /** Acknowledging a page leaves, above its last id, exactly what sorts after it. */
  lemma AcknowledgedPage(z: seq<Entry>, cursor: string, limit: nat)
    requires limit >= 1 && DistinctIds(z) && RetrieveSince(z, cursor, limit) != []
    ensures var page := RetrieveSince(z, cursor, limit);
            var z' := Acknowledge(z, LastId(page));
            && DistinctIds(z')
            && SortById(Above(z, cursor)) == page + SortById(Above(z', LastId(page)))
            && |Above(z', LastId(page))| < |Above(z, cursor)|
  {
    var found, page := SortById(Above(z, cursor)), RetrieveSince(z, cursor, limit);
    TakeShape(found, limit);
    AcknowledgedFirst(z, cursor, |page|);
    SortMembers(Above(z, cursor));
    SortMembers(Above(Acknowledge(z, LastId(page)), LastId(page)));
  }

  lemma TakeShape(found: seq<Entry>, limit: nat)
    requires limit >= 1 && found != []
    ensures var page := Take(found, limit);
            && 0 < |page| <= |found| && found == page + found[|page|..]
            && LastId(page) == found[|page| - 1].event.id
  {
  }

  /** Retrieve a page from the last returned id, acknowledge it, and go on until none is left. */
  function Drain(z: seq<Entry>, cursor: string, limit: nat): (seq<Entry>, seq<Entry>)
    requires limit >= 1 && DistinctIds(z)
    decreases |Above(z, cursor)|
  {
    var page := RetrieveSince(z, cursor, limit);
    if page == [] then ([], z)
    else
      AcknowledgedPage(z, cursor, limit);
      var rest := Drain(Acknowledge(z, LastId(page)), LastId(page), limit);
      (page + rest.0, rest.1)
  }

  /**
   * The pages concatenate to exactly the events above the cursor, in id order, each once,
   * and none of them stays queued.
   */
  lemma {:induction false} DrainIsComplete(z: seq<Entry>, cursor: string, limit: nat)
    requires limit >= 1 && DistinctIds(z)
    ensures Drain(z, cursor, limit) == (SortById(Above(z, cursor)), if Above(z, cursor) == [] then z else [])
    decreases |Above(z, cursor)|
  {
    var page := RetrieveSince(z, cursor, limit);
    if page != [] {
      var z' := Acknowledge(z, LastId(page));
      AcknowledgedPage(z, cursor, limit);
      DrainIsComplete(z', LastId(page), limit);
      NothingBelow(z, LastId(page));
    }
  }

  /** After an acknowledgement only newer events are left. */
  lemma NothingBelow(z: seq<Entry>, last: string)
    ensures var z' := Acknowledge(z, last); Above(z', last) == z'
  {
    AcknowledgedExactly(z, last);
    AllAbove(Acknowledge(z, last), last);
  }

  lemma {:induction false} AllAbove(z: seq<Entry>, cursor: string)
    requires forall e | e in z :: Less(cursor, e.event.id)
    ensures Above(z, cursor) == z
  {
    if z != [] {
      assert z == [z[0]] + z[1..];
      AllAbove(z[1..], cursor);
    }
  }

  /** The drain hands out ascending ids, each event above the cursor exactly once. */
  lemma DrainInOrder(z: seq<Entry>, cursor: string, limit: nat)
    requires limit >= 1 && DistinctIds(z)
    ensures AscendingIds(Drain(z, cursor, limit).0)
    ensures forall e :: e in Drain(z, cursor, limit).0 <==> e in z && Less(cursor, e.event.id)
  {
    DrainIsComplete(z, cursor, limit);
    Found(z, cursor);
  }

  // ---- the limit: events that share an id ----

  predicate WeaklyAscending(z: seq<Entry>) {
    forall i, j | 0 <= i < j < |z| :: AtMost(z[i].event.id, z[j].event.id)
  }

  lemma AtMostTransitive(a: string, b: string, c: string)
    requires AtMost(a, b) && AtMost(b, c)
    ensures AtMost(a, c)
  {
    if Less(a, b) && Less(b, c) {
      LessTransitive(a, b, c);
    }
  }

  lemma {:induction false} InsertByIdWeakly(s: seq<Entry>, e: Entry)
    requires WeaklyAscending(s)
    ensures WeaklyAscending(InsertById(s, e))
    decreases |s|
  {
    if s != [] {
      var init, last := s[..|s| - 1], s[|s| - 1];
      LessTotal(e.event.id, last.event.id);
      if Less(e.event.id, last.event.id) {
        InsertByIdWeakly(init, e);
        InsertMembers(init, e);
        var r := InsertById(init, e);
        forall i | 0 <= i < |r| ensures AtMost(r[i].event.id, last.event.id) {
          assert r[i] in r;
          if r[i] != e {
            var k :| 0 <= k < |init| && init[k] == r[i];
            assert s[k] == r[i];
          }
        }
      } else {
        forall i | 0 <= i < |s| ensures AtMost(s[i].event.id, e.event.id) {
          AtMostTransitive(s[i].event.id, last.event.id, e.event.id);
        }
      }
    }
  }

  lemma {:induction false} SortWeakly(z: seq<Entry>)
    ensures WeaklyAscending(SortById(z))
    decreases |z|
  {
    if z != [] {
      SortWeakly(z[..|z| - 1]);
      InsertByIdWeakly(SortById(z[..|z| - 1]), z[|z| - 1]);
    }
  }

  /** Acknowledging the first `k` found takes none of the others with them. */
  predicate KeepsRest(z: seq<Entry>, found: seq<Entry>, k: nat)
    requires 0 < k <= |found|
  {
    forall e | e in found[k..] :: e in Acknowledge(z, found[k - 1].event.id)
  }

  lemma BoundaryKeepsIff(z: seq<Entry>, found: seq<Entry>, k: nat)
    requires WeaklyAscending(found) && 0 < k < |found| && forall e | e in found :: e in z
    ensures KeepsRest(z, found, k) <==> found[k].event.id != found[k - 1].event.id
  {
    var last := found[k - 1].event.id;
    AcknowledgedExactly(z, last);
    LessAsymmetric(last, last);
    assert found[k] in found[k..];
    if found[k].event.id != last {
      forall e | e in found[k..] ensures e in Acknowledge(z, last) {
        var i :| 0 <= i < |found[k..]| && found[k..][i] == e;
        assert found[k + i] == e;
        BelowAfter(last, found[k].event.id, e.event.id);
      }
    }
  }

  lemma PageEnds(found: seq<Entry>, limit: nat)
    requires 0 < limit <= |found|
    ensures Take(found, limit) == found[..limit] && LastId(Take(found, limit)) == found[limit - 1].event.id
  {
  }

  /**
   * Whatever ids are shared: acknowledging a page keeps all that was left for later pages
   * exactly when the next event's id differs from the page's last.
   */
  lemma PageBoundaryKeepsIff(z: seq<Entry>, cursor: string, limit: nat)
    requires 0 < limit < |SortById(Above(z, cursor))|
    ensures RetrieveSince(z, cursor, limit) == SortById(Above(z, cursor))[..limit]
    ensures KeepsRest(z, SortById(Above(z, cursor)), limit)
       <==> SortById(Above(z, cursor))[limit].event.id != LastId(RetrieveSince(z, cursor, limit))
  {
    SortWeakly(Above(z, cursor));
    FoundMembers(z, cursor);
    PageEnds(SortById(Above(z, cursor)), limit);
    BoundaryKeepsIff(z, SortById(Above(z, cursor)), limit);
  }

  lemma BelowAfter(a: string, b: string, c: string)
    requires Less(a, b) && AtMost(b, c)
    ensures Less(a, c)
  {
    if Less(b, c) {
      LessTransitive(a, b, c);
    }
  }

  lemma NoMembers(z: seq<Entry>)
    ensures z == [] || z[0] in z
  {
  }

  /**
   * Two instances that emit in one millisecond at one counter value give two events the
   * same id; a page that ends between them hands out one, and acknowledging it drops both.
   */
  lemma DuplicateIdLost(ms: nat, counter: nat, a: Entry, b: Entry)
    requires a.event.id == b.event.id == EventId(ms, counter)
    requires a.event.text != b.event.text && Before(a, b)
    ensures var z := ZAdd(ZAdd([], a), b);
            RetrieveSince(z, MIN_EVENT_ID, 1) == [a] && Acknowledge(z, a.event.id) == []
  {
    var z := ZAdd(ZAdd([], a), b);
    LessAsymmetric(a.event.text, b.event.text);
    assert [a][1..] == [];
    assert Insert([a], b) == [a] + Insert([], b);
    assert Without([a], b.event.text) == [a] + Without([a][1..], b.event.text);
    assert z == [a, b];
    MinCursorBelowAll(ms, counter);
    AllAbove(z, MIN_EVENT_ID);
    LessAsymmetric(a.event.id, b.event.id);
    assert z[..1] == [a] && z[..1][..0] == [];
    assert SortById(z[..1]) == [a];
    assert SortById(z) == z;
    AcknowledgedExactly(z, a.event.id);
    assert forall e | e in Acknowledge(z, a.event.id) :: e in z;
    NoMembers(Acknowledge(z, a.event.id));
  }
}
