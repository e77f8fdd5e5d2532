/** The per-connection sliding-window limiter for incoming chat messages. */
module ChatRateLimiter {
  const MAX_MESSAGES_PER_WINDOW: nat := 20
  const WINDOW_MS: nat := 1000

  /** The times still inside the window that ends at `now`. */
  function Recent(times: seq<int>, now: int): (r: seq<int>)
    ensures |r| <= |times|
  {
    if times == [] then []
    else
      var last := times[|times| - 1];
      Recent(times[..|times| - 1], now) + if now - last < WINDOW_MS then [last] else []
  }

  datatype Verdict = Verdict(times: seq<int>, admitted: bool)

  /** One call: prune, then admit and record while below the cap. */
  function Consume(times: seq<int>, now: int): Verdict {
    var recent := Recent(times, now);
    if |recent| >= MAX_MESSAGES_PER_WINDOW then Verdict(recent, false) else Verdict(recent + [now], true)
  }

  /** The reference limiter keeps every admitted time for ever. */
  function ConsumeUnpruned(history: seq<int>, now: int): Verdict {
    if |Recent(history, now)| >= MAX_MESSAGES_PER_WINDOW then Verdict(history, false)
    else Verdict(history + [now], true)
  }

  predicate NonDecreasing(times: seq<int>) {
    forall i, j | 0 <= i < j < |times| :: times[i] <= times[j]
  }

  lemma RecentSnoc(times: seq<int>, at: int, now: int)
    ensures Recent(times + [at], now) == Recent(times, now) + if now - at < WINDOW_MS then [at] else []
  {
    assert (times + [at])[..|times|] == times;
  }

  /** Pruning at an earlier time does not change what is recent later. */
  lemma {:induction false} PruneTwice(times: seq<int>, earlier: int, later: int)
    requires earlier <= later
    ensures Recent(Recent(times, earlier), later) == Recent(times, later)
    decreases |times|
  {
    if times != [] {
      var init, last := times[..|times| - 1], times[|times| - 1];
      PruneTwice(init, earlier, later);
      if earlier - last < WINDOW_MS {
        RecentSnoc(Recent(init, earlier), last, later);
      } else {
        assert Recent(init, earlier) + [] == Recent(init, earlier);
      }
    }
  }

  // ---- a connection's calls, with no release among them ----

  function Stored(calls: seq<int>): seq<int> {
    if calls == [] then []
    else Consume(Stored(calls[..|calls| - 1]), calls[|calls| - 1]).times
  }

  function Admitted(calls: seq<int>): seq<int> {
    if calls == [] then []
    else ConsumeUnpruned(Admitted(calls[..|calls| - 1]), calls[|calls| - 1]).times
  }

  /** The pruned state is the recent part of the full history. */
  lemma {:induction false} StoredIsRecent(calls: seq<int>)
    requires NonDecreasing(calls) && calls != []
    ensures Stored(calls) == Recent(Admitted(calls), calls[|calls| - 1])
    decreases |calls|
  {
    var init, now := calls[..|calls| - 1], calls[|calls| - 1];
    if init != [] {
      StoredIsRecent(init);
      PruneTwice(Admitted(init), init[|init| - 1], now);
    }
    assert Recent(Stored(init), now) == Recent(Admitted(init), now);
    RecentSnoc(Admitted(init), now, now);
  }

  lemma SameRecent(calls: seq<int>, now: int)
    requires NonDecreasing(calls) && (calls != [] ==> calls[|calls| - 1] <= now)
    ensures Recent(Stored(calls), now) == Recent(Admitted(calls), now)
  {
    if calls != [] {
      StoredIsRecent(calls);
      PruneTwice(Admitted(calls), calls[|calls| - 1], now);
    }
  }

  /** After these calls, a call at `now` gets the same verdict from both limiters. */
  predicate Agree(calls: seq<int>, now: int) {
    Consume(Stored(calls), now).admitted <==> ConsumeUnpruned(Admitted(calls), now).admitted
  }

  /** Same decision as the limiter that remembers everything. */
  lemma PrunedDecidesAsFull(calls: seq<int>, now: int)
    requires NonDecreasing(calls) && (calls != [] ==> calls[|calls| - 1] <= now)
    ensures Agree(calls, now)
  {
    SameRecent(calls, now);
  }

  /** The positions of the times less than a second before `now`. */
  function LastSecond(times: seq<int>, now: int): set<int> {
    set i | 0 <= i < |times| && now - times[i] < 1000
  }

  lemma {:induction false} RecentAreLastSecond(times: seq<int>, now: int)
    ensures |Recent(times, now)| == |LastSecond(times, now)|
    decreases |times|
  {
    if times != [] {
      var n, init := |times| - 1, times[..|times| - 1];
      RecentAreLastSecond(init, now);
      assert LastSecond(times, now) == LastSecond(init, now) + if now - times[n] < 1000 then {n} else {};
    }
  }

  /** Whatever is stored, a call is admitted exactly while fewer than 20 stored times are in the last second. */
  lemma DecidesByLastSecond(times: seq<int>, now: int)
    ensures Consume(times, now).admitted <==> |LastSecond(times, now)| < 20
  {
    RecentAreLastSecond(times, now);
  }

  /** Never more than 20 times kept. */
  lemma {:induction false} StoredBounded(calls: seq<int>)
    ensures |Stored(calls)| <= 20
    decreases |calls|
  {
    if calls != [] {
      StoredBounded(calls[..|calls| - 1]);
    }
  }

  // ---- the bound on every window ----

  function Count(times: seq<int>, from: int, to: int): (n: nat)
    ensures n <= |times|
  {
    if times == [] then 0
    else
      var last := times[|times| - 1];
      Count(times[..|times| - 1], from, to) + if from <= last < to then 1 else 0
  }

  /** Every admission is a window away from the twentieth before it. */
  predicate Spaced(times: seq<int>) {
    NonDecreasing(times)
    && forall i | 0 <= i < |times| - MAX_MESSAGES_PER_WINDOW ::
         times[i + MAX_MESSAGES_PER_WINDOW] - times[i] >= WINDOW_MS
  }

  lemma {:induction false} RecentCovers(times: seq<int>, k: nat, now: int)
    requires k <= |times| && forall i | |times| - k <= i < |times| :: now - times[i] < WINDOW_MS
    ensures |Recent(times, now)| >= k
    decreases k
  {
    if k > 0 {
      var init := times[..|times| - 1];
      assert forall i | |init| - (k - 1) <= i < |init| :: init[i] == times[i];
      RecentCovers(init, k - 1, now);
    }
  }

  lemma AdmissionKeepsSpaced(times: seq<int>, now: int)
    requires Spaced(times) && |Recent(times, now)| < MAX_MESSAGES_PER_WINDOW
    requires forall i | 0 <= i < |times| :: times[i] <= now
    ensures Spaced(times + [now])
  {
    if |times| >= MAX_MESSAGES_PER_WINDOW {
      var first := |times| - MAX_MESSAGES_PER_WINDOW;
      if now - times[first] < WINDOW_MS {
        RecentCovers(times, MAX_MESSAGES_PER_WINDOW, now);
      }
    }
  }

  lemma {:induction false} AdmittedSpaced(calls: seq<int>)
    requires NonDecreasing(calls)
    ensures Spaced(Admitted(calls)) && forall t | t in Admitted(calls) :: t in calls
    decreases |calls|
  {
    if calls != [] {
      var init, now := calls[..|calls| - 1], calls[|calls| - 1];
      AdmittedSpaced(init);
      var before := Admitted(init);
      forall i | 0 <= i < |before| ensures before[i] <= now {
        assert before[i] in before && before[i] in init;
        var j :| 0 <= j < |init| && init[j] == before[i];
        assert calls[j] <= calls[|calls| - 1];
      }
      if |Recent(before, now)| < MAX_MESSAGES_PER_WINDOW {
        AdmissionKeepsSpaced(before, now);
      }
    }
  }

  lemma {:induction false} CountSplit(a: seq<int>, b: seq<int>, from: int, to: int)
    ensures Count(a + b, from, to) == Count(a, from, to) + Count(b, from, to)
    decreases |b|
  {
    if b == [] {
      assert a + b == a;
    } else {
      assert (a + b)[..|a + b| - 1] == a + b[..|b| - 1];
      CountSplit(a, b[..|b| - 1], from, to);
    }
  }

  lemma {:induction false} CountOutside(times: seq<int>, from: int, to: int)
    requires forall t | t in times :: t < from || t >= to
    ensures Count(times, from, to) == 0
    decreases |times|
  {
    if times != [] {
      var init := times[..|times| - 1];
      assert forall t | t in init :: t in times;
      assert times[|times| - 1] in times;
      CountOutside(init, from, to);
    }
  }

  /** No window of 1000 ms, wherever it starts, holds more than 20 admissions. */
  lemma {:induction false} WindowBound(times: seq<int>, from: int)
    requires Spaced(times)
    ensures Count(times, from, from + WINDOW_MS) <= MAX_MESSAGES_PER_WINDOW
    decreases |times|
  {
    if |times| > MAX_MESSAGES_PER_WINDOW {
      var init, last := times[..|times| - 1], times[|times| - 1];
      if from <= last < from + WINDOW_MS {
        var cut := |times| - MAX_MESSAGES_PER_WINDOW;
        assert times[cut - 1 + MAX_MESSAGES_PER_WINDOW] == last;
        assert forall i | 0 <= i < cut :: times[i] <= times[cut - 1];
        assert times == times[..cut] + times[cut..];
        CountSplit(times[..cut], times[cut..], from, from + WINDOW_MS);
        CountOutside(times[..cut], from, from + WINDOW_MS);
      } else {
        assert Spaced(init);
        WindowBound(init, from);
      }
    }
  }

  lemma {:induction false} CountJoins(times: seq<int>, from: int, mid: int, to: int)
    requires from <= mid <= to
    ensures Count(times, from, to) == Count(times, from, mid) + Count(times, mid, to)
    decreases |times|
  {
    if times != [] {
      CountJoins(times[..|times| - 1], from, mid, to);
    }
  }

  /** At most 20k admissions in any interval of k windows. */
  lemma {:induction false} IntervalBound(times: seq<int>, from: int, k: nat)
    requires Spaced(times)
    ensures Count(times, from, from + k * WINDOW_MS) <= k * MAX_MESSAGES_PER_WINDOW
    decreases k
  {
    if k == 0 {
      CountOutside(times, from, from);
    } else {
      IntervalBound(times, from, k - 1);
      WindowBound(times, from + (k - 1) * WINDOW_MS);
      CountJoins(times, from, from + (k - 1) * WINDOW_MS, from + k * WINDOW_MS);
    }
  }

  // ---- the same of the calls themselves ----

  /** The limiter admits the i-th call of the run. */
  predicate Admits(calls: seq<int>, i: int)
    requires 0 <= i < |calls|
  {
    Consume(Stored(calls[..i]), calls[i]).admitted
  }

  /** The admitted calls before call `n` whose time lies in `[from, to)`. */
  function AdmittedIn(calls: seq<int>, n: nat, from: int, to: int): set<int>
    requires n <= |calls|
  {
    set i | 0 <= i < n && Admits(calls, i) && from <= calls[i] < to
  }

  lemma LastAdmitted(calls: seq<int>)
    requires NonDecreasing(calls) && calls != []
    ensures var init, now := calls[..|calls| - 1], calls[|calls| - 1];
            Admitted(calls) == Admitted(init) + if Admits(calls, |calls| - 1) then [now] else []
  {
    PrunedDecidesAsFull(calls[..|calls| - 1], calls[|calls| - 1]);
  }

  lemma OneMoreAdmitted(calls: seq<int>, n: nat, from: int, to: int)
    requires n < |calls|
    ensures |AdmittedIn(calls, n + 1, from, to)|
         == |AdmittedIn(calls, n, from, to)| + if Admits(calls, n) && from <= calls[n] < to then 1 else 0
  {
    var before, after := AdmittedIn(calls, n, from, to), AdmittedIn(calls, n + 1, from, to);
    assert n !in before && before <= after <= before + {n};
    if n in after {
      assert after == before + {n};
    } else {
      assert after == before;
    }
  }

  lemma CountSnoc(times: seq<int>, t: int, from: int, to: int)
    ensures Count(times + [t], from, to) == Count(times, from, to) + if from <= t < to then 1 else 0
  {
    assert (times + [t])[..|times|] == times;
  }

  lemma OneMoreCounted(calls: seq<int>, from: int, to: int)
    requires NonDecreasing(calls) && calls != []
    ensures var init, now := calls[..|calls| - 1], calls[|calls| - 1];
            Count(Admitted(calls), from, to) == Count(Admitted(init), from, to)
               + if Admits(calls, |calls| - 1) && from <= now < to then 1 else 0
  {
    var before := Admitted(calls[..|calls| - 1]);
    LastAdmitted(calls);
    CountSnoc(before, calls[|calls| - 1], from, to);
    assert before + [] == before;
  }

  /** The full history is the admitted calls. */
  lemma {:induction false} AdmittedAreCalls(calls: seq<int>, from: int, to: int)
    requires NonDecreasing(calls)
    ensures Count(Admitted(calls), from, to) == |AdmittedIn(calls, |calls|, from, to)|
    decreases |calls|
  {
    if calls == [] {
      assert AdmittedIn(calls, 0, from, to) == {};
    } else {
      AdmittedAreCalls(calls[..|calls| - 1], from, to);
      OneMoreCounted(calls, from, to);
      SameVerdicts(calls, from, to);
      OneMoreAdmitted(calls, |calls| - 1, from, to);
    }
  }

  /** Later calls change no earlier verdict. */
  lemma SameVerdicts(calls: seq<int>, from: int, to: int)
    requires calls != []
    ensures var n, init := |calls| - 1, calls[..|calls| - 1];
            AdmittedIn(calls, n, from, to) == AdmittedIn(init, n, from, to)
  {
    var n, init := |calls| - 1, calls[..|calls| - 1];
    forall i | 0 <= i < n ensures Admits(calls, i) <==> Admits(init, i) {
      assert init[..i] == calls[..i];
    }
  }

  lemma {:induction false} RecentAsCount(times: seq<int>, now: int)
    requires forall i | 0 <= i < |times| :: times[i] <= now
    ensures |Recent(times, now)| == Count(times, now - WINDOW_MS + 1, now + 1)
    decreases |times|
  {
    if times != [] {
      RecentAsCount(times[..|times| - 1], now);
    }
  }

  /**
   * With a clock that never goes back, a call is admitted exactly while fewer than 20 of the
   * calls before it were admitted less than a second earlier.
   */
  lemma AdmitsIff(calls: seq<int>, i: nat)
    requires NonDecreasing(calls) && i < |calls|
    ensures Admits(calls, i) <==> |set j | 0 <= j < i && Admits(calls, j) && calls[i] - calls[j] < 1000| < 20
  {
    var before, now := calls[..i], calls[i];
    SameRecent(before, now);
    AdmittedSpaced(before);
    forall k | 0 <= k < |Admitted(before)| ensures Admitted(before)[k] <= now {
      assert Admitted(before)[k] in Admitted(before);
      var j :| 0 <= j < i && before[j] == Admitted(before)[k];
    }
    RecentAsCount(Admitted(before), now);
    AdmittedAreCalls(before, now - 999, now + 1);
    EarlierVerdicts(calls, i);
    var recent := set j | 0 <= j < i && Admits(calls, j) && calls[i] - calls[j] < 1000;
    assert recent == AdmittedIn(before, i, now - 999, now + 1);
  }

  lemma EarlierVerdicts(calls: seq<int>, i: nat)
    requires i < |calls|
    ensures forall j | 0 <= j < i :: Admits(calls, j) <==> Admits(calls[..i], j)
  {
    forall j | 0 <= j < i ensures Admits(calls, j) <==> Admits(calls[..i], j) {
      assert calls[..i][..j] == calls[..j];
    }
  }

  /** For every run of calls with a clock that never goes back. */
  lemma AdmissionsAreBounded(calls: seq<int>, from: int, k: nat)
    requires NonDecreasing(calls)
    ensures |AdmittedIn(calls, |calls|, from, from + 1000)| <= 20
    ensures |AdmittedIn(calls, |calls|, from, from + k * 1000)| <= k * 20
  {
    AdmittedSpaced(calls);
    WindowBound(Admitted(calls), from);
    IntervalBound(Admitted(calls), from, k);
    AdmittedAreCalls(calls, from, from + 1000);
    AdmittedAreCalls(calls, from, from + k * 1000);
  }

  // ---- the limit: a clock that goes back ----

  lemma {:induction false} RecentSame(t: int, n: nat, now: int)
    ensures Recent(seq(n, _ => t), now) == if now - t < WINDOW_MS then seq(n, _ => t) else []
    decreases n
  {
    if n > 0 {
      assert seq(n, _ => t)[..n - 1] == seq(n - 1, _ => t);
      RecentSame(t, n - 1, now);
    }
  }

  /** Calls at one instant fill the window, in both limiters alike. */
  lemma {:induction false} Filled(t: int, n: nat)
    requires n <= MAX_MESSAGES_PER_WINDOW
    ensures Stored(seq(n, _ => t)) == Admitted(seq(n, _ => t)) == seq(n, _ => t)
    decreases n
  {
    if n > 0 {
      assert seq(n, _ => t)[..n - 1] == seq(n - 1, _ => t);
      Filled(t, n - 1);
      RecentSame(t, n - 1, t);
    }
  }

  /** A full window one window before `at`, and then the call at `at` that forgets it. */
  function Forgetting(at: int): seq<int> {
    seq(MAX_MESSAGES_PER_WINDOW, _ => at - WINDOW_MS) + [at]
  }

  /** At `at` the pruned limiter has forgotten the window, the other has kept it. */
  lemma Forgotten(at: int)
    ensures Stored(Forgetting(at)) == [at] && Admitted(Forgetting(at)) == Forgetting(at)
  {
    var full := seq(MAX_MESSAGES_PER_WINDOW, _ => at - WINDOW_MS);
    Filled(at - WINDOW_MS, MAX_MESSAGES_PER_WINDOW);
    RecentSame(at - WINDOW_MS, MAX_MESSAGES_PER_WINDOW, at);
    assert Forgetting(at)[..MAX_MESSAGES_PER_WINDOW] == full;
  }

  lemma Disagree(calls: seq<int>, now: int)
    requires |Stored(calls)| < MAX_MESSAGES_PER_WINDOW <= |Recent(Admitted(calls), now)|
    ensures Consume(Stored(calls), now).admitted && !ConsumeUnpruned(Admitted(calls), now).admitted
    ensures !Agree(calls, now)
  {
  }

  lemma StillFull(at: int, now: int)
    requires now < at
    ensures |Recent(Forgetting(at), now)| >= MAX_MESSAGES_PER_WINDOW
  {
    RecentSame(at - WINDOW_MS, MAX_MESSAGES_PER_WINDOW, now);
    RecentSnoc(seq(MAX_MESSAGES_PER_WINDOW, _ => at - WINDOW_MS), at, now);
  }

  lemma ForgettingInOrder(at: int)
    ensures NonDecreasing(Forgetting(at)) && Forgetting(at)[MAX_MESSAGES_PER_WINDOW] == at
    ensures |Forgetting(at)| == MAX_MESSAGES_PER_WINDOW + 1
  {
  }

  /** Any later step back of the clock, however small, gets the two limiters apart. */
  lemma BackwardClockDiffers(at: int, now: int)
    requires now < at
    ensures NonDecreasing(Forgetting(at)) && !Agree(Forgetting(at), now)
    ensures Consume(Stored(Forgetting(at)), now).admitted
  {
    ForgettingInOrder(at);
    Forgotten(at);
    StillFull(at, now);
    Disagree(Forgetting(at), now);
  }

  /**
   * The limiters agree on a call at `now` after every run in order that ends at `at`,
   * exactly when the clock has not gone back in between.
   */
  lemma AgreeIffClockForward(at: int, now: int)
    ensures (forall calls | NonDecreasing(calls) && calls != [] && calls[|calls| - 1] == at :: Agree(calls, now))
            <==> at <= now
  {
    if at <= now {
      forall calls | NonDecreasing(calls) && calls != [] && calls[|calls| - 1] == at ensures Agree(calls, now) {
        PrunedDecidesAsFull(calls, now);
      }
    } else {
      BackwardClockDiffers(at, now);
      ForgettingInOrder(at);
    }
  }

  /** The same from any stored times whatever, reached by calls in order or not. */
  lemma StepsAgreeIffClockForward(at: int, now: int)
    ensures (forall times :: Consume(Consume(times, at).times, now).admitted
                        <==> ConsumeUnpruned(ConsumeUnpruned(times, at).times, now).admitted)
            <==> at <= now
  {
    if at <= now {
      forall times ensures Consume(Consume(times, at).times, now).admitted
                      <==> ConsumeUnpruned(ConsumeUnpruned(times, at).times, now).admitted {
        PruneTwice(times, at, now);
        RecentSnoc(times, at, now);
        RecentSnoc(Recent(times, at), at, now);
      }
    } else {
      var full := seq(MAX_MESSAGES_PER_WINDOW, _ => at - WINDOW_MS);
      BackwardClockDiffers(at, now);
      Filled(at - WINDOW_MS, MAX_MESSAGES_PER_WINDOW);
      assert Forgetting(at)[..MAX_MESSAGES_PER_WINDOW] == full;
      assert Consume(full, at).times == Stored(Forgetting(at));
      assert ConsumeUnpruned(full, at).times == Admitted(Forgetting(at));
    }
  }

  // ---- many connections ----

  type Windows = map<string, seq<int>>

  function TimesOf(m: Windows, conn: string): seq<int> {
    if conn in m then m[conn] else []
  }

  function AfterCalls(calls: seq<(string, int)>): Windows {
    if calls == [] then map[]
    else
      var m, last := AfterCalls(calls[..|calls| - 1]), calls[|calls| - 1];
      m[last.0 := Consume(TimesOf(m, last.0), last.1).times]
  }

  function CallsOf(calls: seq<(string, int)>, conn: string): seq<int> {
    if calls == [] then []
    else
      CallsOf(calls[..|calls| - 1], conn)
      + if calls[|calls| - 1].0 == conn then [calls[|calls| - 1].1] else []
  }

  /** A connection's state depends on its own calls only. */
  lemma {:induction false} ConnectionsIndependent(calls: seq<(string, int)>, conn: string)
    ensures TimesOf(AfterCalls(calls), conn) == Stored(CallsOf(calls, conn))
    decreases |calls|
  {
    if calls != [] {
      var init, last := calls[..|calls| - 1], calls[|calls| - 1];
      ConnectionsIndependent(init, conn);
      if last.0 == conn {
        var own := CallsOf(calls, conn);
        assert own[..|own| - 1] == CallsOf(init, conn);
      } else {
        assert CallsOf(calls, conn) == CallsOf(init, conn);
      }
    }
  }

  class RateLimiter {
    var timestampsByConnection: Windows

    constructor ()
      ensures timestampsByConnection == map[]
    {
      timestampsByConnection := map[];
    }

    /** Admits exactly while fewer than 20 recorded times lie inside the window. */
    method TryConsume(connectionId: string, now: int) returns (ok: bool)
      modifies this
      ensures var before := TimesOf(old(timestampsByConnection), connectionId);
              && ok == (|LastSecond(before, now)| < 20)
              && timestampsByConnection == old(timestampsByConnection)[connectionId := Consume(before, now).times]
    {
      var known := TimesOf(timestampsByConnection, connectionId);
      DecidesByLastSecond(known, now);
      var recent: seq<int> := [];
      var i := 0;
      while i < |known|
        invariant 0 <= i <= |known| && recent == Recent(known[..i], now)
        invariant timestampsByConnection == old(timestampsByConnection)
      {
        assert known[..i + 1] == known[..i] + [known[i]];
        RecentSnoc(known[..i], known[i], now);
        if now - known[i] < WINDOW_MS {
          recent := recent + [known[i]];
        }
        i := i + 1;
      }
      assert known[..|known|] == known && recent == Recent(known, now);
      if |recent| >= MAX_MESSAGES_PER_WINDOW {
        timestampsByConnection := timestampsByConnection[connectionId := recent];
        return false;
      }
      recent := recent + [now];
      timestampsByConnection := timestampsByConnection[connectionId := recent];
      ok := true;
    }

    method Release(connectionId: string)
      modifies this
      ensures timestampsByConnection == old(timestampsByConnection) - {connectionId}
    {
      timestampsByConnection := timestampsByConnection - {connectionId};
    }
  }
}
