/** The per-address sliding-window limiter of the friend responder. */
module RateLimit {
  import opened Seqs

  const MAX_ROUNDS_PER_MINUTE := 20

  const WINDOW := 60.0

  /** Drops the leading timestamps older than `cutoff`. */
  function Prune(bucket: seq<real>, cutoff: real): seq<real> {
    if bucket != [] && bucket[0] < cutoff then Prune(bucket[1..], cutoff) else bucket
  }

  type Buckets = map<string, seq<real>>

  function Bucket(buckets: Buckets, ip: string): seq<real> {
    if ip in buckets then buckets[ip] else []
  }

  predicate Admits(buckets: Buckets, ip: string, now: real) {
    |Prune(Bucket(buckets, ip), now - WINDOW)| < MAX_ROUNDS_PER_MINUTE
  }

  function Checked(buckets: Buckets, ip: string, now: real): Buckets {
    var live := Prune(Bucket(buckets, ip), now - WINDOW);
    buckets[ip := if Admits(buckets, ip, now) then live + [now] else live]
  }

  class Limiter {
    var buckets: Buckets

    constructor ()
      ensures buckets == map[]
    {
      buckets := map[];
    }

    /** `_rate_limit_check`: a refused request leaves no timestamp. */
    method Check(ip: string, now: real) returns (ok: bool)
      modifies this
      ensures ok == Admits(old(buckets), ip, now)
      ensures buckets == Checked(old(buckets), ip, now)
    {
      var cutoff := now - WINDOW;
      var bucket := [];
      if ip in buckets {
        bucket := buckets[ip];
      } else {
        buckets := buckets[ip := bucket];
      }
      var i := 0;
      while i < |bucket| && bucket[i] < cutoff
        invariant 0 <= i <= |bucket| && Prune(bucket, cutoff) == Prune(bucket[i..], cutoff)
      {
        i := i + 1;
      }
      assert Prune(bucket, cutoff) == bucket[i..];
      if i > 0 {
        bucket := bucket[i..];
        buckets := buckets[ip := bucket];
      }
      if |bucket| >= MAX_ROUNDS_PER_MINUTE {
        return false;
      }
      buckets := buckets[ip := bucket + [now]];
      return true;
    }
  }

  // ---------- Runs ----------

  datatype Request = Request(ip: string, at: real)

  /** The buckets, and everything ever admitted, in order. */
  datatype History = History(buckets: Buckets, admitted: seq<Request>)

  function Next(h: History, r: Request): History {
    History(Checked(h.buckets, r.ip, r.at), if Admits(h.buckets, r.ip, r.at) then h.admitted + [r] else h.admitted)
  }

  function After(requests: seq<Request>): History {
    if requests == [] then History(map[], [])
    else Next(After(requests[..|requests| - 1]), requests[|requests| - 1])
  }

  ghost predicate ClockForward(requests: seq<Request>) {
    forall i, j :: 0 <= i < j < |requests| ==> requests[i].at <= requests[j].at
  }

  /** When requests from `ip` were admitted. */
  function Times(admitted: seq<Request>, ip: string): seq<real> {
    if admitted == [] then []
    else
      var r := admitted[|admitted| - 1];
      Times(admitted[..|admitted| - 1], ip) + if r.ip == ip then [r.at] else []
  }

  function Within(a: real): real -> bool {
    (t: real) => a <= t <= a + 60.0
  }

  ghost predicate Sorted(times: seq<real>) {
    forall i, j :: 0 <= i < j < |times| ==> times[i] <= times[j]
  }

  /** Twenty-one admissions in a row always span more than the window. */
  ghost predicate Spaced(times: seq<real>) {
    forall i, j :: 0 <= i && j < |times| && j == i + MAX_ROUNDS_PER_MINUTE ==> times[i] + WINDOW < times[j]
  }

  /** The bucket is what is left of the admissions after dropping only outdated ones. */
  ghost predicate Tracks(times: seq<real>, bucket: seq<real>, now: real) {
    && Sorted(times) && Spaced(times) && |bucket| <= |times| && |bucket| <= MAX_ROUNDS_PER_MINUTE
    && bucket == times[|times| - |bucket|..]
    && (forall i :: 0 <= i < |times| ==> times[i] <= now)
    && forall i :: 0 <= i < |times| - |bucket| ==> times[i] < now - WINDOW
  }

  lemma {:induction false} PruneOfSorted(bucket: seq<real>, cutoff: real)
    requires Sorted(bucket)
    ensures var live := Prune(bucket, cutoff);
            && |live| <= |bucket| && live == bucket[|bucket| - |live|..]
            && (forall i :: 0 <= i < |bucket| - |live| ==> bucket[i] < cutoff)
            && (forall i :: |bucket| - |live| <= i < |bucket| ==> bucket[i] >= cutoff)
    decreases |bucket|
  {
    if bucket != [] && bucket[0] < cutoff {
      PruneOfSorted(bucket[1..], cutoff);
    }
  }

  lemma SuffixOfSuffix(times: seq<real>, bucket: seq<real>, live: seq<real>)
    requires |live| <= |bucket| <= |times|
    requires bucket == times[|times| - |bucket|..] && live == bucket[|bucket| - |live|..]
    ensures live == times[|times| - |live|..]
    ensures forall i :: |times| - |bucket| <= i < |times| ==> times[i] == bucket[i - (|times| - |bucket|)]
  {
  }

  /** Pruning at a later time keeps exactly the admissions still in the window. */
  lemma PruneTracks(times: seq<real>, bucket: seq<real>, before: real, now: real)
    requires Tracks(times, bucket, before) && before <= now
    ensures var live := Prune(bucket, now - WINDOW);
            && Tracks(times, live, now)
            && forall i :: |times| - |live| <= i < |times| ==> times[i] >= now - WINDOW
  {
    hide Spaced, Prune;
    PruneOfSorted(bucket, now - WINDOW);
    var live := Prune(bucket, now - WINDOW);
    hide Sorted;
    SuffixOfSuffix(times, bucket, live);
  }

  lemma AdmitTracks(times: seq<real>, live: seq<real>, now: real)
    requires Tracks(times, live, now) && |live| < MAX_ROUNDS_PER_MINUTE
    ensures Tracks(times + [now], live + [now], now)
  {
    var more := times + [now];
    assert live + [now] == more[|more| - |live| - 1..];
  }

  ghost predicate Inv(h: History, now: real) {
    forall ip :: Tracks(Times(h.admitted, ip), Bucket(h.buckets, ip), now)
  }

  lemma TimesSnoc(admitted: seq<Request>, r: Request, ip: string)
    ensures Times(admitted + [r], ip) == Times(admitted, ip) + if r.ip == ip then [r.at] else []
  {
    assert (admitted + [r])[..|admitted|] == admitted;
  }

  lemma TracksLater(times: seq<real>, bucket: seq<real>, before: real, now: real)
    requires Tracks(times, bucket, before) && before <= now
    ensures Tracks(times, bucket, now)
  {
  }

  lemma NextKeepsInv(h: History, r: Request, before: real)
    requires Inv(h, before) && before <= r.at
    ensures Inv(Next(h, r), r.at)
  {
    hide Tracks, Times, Prune;
    forall ip ensures Tracks(Times(Next(h, r).admitted, ip), Bucket(Next(h, r).buckets, ip), r.at) {
      var times, bucket := Times(h.admitted, ip), Bucket(h.buckets, ip);
      TimesSnoc(h.admitted, r, ip);
      if ip == r.ip {
        PruneTracks(times, bucket, before, r.at);
        if Admits(h.buckets, ip, r.at) {
          AdmitTracks(times, Prune(bucket, r.at - WINDOW), r.at);
        }
      } else {
        assert Times(h.admitted, ip) + [] == Times(h.admitted, ip);
        TracksLater(times, bucket, before, r.at);
      }
    }
  }

  lemma {:induction false} RunKeepsInv(requests: seq<Request>, now: real)
    requires ClockForward(requests) && forall r :: r in requests ==> r.at <= now
    ensures Inv(After(requests), now)
    decreases |requests|
  {
    hide Tracks, Times, Next;
    if requests == [] {
      NothingAdmitted(now);
    } else {
      var n := |requests| - 1;
      var last := requests[n];
      assert last in requests;
      forall r | r in requests[..n] ensures r.at <= last.at {
      }
      RunKeepsInv(requests[..n], last.at);
      NextKeepsInv(After(requests[..n]), last, last.at);
      forall ip ensures Tracks(Times(After(requests).admitted, ip), Bucket(After(requests).buckets, ip), now) {
        TracksLater(Times(After(requests).admitted, ip), Bucket(After(requests).buckets, ip), last.at, now);
      }
    }
  }

  lemma NothingAdmitted(now: real)
    ensures Inv(History(map[], []), now)
  {
  }

  /** How many of the sorted times lie before `a`, or at most at `a` when `closed`. */
  function CountUpTo(times: seq<real>, a: real, closed: bool): nat {
    if times == [] || times[0] > a || (!closed && times[0] == a) then 0
    else 1 + CountUpTo(times[1..], a, closed)
  }

  lemma {:induction false} CountSplits(times: seq<real>, a: real, closed: bool)
    requires Sorted(times)
    ensures var k := CountUpTo(times, a, closed);
            && k <= |times|
            && (forall i :: 0 <= i < k ==> times[i] < a || (closed && times[i] == a))
            && (forall i :: k <= i < |times| ==> times[i] > a || (!closed && times[i] == a))
    decreases |times|
  {
    if CountUpTo(times, a, closed) > 0 {
      CountSplits(times[1..], a, closed);
    }
  }

  lemma StretchBounds(times: seq<real>, a: real)
    requires Sorted(times)
    ensures var lo, hi := CountUpTo(times, a, false), CountUpTo(times, a + WINDOW, true);
            && lo <= hi <= |times|
            && (forall i :: 0 <= i < lo ==> !Within(a)(times[i]))
            && (forall i :: lo <= i < hi ==> Within(a)(times[i]))
            && (forall i :: hi <= i < |times| ==> !Within(a)(times[i]))
  {
    CountSplits(times, a, false);
    CountSplits(times, a + WINDOW, true);
  }

  lemma NoneOf(s: seq<real>, p: real -> bool, lo: nat, hi: nat)
    requires lo <= hi <= |s| && forall i :: lo <= i < hi ==> !p(s[i])
    ensures Filter(s[lo..hi], p) == []
  {
    FilterNone(s[lo..hi], p);
  }

  lemma AllOf(s: seq<real>, p: real -> bool, lo: nat, hi: nat)
    requires lo <= hi <= |s| && forall i :: lo <= i < hi ==> p(s[i])
    ensures Filter(s[lo..hi], p) == s[lo..hi]
  {
    FilterAll(s[lo..hi], p);
  }

  lemma FilterStretch(s: seq<real>, p: real -> bool, lo: nat, hi: nat)
    requires lo <= hi <= |s|
    requires (forall i :: 0 <= i < lo ==> !p(s[i])) && (forall i :: lo <= i < hi ==> p(s[i]))
               && (forall i :: hi <= i < |s| ==> !p(s[i]))
    ensures Filter(s, p) == s[lo..hi]
  {
    hide Filter;
    NoneOf(s, p, 0, lo);
    AllOf(s, p, lo, hi);
    NoneOf(s, p, hi, |s|);
    Joined(s, p, lo, hi);
  }

  lemma Cut<T>(s: seq<T>, k: nat)
    requires k <= |s|
    ensures s == s[0..k] + s[k..|s|]
  {
  }

  lemma Joined(s: seq<real>, p: real -> bool, lo: nat, hi: nat)
    requires lo <= hi <= |s|
    ensures Filter(s, p) == Filter(s[0..lo], p) + Filter(s[lo..hi], p) + Filter(s[hi..|s|], p)
  {
    hide Filter;
    FilterConcat(s[0..hi], s[hi..|s|], p);
    FilterConcat(s[0..lo], s[lo..hi], p);
    Cut(s, hi);
    Cut(s[0..hi], lo);
    assert s[0..hi][0..lo] == s[0..lo] && s[0..hi][lo..hi] == s[lo..hi];
  }

  /** The admissions of a closed window are a stretch of the sorted list. */
  lemma WindowIsStretch(times: seq<real>, a: real)
    requires Sorted(times)
    ensures var lo, hi := CountUpTo(times, a, false), CountUpTo(times, a + WINDOW, true);
            lo <= hi <= |times| && Filter(times, Within(a)) == times[lo..hi]
  {
    StretchBounds(times, a);
    FilterStretch(times, Within(a), CountUpTo(times, a, false), CountUpTo(times, a + WINDOW, true));
  }

  lemma SpacedCaps(times: seq<real>, a: real)
    requires Sorted(times) && Spaced(times)
    ensures |Filter(times, Within(a))| <= MAX_ROUNDS_PER_MINUTE
  {
    WindowIsStretch(times, a);
    CountSplits(times, a, false);
    CountSplits(times, a + WINDOW, true);
    var lo, hi := CountUpTo(times, a, false), CountUpTo(times, a + WINDOW, true);
    if lo + MAX_ROUNDS_PER_MINUTE < |times| {
      assert times[lo] + WINDOW < times[lo + MAX_ROUNDS_PER_MINUTE];
    }
  }

  /** Under a clock that never goes back, whatever the mix of addresses: no closed window of sixty
      seconds, wherever it starts, holds more than twenty admissions of one address. */
  lemma CapHolds(requests: seq<Request>, ip: string, a: real)
    requires ClockForward(requests)
    ensures |Filter(Times(After(requests).admitted, ip), Within(a))| <= 20
  {
    var now := if requests == [] then 0.0 else requests[|requests| - 1].at;
    RunKeepsInv(requests, now);
    var h := After(requests);
    assert Tracks(Times(h.admitted, ip), Bucket(h.buckets, ip), now);
    SpacedCaps(Times(h.admitted, ip), a);
  }

  lemma TrackedWindow(times: seq<real>, live: seq<real>, now: real)
    requires Tracks(times, live, now)
    requires forall i :: |times| - |live| <= i < |times| ==> times[i] >= now - WINDOW
    ensures Filter(times, Within(now - WINDOW)) == live
  {
    var k := |times| - |live|;
    assert times == times[..k] + live;
    FilterConcat(times[..k], live, Within(now - WINDOW));
    FilterNone(times[..k], Within(now - WINDOW));
    FilterAll(live, Within(now - WINDOW));
  }

  lemma AdmittedWindow(times: seq<real>, now: real)
    ensures Filter(times + [now], Within(now - WINDOW)) == Filter(times, Within(now - WINDOW)) + [now]
  {
    FilterConcat(times, [now], Within(now - WINDOW));
    FilterAll([now], Within(now - WINDOW));
  }

  lemma LiveIsWindow(h: History, r: Request)
    requires Inv(h, r.at)
    ensures var live := Prune(Bucket(h.buckets, r.ip), r.at - WINDOW);
            |live| <= MAX_ROUNDS_PER_MINUTE && Filter(Times(h.admitted, r.ip), Within(r.at - WINDOW)) == live
  {
    var times, bucket := Times(h.admitted, r.ip), Bucket(h.buckets, r.ip);
    assert Tracks(times, bucket, r.at);
    hide *;
    PruneTracks(times, bucket, r.at, r.at);
    TrackedWindow(times, Prune(bucket, r.at - WINDOW), r.at);
    LiveSize(times, Prune(bucket, r.at - WINDOW), r.at);
  }

  lemma CheckExact(h: History, r: Request)
    requires Inv(h, r.at)
    ensures !Admits(h.buckets, r.ip, r.at) <==>
              |Filter(Times(h.admitted, r.ip), Within(r.at - WINDOW))| == MAX_ROUNDS_PER_MINUTE
    ensures Bucket(Next(h, r).buckets, r.ip) == Filter(Times(Next(h, r).admitted, r.ip), Within(r.at - WINDOW))
  {
    LiveIsWindow(h, r);
    TimesSnoc(h.admitted, r, r.ip);
    AdmittedWindow(Times(h.admitted, r.ip), r.at);
    hide Inv, Times, Prune, Filter;
  }

  lemma ClockReached(requests: seq<Request>, r: Request)
    requires ClockForward(requests + [r])
    ensures ClockForward(requests) && forall q :: q in requests ==> q.at <= r.at
  {
    var all := requests + [r];
    forall q | q in requests ensures q.at <= r.at {
      var i :| 0 <= i < |requests| && requests[i] == q;
      assert all[i] == q && all[|requests|] == r;
    }
    forall i, j | 0 <= i < j < |requests| ensures requests[i].at <= requests[j].at {
      assert all[i] == requests[i] && all[j] == requests[j];
    }
  }

  /** A request is refused exactly when twenty of its address were admitted in the sixty seconds up
      to it; and what a check leaves in the bucket is exactly the admissions still in the window. */
  lemma RefusedIff(requests: seq<Request>, r: Request)
    requires ClockForward(requests + [r])
    ensures var h := After(requests);
            && (!Admits(h.buckets, r.ip, r.at) <==>
                  |Filter(Times(h.admitted, r.ip), Within(r.at - 60.0))| == 20)
            && Bucket(Next(h, r).buckets, r.ip) == Filter(Times(Next(h, r).admitted, r.ip), Within(r.at - 60.0))
  {
    assert WINDOW == 60.0 && MAX_ROUNDS_PER_MINUTE == 20;
    hide *;
    ClockReached(requests, r);
    RunKeepsInv(requests, r.at);
    CheckExact(After(requests), r);
  }

  lemma LiveSize(times: seq<real>, live: seq<real>, now: real)
    requires Tracks(times, live, now)
    ensures |live| <= MAX_ROUNDS_PER_MINUTE
  {
  }

  // ---------- A clock that steps back ----------

  function Burst(n: nat, ip: string, t: real): seq<Request> {
    if n == 0 then [] else Burst(n - 1, ip, t) + [Request(ip, t)]
  }

  function Repeat(n: nat, t: real): (r: seq<real>)
    ensures |r| == n && forall i :: 0 <= i < n ==> r[i] == t
  {
    if n == 0 then [] else Repeat(n - 1, t) + [t]
  }

  lemma PruneKeepsAll(bucket: seq<real>, cutoff: real)
    requires forall i :: 0 <= i < |bucket| ==> bucket[i] >= cutoff
    ensures Prune(bucket, cutoff) == bucket
  {
  }

  lemma {:induction false} PruneDropsAll(n: nat, t: real, cutoff: real)
    requires t < cutoff
    ensures Prune(Repeat(n, t), cutoff) == []
  {
    if n > 0 {
      assert Repeat(n, t)[1..] == Repeat(n - 1, t);
      PruneDropsAll(n - 1, t, cutoff);
    }
  }

  /** How things stand for one address after a run. */
  ghost predicate Stands(run: seq<Request>, ip: string, bucket: seq<real>, times: seq<real>) {
    Bucket(After(run).buckets, ip) == bucket && Times(After(run).admitted, ip) == times
  }

  lemma AdmitOne(run: seq<Request>, ip: string, t: real, bucket: seq<real>, times: seq<real>)
    requires Stands(run, ip, bucket, times) && |Prune(bucket, t - WINDOW)| < MAX_ROUNDS_PER_MINUTE
    ensures Stands(run + [Request(ip, t)], ip, Prune(bucket, t - WINDOW) + [t], times + [t])
  {
    var r := Request(ip, t);
    assert (run + [r])[..|run|] == run;
    TimesSnoc(After(run).admitted, r, ip);
    hide Prune, Times;
  }

  lemma {:induction false} AdmitBurst(run: seq<Request>, n: nat, ip: string, t: real, bucket: seq<real>,
                                      times: seq<real>)
    requires Stands(run, ip, bucket, times) && |bucket| + n <= MAX_ROUNDS_PER_MINUTE
    requires forall i :: 0 <= i < |bucket| ==> bucket[i] >= t - WINDOW
    ensures Stands(run + Burst(n, ip, t), ip, bucket + Repeat(n, t), times + Repeat(n, t))
    decreases n
  {
    hide Stands;
    if n == 0 {
      assert run + [] == run && bucket + [] == bucket && times + [] == times;
    } else {
      AdmitBurst(run, n - 1, ip, t, bucket, times);
      var b, ts := bucket + Repeat(n - 1, t), times + Repeat(n - 1, t);
      PruneKeepsAll(b, t - WINDOW);
      AdmitOne(run + Burst(n - 1, ip, t), ip, t, b, ts);
      assert run + Burst(n, ip, t) == run + Burst(n - 1, ip, t) + [Request(ip, t)];
      assert bucket + Repeat(n, t) == b + [t] && times + Repeat(n, t) == ts + [t];
    }
  }

  lemma RepeatWithin(n: nat, t: real, a: real)
    requires Within(a)(t)
    ensures Filter(Repeat(n, t), Within(a)) == Repeat(n, t)
  {
    AllOf(Repeat(n, t), Within(a), 0, n);
    assert Repeat(n, t)[0..n] == Repeat(n, t);
  }

  lemma ManyWithin(ip: string)
    ensures |Filter([] + Repeat(20, 100.0) + [161.0] + Repeat(19, 110.0), Within(100.0))| == 39
  {
    RepeatWithin(20, 100.0, 100.0);
    RepeatWithin(19, 110.0, 100.0);
    var p := Within(100.0);
    assert Filter([161.0], p) == [];
    hide Filter, Repeat;
    FilterConcat([] + Repeat(20, 100.0) + [161.0], Repeat(19, 110.0), p);
    FilterConcat([] + Repeat(20, 100.0), [161.0], p);
    assert [] + Repeat(20, 100.0) == Repeat(20, 100.0);
  }

  lemma MinuteLater(run: seq<Request>, ip: string, times: seq<real>)
    requires Stands(run, ip, Repeat(20, 100.0), times)
    ensures Stands(run + [Request(ip, 161.0)], ip, [161.0], times + [161.0])
  {
    PruneDropsAll(20, 100.0, 101.0);
    hide Stands;
    AdmitOne(run, ip, 161.0, Repeat(20, 100.0), times);
  }

  lemma NothingYet(ip: string)
    ensures Stands([], ip, [], []) && [] + Repeat(20, 100.0) == Repeat(20, 100.0)
  {
  }

  /** Twenty requests, a minute's wait, one more, the clock set back, nineteen more: thirty-nine
      admissions within one window. The cap needs the clock not to go back. */
  lemma ClockStepBreaksCap(ip: string)
    ensures exists requests :: |Filter(Times(After(requests).admitted, ip), Within(100.0))| == 39
  {
    hide Stands, Filter, Burst, Repeat, After, Times, Prune;
    NothingYet(ip);
    AdmitBurst([], 20, ip, 100.0, [], []);
    var first := [] + Burst(20, ip, 100.0);
    MinuteLater(first, ip, [] + Repeat(20, 100.0));
    var second := first + [Request(ip, 161.0)];
    AdmitBurst(second, 19, ip, 110.0, [161.0], [] + Repeat(20, 100.0) + [161.0]);
    ManyWithin(ip);
    StandsTimes(second + Burst(19, ip, 110.0), ip, [161.0] + Repeat(19, 110.0),
      [] + Repeat(20, 100.0) + [161.0] + Repeat(19, 110.0));
  }

  lemma StandsTimes(run: seq<Request>, ip: string, bucket: seq<real>, times: seq<real>)
    requires Stands(run, ip, bucket, times)
    ensures Times(After(run).admitted, ip) == times
  {
  }
}
