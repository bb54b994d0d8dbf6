/**
 The sliding-window rate limiter: `Limiter.TryNow` and `Limiter.Wait`.

 Time is counted in nanoseconds.  The mutex makes each lock section atomic and the
 clock is read inside it, so a run of any number of goroutines is a sequence of lock
 sections at non-decreasing times; `history` is the ghost record of every admission.
 */
module Throttle {

  predicate Sorted(s: seq<int>) {
    forall i, j :: 0 <= i < j < |s| ==> s[i] <= s[j]
  }

  /** How many entries of `s` lie in the half-open window (lo, hi]. */
  function CountIn(s: seq<int>, lo: int, hi: int): nat {
    if s == [] then 0
    else CountIn(s[..|s| - 1], lo, hi) + (if lo < s[|s| - 1] <= hi then 1 else 0)
  }

  /** How many entries lie in the window of length `interval` that opens at `t`. */
  function Window(s: seq<int>, t: int, interval: int): nat {
    CountIn(s, t, t + interval)
  }

  /** The promise: no window of length `interval`, wherever it opens, holds more than `max` admissions. */
  ghost predicate WithinLimit(h: seq<int>, max: nat, interval: int) {
    forall t :: Window(h, t, interval) <= max
  }

  /** The same promise said of pairs `max` places apart. */
  ghost predicate Spaced(h: seq<int>, max: nat, interval: int) {
    forall i, j :: 0 <= i && j == i + max < |h| ==> h[j] - h[i] >= interval
  }

  /** The entries of `s` later than the cutoff, in order. */
  function Live(s: seq<int>, cutoff: int): (r: seq<int>)
    ensures |r| <= |s|
  {
    LiveBelow(s, |s|, cutoff)
  }

  /** Those among the first `n`. */
  function LiveBelow(s: seq<int>, n: nat, cutoff: int): (r: seq<int>)
    requires n <= |s|
    ensures |r| <= n
  {
    if n == 0 then []
    else LiveBelow(s, n - 1, cutoff) + (if s[n - 1] > cutoff then [s[n - 1]] else [])
  }

  lemma {:induction false} LivePrefix(s: seq<int>, t: seq<int>, n: nat, cutoff: int)
    requires n <= |s| && n <= |t| && forall i :: 0 <= i < n ==> s[i] == t[i]
    ensures LiveBelow(s, n, cutoff) == LiveBelow(t, n, cutoff)
  {
    if n > 0 { LivePrefix(s, t, n - 1, cutoff); }
  }

  lemma LiveLast(s: seq<int>, cutoff: int)
    requires s != []
    ensures Live(s, cutoff) == Live(s[..|s| - 1], cutoff) + (if s[|s| - 1] > cutoff then [s[|s| - 1]] else [])
  {
    LivePrefix(s, s[..|s| - 1], |s| - 1, cutoff);
  }

  // ----- Windows and spacing -----

  lemma {:induction false} LiveEmpty(h: seq<int>, cutoff: int)
    requires forall i :: 0 <= i < |h| ==> h[i] <= cutoff
    ensures Live(h, cutoff) == []
  {
    if h != [] {
      LiveLast(h, cutoff);
      LiveEmpty(h[..|h| - 1], cutoff);
    }
  }

  /** The live entries of a sorted sequence are its last ones. */
  lemma {:induction false} LiveIsSuffix(h: seq<int>, cutoff: int)
    requires Sorted(h)
    ensures Live(h, cutoff) == h[|h| - |Live(h, cutoff)|..]
    ensures |Live(h, cutoff)| < |h| ==> h[|h| - |Live(h, cutoff)| - 1] <= cutoff
    ensures Live(h, cutoff) != [] ==> h[|h| - |Live(h, cutoff)|] > cutoff
  {
    if h == [] {
    } else if h[|h| - 1] <= cutoff {
      LiveEmpty(h, cutoff);
    } else {
      var init := h[..|h| - 1];
      LiveLast(h, cutoff);
      LiveIsSuffix(init, cutoff);
      var k := |Live(init, cutoff)|;
      assert |Live(h, cutoff)| == k + 1;
      assert h[|h| - (k + 1)..] == init[|init| - k..] + [h[|h| - 1]];
    }
  }

  lemma LiveSnoc(s: seq<int>, x: int, cutoff: int)
    ensures Live(s + [x], cutoff) == Live(s, cutoff) + (if x > cutoff then [x] else [])
  {
    LivePrefix(s, s + [x], |s|, cutoff);
  }

  lemma {:induction false} LiveOfLive(h: seq<int>, c1: int, c2: int)
    requires c1 <= c2
    ensures Live(Live(h, c1), c2) == Live(h, c2)
  {
    if h != [] {
      var init, last := h[..|h| - 1], h[|h| - 1];
      LiveLast(h, c1);
      LiveLast(h, c2);
      LiveOfLive(init, c1, c2);
      LiveSnoc(Live(init, c1), last, c2);
      assert Live(h, c1) == Live(init, c1) + (if last > c1 then [last] else []);
      if last <= c1 { assert Live(h, c1) == Live(init, c1); }
    }
  }

  /** When a window reaches past the end of a sorted sequence, the entries in it are the last ones. */
  lemma {:induction false} WindowReachesEnd(h: seq<int>, lo: int, hi: int)
    requires Sorted(h)
    requires forall i :: 0 <= i < |h| ==> h[i] <= hi
    ensures CountIn(h, lo, hi) <= |h|
    ensures CountIn(h, lo, hi) > 0 ==> lo < h[|h| - CountIn(h, lo, hi)]
  {
    if h != [] {
      var init := h[..|h| - 1];
      WindowReachesEnd(init, lo, hi);
      var m := CountIn(init, lo, hi);
      if m > 0 { assert init[|init| - m] <= h[|h| - 1]; }
    }
  }

  lemma {:induction false} SpacedBoundsWindow(h: seq<int>, t: int, max: nat, interval: int)
    requires Sorted(h) && max > 0 && Spaced(h, max, interval)
    ensures Window(h, t, interval) <= max
  {
    if h != [] {
      var last := h[|h| - 1];
      if last > t + interval {
        SpacedBoundsWindow(h[..|h| - 1], t, max, interval);
      } else {
        WindowReachesEnd(h, t, t + interval);
        if |h| > max {
          var before := |h| - 1 - max;
          assert last - h[before] >= interval;
          assert forall i :: 0 <= i <= before ==> h[i] <= h[before] <= t;
        }
      }
    }
  }

  /** Consecutive entries inside a window are all counted. */
  lemma {:induction false} CountAtLeast(h: seq<int>, lo: int, hi: int, from: nat, to: nat)
    requires from <= to <= |h|
    requires forall i :: from <= i < to ==> lo < h[i] <= hi
    ensures CountIn(h, lo, hi) >= to - from
  {
    if from < to {
      if to < |h| {
        CountAtLeast(h[..|h| - 1], lo, hi, from, to);
      } else {
        CountAtLeast(h[..|h| - 1], lo, hi, from, to - 1);
      }
    }
  }

  /** The window promise and the spacing of entries `max` apart are the same thing. */
  lemma WithinLimitIffSpaced(h: seq<int>, max: nat, interval: int)
    requires Sorted(h) && max > 0
    ensures WithinLimit(h, max, interval) <==> Spaced(h, max, interval)
  {
    if Spaced(h, max, interval) {
      forall t ensures Window(h, t, interval) <= max {
        SpacedBoundsWindow(h, t, max, interval);
      }
    }
    if WithinLimit(h, max, interval) {
      forall i, j | 0 <= i && j == i + max < |h| ensures h[j] - h[i] >= interval {
        var t := h[i] - 1;
        assert Window(h, t, interval) <= max;
        if h[j] <= t + interval {
          CountAtLeast(h, t, t + interval, i, j + 1);
          assert false;
        }
      }
    }
  }

  // ----- One lock section -----

  /** What one lock section at time `now` makes of the admission history. */
  function Attempted(h: seq<int>, now: int, max: nat, interval: int): seq<int> {
    if |Live(h, now - interval)| < max then h + [now] else h
  }

  /** A history that obeys the limit, none of it later than `now`, said one admission at a time. */
  ghost predicate Good(h: seq<int>, now: int, max: nat, interval: int) {
    h == [] ||
    var n := |h| - 1;
    && h[n] <= now
    && (n >= max ==> h[n] - h[n - max] >= interval)
    && Good(h[..n], h[n], max, interval)
  }

  lemma {:induction false} GoodMeans(h: seq<int>, now: int, max: nat, interval: int)
    requires Good(h, now, max, interval)
    ensures Sorted(h) && Spaced(h, max, interval)
    ensures forall i :: 0 <= i < |h| ==> h[i] <= now
  {
    if h != [] {
      var n := |h| - 1;
      var init := h[..n];
      GoodMeans(init, h[n], max, interval);
      forall i, j | 0 <= i < j < |h| ensures h[i] <= h[j] {
        assert h[i] == init[i] && (j < n ==> h[j] == init[j]);
      }
      forall i, j | 0 <= i && j == i + max < |h| ensures h[j] - h[i] >= interval {
        assert j < n ==> h[i] == init[i] && h[j] == init[j];
      }
    }
  }

  lemma GoodSnoc(h: seq<int>, now: int, max: nat, interval: int)
    requires Good(h, now, max, interval)
    requires |h| >= max ==> now - (h + [now])[|h| - max] >= interval
    ensures Good(h + [now], now, max, interval)
  {
    assert (h + [now])[..|h|] == h;
    if h != [] { GoodLater(h[..|h| - 1], h[|h| - 1], h[|h| - 1], max, interval); }
  }

  lemma GoodLater(h: seq<int>, c1: int, c2: int, max: nat, interval: int)
    requires Good(h, c1, max, interval) && c1 <= c2
    ensures Good(h, c2, max, interval)
  {
  }

  /** Appending `now` respects the spacing exactly when the entry `max` places back has left the window. */
  lemma SpacedSnoc(h: seq<int>, now: int, max: nat, interval: int)
    requires Spaced(h, max, interval)
    ensures Spaced(h + [now], max, interval) <==> (|h| >= max ==> now - (h + [now])[|h| - max] >= interval)
  {
    var h' := h + [now];
    if Spaced(h', max, interval) && |h| >= max {
      assert h'[|h|] - h'[|h| - max] >= interval;
    }
  }

  /** Fewer than `max` live entries means the entry `max` places back has left the window. */
  lemma FewLive(h: seq<int>, cutoff: int, max: nat)
    requires Sorted(h) && max > 0
    ensures |Live(h, cutoff)| < max <==> (|h| >= max ==> h[|h| - max] <= cutoff)
  {
    LiveIsSuffix(h, cutoff);
    var k := |Live(h, cutoff)|;
    if max <= |h| {
      var j := |h| - max;
      if k < max {
        assert h[j] <= h[|h| - k - 1];
      } else {
        assert h[|h| - k] <= h[j];
      }
    }
  }

  /** An admission that finds room leaves a good history. */
  lemma AdmitKeepsGood(h: seq<int>, now: int, max: nat, interval: int)
    requires max > 0 && Good(h, now, max, interval)
    requires |Live(h, now - interval)| < max
    ensures Good(h + [now], now, max, interval)
  {
    GoodMeans(h, now, max, interval);
    FewLive(h, now - interval, max);
    GoodSnoc(h, now, max, interval);
  }

  /** A lock section admits exactly when admitting keeps every window within the limit. */
  lemma AdmitsIffAllowed(h: seq<int>, now: int, max: nat, interval: int)
    requires max > 0 && Good(h, now, max, interval)
    ensures |Live(h, now - interval)| < max <==> WithinLimit(h + [now], max, interval)
  {
    GoodMeans(h, now, max, interval);
    FewLive(h, now - interval, max);
    SpacedSnoc(h, now, max, interval);
    WithinLimitIffSpaced(h + [now], max, interval);
  }

  lemma FirstLive(h: seq<int>, cutoff: int)
    requires Sorted(h) && Live(h, cutoff) != []
    ensures var k := |Live(h, cutoff)|; Live(h, cutoff)[0] == h[|h| - k] > cutoff
  {
    LiveIsSuffix(h, cutoff);
  }

  /** In a full window the oldest live entry tells when the next admission becomes possible. */
  lemma FullWindow(h: seq<int>, now: int, max: nat, interval: int)
    requires max > 0 && Good(h, now, max, interval)
    requires |Live(h, now - interval)| >= max
    ensures |Live(h, now - interval)| == max
    ensures Live(h, now - interval)[0] + interval == Earliest(h, now, max, interval) > now
  {
    GoodMeans(h, now, max, interval);
    LiveAtMost(h, now, max, interval);
    FirstLive(h, now - interval);
  }

  lemma LiveAtMost(h: seq<int>, now: int, max: nat, interval: int)
    requires max > 0 && Sorted(h) && Spaced(h, max, interval)
    requires h != [] ==> h[|h| - 1] <= now
    ensures |Live(h, now - interval)| <= max
  {
    if |h| > max {
      assert h[|h| - 1] - h[|h| - 1 - max] >= interval;
    }
    FewLive(h, now - interval, max + 1);
  }

  /** From the earliest allowed time on, and not before, a lock section admits. */
  lemma AdmitsFromEarliest(h: seq<int>, arrival: int, at: int, max: nat, interval: int)
    requires max > 0 && Sorted(h) && arrival <= at
    ensures Attempted(h, at, max, interval) == h + [at] <==> Earliest(h, arrival, max, interval) <= at
  {
    FewLive(h, at - interval, max);
  }

  /**
   How the slice relates to the whole history once the clock has reached `clock`: it is
   exactly the live entries.  (With an interval of zero or less an admission is born
   expired, so the slice may still hold one that the next prune drops.)
   */
  ghost predicate Tracks(entries: seq<int>, h: seq<int>, clock: int, max: nat, interval: int) {
    && Good(h, clock, max, interval)
    && Live(entries, clock - interval) == Live(h, clock - interval)
    && (interval > 0 ==> entries == Live(h, clock - interval))
    && (max == 0 ==> h == [])
  }

  /** The live entries of the pruned slice are those of the whole history. */
  lemma PruneSeesHistory(entries: seq<int>, h: seq<int>, c1: int, c2: int)
    requires c1 <= c2 && Live(entries, c1) == Live(h, c1)
    ensures Live(entries, c2) == Live(h, c2)
  {
    LiveOfLive(entries, c1, c2);
    LiveOfLive(h, c1, c2);
  }

  /** What the slice holds after an admission, seen at the same cutoff. */
  lemma LiveAfterAdmission(h: seq<int>, now: int, cutoff: int)
    ensures Live(Live(h, cutoff) + [now], cutoff) == Live(h + [now], cutoff)
    ensures now > cutoff ==> Live(h, cutoff) + [now] == Live(h + [now], cutoff)
  {
    LiveSnoc(h, now, cutoff);
    LiveSnoc(Live(h, cutoff), now, cutoff);
    LiveOfLive(h, cutoff, cutoff);
  }

  /** The slice after a lock section that finds room. */
  lemma AdmitKeepsTrack(h: seq<int>, live: seq<int>, now: int, max: nat, interval: int)
    requires max > 0 && Good(h, now, max, interval)
    requires live == Live(h, now - interval) && |live| < max
    ensures Tracks(live + [now], h + [now], now, max, interval)
  {
    LiveAfterAdmission(h, now, now - interval);
    AdmitKeepsGood(h, now, max, interval);
  }

  /** The slice after a lock section that finds the window full. */
  lemma RefuseKeepsTrack(h: seq<int>, live: seq<int>, now: int, max: nat, interval: int)
    requires max > 0 && Good(h, now, max, interval)
    requires live == Live(h, now - interval) && |live| >= max
    ensures Tracks(live, h, now, max, interval)
  {
    LiveOfLive(h, now - interval, now - interval);
  }

  /** Admission history after lock sections at the given times. */
  function Run(h: seq<int>, times: seq<int>, max: nat, interval: int): seq<int>
    decreases |times|
  {
    if times == [] then h
    else Run(Attempted(h, times[0], max, interval), times[1..], max, interval)
  }

  /** Limiter safety: whatever lock sections run, in whatever interleaving, no window ever holds more than `max`. */
  lemma {:induction false} EveryRunWithinLimit(h: seq<int>, clock: int, times: seq<int>, max: nat, interval: int)
    requires max > 0 && Good(h, clock, max, interval)
    requires Sorted([clock] + times)
    ensures WithinLimit(Run(h, times, max, interval), max, interval)
    ensures h <= Run(h, times, max, interval)
    decreases |times|
  {
    if times == [] {
      GoodMeans(h, clock, max, interval);
      WithinLimitIffSpaced(h, max, interval);
    } else {
      assert ([clock] + times)[0] <= ([clock] + times)[1];
      GoodLater(h, clock, times[0], max, interval);
      if |Live(h, times[0] - interval)| < max { AdmitKeepsGood(h, times[0], max, interval); }
      var h' := Attempted(h, times[0], max, interval);
      assert [times[0]] + times[1..] == ([clock] + times)[1..];
      EveryRunWithinLimit(h', times[0], times[1..], max, interval);
    }
  }

  // ----- First-come first-served schedules -----

  function Max(a: int, b: int): int { if a < b then b else a }

  /** Earliest time from `now` on at which one more admission is allowed. */
  function Earliest(h: seq<int>, now: int, max: nat, interval: int): int
    requires max > 0
  {
    if |h| < max then now else Max(now, h[|h| - max] + interval)
  }

  /** Admission times of callers served in order of arrival with exact sleeps. */
  function Schedule(arrivals: seq<int>, max: nat, interval: int): (s: seq<int>)
    requires max > 0
    ensures |s| == |arrivals|
  {
    if arrivals == [] then []
    else
      var n := |arrivals| - 1;
      var s := Schedule(arrivals[..n], max, interval);
      s + [Earliest(s, if n == 0 then arrivals[n] else Max(arrivals[n], s[n - 1]), max, interval)]
  }

  lemma ScheduleSnoc(arrivals: seq<int>, max: nat, interval: int, i: nat)
    requires max > 0 && i < |arrivals|
    ensures var s := Schedule(arrivals[..i], max, interval);
            Schedule(arrivals[..i + 1], max, interval)
            == s + [Earliest(s, if i == 0 then arrivals[i] else Max(arrivals[i], s[i - 1]), max, interval)]
  {
    assert arrivals[..i + 1][..i] == arrivals[..i];
  }

  /** Each admission waits for its arrival, its predecessor and the admission `max` places before: nothing else. */
  lemma {:induction false} ScheduleRecurrence(arrivals: seq<int>, max: nat, interval: int, i: nat)
    requires max > 0 && i < |arrivals|
    ensures var s := Schedule(arrivals, max, interval);
            s[i] == Max(Max(arrivals[i], if i > 0 then s[i - 1] else arrivals[i]),
                        if i >= max then s[i - max] + interval else arrivals[i])
  {
    if i < |arrivals| - 1 {
      var init := arrivals[..|arrivals| - 1];
      ScheduleRecurrence(init, max, interval, i);
      assert init[i] == arrivals[i];
    }
  }

  /** The schedule obeys the limit and keeps every caller's arrival time. */
  lemma ScheduleFeasible(arrivals: seq<int>, max: nat, interval: int)
    requires max > 0
    ensures Sorted(Schedule(arrivals, max, interval))
    ensures WithinLimit(Schedule(arrivals, max, interval), max, interval)
    ensures forall i :: 0 <= i < |arrivals| ==> Schedule(arrivals, max, interval)[i] >= arrivals[i]
  {
    var s := Schedule(arrivals, max, interval);
    forall i | 0 <= i < |s|
      ensures s[i] >= arrivals[i] && (i > 0 ==> s[i] >= s[i - 1]) && (i >= max ==> s[i] >= s[i - max] + interval)
    {
      ScheduleRecurrence(arrivals, max, interval, i);
    }
    StepwiseSorted(s);
    WithinLimitIffSpaced(s, max, interval);
  }

  lemma {:induction false} StepwiseSorted(s: seq<int>)
    requires forall i :: 0 < i < |s| ==> s[i - 1] <= s[i]
    ensures Sorted(s)
  {
    if s != [] {
      StepwiseSorted(s[..|s| - 1]);
      forall i | 0 <= i < |s| - 1 ensures s[i] <= s[|s| - 1] {
        assert s[..|s| - 1][i] <= s[..|s| - 1][|s| - 2];
      }
    }
  }

  /** Limiter optimality: no schedule that obeys the limit admits any caller earlier. */
  lemma {:induction false} ScheduleOptimal(arrivals: seq<int>, max: nat, interval: int, b: seq<int>, i: nat)
    requires max > 0 && i < |arrivals| == |b|
    requires Sorted(b) && WithinLimit(b, max, interval)
    requires forall j :: 0 <= j < |b| ==> b[j] >= arrivals[j]
    ensures Schedule(arrivals, max, interval)[i] <= b[i]
    decreases i
  {
    WithinLimitIffSpaced(b, max, interval);
    ScheduleRecurrence(arrivals, max, interval, i);
    if i > 0 { ScheduleOptimal(arrivals, max, interval, b, i - 1); }
    if i >= max { ScheduleOptimal(arrivals, max, interval, b, i - max); }
  }

  // ----- The limiter -----

  class Limiter {
    const maxRequests: nat
    const interval: int
    /** Backing array of the slice, whose first `length` entries are in use. */
    const timestamps: array<int>
    var length: nat

    ghost var history: seq<int>
    ghost var clock: int

    ghost predicate Valid()
      reads this, timestamps
    {
      && length <= timestamps.Length == maxRequests
      && Tracks(timestamps[..length], history, clock, maxRequests, interval)
    }

    constructor (maxRequests: nat, interval: int, ghost start: int)
      ensures Valid() && history == [] && clock == start && fresh(timestamps)
      ensures this.maxRequests == maxRequests && this.interval == interval
    {
      this.maxRequests, this.interval := maxRequests, interval;
      timestamps := new int[maxRequests];
      length := 0;
      history, clock := [], start;
    }

    /** Compacts the slice in place, keeping the entries after the cutoff. */
    method Prune(cutoff: int)
      requires length <= timestamps.Length
      modifies this`length, timestamps
      ensures length <= old(length)
      ensures timestamps[..length] == Live(old(timestamps[..length]), cutoff)
    {
      ghost var was := timestamps[..length];
      var kept, i := 0, 0;
      while i < length
        invariant 0 <= kept <= i <= length == |was| <= timestamps.Length
        invariant timestamps[..kept] == Live(was[..i], cutoff)
        invariant timestamps[i..length] == was[i..]
        modifies timestamps
      {
        assert timestamps[i] == timestamps[i..length][0] == was[i];
        assert was[..i + 1] == was[..i] + [was[i]];
        LiveSnoc(was[..i], was[i], cutoff);
        assert timestamps[i + 1..length] == was[i + 1..] by {
          assert timestamps[i + 1..length] == timestamps[i..length][1..];
        }
        if timestamps[i] > cutoff {
          timestamps[kept] := timestamps[i];
          kept := kept + 1;
        }
        i := i + 1;
      }
      assert was[..i] == was;
      length := kept;
    }

    /** Appends to the slice within its capacity. */
    method Record(now: int)
      requires length < timestamps.Length
      modifies this`length, timestamps
      ensures length == old(length) + 1
      ensures timestamps[..length] == old(timestamps[..length]) + [now]
    {
      timestamps[length] := now;
      length := length + 1;
    }

    /** One lock section: prune, then admit if there is room, else report when the oldest entry expires. */
    method Attempt(now: int) returns (admitted: bool, waitUntil: int)
      requires Valid() && maxRequests > 0 && clock <= now
      modifies this`length, this`history, this`clock, timestamps
      ensures Valid() && clock == now
      ensures history == if admitted then old(history) + [now] else old(history)
      ensures admitted <==> |Live(old(history), now - interval)| < maxRequests
      ensures !admitted ==> waitUntil == Earliest(old(history), now, maxRequests, interval) > now
    {
      ghost var h, live := history, Live(history, now - interval);
      PruneSeesHistory(timestamps[..length], h, clock - interval, now - interval);
      GoodLater(h, clock, now, maxRequests, interval);
      Prune(now - interval);
      assert timestamps[..length] == live;
      clock := now;
      waitUntil := now;
      admitted := length < maxRequests;
      if admitted {
        AdmitKeepsTrack(h, live, now, maxRequests, interval);
        Record(now);
        history := h + [now];
      } else {
        RefuseKeepsTrack(h, live, now, maxRequests, interval);
        FullWindow(h, now, maxRequests, interval);
        assert live[0] == timestamps[0];
        waitUntil := timestamps[0] + interval;
      }
    }

    /** `TryNow`: admits without waiting; with a limit of zero every call passes and nothing is recorded. */
    method TryNow(now: int) returns (ok: bool)
      requires Valid() && clock <= now
      modifies this`length, this`history, this`clock, timestamps
      ensures Valid()
      ensures maxRequests == 0 ==> ok && history == old(history)
      ensures maxRequests > 0 ==> history == Attempted(old(history), now, maxRequests, interval)
      ensures maxRequests > 0 ==> (ok <==> WithinLimit(old(history) + [now], maxRequests, interval))
      ensures maxRequests > 0 ==> WithinLimit(history, maxRequests, interval)
    {
      if maxRequests == 0 {
        return true;
      }
      hide Tracks, WithinLimit, Live;
      MayAdmitIff(now);
      var until;
      ok, until := Attempt(now);
      Within();
    }

    lemma Within()
      requires Valid() && maxRequests > 0
      ensures WithinLimit(history, maxRequests, interval)
    {
      GoodMeans(history, clock, maxRequests, interval);
      WithinLimitIffSpaced(history, maxRequests, interval);
    }

    lemma MayAdmitIff(now: int)
      requires Valid() && maxRequests > 0 && clock <= now
      ensures |Live(history, now - interval)| < maxRequests <==> WithinLimit(history + [now], maxRequests, interval)
    {
      GoodLater(history, clock, now, maxRequests, interval);
      AdmitsIffAllowed(history, now, maxRequests, interval);
    }

    /**
     `Wait` with no other caller in between: each sleep overshoots its target by `late`.
     It sleeps at most once, and with exact sleeps is admitted at the earliest time the limit allows.
     */
    method Wait(arrival: int, late: nat) returns (at: int, sleeps: nat)
      requires Valid() && clock <= arrival
      modifies this`length, this`history, this`clock, timestamps
      ensures Valid() && sleeps <= 1
      ensures maxRequests == 0 ==> at == arrival && sleeps == 0 && history == old(history)
      ensures maxRequests > 0 ==>
                var soonest := Earliest(old(history), arrival, maxRequests, interval);
                && history == old(history) + [at] && clock == at
                && sleeps == (if soonest > arrival then 1 else 0)
                && at == soonest + (if soonest > arrival then late else 0)
    {
      at, sleeps := arrival, 0;
      if maxRequests == 0 {
        return;
      }
      ghost var h := history;
      GoodMeans(h, clock, maxRequests, interval);
      AdmitsFromEarliest(h, arrival, arrival, maxRequests, interval);
      var admitted, until := Attempt(at);
      while !admitted
        invariant Valid() && clock == at && sleeps <= 1
        invariant history == if admitted then h + [at] else h
        invariant !admitted ==> sleeps == 0 && at == arrival && until == Earliest(h, arrival, maxRequests, interval) > arrival
        invariant admitted && sleeps == 0 ==> at == arrival == Earliest(h, arrival, maxRequests, interval)
        invariant admitted && sleeps == 1 ==> at == Earliest(h, arrival, maxRequests, interval) + late > arrival + late
        decreases !admitted
      {
        at, sleeps := until + late, sleeps + 1;
        AdmitsFromEarliest(h, arrival, at, maxRequests, interval);
        admitted, until := Attempt(at);
      }
    }

    /** Callers served one after the other with exact sleeps are admitted at the times of `Schedule`. */
    method ServeInOrder(arrivals: seq<int>)
      requires Valid() && maxRequests > 0 && history == []
      requires forall i :: 0 <= i < |arrivals| ==> clock <= arrivals[i]
      modifies this`length, this`history, this`clock, timestamps
      ensures Valid() && history == Schedule(arrivals, maxRequests, interval)
    {
      var now, i := 0, 0;
      while i < |arrivals|
        invariant Valid() && 0 <= i <= |arrivals|
        invariant history == Schedule(arrivals[..i], maxRequests, interval)
        invariant |history| == i
        invariant clock == if i == 0 then old(clock) else now
        invariant i > 0 ==> now == history[i - 1]
      {
        ScheduleSnoc(arrivals, maxRequests, interval, i);
        var sleeps;
        now, sleeps := Wait(if i == 0 then arrivals[i] else Max(arrivals[i], now), 0);
        i := i + 1;
      }
      assert arrivals[..i] == arrivals;
    }
  }
}
