/** The arrival-rate loop, as a state machine over its wake-ups. Times are exact and count
    seconds from the start of the run. */
module Arrivals {
  import opened Common
  import opened ArrivalCounts

  /** When arrival `k` is due. */
  function DueAt(k: nat, rate: real): real
    requires rate > 0.0
  {
    k as real / rate
  }

  /** Arrival `k` is due at `now`, and not after the end of the run. */
  predicate Due(k: nat, rate: real, duration: real, now: real)
    requires rate > 0.0
  {
    DueAt(k, rate) <= now && DueAt(k, rate) < duration
  }

  /** A wake-up: the clock when it observes and when it handles arrivals, the sessions found
      finished, and whether one more finishes while the loop only waits for the run's end. */
  datatype Wake = Wake(seen: real, now: real, finished: nat, oneMore: bool)

  /** How an arrival was handled: at which wake-up, with how many sessions open, and whether
      its session started. */
  datatype Handled = Handled(wake: nat, open: nat, started: bool)

  ghost predicate ClockRuns(wakes: seq<Wake>) {
    && (forall i :: 0 <= i < |wakes| ==> 0.0 <= wakes[i].seen <= wakes[i].now)
    && (forall i, j :: 0 <= i < j < |wakes| ==> wakes[i].now <= wakes[j].seen)
  }

  function IntervalOf(at: real, interval: real): nat
    requires interval > 0.0 && at >= 0.0
  {
    (at / interval).Floor
  }

  /** Exactly the due arrivals have been handled. */
  ghost predicate ExactlyDue(arrived: nat, rate: real, duration: real, now: real)
    requires rate > 0.0
  {
    forall k: nat :: k < arrived <==> Due(k, rate, duration, now)
  }

  /** Arrivals come at the rate from the start on: arrival `k` is due `k / rate` seconds in, if
      that is within the run. */
  lemma {:induction false} DueIs(k: nat, rate: real, duration: real, now: real)
    requires rate > 0.0
    ensures Due(k, rate, duration, now) <==> k as real / rate <= now && k as real / rate < duration
  {
  }

  lemma {:induction false} DueMonotone(j: nat, k: nat, rate: real)
    requires rate > 0.0 && j <= k
    ensures DueAt(j, rate) <= DueAt(k, rate)
  {
    var d := 1.0 / rate;
    assert DueAt(j, rate) == j as real * d && DueAt(k, rate) == k as real * d;
    assert j as real * d <= k as real * d;
  }

  /** All earlier arrivals are due and the next one is not: the handled ones are exactly those due. */
  lemma {:induction false} DueBelow(arrived: nat, rate: real, duration: real, now: real)
    requires rate > 0.0
    requires arrived > 0 ==> Due(arrived - 1, rate, duration, now)
    requires !Due(arrived, rate, duration, now)
    ensures ExactlyDue(arrived, rate, duration, now)
  {
    forall k: nat ensures k < arrived <==> Due(k, rate, duration, now) {
      if k < arrived {
        DueMonotone(k, arrived - 1, rate);
      } else {
        DueMonotone(arrived, k, rate);
      }
    }
  }

  /** How each arrival was handled so far: no earlier than it was due, at the first wake-up
      after that, however late the wake-ups come; and skipped only with the cap reached. */
  ghost predicate HandledOk(log: seq<Handled>, wakes: seq<Wake>, rate: real, duration: real, cap: Option<nat>)
    requires rate > 0.0
  {
    forall k :: 0 <= k < |log| ==> ArrivalOk(log, k, wakes, rate, duration, cap)
  }

  ghost predicate ArrivalOk(log: seq<Handled>, k: nat, wakes: seq<Wake>, rate: real, duration: real, cap: Option<nat>)
    requires rate > 0.0 && k < |log|
  {
    var h := log[k];
    && h.wake < |wakes|
    && k as real / rate <= wakes[h.wake].now && k as real / rate < duration
    && (forall i :: 0 <= i < h.wake ==> k as real / rate > wakes[i].now)
    && (h.started <==> cap.None? || h.open < cap.value)
  }

  predicate Room(open: nat, cap: Option<nat>) { cap.Some? ==> open < cap.value }

  function Started(log: seq<Handled>): nat {
    if log == [] then 0 else Started(log[..|log| - 1]) + (if log[|log| - 1].started then 1 else 0)
  }

  lemma {:induction false} StartedMore(log: seq<Handled>, h: Handled)
    ensures Started(log + [h]) == Started(log) + (if h.started then 1 else 0)
  {
    assert (log + [h])[..|log + [h]| - 1] == log;
  }

  // ----- the sessions open -----

  /** How many of the arrivals handled at wake-up `w` started. */
  function StartedAt(log: seq<Handled>, w: nat): nat {
    if log == [] then 0
    else
      var last := log[|log| - 1];
      StartedAt(log[..|log| - 1], w) + (if last.wake == w && last.started then 1 else 0)
  }

  /** How many arrivals were handled before wake-up `w`. */
  function HandledBefore(log: seq<Handled>, w: nat): nat {
    if log == [] then 0
    else HandledBefore(log[..|log| - 1], w) + (if log[|log| - 1].wake < w then 1 else 0)
  }

  /** What is left of `open` sessions when `finished` are found finished. */
  function Remaining(open: nat, finished: nat): nat { if finished <= open then open - finished else 0 }

  /** The sessions open when wake-up `w` comes: those open at the one before, without those it
      found finished, with those it started; once no arrival is left to come, a wake-up may
      wait for one session more to finish. */
  function OpenAt(wakes: seq<Wake>, log: seq<Handled>, rate: real, duration: real, w: nat): nat
    requires w <= |wakes| && rate > 0.0
  {
    if w == 0 then 0
    else
      var wake := wakes[w - 1];
      var left := Remaining(OpenAt(wakes, log, rate, duration, w - 1), wake.finished);
      var waits := HandledBefore(log, w - 1) as real / rate >= duration;
      (if waits && wake.oneMore then Remaining(left, 1) else left) + StartedAt(log, w - 1)
  }

  /** Every arrival finds open what is left at its wake-up, and what that started before it. */
  ghost predicate OpensOk(log: seq<Handled>, wakes: seq<Wake>, rate: real, duration: real)
    requires rate > 0.0
  {
    forall k :: 0 <= k < |log| ==> OpenOk(log, k, wakes, rate, duration)
  }

  ghost predicate OpenOk(log: seq<Handled>, k: nat, wakes: seq<Wake>, rate: real, duration: real)
    requires rate > 0.0 && k < |log|
  {
    var h := log[k];
    && h.wake < |wakes|
    && h.open == Remaining(OpenAt(wakes, log[..k], rate, duration, h.wake), wakes[h.wake].finished) + StartedAt(log[..k], h.wake)
  }

  lemma {:induction false} StartedAtMore(log: seq<Handled>, h: Handled, w: nat)
    ensures StartedAt(log + [h], w) == StartedAt(log, w) + (if h.wake == w && h.started then 1 else 0)
    ensures HandledBefore(log + [h], w) == HandledBefore(log, w) + (if h.wake < w then 1 else 0)
  {
    assert (log + [h])[..|log + [h]| - 1] == log;
  }

  /** What is open at a wake-up does not depend on what comes after. */
  lemma {:induction false} OpenAtMore(wakes: seq<Wake>, log: seq<Handled>, h: Handled, rate: real, duration: real, w: nat)
    requires w <= |wakes| && rate > 0.0 && h.wake >= w
    ensures OpenAt(wakes, log + [h], rate, duration, w) == OpenAt(wakes, log, rate, duration, w)
  {
    if w > 0 {
      OpenAtMore(wakes, log, h, rate, duration, w - 1);
      StartedAtMore(log, h, w - 1);
    }
  }

  /** Before wake-up `w`, nothing was started at it. */
  lemma {:induction false} NoneStartedYet(log: seq<Handled>, w: nat)
    requires forall k :: 0 <= k < |log| ==> log[k].wake < w
    ensures StartedAt(log, w) == 0 && HandledBefore(log, w) == |log|
  {
    if log != [] {
      NoneStartedYet(log[..|log| - 1], w);
    }
  }

  lemma {:induction false} OpensMore(log: seq<Handled>, wakes: seq<Wake>, rate: real, duration: real, h: Handled)
    requires rate > 0.0 && OpensOk(log, wakes, rate, duration) && h.wake < |wakes|
    requires h.open == Remaining(OpenAt(wakes, log, rate, duration, h.wake), wakes[h.wake].finished) + StartedAt(log, h.wake)
    ensures OpensOk(log + [h], wakes, rate, duration)
  {
    var more := log + [h];
    hide OpenAt, StartedAt;
    forall k | 0 <= k < |more| ensures OpenOk(more, k, wakes, rate, duration) {
      if k < |log| {
        assert OpenOk(log, k, wakes, rate, duration);
        assert more[..k] == log[..k];
      } else {
        assert more[..k] == log;
      }
    }
  }

  // ----- what is observed -----

  /** After each arrival of wake-up `w` that starts, its session is counted in interval `at`. */
  function StartsObserved(log: seq<Handled>, w: nat, at: nat): seq<Observation> {
    if log == [] then []
    else
      var last := log[|log| - 1];
      StartsObserved(log[..|log| - 1], w, at) + (if last.wake == w && last.started then [Observation(at, last.open + 1)] else [])
  }

  /** The observations of the wake-ups before `w`: the sessions open when one comes, then one
      more with every session it starts, each in the interval of its time. */
  function Observed(wakes: seq<Wake>, log: seq<Handled>, rate: real, duration: real, interval: real, w: nat): seq<Observation>
    requires w <= |wakes| && rate > 0.0 && interval > 0.0 && ClockRuns(wakes)
  {
    if w == 0 then []
    else
      Observed(wakes, log, rate, duration, interval, w - 1)
      + [Observation(IntervalOf(wakes[w - 1].seen, interval), OpenAt(wakes, log, rate, duration, w - 1))]
      + StartsObserved(log, w - 1, IntervalOf(wakes[w - 1].now, interval))
  }

  /** The number of an interval is how many whole intervals have passed. */
  lemma {:induction false} IntervalHolds(at: real, interval: real)
    requires interval > 0.0 && at >= 0.0
    ensures IntervalOf(at, interval) as real <= at / interval < IntervalOf(at, interval) as real + 1.0
  {
  }

  lemma {:induction false} StartsObservedMore(log: seq<Handled>, h: Handled, w: nat, at: nat)
    ensures StartsObserved(log + [h], w, at) ==
      StartsObserved(log, w, at) + (if h.wake == w && h.started then [Observation(at, h.open + 1)] else [])
  {
    assert (log + [h])[..|log + [h]| - 1] == log;
  }

  lemma {:induction false} ObservedMore(wakes: seq<Wake>, log: seq<Handled>, h: Handled, rate: real, duration: real, interval: real, w: nat)
    requires w <= |wakes| && rate > 0.0 && interval > 0.0 && h.wake >= w && ClockRuns(wakes)
    ensures Observed(wakes, log + [h], rate, duration, interval, w) == Observed(wakes, log, rate, duration, interval, w)
  {
    if w > 0 {
      ObservedMore(wakes, log, h, rate, duration, interval, w - 1);
      OpenAtMore(wakes, log, h, rate, duration, w - 1);
      StartsObservedMore(log, h, w - 1, IntervalOf(wakes[w - 1].now, interval));
    }
  }

  lemma {:induction false} NoStartsYet(log: seq<Handled>, w: nat, at: nat)
    requires forall k :: 0 <= k < |log| ==> log[k].wake < w
    ensures StartsObserved(log, w, at) == []
  {
    if log != [] {
      NoStartsYet(log[..|log| - 1], w, at);
    }
  }

  /** The peaks are those of the observations `os`. */
  ghost predicate PeaksOf(c: Counts, os: seq<Observation>) {
    var all := ObserveAll(NONE, os);
    c.peak == all.peak && c.peaks == all.peaks
  }

  // ----- the loop -----

  /** The counts of a run so far. */
  ghost predicate CountsOk(c: Counts, log: seq<Handled>, open: nat, cap: Option<nat>) {
    && c.started == Started(log)
    && c.started + c.skipped == |log|
    && open <= c.started
    && (cap.Some? ==> open <= cap.value && c.peak <= cap.value)
    && (cap.None? ==> c.skipped == 0)
    && Consistent(c)
  }

  /** One arrival more: a session starts, or it is skipped. */
  method Arrive(cap: Option<nat>, interval: nat, w: nat, open0: nat, counts0: Counts, log0: seq<Handled>, ghost os0: seq<Observation>)
    returns (open: nat, counts: Counts, log: seq<Handled>, ghost os: seq<Observation>)
    requires CountsOk(counts0, log0, open0, cap) && PeaksOf(counts0, os0)
    ensures CountsOk(counts, log, open, cap) && PeaksOf(counts, os)
    ensures os == os0 + (if cap.None? || open0 < cap.value then [Observation(interval, open0 + 1)] else [])
    ensures log == log0 + [Handled(w, open0, Room(open0, cap))]
    ensures open == open0 + (if Room(open0, cap) then 1 else 0)
  {
    var starts := Room(open0, cap);
    StartedMore(log0, Handled(w, open0, starts));
    log := log0 + [Handled(w, open0, starts)];
    if starts {
      open := open0 + 1;
      var c := counts0.(started := counts0.started + 1);
      ObserveConsistent(c, interval, open);
      ObserveOneMore(NONE, os0, Observation(interval, open));
      counts, os := Observe(c, interval, open), os0 + [Observation(interval, open)];
    } else {
      open, counts, os := open0, counts0.(skipped := counts0.skipped + 1), os0;
      assert os0 + [] == os0;
    }
  }

  /** Handles every arrival that is due at this wake-up. */
  method CatchUp(rate: real, duration: real, cap: Option<nat>, wakes: seq<Wake>, w: nat, interval: real, open0: nat, counts0: Counts, log0: seq<Handled>, ghost os0: seq<Observation>)
    returns (open: nat, counts: Counts, log: seq<Handled>, ghost os: seq<Observation>)
    requires rate > 0.0 && interval > 0.0 && w < |wakes| && wakes[w].now >= 0.0
    requires CountsOk(counts0, log0, open0, cap) && PeaksOf(counts0, os0)
    requires HandledOk(log0, wakes, rate, duration, cap) && OpensOk(log0, wakes, rate, duration)
    requires WokenAt(|log0|, wakes, rate, duration, w)
    requires forall k :: 0 <= k < |log0| ==> log0[k].wake < w
    requires open0 == Remaining(OpenAt(wakes, log0, rate, duration, w), wakes[w].finished)
    ensures CountsOk(counts, log, open, cap) && PeaksOf(counts, os)
    ensures HandledOk(log, wakes, rate, duration, cap) && OpensOk(log, wakes, rate, duration) && log0 <= log
    ensures ExactlyDue(|log|, rate, duration, wakes[w].now)
    ensures forall k :: |log0| <= k < |log| ==> log[k].wake == w
    ensures OpenAt(wakes, log, rate, duration, w) == OpenAt(wakes, log0, rate, duration, w)
    ensures HandledBefore(log, w) == |log0| && open == open0 + StartedAt(log, w)
    ensures os == os0 + StartsObserved(log, w, IntervalOf(wakes[w].now, interval))
  {
    hide OpenAt, StartedAt, HandledBefore, StartsObserved, OpensOk, HandledOk, CountsOk, PeaksOf, IntervalOf, ExactlyDue, Remaining;
    open, counts, log, os := open0, counts0, log0, os0;
    var now := wakes[w].now;
    var at := IntervalOf(now, interval);
    var next := DueAt(|log|, rate);
    ghost var bound := Bound(rate, now);
    NoneStartedYet(log0, w);
    NoStartsYet(log0, w, at);
    assert os0 + [] == os0;
    while next <= now && next < duration
      invariant next == DueAt(|log|, rate)
      invariant CountsOk(counts, log, open, cap) && PeaksOf(counts, os)
      invariant HandledOk(log, wakes, rate, duration, cap) && OpensOk(log, wakes, rate, duration) && log0 <= log
      invariant |log| > 0 ==> Due(|log| - 1, rate, duration, now)
      invariant forall k :: |log0| <= k < |log| ==> log[k].wake == w
      invariant OpenAt(wakes, log, rate, duration, w) == OpenAt(wakes, log0, rate, duration, w)
      invariant HandledBefore(log, w) == |log0| && open == open0 + StartedAt(log, w)
      invariant os == os0 + StartsObserved(log, w, at)
      decreases bound - |log|
    {
      StillBelow(|log|, rate, now, bound);
      HandledMore(log, wakes, rate, duration, cap, w, open);
      ghost var h := Handled(w, open, Room(open, cap));
      OpensMore(log, wakes, rate, duration, h);
      OpenAtMore(wakes, log, h, rate, duration, w);
      StartedAtMore(log, h, w);
      StartsObservedMore(log, h, w, at);
      Assoc(os0, StartsObserved(log, w, at), if h.started then [Observation(at, open + 1)] else []);
      ghost var before := log;
      open, counts, log, os := Arrive(cap, at, w, open, counts, log, os);
      assert log[|before|].wake == w && log0 <= log;
      next := DueAt(|log|, rate);
    }
    DueBelow(|log|, rate, duration, now);
  }

  /** What earlier wake-ups leave for wake-up `w`: everything handled is due by then, and
      nothing else was due before. */
  ghost predicate WokenAt(arrived: nat, wakes: seq<Wake>, rate: real, duration: real, w: nat)
    requires rate > 0.0 && w < |wakes|
  {
    && (arrived > 0 ==> Due(arrived - 1, rate, duration, wakes[w].now))
    && forall k: nat, i :: arrived <= k && 0 <= i < w ==> !Due(k, rate, duration, wakes[i].now)
  }

  lemma {:induction false} HandledMore(log: seq<Handled>, wakes: seq<Wake>, rate: real, duration: real, cap: Option<nat>, w: nat, open: nat)
    requires rate > 0.0 && w < |wakes| && HandledOk(log, wakes, rate, duration, cap)
    requires Due(|log|, rate, duration, wakes[w].now)
    requires forall i :: 0 <= i < w ==> !Due(|log|, rate, duration, wakes[i].now)
    ensures HandledOk(log + [Handled(w, open, Room(open, cap))], wakes, rate, duration, cap)
  {
    var more := log + [Handled(w, open, Room(open, cap))];
    forall k | 0 <= k < |more| ensures ArrivalOk(more, k, wakes, rate, duration, cap) {
      if k < |log| {
        assert ArrivalOk(log, k, wakes, rate, duration, cap);
      }
    }
  }

  /** More arrivals than can be due at `now`. */
  ghost function Bound(rate: real, now: real): nat
    requires rate > 0.0 && now >= 0.0
  {
    assert now * rate >= 0.0;
    (now * rate).Floor + 1
  }

  lemma {:induction false} StillBelow(k: nat, rate: real, now: real, bound: nat)
    requires rate > 0.0 && now >= 0.0 && DueAt(k, rate) <= now && bound == Bound(rate, now)
    ensures k < bound
  {
    assert k as real == DueAt(k, rate) * rate;
    assert DueAt(k, rate) * rate <= now * rate;
  }

  /** One wake-up: observes, collects finished sessions, then catches up with the schedule or,
      when every arrival was handled, only waits. */
  method WakeUp(rate: real, duration: real, cap: Option<nat>, wakes: seq<Wake>, w: nat, interval: real, open0: nat, counts0: Counts, log0: seq<Handled>)
    returns (open: nat, counts: Counts, log: seq<Handled>)
    requires rate > 0.0 && interval > 0.0 && w < |wakes| && ClockRuns(wakes)
    requires CountsOk(counts0, log0, open0, cap)
    requires HandledOk(log0, wakes, rate, duration, cap) && OpensOk(log0, wakes, rate, duration)
    requires WokenAt(|log0|, wakes, rate, duration, w)
    requires forall k :: 0 <= k < |log0| ==> log0[k].wake < w
    requires open0 == OpenAt(wakes, log0, rate, duration, w)
    requires PeaksOf(counts0, Observed(wakes, log0, rate, duration, interval, w))
    ensures CountsOk(counts, log, open, cap)
    ensures HandledOk(log, wakes, rate, duration, cap) && OpensOk(log, wakes, rate, duration) && log0 <= log
    ensures ExactlyDue(|log|, rate, duration, wakes[w].now)
    ensures forall k :: 0 <= k < |log| ==> log[k].wake <= w
    ensures open == OpenAt(wakes, log, rate, duration, w + 1)
    ensures PeaksOf(counts, Observed(wakes, log, rate, duration, interval, w + 1))
  {
    hide *;
    var wake := wakes[w];
    ghost var os0 := Observed(wakes, log0, rate, duration, interval, w);
    SeenInTime(wakes, w);
    var counts1 := ObserveOpen(counts0, IntervalOf(wake.seen, interval), open0, cap, log0, os0);
    ghost var os1 := os0 + [Observation(IntervalOf(wake.seen, interval), open0)];
    var left := Collect(open0, wake.finished);
    CountsLess(counts1, log0, open0, left, cap);
    if DueAt(|log0|, rate) >= duration {
      // Only the end of the run is left to wait for.
      open := left;
      if wake.oneMore {
        open := Collect(left, 1);
      }
      CountsLess(counts1, log0, left, open, cap);
      counts, log := counts1, log0;
      Waits(wakes, log, rate, duration, interval, w);
    } else {
      ghost var os;
      open, counts, log, os := CatchUp(rate, duration, cap, wakes, w, interval, left, counts1, log0, os1);
      LaterObserved(wakes, log0, log, rate, duration, interval, w);
      Catches(wakes, log0, log, rate, duration, interval, w);
    }
  }

  lemma {:induction false} SeenInTime(wakes: seq<Wake>, w: nat)
    requires ClockRuns(wakes) && w < |wakes|
    ensures 0.0 <= wakes[w].seen <= wakes[w].now
  {
  }

  /** The sessions still open before the finished ones are collected are observed. */
  method ObserveOpen(counts0: Counts, at: nat, open: nat, cap: Option<nat>, ghost log: seq<Handled>, ghost os: seq<Observation>)
    returns (counts: Counts)
    requires CountsOk(counts0, log, open, cap) && PeaksOf(counts0, os)
    ensures CountsOk(counts, log, open, cap) && PeaksOf(counts, os + [Observation(at, open)])
  {
    ObserveConsistent(counts0, at, open);
    PeaksMore(counts0, os, Observation(at, open));
    hide PeaksOf;
    counts := Observe(counts0, at, open);
  }

  /** Collects `finished` sessions. */
  method Collect(open: nat, finished: nat) returns (left: nat)
    ensures left == Remaining(open, finished) && left <= open
  {
    left := SaturatingSub(open, finished);
  }

  lemma {:induction false} CountsLess(c: Counts, log: seq<Handled>, open: nat, left: nat, cap: Option<nat>)
    requires CountsOk(c, log, open, cap) && left <= open
    ensures CountsOk(c, log, left, cap)
  {
  }

  /** A wake-up with no arrival left to come. */
  lemma {:induction false} Waits(wakes: seq<Wake>, log: seq<Handled>, rate: real, duration: real, interval: real, w: nat)
    requires rate > 0.0 && interval > 0.0 && w < |wakes| && ClockRuns(wakes)
    requires forall k :: 0 <= k < |log| ==> log[k].wake < w
    requires WokenAt(|log|, wakes, rate, duration, w) && DueAt(|log|, rate) >= duration
    ensures ExactlyDue(|log|, rate, duration, wakes[w].now)
    ensures var left := Remaining(OpenAt(wakes, log, rate, duration, w), wakes[w].finished);
      OpenAt(wakes, log, rate, duration, w + 1) == if wakes[w].oneMore then Remaining(left, 1) else left
    ensures Observed(wakes, log, rate, duration, interval, w + 1) ==
      Observed(wakes, log, rate, duration, interval, w)
      + [Observation(IntervalOf(wakes[w].seen, interval), OpenAt(wakes, log, rate, duration, w))]
  {
    DueBelow(|log|, rate, duration, wakes[w].now);
    hide ExactlyDue, StartedAt, HandledBefore, StartsObserved, Remaining, IntervalOf;
    NoneStartedYet(log, w);
    NoStartsYet(log, w, IntervalOf(wakes[w].now, interval));
    var os := Observed(wakes, log, rate, duration, interval, w)
      + [Observation(IntervalOf(wakes[w].seen, interval), OpenAt(wakes, log, rate, duration, w))];
    assert os + [] == os;
  }

  /** A wake-up before the last arrival. */
  lemma {:induction false} Catches(wakes: seq<Wake>, log0: seq<Handled>, log: seq<Handled>, rate: real, duration: real, interval: real, w: nat)
    requires rate > 0.0 && interval > 0.0 && w < |wakes| && ClockRuns(wakes) && log0 <= log
    requires HandledBefore(log, w) == |log0| && DueAt(|log0|, rate) < duration
    requires forall k :: 0 <= k < |log0| ==> log[k].wake < w
    requires forall k :: |log0| <= k < |log| ==> log[k].wake == w
    requires OpenAt(wakes, log, rate, duration, w) == OpenAt(wakes, log0, rate, duration, w)
    requires Observed(wakes, log, rate, duration, interval, w) == Observed(wakes, log0, rate, duration, interval, w)
    ensures forall k :: 0 <= k < |log| ==> log[k].wake <= w
    ensures OpenAt(wakes, log, rate, duration, w + 1) ==
      Remaining(OpenAt(wakes, log0, rate, duration, w), wakes[w].finished) + StartedAt(log, w)
    ensures Observed(wakes, log, rate, duration, interval, w + 1) ==
      Observed(wakes, log0, rate, duration, interval, w)
      + [Observation(IntervalOf(wakes[w].seen, interval), OpenAt(wakes, log0, rate, duration, w))]
      + StartsObserved(log, w, IntervalOf(wakes[w].now, interval))
  {
    hide StartedAt, HandledBefore, StartsObserved, Remaining, IntervalOf;
  }

  lemma {:induction false} PeaksMore(c: Counts, os: seq<Observation>, o: Observation)
    requires PeaksOf(c, os)
    ensures PeaksOf(Observe(c, o.interval, o.open), os + [o])
  {
    ObserveOneMore(NONE, os, o);
  }

  /** What was observed before wake-up `w` stays what it was. */
  lemma {:induction false} LaterObserved(wakes: seq<Wake>, log0: seq<Handled>, log: seq<Handled>, rate: real, duration: real, interval: real, w: nat)
    requires w <= |wakes| && rate > 0.0 && interval > 0.0 && ClockRuns(wakes) && log0 <= log
    requires forall k :: |log0| <= k < |log| ==> log[k].wake == w
    ensures Observed(wakes, log, rate, duration, interval, w) == Observed(wakes, log0, rate, duration, interval, w)
    decreases |log|
  {
    if |log| == |log0| {
      assert log == log0;
    } else {
      var init := log[..|log| - 1];
      assert log == init + [log[|log| - 1]];
      LaterObserved(wakes, log0, init, rate, duration, interval, w);
      ObservedMore(wakes, init, log[|log| - 1], rate, duration, interval, w);
    }
  }

  /** The whole loop, until the run is cancelled after the last wake-up. After every completed
      wake-up exactly the due arrivals have been handled, each once, none early, and late
      wake-ups shift nothing; every arrival either started or was skipped, and was skipped only
      with the cap reached by the sessions then open; and the sessions open and the peaks are
      those of the wake-ups and the arrivals handled. */
  method RunArrivals(rate: real, duration: real, cap: Option<nat>, wakes: seq<Wake>, interval: real)
    returns (open: nat, counts: Counts, log: seq<Handled>)
    requires rate > 0.0 && interval > 0.0 && ClockRuns(wakes)
    ensures HandledOk(log, wakes, rate, duration, cap)
    ensures wakes == [] ==> log == []
    ensures wakes != [] ==> ExactlyDue(|log|, rate, duration, wakes[|wakes| - 1].now)
    ensures CountsOk(counts, log, open, cap)
    ensures OpensOk(log, wakes, rate, duration) && open == OpenAt(wakes, log, rate, duration, |wakes|)
    ensures PeaksOf(counts, Observed(wakes, log, rate, duration, interval, |wakes|))
  {
    hide *;
    open, counts, log := 0, NONE, [];
    var w := 0;
    NothingYet(counts, log, wakes, rate, duration, cap);
    NothingObserved(counts, log, wakes, rate, duration, interval, w);
    while w < |wakes|
      invariant w <= |wakes|
      invariant HandledOk(log, wakes, rate, duration, cap) && OpensOk(log, wakes, rate, duration)
      invariant w > 0 ==> ExactlyDue(|log|, rate, duration, wakes[w - 1].now)
      invariant w == 0 ==> log == []
      invariant forall k :: 0 <= k < |log| ==> log[k].wake < w
      invariant CountsOk(counts, log, open, cap)
      invariant open == OpenAt(wakes, log, rate, duration, w)
      invariant PeaksOf(counts, Observed(wakes, log, rate, duration, interval, w))
    {
      WaitedFor(|log|, wakes, rate, duration, w);
      open, counts, log := WakeUp(rate, duration, cap, wakes, w, interval, open, counts, log);
      w := w + 1;
    }
  }

  lemma {:induction false} NothingYet(c: Counts, log: seq<Handled>, wakes: seq<Wake>, rate: real, duration: real, cap: Option<nat>)
    requires rate > 0.0 && log == [] && c == NONE
    ensures HandledOk(log, wakes, rate, duration, cap) && CountsOk(c, log, 0, cap) && OpensOk(log, wakes, rate, duration)
  {
  }

  lemma {:induction false} NothingObserved(c: Counts, log: seq<Handled>, wakes: seq<Wake>, rate: real, duration: real, interval: real, w: nat)
    requires rate > 0.0 && interval > 0.0 && ClockRuns(wakes) && w == 0 && c == NONE
    ensures OpenAt(wakes, log, rate, duration, w) == 0
    ensures PeaksOf(c, Observed(wakes, log, rate, duration, interval, w))
  {
  }

  lemma {:induction false} WaitedFor(arrived: nat, wakes: seq<Wake>, rate: real, duration: real, w: nat)
    requires rate > 0.0 && w < |wakes| && ClockRuns(wakes)
    requires w > 0 ==> ExactlyDue(arrived, rate, duration, wakes[w - 1].now)
    requires w == 0 ==> arrived == 0
    ensures WokenAt(arrived, wakes, rate, duration, w)
    ensures 0.0 <= wakes[w].seen <= wakes[w].now
  {
    if w > 0 {
      assert wakes[w - 1].now <= wakes[w].seen <= wakes[w].now;
      assert arrived > 0 ==> Due(arrived - 1, rate, duration, wakes[w - 1].now) by {
        if arrived > 0 {
          var k: nat := arrived - 1;
          assert k < arrived;
        }
      }
      forall k: nat, i | arrived <= k && 0 <= i < w ensures !Due(k, rate, duration, wakes[i].now) {
        assert !Due(k, rate, duration, wakes[w - 1].now);
        if i < w - 1 {
          assert wakes[i].now <= wakes[w - 1].seen;
        }
      }
    }
  }
}
