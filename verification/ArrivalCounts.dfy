/** What an arrival-rate run counts: arrivals started and skipped, and the peak number of
    open sessions, over the run and in each interval of it. */
module ArrivalCounts {
  import opened Common

  datatype Counts = Counts(started: nat, skipped: nat, peak: nat, peaks: seq<nat>)

  const NONE := Counts(0, 0, 0, [])

  function MaxOf(s: seq<nat>): nat {
    if s == [] then 0 else Max(MaxOf(s[..|s| - 1]), s[|s| - 1])
  }

  lemma {:induction false} MaxOfIs(s: seq<nat>)
    ensures forall i :: 0 <= i < |s| ==> s[i] <= MaxOf(s)
    ensures s != [] ==> MaxOf(s) in s
    decreases |s|
  {
    if s != [] {
      MaxOfIs(s[..|s| - 1]);
    }
  }

  lemma {:induction false} MaxOfUnique(s: seq<nat>, m: nat)
    requires forall i :: 0 <= i < |s| ==> s[i] <= m
    requires if s == [] then m == 0 else m in s
    ensures MaxOf(s) == m
  {
    MaxOfIs(s);
  }

  /** The peak is the highest of the interval peaks. */
  predicate Consistent(c: Counts) { c.peak == MaxOf(c.peaks) }

  // ----- observing -----

  /** `n` copies of `v`. */
  function Repeat(v: nat, n: nat): (r: seq<nat>)
    ensures |r| == n && forall i :: 0 <= i < n ==> r[i] == v
  {
    seq(n, _ => v)
  }

  /** `open` sessions were open in interval `interval`; intervals passed without an
      observation get the same count. */
  function Observe(c: Counts, interval: nat, open: nat): Counts {
    var peaks := if |c.peaks| <= interval then c.peaks + Repeat(open, interval + 1 - |c.peaks|) else c.peaks;
    c.(peaks := peaks[interval := Max(peaks[interval], open)], peak := Max(c.peak, open))
  }

  datatype Observation = Observation(interval: nat, open: nat)

  function ObserveAll(c: Counts, os: seq<Observation>): Counts
    decreases |os|
  {
    if os == [] then c else ObserveAll(Observe(c, os[0].interval, os[0].open), os[1..])
  }

  /** Observing keeps the peak equal to the highest interval peak, gaps filled or not. */
  lemma {:induction false} ObserveConsistent(c: Counts, interval: nat, open: nat)
    requires Consistent(c)
    ensures Consistent(Observe(c, interval, open))
    ensures Observe(c, interval, open).peak == Max(c.peak, open)
  {
    var d := Observe(c, interval, open);
    MaxOfIs(c.peaks);
    var m := Max(c.peak, open);
    forall i | 0 <= i < |d.peaks| ensures d.peaks[i] <= m {
    }
    if open >= c.peak {
      assert d.peaks[interval] == m;
    } else {
      var i :| 0 <= i < |c.peaks| && c.peaks[i] == c.peak;
      assert d.peaks[i] == m;
    }
    MaxOfUnique(d.peaks, m);
  }

  /** After any observations, the peak is both the highest interval peak and the highest
      count observed. */
  lemma {:induction false} ObservedPeak(c: Counts, os: seq<Observation>)
    requires Consistent(c)
    ensures Consistent(ObserveAll(c, os))
    ensures c.peak <= ObserveAll(c, os).peak
    ensures forall i :: 0 <= i < |os| ==> os[i].open <= ObserveAll(c, os).peak
    ensures ObserveAll(c, os).peak == c.peak || exists i :: 0 <= i < |os| && os[i].open == ObserveAll(c, os).peak
    decreases |os|
  {
    if os != [] {
      var d := Observe(c, os[0].interval, os[0].open);
      ObserveConsistent(c, os[0].interval, os[0].open);
      ObservedPeak(d, os[1..]);
      var p := ObserveAll(d, os[1..]).peak;
      forall i | 0 <= i < |os| ensures os[i].open <= p {
        if i > 0 {
          assert os[i] == os[1..][i - 1];
        }
      }
      if p != c.peak && p != os[0].open {
        var i :| 0 <= i < |os| - 1 && os[1..][i].open == p;
        assert os[i + 1].open == p;
      }
    }
  }

  lemma {:induction false} ObserveOneMore(c: Counts, os: seq<Observation>, o: Observation)
    ensures ObserveAll(c, os + [o]) == Observe(ObserveAll(c, os), o.interval, o.open)
    decreases |os|
  {
    if os == [] {
      assert os + [o] == [o];
    } else {
      ObserveOneMore(Observe(c, os[0].interval, os[0].open), os[1..], o);
      assert (os + [o])[1..] == os[1..] + [o];
    }
  }

  predicate InOrder(os: seq<Observation>) {
    forall i, j :: 0 <= i < j < |os| ==> os[i].interval <= os[j].interval
  }

  /** The highest count observed in interval `i`, and whether there was one. */
  function HighestIn(os: seq<Observation>, i: nat): Option<nat> {
    if os == [] then None
    else
      var before, last := HighestIn(os[..|os| - 1], i), os[|os| - 1];
      if last.interval != i then before
      else if before.Some? && before.value > last.open then before else Some(last.open)
  }

  /** The first count observed after interval `i`. */
  function FirstAfter(os: seq<Observation>, i: nat): Option<nat> {
    if os == [] then None
    else if os[0].interval > i then Some(os[0].open)
    else FirstAfter(os[1..], i)
  }

  lemma {:induction false} FirstAfterMore(os: seq<Observation>, o: Observation, i: nat)
    ensures FirstAfter(os + [o], i) ==
      if FirstAfter(os, i).Some? then FirstAfter(os, i) else if o.interval > i then Some(o.open) else None
  {
    if os == [] {
      assert os + [o] == [o];
    } else {
      assert (os + [o])[1..] == os[1..] + [o];
      FirstAfterMore(os[1..], o, i);
    }
  }

  lemma {:induction false} NoneIn(os: seq<Observation>, i: nat)
    requires forall k :: 0 <= k < |os| ==> os[k].interval < i
    ensures HighestIn(os, i) == None && FirstAfter(os, i) == None
  {
    if os != [] {
      NoneIn(os[..|os| - 1], i);
      assert os == os[..|os| - 1] + [os[|os| - 1]];
      FirstAfterMore(os[..|os| - 1], os[|os| - 1], i);
    }
  }

  /** One interval's peak after one more observation. */
  lemma {:induction false} PeakAfter(was: seq<nat>, o: Observation, i: nat)
    requires |was| <= o.interval + 1
    ensures var peaks := Observe(Counts(0, 0, 0, was), o.interval, o.open).peaks;
      && |peaks| == o.interval + 1
      && (i <= o.interval ==> peaks[i] == if i >= |was| then o.open else if i < o.interval then was[i] else Max(was[i], o.open))
  {
  }

  /** What the peak of interval `i` is after `os`. */
  function PeakMeant(os: seq<Observation>, i: nat): Option<nat> {
    if HighestIn(os, i).Some? then HighestIn(os, i) else FirstAfter(os, i)
  }

  lemma {:induction false} PeakMeantMore(os: seq<Observation>, o: Observation, i: nat)
    requires InOrder(os + [o])
    ensures i < o.interval ==> PeakMeant(os + [o], i) == if PeakMeant(os, i).Some? then PeakMeant(os, i) else Some(o.open)
    ensures i == o.interval ==>
      PeakMeant(os + [o], i) == (if HighestIn(os, i).Some? then Some(Max(HighestIn(os, i).value, o.open)) else Some(o.open))
    ensures i == o.interval ==> FirstAfter(os, i) == None
  {
    assert (os + [o])[..|os|] == os;
    FirstAfterMore(os, o, i);
    if i == o.interval {
      forall k | 0 <= k < |os| ensures os[k].interval <= i {
        assert (os + [o])[k] == os[k] && (os + [o])[|os|] == o;
      }
      NoneAfter(os, i);
    }
  }

  lemma {:induction false} NoneAfter(os: seq<Observation>, i: nat)
    requires forall k :: 0 <= k < |os| ==> os[k].interval <= i
    ensures FirstAfter(os, i) == None
  {
    if os != [] { NoneAfter(os[1..], i); }
  }

  /** What the interval peaks are: as many as intervals up to the last observation; for one that
      was observed its highest count, and for one that was passed the first count after it. */
  lemma {:induction false} IntervalPeaksAre(os: seq<Observation>)
    requires InOrder(os)
    ensures |ObserveAll(NONE, os).peaks| == (if os == [] then 0 else os[|os| - 1].interval + 1)
    ensures forall i :: 0 <= i < |ObserveAll(NONE, os).peaks| ==> Some(ObserveAll(NONE, os).peaks[i]) == PeakMeant(os, i)
    decreases |os|
  {
    if os != [] {
      var init, o := os[..|os| - 1], os[|os| - 1];
      assert os == init + [o];
      IntervalPeaksAre(init);
      ObserveOneMore(NONE, init, o);
      hide PeakMeant, ObserveAll, Observe;
      var was, peaks := ObserveAll(NONE, init), ObserveAll(NONE, os).peaks;
      forall i | 0 <= i < |peaks| ensures Some(peaks[i]) == PeakMeant(os, i) {
        OnePeakIs(init, o, i);
      }
      OnePeakIs(init, o, 0);
    }
  }

  lemma {:induction false} OnePeakIs(init: seq<Observation>, o: Observation, i: nat)
    requires InOrder(init + [o])
    requires var was := ObserveAll(NONE, init).peaks;
      && |was| == (if init == [] then 0 else init[|init| - 1].interval + 1)
      && forall k :: 0 <= k < |was| ==> Some(was[k]) == PeakMeant(init, k)
    ensures var peaks := Observe(ObserveAll(NONE, init), o.interval, o.open).peaks;
      && |peaks| == o.interval + 1
      && (i < |peaks| ==> Some(peaks[i]) == PeakMeant(init + [o], i))
  {
    var was := ObserveAll(NONE, init);
    assert |was.peaks| <= o.interval + 1 by {
      if init != [] { assert (init + [o])[|init| - 1] == init[|init| - 1] && (init + [o])[|init|] == o; }
    }
    PeakAfter(was.peaks, o, i);
    if i <= o.interval {
      PeakMeantMore(init, o, i);
      if i >= |was.peaks| { NotReached(init, i); }
    }
    hide ObserveAll, HighestIn, FirstAfter;
  }

  lemma {:induction false} NotReached(os: seq<Observation>, i: nat)
    requires InOrder(os) && (os != [] ==> os[|os| - 1].interval < i)
    ensures HighestIn(os, i) == None && FirstAfter(os, i) == None
  {
    NoneIn(os, i);
  }

  // ----- merging machines -----

  function PeakAt(c: Counts, i: nat): nat { if i < |c.peaks| then c.peaks[i] else 0 }

  /** The interval peaks of two machines, added interval by interval. */
  function AddPeaks(a: Counts, b: Counts): (r: seq<nat>)
    ensures |r| == Max(|a.peaks|, |b.peaks|)
    ensures forall i :: 0 <= i < |r| ==> r[i] == PeakAt(a, i) + PeakAt(b, i)
  {
    seq(Max(|a.peaks|, |b.peaks|), (i: nat) => PeakAt(a, i) + PeakAt(b, i))
  }

  function Merge(a: Counts, b: Counts): Counts {
    var peaks := AddPeaks(a, b);
    var sum := a.peak + b.peak;
    Counts(a.started + b.started, a.skipped + b.skipped, if peaks == [] then sum else Min(sum, MaxOf(peaks)), peaks)
  }

  lemma {:induction false} PeakAtMost(c: Counts, i: nat)
    requires Consistent(c)
    ensures PeakAt(c, i) <= c.peak
  {
    MaxOfIs(c.peaks);
  }

  /** The peak is reached in some interval, unless there was none. */
  lemma {:induction false} PeakReached(c: Counts) returns (i: nat)
    requires Consistent(c) && c.peaks != []
    ensures i < |c.peaks| && c.peaks[i] == c.peak
  {
    MaxOfIs(c.peaks);
    i :| 0 <= i < |c.peaks| && c.peaks[i] == c.peak;
  }

  /** Merging two machines: the interval peaks add up, the merged peak is the highest of the
      sums, at least each machine's peak and at most their sum. */
  lemma {:induction false} MergePeak(a: Counts, b: Counts)
    requires Consistent(a) && Consistent(b)
    ensures var c := Merge(a, b);
      && Consistent(c)
      && (forall i :: PeakAt(c, i) == PeakAt(a, i) + PeakAt(b, i))
      && Max(a.peak, b.peak) <= c.peak <= a.peak + b.peak
  {
    var peaks := AddPeaks(a, b);
    MaxOfIs(peaks);
    forall i | 0 <= i < |peaks| ensures peaks[i] <= a.peak + b.peak {
      PeakAtMost(a, i);
      PeakAtMost(b, i);
    }
    if a.peaks != [] {
      var i := PeakReached(a);
      assert peaks[i] >= a.peak;
    }
    if b.peaks != [] {
      var i := PeakReached(b);
      assert peaks[i] >= b.peak;
    }
  }

  /** A machine that reports a peak without intervals loses it to one that reports intervals:
      the merged peak is the other's, so it covers both exactly when that one is the higher.
      Two machines without intervals add their peaks. */
  lemma {:induction false} MergeWithoutIntervals(a: Counts, b: Counts)
    requires a.peaks == []
    ensures b.peaks != [] && Consistent(b) ==>
      && Merge(a, b).peak == b.peak
      && (Max(a.peak, b.peak) <= Merge(a, b).peak <==> a.peak <= b.peak)
    ensures b.peaks == [] ==> Merge(a, b).peak == a.peak + b.peak
  {
    assert AddPeaks(a, b) == b.peaks;
  }

  lemma {:induction false} MergeCommutes(a: Counts, b: Counts)
    ensures Merge(a, b) == Merge(b, a)
  {
    assert AddPeaks(a, b) == AddPeaks(b, a);
  }

  lemma {:induction false} MergeAssociates(a: Counts, b: Counts, c: Counts)
    requires Consistent(a) && Consistent(b) && Consistent(c)
    ensures Merge(Merge(a, b), c) == Merge(a, Merge(b, c))
  {
    MergePeak(a, b);
    MergePeak(b, c);
    MergePeak(Merge(a, b), c);
    MergePeak(a, Merge(b, c));
    PeaksAssociate(a, b, c);
    hide MaxOf, AddPeaks;
  }

  lemma {:induction false} PeaksAssociate(a: Counts, b: Counts, c: Counts)
    ensures AddPeaks(Merge(a, b), c) == AddPeaks(a, Merge(b, c))
  {
    hide MaxOf;
    var x, y := AddPeaks(Merge(a, b), c), AddPeaks(a, Merge(b, c));
    assert |x| == |y|;
    forall i | 0 <= i < |x| ensures x[i] == y[i] {
      assert PeakAt(Merge(a, b), i) == PeakAt(a, i) + PeakAt(b, i);
      assert PeakAt(Merge(b, c), i) == PeakAt(b, i) + PeakAt(c, i);
    }
  }

  predicate AllConsistent(cs: seq<Counts>) { forall i :: 0 <= i < |cs| ==> Consistent(cs[i]) }

  /** The counts of any number of machines. */
  function MergeAll(cs: seq<Counts>): Counts {
    if cs == [] then NONE else Merge(MergeAll(cs[..|cs| - 1]), cs[|cs| - 1])
  }

  lemma {:induction false} MergeAllConsistent(cs: seq<Counts>)
    requires AllConsistent(cs)
    ensures Consistent(MergeAll(cs))
    decreases |cs|
  {
    if cs != [] {
      MergeAllConsistent(cs[..|cs| - 1]);
      MergePeak(MergeAll(cs[..|cs| - 1]), cs[|cs| - 1]);
    }
  }

  lemma {:induction false} MergeSwap(a: Counts, b: Counts, c: Counts)
    requires Consistent(a) && Consistent(b) && Consistent(c)
    ensures Merge(Merge(a, b), c) == Merge(Merge(a, c), b)
  {
    MergeAssociates(a, b, c);
    MergeCommutes(b, c);
    MergeAssociates(a, c, b);
  }

  lemma {:induction false} MergeOneMore(cs: seq<Counts>, last: Counts)
    ensures MergeAll(cs + [last]) == Merge(MergeAll(cs), last)
  {
    assert (cs + [last])[..|cs|] == cs;
  }

  lemma {:induction false} WithoutEarlier(cs: seq<Counts>, n: nat)
    requires n < |cs| - 1
    ensures Without(cs, n) == Without(cs[..|cs| - 1], n) + [cs[|cs| - 1]]
    ensures AllConsistent(cs) ==> AllConsistent(Without(cs[..|cs| - 1], n))
  {
    hide Consistent;
  }

  /** Any machine may be merged last. */
  lemma {:induction false} MergeLast(cs: seq<Counts>, n: nat)
    requires n < |cs| && AllConsistent(cs)
    ensures MergeAll(cs) == Merge(MergeAll(Without(cs, n)), cs[n])
    decreases |cs|
  {
    var init, last := cs[..|cs| - 1], cs[|cs| - 1];
    assert cs == init + [last];
    assert Consistent(cs[n]) && Consistent(last) && AllConsistent(init);
    MergeOneMore(init, last);
    if n == |cs| - 1 {
      assert Without(cs, n) == init;
    } else {
      hide *;
      var rest := Without(init, n);
      MergeLast(init, n);
      WithoutEarlier(cs, n);
      MergeOneMore(rest, last);
      MergeAllConsistent(rest);
      MergeSwap(MergeAll(rest), cs[n], last);
    }
  }

  /** Merging any number of machines gives the same counts in any order. */
  lemma {:induction false} MergeOrder(a: seq<Counts>, b: seq<Counts>)
    requires AllConsistent(a) && multiset(a) == multiset(b)
    ensures MergeAll(a) == MergeAll(b)
    decreases |a|
  {
    assert |a| == |multiset(a)| == |multiset(b)| == |b|;
    if a != [] {
      var x := a[0];
      assert x in multiset(a);
      assert x in b;
      var n :| 0 <= n < |b| && b[n] == x;
      SameConsistent(a, b);
      WithoutMultiset(a, 0);
      WithoutMultiset(b, n);
      assert AllConsistent(Without(a, 0)) by { WithoutConsistent(a, 0); }
      hide *;
      MergeLast(a, 0);
      MergeLast(b, n);
      MergeOrder(Without(a, 0), Without(b, n));
    }
  }

  lemma {:induction false} SameConsistent(a: seq<Counts>, b: seq<Counts>)
    requires AllConsistent(a) && multiset(a) == multiset(b)
    ensures AllConsistent(b)
  {
    hide Consistent;
    forall i | 0 <= i < |b| ensures Consistent(b[i]) {
      assert b[i] in multiset(b);
      assert b[i] in a;
    }
  }

  lemma {:induction false} WithoutConsistent(cs: seq<Counts>, n: nat)
    requires n < |cs| && AllConsistent(cs)
    ensures AllConsistent(Without(cs, n))
  {
    hide Consistent;
  }

  lemma {:induction false} WithoutMultiset(cs: seq<Counts>, n: nat)
    requires n < |cs|
    ensures multiset(Without(cs, n)) == multiset(cs) - multiset{cs[n]}
  {
    assert cs == cs[..n] + [cs[n]] + cs[n + 1..];
  }

  /** Interval by interval the merge is the sum over the machines, and its peak is the highest
      of those sums: at least each machine's peak, and at most their sum. */
  lemma {:induction false} MergeAllSums(cs: seq<Counts>, i: nat)
    requires AllConsistent(cs)
    ensures var m := MergeAll(cs);
      && PeakAt(m, i) == SumOver(cs, i)
      && m.peak == MaxOf(m.peaks) <= SumOfPeaks(cs)
      && forall j :: 0 <= j < |cs| ==> cs[j].peak <= m.peak
    decreases |cs|
  {
    if cs != [] {
      var init, last := cs[..|cs| - 1], cs[|cs| - 1];
      assert Consistent(last) && AllConsistent(init);
      MergeAllConsistent(cs);
      MergeAllSums(init, i);
      MergeAllConsistent(init);
      hide Merge, PeakAt, AllConsistent, MaxOf;
      MergePeak(MergeAll(init), last);
    }
  }

  /** The counters add up. */
  lemma {:induction false} MergeAllCounters(cs: seq<Counts>)
    ensures MergeAll(cs).started == SumOfStarted(cs) && MergeAll(cs).skipped == SumOfSkipped(cs)
    decreases |cs|
  {
    if cs != [] {
      MergeAllCounters(cs[..|cs| - 1]);
    }
  }

  function SumOver(cs: seq<Counts>, i: nat): nat {
    if cs == [] then 0 else SumOver(cs[..|cs| - 1], i) + PeakAt(cs[|cs| - 1], i)
  }

  function SumOfPeaks(cs: seq<Counts>): nat {
    if cs == [] then 0 else SumOfPeaks(cs[..|cs| - 1]) + cs[|cs| - 1].peak
  }

  function SumOfStarted(cs: seq<Counts>): nat {
    if cs == [] then 0 else SumOfStarted(cs[..|cs| - 1]) + cs[|cs| - 1].started
  }

  function SumOfSkipped(cs: seq<Counts>): nat {
    if cs == [] then 0 else SumOfSkipped(cs[..|cs| - 1]) + cs[|cs| - 1].skipped
  }

  // ----- in place -----

  /** The counts of one machine, updated as the run goes. */
  class Recorder {
    var started: nat
    var skipped: nat
    var peakOpen: nat
    var intervalPeaks: seq<nat>

    function View(): Counts
      reads this
    {
      Counts(started, skipped, peakOpen, intervalPeaks)
    }

    constructor ()
      ensures View() == NONE
    {
      started, skipped, peakOpen, intervalPeaks := 0, 0, 0, [];
    }

    method Observed(interval: nat, open: nat)
      modifies `peakOpen, `intervalPeaks
      ensures View() == Observe(old(View()), interval, open)
    {
      if |intervalPeaks| <= interval {
        intervalPeaks := intervalPeaks + Repeat(open, interval + 1 - |intervalPeaks|);
      }
      intervalPeaks := intervalPeaks[interval := Max(intervalPeaks[interval], open)];
      peakOpen := Max(peakOpen, open);
    }

    /** The merge, field by field and interval by interval. */
    method Add(other: Counts)
      modifies this
      ensures View() == Merge(old(View()), other)
    {
      ghost var before := View();
      started, skipped := started + other.started, skipped + other.skipped;
      if |intervalPeaks| < |other.peaks| {
        intervalPeaks := intervalPeaks + Repeat(0, |other.peaks| - |intervalPeaks|);
      }
      var i := 0;
      while i < |other.peaks|
        invariant i <= |other.peaks| && |intervalPeaks| == Max(|before.peaks|, |other.peaks|)
        invariant forall j :: 0 <= j < i ==> intervalPeaks[j] == PeakAt(before, j) + other.peaks[j]
        invariant forall j :: i <= j < |intervalPeaks| ==> intervalPeaks[j] == PeakAt(before, j)
        invariant started == before.started + other.started && skipped == before.skipped + other.skipped
        invariant peakOpen == before.peak
      {
        intervalPeaks := intervalPeaks[i := intervalPeaks[i] + other.peaks[i]];
        i := i + 1;
      }
      assert intervalPeaks == AddPeaks(before, other);
      peakOpen := peakOpen + other.peak;
      if intervalPeaks != [] {
        peakOpen := Min(peakOpen, MaxOf(intervalPeaks));
      }
    }
  }
}
