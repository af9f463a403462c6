/** Staged load: how many connections a run should have open at any moment, and the loop
    that brings the connections to that number. Times are exact, in seconds. */
module Stages {
  import opened Common

  datatype Stage = Stage(duration: real, target: nat)

  /** Rounded to the nearest whole number, halves up. */
  function Round(x: real): int { (x + 0.5).Floor }

  /** The point of the line from `a` to `b` after `p` of the way. */
  function Line(a: real, b: real, p: real): real { a + (b - a) * p }

  /** The value on the line from `from` to `to` after `progress` of the stage. */
  function Ramp(from: nat, to: nat, progress: real): real { Line(from as real, to as real, progress) }

  /** The target `elapsed` after the start, for stages that begin at `start` with `from`
      connections open. (A stage without a duration never holds a moment of the run.) */
  function TargetFrom(stages: seq<Stage>, from: nat, start: real, elapsed: real): int
    decreases |stages|
  {
    if stages == [] then from
    else
      var end := start + stages[0].duration;
      if elapsed < end && stages[0].duration != 0.0 then
        Round(Ramp(from, stages[0].target, (elapsed - start) / stages[0].duration))
      else TargetFrom(stages[1..], stages[0].target, end, elapsed)
  }

  predicate ValidStages(stages: seq<Stage>) {
    forall i :: 0 <= i < |stages| ==> stages[i].duration >= 0.0
  }

  lemma {:induction false} RoundBetween(x: real, lo: int, hi: int)
    requires lo as real <= x <= hi as real
    ensures lo <= Round(x) <= hi
  {
  }

  lemma {:induction false} ProductSign(a: real, b: real)
    requires a >= 0.0 && b >= 0.0
    ensures a * b >= 0.0
  {
  }

  /** A line that rises, or stays, lies between its ends and only rises. */
  lemma {:induction false} RisingLine(a: real, b: real, p: real, q: real)
    requires a <= b && p <= q
    ensures Line(a, b, p) <= Line(a, b, q)
    ensures 0.0 <= p ==> a <= Line(a, b, p)
    ensures q <= 1.0 ==> Line(a, b, q) <= b
  {
    var d := b - a;
    ProductSign(d, q - p);
    assert d * (q - p) == d * q - d * p;
    if 0.0 <= p { ProductSign(d, p); }
    if q <= 1.0 {
      ProductSign(d, 1.0 - q);
      assert d * (1.0 - q) == d - d * q;
    }
  }

  /** The same line read from its other end. */
  lemma {:induction false} LineBackwards(a: real, b: real, p: real)
    ensures Line(a, b, p) == Line(b, a, 1.0 - p)
  {
    var d := b - a;
    assert (a - b) * (1.0 - p) == -d + d * p;
  }

  lemma {:induction false} RampBetween(from: nat, to: nat, p: real)
    requires 0.0 <= p <= 1.0
    ensures Min(from, to) as real <= Ramp(from, to, p) <= Max(from, to) as real
  {
    hide Line;
    var a, b := from as real, to as real;
    if from <= to {
      assert Min(from, to) == from && Max(from, to) == to;
      RisingLine(a, b, p, p);
    } else {
      assert Min(from, to) == to && Max(from, to) == from;
      LineBackwards(a, b, p);
      RisingLine(b, a, 1.0 - p, 1.0 - p);
    }
  }

  lemma {:induction false} RampMonotone(from: nat, to: nat, p: real, q: real)
    requires p <= q
    ensures from <= to ==> Ramp(from, to, p) <= Ramp(from, to, q)
    ensures to <= from ==> Ramp(from, to, q) <= Ramp(from, to, p)
  {
    hide Line;
    var a, b := from as real, to as real;
    if from <= to {
      RisingLine(a, b, p, q);
    }
    if to <= from {
      LineBackwards(a, b, p);
      LineBackwards(a, b, q);
      RisingLine(b, a, 1.0 - q, 1.0 - p);
    }
  }

  lemma {:induction false} RoundMonotone(x: real, y: real)
    requires x <= y
    ensures Round(x) <= Round(y)
  {
  }

  lemma {:induction false} Progress(elapsed: real, start: real, duration: real)
    requires start <= elapsed < start + duration
    ensures 0.0 <= (elapsed - start) / duration < 1.0
  {
    var p := (elapsed - start) / duration;
    assert p * duration == elapsed - start;
  }

  /** Within a stage, the target stays between what the stage starts from and its target. */
  lemma {:induction false} BetweenTargets(stage: Stage, from: nat, start: real, elapsed: real)
    requires start <= elapsed < start + stage.duration
    ensures Min(from, stage.target) <= Round(Ramp(from, stage.target, (elapsed - start) / stage.duration)) <= Max(from, stage.target)
  {
    Progress(elapsed, start, stage.duration);
    var p := (elapsed - start) / stage.duration;
    RampBetween(from, stage.target, p);
    RoundBetween(Ramp(from, stage.target, p), Min(from, stage.target), Max(from, stage.target));
  }

  /** The highest target of the stages: the connections a staged run is configured for. */
  function Highest(stages: seq<Stage>): nat {
    if stages == [] then 0 else Max(stages[0].target, Highest(stages[1..]))
  }

  /** The highest target is that of some stage, and no stage's is higher. */
  lemma {:induction false} HighestIs(stages: seq<Stage>)
    ensures forall i :: 0 <= i < |stages| ==> stages[i].target <= Highest(stages)
    ensures if stages == [] then Highest(stages) == 0 else exists i :: 0 <= i < |stages| && stages[i].target == Highest(stages)
  {
    if |stages| > 0 {
      var rest := stages[1..];
      HighestIs(rest);
      forall i | 0 <= i < |stages| ensures stages[i].target <= Highest(stages) {
        if i > 0 { assert stages[i] == rest[i - 1]; }
      }
      if stages[0].target != Highest(stages) {
        if rest != [] {
          var i :| 0 <= i < |rest| && rest[i].target == Highest(rest);
          assert stages[i + 1] == rest[i];
        }
      }
    }
  }

  /** The length of the stages: the duration of a staged run. */
  function Length(stages: seq<Stage>): real {
    if stages == [] then 0.0 else stages[0].duration + Length(stages[1..])
  }

  /** When stage `k` begins, and with how many connections. */
  function StartOf(stages: seq<Stage>, k: nat): real
    requires k <= |stages|
  {
    Length(stages[..k])
  }

  function FromOf(stages: seq<Stage>, from: nat, k: nat): nat
    requires k <= |stages|
  {
    if k == 0 then from else stages[k - 1].target
  }

  /** A moment of stage `k`. */
  predicate During(stages: seq<Stage>, k: nat, at: real)
    requires k < |stages|
  {
    StartOf(stages, k) <= at < StartOf(stages, k) + stages[k].duration
  }

  lemma {:induction false} StartOfTail(stages: seq<Stage>, k: nat)
    requires 0 < k <= |stages|
    ensures StartOf(stages, k) == stages[0].duration + StartOf(stages[1..], k - 1)
  {
    assert stages[..k][1..] == stages[1..][..k - 1] && stages[..k][0] == stages[0];
  }

  /** During a stage, the target is on the line between the stage's two ends. */
  lemma {:induction false} TargetDuring(stages: seq<Stage>, from: nat, start: real, k: nat, at: real)
    requires ValidStages(stages) && k < |stages| && During(stages, k, at)
    ensures stages[k].duration > 0.0
    ensures TargetFrom(stages, from, start, start + at)
         == Round(Ramp(FromOf(stages, from, k), stages[k].target, (at - StartOf(stages, k)) / stages[k].duration))
    decreases |stages|
  {
    if k == 0 {
      assert stages[..0] == [];
      assert start + at - start == at;
    } else {
      var d, rest := stages[0].duration, stages[1..];
      StartOfTail(stages, k);
      LengthPositive(rest[..k - 1]);
      assert rest[k - 1] == stages[k] && FromOf(rest, stages[0].target, k - 1) == FromOf(stages, from, k);
      TargetDuring(rest, stages[0].target, start + d, k - 1, at - d);
      assert (start + d) + (at - d) == start + at;
      assert at - d - StartOf(rest, k - 1) == at - StartOf(stages, k);
    }
  }

  /** A rounded value is the nearest whole number, and the upper one of two as near. */
  lemma {:induction false} RoundsToNearest(x: real)
    ensures Round(x) as real - 0.5 <= x < Round(x) as real + 0.5
  {
  }

  lemma {:induction false} RampIs(from: nat, to: nat, p: real)
    ensures Ramp(from, to, p) == from as real + (to as real - from as real) * p
  {
  }

  /** So the target is the whole number nearest to where a straight ramp from the target before
      to the stage's own has come. */
  lemma {:induction false} TargetNearest(stages: seq<Stage>, k: nat, at: real)
    requires ValidStages(stages) && k < |stages| && During(stages, k, at)
    ensures var from := (if k == 0 then 0 else stages[k - 1].target) as real;
      var exact := from + (stages[k].target as real - from) * ((at - StartOf(stages, k)) / stages[k].duration);
      var target := TargetFrom(stages, 0, 0.0, at) as real;
      target - 0.5 <= exact < target + 0.5
  {
    TargetDuring(stages, 0, 0.0, k, at);
    assert 0.0 + at == at;
    hide TargetFrom, Round;
    var p := (at - StartOf(stages, k)) / stages[k].duration;
    var from, to := FromOf(stages, 0, k), stages[k].target;
    RoundsToNearest(Ramp(from, to, p));
    RampIs(from, to, p);
    hide Ramp;
  }

  /** During a stage, the target only rises, or only falls: upwards if the stage's own target
      is above the one before it, downwards if it is below. */
  lemma {:induction false} MonotoneInStage(stages: seq<Stage>, k: nat, at: real, later: real)
    requires ValidStages(stages) && k < |stages|
    requires During(stages, k, at) && During(stages, k, later) && at <= later
    ensures FromOf(stages, 0, k) <= stages[k].target ==>
      TargetFrom(stages, 0, 0.0, at) <= TargetFrom(stages, 0, 0.0, later)
    ensures stages[k].target <= FromOf(stages, 0, k) ==>
      TargetFrom(stages, 0, 0.0, later) <= TargetFrom(stages, 0, 0.0, at)
  {
    var from, to := FromOf(stages, 0, k), stages[k].target;
    TargetDuring(stages, 0, 0.0, k, at);
    TargetDuring(stages, 0, 0.0, k, later);
    assert 0.0 + at == at && 0.0 + later == later;
    hide TargetFrom, Ramp, Round;
    var d, s := stages[k].duration, StartOf(stages, k);
    var p, q := (at - s) / d, (later - s) / d;
    assert p <= q by { QuotientMonotone(at - s, later - s, d); }
    RampMonotone(from, to, p, q);
    if from <= to { RoundMonotone(Ramp(from, to, p), Ramp(from, to, q)); }
    if to <= from { RoundMonotone(Ramp(from, to, q), Ramp(from, to, p)); }
  }

  lemma {:induction false} QuotientMonotone(a: real, b: real, d: real)
    requires a <= b && d > 0.0
    ensures a / d <= b / d
  {
    assert b / d - a / d == (b - a) / d;
  }

  /** At every moment the target is a possible number of connections, at most the highest
      stage target; once the stages are over it is the last one. */
  lemma {:induction false} TargetBounded(stages: seq<Stage>, from: nat, start: real, elapsed: real)
    requires ValidStages(stages) && start <= elapsed
    ensures 0 <= TargetFrom(stages, from, start, elapsed) <= Max(from, Highest(stages))
    ensures stages != [] && elapsed >= start + Length(stages) ==>
      TargetFrom(stages, from, start, elapsed) == stages[|stages| - 1].target
    decreases |stages|
  {
    if stages != [] {
      var end := start + stages[0].duration;
      LengthPositive(stages[1..]);
      if elapsed < end {
        BetweenTargets(stages[0], from, start, elapsed);
      } else {
        TargetBounded(stages[1..], stages[0].target, end, elapsed);
      }
    }
  }

  lemma {:induction false} LengthPositive(stages: seq<Stage>)
    requires ValidStages(stages)
    ensures Length(stages) >= 0.0
  {
    if stages != [] {
      LengthPositive(stages[1..]);
    }
  }

  /** The loop over the stages. */
  method TargetAt(stages: seq<Stage>, elapsed: real) returns (target: nat)
    requires ValidStages(stages) && elapsed >= 0.0
    ensures target == TargetFrom(stages, 0, 0.0, elapsed)
    ensures target <= Highest(stages)
  {
    TargetBounded(stages, 0, 0.0, elapsed);
    var from, start, i := 0, 0.0, 0;
    assert stages[0..] == stages;
    while i < |stages|
      invariant i <= |stages|
      invariant start <= elapsed
      invariant TargetFrom(stages[i..], from, start, elapsed) == TargetFrom(stages, 0, 0.0, elapsed)
    {
      var stage := stages[i];
      var end := start + stage.duration;
      if elapsed < end {
        var progress := (elapsed - start) / stage.duration;
        return Round(Ramp(from, stage.target, progress));
      }
      assert stages[i..][1..] == stages[i + 1..];
      from, start, i := stage.target, end, i + 1;
    }
    target := from;
  }

  // ----- following the target -----

  /** The loop's variables: workers open, in the order they were opened; workers closed, in
      the order they were closed; and the next worker's id. */
  datatype Load = Load(open: seq<nat>, closed: seq<nat>, nextId: nat)

  const IDLE := Load([], [], 0)

  /** The ids `a`, `a + 1`, ..., below `b`. */
  function Ids(a: nat, b: nat): (r: seq<nat>)
    requires a <= b
    ensures |r| == b - a && forall i :: 0 <= i < |r| ==> r[i] == a + i
  {
    seq(b - a, i => a + i)
  }

  function Reversed(s: seq<nat>): (r: seq<nat>)
    ensures |r| == |s| && forall i :: 0 <= i < |s| ==> r[i] == s[|s| - 1 - i]
  {
    seq(|s|, i requires 0 <= i < |s| => s[|s| - 1 - i])
  }

  /** The load after one tick: new workers are opened at the end of the list, or workers are
      closed from its end. */
  function AfterTick(l: Load, wanted: nat): (r: Load)
    ensures |r.open| == wanted
  {
    if |l.open| <= wanted then
      var next := l.nextId + (wanted - |l.open|);
      Load(l.open + Ids(l.nextId, next), l.closed, next)
    else
      Load(l.open[..wanted], l.closed + Reversed(l.open[wanted..]), l.nextId)
  }

  function AfterTicks(l: Load, wanted: seq<nat>): Load
    decreases |wanted|
  {
    if wanted == [] then l else AfterTicks(AfterTick(l, wanted[0]), wanted[1..])
  }

  /** Ids are used once each, from 0 up; the open workers are in order of opening; every
      worker started is open or closed, exactly once. */
  ghost predicate LoadOk(l: Load) {
    && (forall i, j :: 0 <= i < j < |l.open| ==> l.open[i] < l.open[j])
    && multiset(l.closed) + multiset(l.open) == multiset(Ids(0, l.nextId))
  }

  /** What a tick opens are the next ids, in order; what it closes are the workers opened last,
      the last one first. */
  lemma {:induction false} TickMoves(l: Load, wanted: nat)
    requires LoadOk(l)
    ensures var r := AfterTick(l, wanted);
      && (wanted >= |l.open| ==>
           && r.closed == l.closed && r.nextId == l.nextId + (wanted - |l.open|)
           && l.open <= r.open && forall i :: |l.open| <= i < wanted ==> r.open[i] == l.nextId + (i - |l.open|))
      && (wanted < |l.open| ==>
           && r.open <= l.open && l.closed <= r.closed && r.nextId == l.nextId
           && |r.closed| == |l.closed| + (|l.open| - wanted)
           && (forall i, j :: |l.closed| <= i < j < |r.closed| ==> r.closed[i] > r.closed[j])
           && (forall i, j :: |l.closed| <= i < |r.closed| && 0 <= j < |r.open| ==> r.closed[i] > r.open[j] && r.closed[i] in l.open))
  {
  }

  lemma {:induction false} ReversedMultiset(s: seq<nat>)
    ensures multiset(Reversed(s)) == multiset(s)
    decreases |s|
  {
    if s != [] {
      ReversedMultiset(s[1..]);
      assert Reversed(s) == Reversed(s[1..]) + [s[0]];
      assert s == [s[0]] + s[1..];
    }
  }

  lemma {:induction false} OpenBelow(l: Load, i: nat)
    requires LoadOk(l) && i < |l.open|
    ensures l.open[i] < l.nextId
  {
    assert l.open[i] in multiset(l.open);
    assert l.open[i] in multiset(Ids(0, l.nextId));
    assert l.open[i] in Ids(0, l.nextId);
  }

  lemma {:induction false} GrowOk(l: Load, wanted: nat)
    requires LoadOk(l) && |l.open| <= wanted
    ensures LoadOk(AfterTick(l, wanted))
  {
    var r := AfterTick(l, wanted);
    var ids := Ids(l.nextId, r.nextId);
    assert Ids(0, r.nextId) == Ids(0, l.nextId) + ids;
    assert multiset(l.closed) + multiset(l.open + ids) == multiset(l.closed) + multiset(l.open) + multiset(ids);
    forall i, j | 0 <= i < j < |r.open| ensures r.open[i] < r.open[j] {
      if i < |l.open| {
        OpenBelow(l, i);
      }
    }
  }

  lemma {:induction false} ShrinkOk(l: Load, wanted: nat)
    requires LoadOk(l) && |l.open| > wanted
    ensures LoadOk(AfterTick(l, wanted))
  {
    assert l.open == l.open[..wanted] + l.open[wanted..];
    ReversedMultiset(l.open[wanted..]);
  }

  lemma {:induction false} TickOk(l: Load, wanted: nat)
    requires LoadOk(l)
    ensures LoadOk(AfterTick(l, wanted))
  {
    if |l.open| <= wanted {
      GrowOk(l, wanted);
    } else {
      ShrinkOk(l, wanted);
    }
  }

  /** After any ticks, the load keeps all of it, and holds exactly the last target. */
  lemma {:induction false} TicksOk(l: Load, wanted: seq<nat>)
    requires LoadOk(l)
    ensures LoadOk(AfterTicks(l, wanted))
    ensures wanted != [] ==> |AfterTicks(l, wanted).open| == wanted[|wanted| - 1]
    ensures AfterTicks(l, wanted).nextId == l.nextId + Rises(|l.open|, wanted)
    decreases |wanted|
  {
    hide LoadOk;
    if wanted != [] {
      TickOk(l, wanted[0]);
      TicksOk(AfterTick(l, wanted[0]), wanted[1..]);
    }
  }

  /** How much the target rises over the ticks: the workers ever opened. */
  function Rises(from: nat, wanted: seq<nat>): nat
    decreases |wanted|
  {
    if wanted == [] then 0 else SaturatingSub(wanted[0], from) + Rises(wanted[0], wanted[1..])
  }

  /** Opens workers one at a time until the target is reached. */
  method Grow(l: Load, wanted: nat) returns (r: Load)
    ensures |l.open| <= wanted ==> r == AfterTick(l, wanted)
    ensures |l.open| > wanted ==> r == l
  {
    r := l;
    assert r.open == l.open + Ids(l.nextId, r.nextId);
    while |r.open| < wanted
      invariant r.closed == l.closed && |l.open| <= |r.open| && (|r.open| <= wanted || r == l)
      invariant r.nextId == l.nextId + (|r.open| - |l.open|)
      invariant r.open == l.open + Ids(l.nextId, r.nextId)
    {
      assert Ids(l.nextId, r.nextId + 1) == Ids(l.nextId, r.nextId) + [r.nextId];
      r := Load(r.open + [r.nextId], r.closed, r.nextId + 1);
    }
  }

  /** Closes the most recently opened workers until the target is reached. */
  method Shrink(l: Load, wanted: nat) returns (r: Load)
    requires |l.open| >= wanted
    ensures r == Load(l.open[..wanted], l.closed + Reversed(l.open[wanted..]), l.nextId)
  {
    r := l;
    assert l.open[..|l.open|] == l.open && l.closed + Reversed([]) == l.closed;
    while |r.open| > wanted
      invariant r.nextId == l.nextId && wanted <= |r.open| <= |l.open| && r.open == l.open[..|r.open|]
      invariant r.closed == l.closed + Reversed(l.open[|r.open|..])
    {
      var n := |r.open| - 1;
      assert Reversed(l.open[n..]) == Reversed(l.open[n + 1..]) + [l.open[n]];
      assert r.closed + [l.open[n]] == l.closed + (Reversed(l.open[n + 1..]) + [l.open[n]]);
      r := Load(r.open[..n], r.closed + [r.open[n]], r.nextId);
    }
  }

  /** One tick of the loop: opens workers, then closes the most recent ones. */
  method Tick(l: Load, wanted: nat) returns (r: Load)
    ensures r == AfterTick(l, wanted)
  {
    r := Grow(l, wanted);
    var grown := r;
    r := Shrink(grown, wanted);
    if |l.open| <= wanted {
      assert grown.open[..wanted] == grown.open && grown.closed + Reversed(grown.open[wanted..]) == grown.closed;
    }
  }

  /** The whole run: at each tick the load is brought to the stage target; at the end every
      worker ever started is handed back, exactly once. After every tick the open workers number exactly the
      stage target, never more than the highest one. */
  method RunStages(stages: seq<Stage>, ticks: seq<real>) returns (workers: seq<nat>, started: nat, ghost targets: seq<nat>)
    requires ValidStages(stages) && forall i :: 0 <= i < |ticks| ==> ticks[i] >= 0.0
    ensures multiset(workers) == multiset(Ids(0, started))
    ensures |targets| == |ticks| && forall i :: 0 <= i < |ticks| ==>
      targets[i] == TargetFrom(stages, 0, 0.0, ticks[i]) <= Highest(stages)
    ensures started == Rises(0, targets)
    ensures workers == AfterTicks(IDLE, targets).closed + AfterTicks(IDLE, targets).open
  {
    var l := IDLE;
    targets := [];
    var i := 0;
    while i < |ticks|
      invariant i <= |ticks| && |targets| == i
      invariant forall j :: 0 <= j < i ==> targets[j] == TargetFrom(stages, 0, 0.0, ticks[j]) <= Highest(stages)
      invariant l == AfterTicks(IDLE, targets)
    {
      var wanted := TargetAt(stages, ticks[i]);
      TicksMore(IDLE, targets, wanted);
      l := Tick(l, wanted);
      targets := targets + [wanted];
      i := i + 1;
    }
    assert LoadOk(IDLE);
    TicksOk(IDLE, targets);
    workers, started := l.closed + l.open, l.nextId;
  }

  lemma {:induction false} TicksMore(l: Load, wanted: seq<nat>, w: nat)
    ensures AfterTicks(l, wanted + [w]) == AfterTick(AfterTicks(l, wanted), w)
    decreases |wanted|
  {
    if wanted == [] {
      assert wanted + [w] == [w];
    } else {
      TicksMore(AfterTick(l, wanted[0]), wanted[1..], w);
      assert (wanted + [w])[1..] == wanted[1..] + [w] && (wanted + [w])[0] == wanted[0];
    }
  }
}
