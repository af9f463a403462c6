/** Latency histograms split into shards, and the plain histogram they must add up to. */
module AtomicHistogram {
  import opened Common
  import opened HistogramLayout

  type Counts = c: seq<nat> | |c| == LEN witness seq(LEN, _ => 0)

  const EMPTY: Counts := seq(LEN, _ => 0)

  function Clamp(v: nat): nat { Max(LOWEST_US, Min(v, HIGHEST_US)) }

  /** The count a sample goes to. */
  function Slot(v: nat): (i: nat)
    ensures i < LEN
  {
    IndexInBounds(Clamp(v));
    IndexOf(Clamp(v))
  }

  // ----- the simple form: one histogram, one sample at a time -----

  function RecordOne(c: Counts, v: nat): Counts { c[Slot(v) := c[Slot(v)] + 1] }

  function RecordAll(c: Counts, samples: seq<nat>): Counts
    decreases |samples|
  {
    if samples == [] then c else RecordAll(RecordOne(c, samples[0]), samples[1..])
  }

  /** How many samples go to count `i`. */
  function CountAt(samples: seq<nat>, i: nat): nat {
    if samples == [] then 0 else (if Slot(samples[0]) == i then 1 else 0) + CountAt(samples[1..], i)
  }

  /** How many samples, once clamped, are below `bound`. */
  function CountBelow(samples: seq<nat>, bound: nat): nat {
    if samples == [] then 0 else (if Clamp(samples[0]) < bound then 1 else 0) + CountBelow(samples[1..], bound)
  }

  lemma {:induction false} RecordAllAt(c: Counts, samples: seq<nat>, i: nat)
    requires i < LEN
    ensures RecordAll(c, samples)[i] == c[i] + CountAt(samples, i)
    decreases |samples|
  {
    if samples != [] {
      RecordAllAt(RecordOne(c, samples[0]), samples[1..], i);
    }
  }

  lemma {:induction false} CountAtAppend(samples: seq<nat>, more: seq<nat>, i: nat)
    ensures CountAt(samples + more, i) == CountAt(samples, i) + CountAt(more, i)
    decreases |samples|
  {
    if samples == [] {
      assert samples + more == more;
    } else {
      CountAtAppend(samples[1..], more, i);
      assert (samples + more)[1..] == samples[1..] + more;
    }
  }

  lemma {:induction false} CountAtOne(v: nat, i: nat)
    ensures CountAt([v], i) == if Slot(v) == i then 1 else 0
  {
  }

  /** The cumulative counts are exact: for every list of samples and every count `i`, the
      counts below `i` add up to the number of clamped samples below the lowest value of `i`. */
  lemma {:induction false} CountsBelow(c: Counts, samples: seq<nat>, i: nat)
    requires i <= LEN
    ensures Sum(RecordAll(c, samples)[..i]) == Sum(c[..i]) + CountBelow(samples, ValueAt(i))
    decreases |samples|
  {
    if samples != [] {
      var v := samples[0];
      var d := RecordOne(c, v);
      CountsBelow(d, samples[1..], i);
      BelowIff(Clamp(v), i);
      if Slot(v) < i {
        assert d[..i] == c[..i][Slot(v) := c[Slot(v)] + 1];
        SumUpdate(c[..i], Slot(v), c[Slot(v)] + 1);
      } else {
        assert d[..i] == c[..i];
      }
    }
  }

  lemma {:induction false} EmptySum(i: nat)
    requires i <= LEN
    ensures Sum(EMPTY[..i]) == 0
  {
    if i > 0 {
      EmptySum(i - 1);
      assert EMPTY[..i] == EMPTY[..i - 1] + [0];
      SumAppend(EMPTY[..i - 1], [0]);
      assert Sum([0]) == 0;
    }
  }

  /** Percentiles read from the histogram rest on this: from an empty histogram, the number
      of samples below any count's lowest value can be read off exactly. */
  lemma {:induction false} QuantilesExact(samples: seq<nat>, i: nat)
    requires i <= LEN
    ensures Sum(RecordAll(EMPTY, samples)[..i]) == CountBelow(samples, ValueAt(i))
  {
    CountsBelow(EMPTY, samples, i);
    EmptySum(i);
  }

  /** How many samples are below `bound`, as they were taken. */
  function SamplesBelow(samples: seq<nat>, bound: nat): nat {
    if samples == [] then 0 else (if samples[0] < bound then 1 else 0) + SamplesBelow(samples[1..], bound)
  }

  lemma {:induction false} ClampedBelow(samples: seq<nat>, bound: nat)
    ensures CountBelow(samples, bound) ==
      if bound <= 1 then 0 else if bound > 60_000_000 then |samples| else SamplesBelow(samples, bound)
  {
    if samples != [] {
      ClampedBelow(samples[1..], bound);
    }
  }

  /** Of the samples as they were taken, every one below a count's lowest value is counted below
      it, and no other: from 1 microsecond to 60 seconds, the range of the histogram, the cumulative counts
      are exact. Below and above, all samples are on one side. */
  lemma {:induction false} SamplesExact(samples: seq<nat>, i: nat)
    requires i <= LEN
    ensures Sum(RecordAll(EMPTY, samples)[..i]) ==
      if ValueAt(i) <= 1 then 0 else if ValueAt(i) > 60_000_000 then |samples| else SamplesBelow(samples, ValueAt(i))
  {
    hide Sum, RecordAll, CountBelow, SamplesBelow, ValueAt;
    QuantilesExact(samples, i);
    ClampedBelow(samples, ValueAt(i));
  }

  /** A sample of nothing counts as one microsecond, one beyond the range as the highest value,
      and any other as itself. */
  lemma {:induction false} WhereSamplesGo(v: nat)
    ensures var w := if v == 0 then 1 else if v > 60_000_000 then 60_000_000 else v;
      Bucket(w) >= 0 && Slot(v) == IndexOf(w)
  {
    IndexInBounds(if v == 0 then 1 else if v > 60_000_000 then 60_000_000 else v);
    hide Bucket, IndexOf;
  }

  // ----- the sharded form -----

  /** The total of count `i` over the shards; a shard nobody recorded into has no counts. */
  function ShardTotal(shards: seq<Option<Counts>>, i: nat): nat
    requires i < LEN
  {
    if shards == [] then 0
    else (if shards[0].Some? then shards[0].value[i] else 0) + ShardTotal(shards[1..], i)
  }

  lemma {:induction false} ShardTotalUpdate(shards: seq<Option<Counts>>, s: nat, x: Option<Counts>, i: nat)
    requires i < LEN && s < |shards|
    ensures ShardTotal(shards[s := x], i) == ShardTotal(shards, i)
      - (if shards[s].Some? then shards[s].value[i] else 0) + (if x.Some? then x.value[i] else 0)
    decreases |shards|
  {
    if s > 0 {
      ShardTotalUpdate(shards[1..], s - 1, x, i);
      assert shards[s := x][1..] == shards[1..][s - 1 := x];
    }
  }

  lemma {:induction false} ShardTotalAppend(shards: seq<Option<Counts>>, x: Option<Counts>, i: nat)
    requires i < LEN
    ensures ShardTotal(shards + [x], i) == ShardTotal(shards, i) + (if x.Some? then x.value[i] else 0)
    decreases |shards|
  {
    if shards == [] {
      assert shards + [x] == [x];
    } else {
      ShardTotalAppend(shards[1..], x, i);
      assert (shards + [x])[1..] == shards[1..] + [x];
    }
  }

  lemma {:induction false} ShardTotalNone(n: nat, i: nat)
    requires i < LEN
    ensures ShardTotal(seq(n, _ => None), i) == 0
  {
    if n > 0 {
      ShardTotalNone(n - 1, i);
      var s: seq<Option<Counts>> := seq(n, _ => None);
      assert s[1..] == seq(n - 1, _ => None);
    }
  }

  class AtomicHistogram {
    var shards: seq<Option<Counts>>
    /** Everything recorded so far, whatever the shard. */
    ghost var samples: seq<nat>

    ghost predicate Valid()
      reads this
    {
      && |shards| > 0
      && forall i :: 0 <= i < LEN ==> ShardTotal(shards, i) == CountAt(samples, i)
    }

    constructor (n: nat)
      ensures Valid() && samples == [] && |shards| == Max(n, 1)
    {
      shards := seq(Max(n, 1), _ => None);
      samples := [];
      new;
      forall i | 0 <= i < LEN ensures ShardTotal(shards, i) == 0 {
        ShardTotalNone(Max(n, 1), i);
      }
    }

    /** Records a value into one shard. */
    method Record(shard: nat, micros: nat)
      requires Valid()
      modifies this
      ensures Valid() && samples == old(samples) + [micros] && |shards| == old(|shards|)
    {
      var s := shard % |shards|;
      var counts: Counts := if shards[s].Some? then shards[s].value else EMPTY;
      var slot := Slot(micros);
      var next: Counts := counts[slot := counts[slot] + 1];
      forall i | 0 <= i < LEN ensures ShardTotal(shards[s := Some(next)], i) == CountAt(samples + [micros], i) {
        ShardTotalUpdate(shards, s, Some(next), i);
        CountAtAppend(samples, [micros], i);
        CountAtOne(micros, i);
      }
      shards := shards[s := Some(next)];
      samples := samples + [micros];
    }

    /** Merges the shards into `hist`: the result is exactly what recording every sample
        there directly would give. */
    method AddTo(hist: Counts) returns (total: Counts)
      requires Valid()
      ensures total == RecordAll(hist, samples)
    {
      total := hist;
      var s := 0;
      while s < |shards|
        invariant s <= |shards|
        invariant forall i :: 0 <= i < LEN ==> total[i] == hist[i] + ShardTotal(shards[..s], i)
      {
        ghost var before := total;
        if shards[s].Some? {
          total := AddShard(total, shards[s].value);
        }
        assert shards[..s + 1] == shards[..s] + [shards[s]];
        forall i | 0 <= i < LEN ensures total[i] == hist[i] + ShardTotal(shards[..s + 1], i) {
          ShardTotalAppend(shards[..s], shards[s], i);
        }
        s := s + 1;
      }
      assert shards[..s] == shards;
      forall i | 0 <= i < LEN ensures total[i] == RecordAll(hist, samples)[i] {
        RecordAllAt(hist, samples, i);
      }
    }
  }

  /** Records `n` occurrences of `value`, if it is within the histogram's bounds. */
  function RecordN(hist: Counts, value: nat, n: nat): Counts {
    if Bucket(value) >= 0 && 0 <= IndexOf(value) < LEN then
      hist[IndexOf(value) := hist[IndexOf(value)] + n]
    else hist
  }

  /** The loop over one shard's counts: each goes back by its lowest value. */
  method AddShard(hist: Counts, counts: Counts) returns (total: Counts)
    ensures forall i :: 0 <= i < LEN ==> total[i] == hist[i] + counts[i]
  {
    total := hist;
    var index := 0;
    while index < LEN
      invariant index <= LEN
      invariant forall i :: 0 <= i < index ==> total[i] == hist[i] + counts[i]
      invariant forall i :: index <= i < LEN ==> total[i] == hist[i]
    {
      if counts[index] > 0 {
        IndexOfValueAt(index);
        total := RecordN(total, ValueAt(index), counts[index]);
      }
      index := index + 1;
    }
  }
}
