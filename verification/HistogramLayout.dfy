/** The bucket layout of the latency histograms: which count a value goes to, and the
    lowest value of each count. */
module HistogramLayout {
  import opened Common

  const LOWEST_US: nat := 1
  const HIGHEST_US: nat := 60_000_000
  const SUB_BUCKET_HALF_COUNT: nat := 1024
  const SUB_BUCKETS: nat := 2048
  const BUCKET_COUNT: nat := 16
  const LEN: nat := (BUCKET_COUNT + 1) * SUB_BUCKET_HALF_COUNT

  /** Bits needed to write `v`; a 64-bit word has 64 minus that many leading zeros. */
  function BitLength(v: nat): nat { if v == 0 then 0 else 1 + BitLength(v / 2) }

  function LeadingZeros(v: nat): int { 64 - BitLength(v) }

  /** `v` with its low eleven bits set. */
  function OrSubBucketMask(v: nat): nat { v / SUB_BUCKETS * SUB_BUCKETS + (SUB_BUCKETS - 1) }

  function Bucket(v: nat): int { 53 - LeadingZeros(OrSubBucketMask(v)) }

  /** The count that a value belongs to. */
  function IndexOf(v: nat): int
    requires Bucket(v) >= 0
  {
    (Bucket(v) + 1) * SUB_BUCKET_HALF_COUNT + v / Pow2(Bucket(v)) - SUB_BUCKET_HALF_COUNT
  }

  /** Where the values of a count begin. */
  function ValueAt(index: nat): nat {
    var bucket := SaturatingSub(index / SUB_BUCKET_HALF_COUNT, 1);
    var sub := index % SUB_BUCKET_HALF_COUNT + SUB_BUCKET_HALF_COUNT;
    (if index / SUB_BUCKET_HALF_COUNT == 0 then sub - SUB_BUCKET_HALF_COUNT else sub) * Pow2(bucket)
  }

  lemma {:induction false} BitLengthBounds(v: nat)
    ensures v < Pow2(BitLength(v))
    ensures v > 0 ==> BitLength(v) >= 1 && Pow2(BitLength(v) - 1) <= v
  {
    if v > 0 {
      BitLengthBounds(v / 2);
    }
  }

  lemma {:induction false} Pow2Ten()
    ensures Pow2(10) == 1024 && Pow2(11) == 2048
  {
    assert Pow2(1) == 2 && Pow2(2) == 4 && Pow2(3) == 8 && Pow2(4) == 16 && Pow2(5) == 32;
    assert Pow2(6) == 64 && Pow2(7) == 128 && Pow2(8) == 256 && Pow2(9) == 512;
  }

  lemma {:induction false} Pow2Eleven(b: nat)
    ensures Pow2(11 + b) == 2048 * Pow2(b)
  {
    if b == 0 {
      Pow2Ten();
    } else {
      Pow2Eleven(b - 1);
    }
  }

  lemma {:induction false} Pow2Less(a: nat, b: nat)
    requires Pow2(a) < Pow2(b)
    ensures a < b
    decreases a
  {
    if b <= a {
      if a > 0 && b > 0 {
        Pow2Less(a - 1, b - 1);
      }
    }
  }

  /** The values of bucket `b`: below 2048 for the first, one power of two for the others. */
  lemma {:induction false} BucketBounds(v: nat)
    ensures Bucket(v) >= 0
    ensures v < SUB_BUCKETS * Pow2(Bucket(v))
    ensures Bucket(v) > 0 ==> SUB_BUCKET_HALF_COUNT * Pow2(Bucket(v)) <= v
  {
    var x := OrSubBucketMask(v);
    var n := BitLength(x);
    BitLengthBounds(x);
    Pow2Ten();
    assert x >= 2047;
    assert n >= 11 by {
      Pow2Less(10, n);
    }
    var b := n - 11;
    Pow2Eleven(b);
    assert v <= x;
    if b > 0 {
      Pow2Eleven(b - 1);
      assert 2048 * Pow2(b - 1) <= x;
      assert x / 2048 == v / 2048;
      MultipleBelow(Pow2(b - 1), x);
    }
  }

  lemma {:induction false} MultipleBelow(p: nat, x: nat)
    requires 2048 * p <= x
    ensures 2048 * p <= x / 2048 * 2048
  {
    assert x / 2048 >= p;
  }

  /** Where the counts start, by block of 1024. */
  lemma {:induction false} ValueAtBlock(q: nat, r: nat)
    requires r < 1024
    ensures ValueAt(q * 1024 + r) == if q == 0 then r else (1024 + r) * Pow2(q - 1)
  {
    var i := q * SUB_BUCKET_HALF_COUNT + r;
    assert i / 1024 == q && i % 1024 == r;
    if q == 0 {
      assert r * Pow2(0) == r;
    }
  }

  /** Every count starts where the one before it ends. */
  lemma {:induction false} ValueAtGrows(i: nat)
    ensures ValueAt(i) < ValueAt(i + 1)
  {
    var q, r := i / 1024, i % 1024;
    ValueAtBlock(q, r);
    if r < 1023 {
      ValueAtBlock(q, r + 1);
      if q > 0 {
        assert (1024 + r + 1) * Pow2(q - 1) == (1024 + r) * Pow2(q - 1) + Pow2(q - 1);
      }
    } else {
      ValueAtBlock(q + 1, 0);
      assert i + 1 == (q + 1) * 1024 + 0;
      if q > 0 {
        assert 1024 * Pow2(q) == 2048 * Pow2(q - 1);
        assert 2048 * Pow2(q - 1) == 2047 * Pow2(q - 1) + Pow2(q - 1);
      }
    }
  }

  lemma {:induction false} ValueAtMonotone(i: nat, j: nat)
    requires i <= j
    ensures ValueAt(i) <= ValueAt(j)
    ensures i < j ==> ValueAt(i) < ValueAt(j)
    decreases j - i
  {
    if i < j {
      ValueAtGrows(i);
      ValueAtMonotone(i + 1, j);
    }
  }

  lemma {:induction false} MulLe(a: nat, b: nat, p: nat)
    requires a <= b
    ensures a * p <= b * p
  {
  }

  /** The sub-bucket of a value: its quotient by the bucket's width. */
  lemma {:induction false} SubBucket(v: nat, p: nat)
    requires p > 0
    ensures v / p * p <= v < (v / p + 1) * p
    ensures 1024 * p <= v < 2048 * p ==> 1024 <= v / p < 2048
  {
    assert v == v / p * p + v % p;
    assert (v / p + 1) * p == v / p * p + p;
    if v / p < 1024 {
      MulLe(v / p + 1, 1024, p);
    } else if v / p >= 2048 {
      MulLe(2048, v / p, p);
    }
  }

  /** Where a value of the first bucket goes. */
  lemma {:induction false} FirstBucket(v: nat)
    requires Bucket(v) == 0
    ensures IndexOf(v) == v && v < 2048 && ValueAt(v) == v && ValueAt(v + 1) == v + 1
  {
    BucketBounds(v);
    assert Pow2(0) == 1 && v / 1 == v;
    var q, r := v / 1024, v % 1024;
    assert v == q * 1024 + r && q < 2;
    ValueAtBlock(q, r);
    if r < 1023 {
      ValueAtBlock(q, r + 1);
    } else {
      ValueAtBlock(q + 1, 0);
    }
  }

  /** Where a value of a later bucket goes, and where its count starts and ends. */
  lemma {:induction false} LaterBucket(v: nat) returns (r: nat)
    requires Bucket(v) > 0
    ensures r < 1024 && IndexOf(v) == (Bucket(v) + 1) * 1024 + r
    ensures ValueAt(IndexOf(v)) == (1024 + r) * Pow2(Bucket(v))
    ensures ValueAt(IndexOf(v) + 1) == (1024 + r + 1) * Pow2(Bucket(v))
    ensures (1024 + r) * Pow2(Bucket(v)) <= v < (1024 + r + 1) * Pow2(Bucket(v))
  {
    BucketBounds(v);
    var b := Bucket(v);
    var p := Pow2(b);
    SubBucket(v, p);
    r := v / p - 1024;
    ValueAtBlock(b + 1, r);
    if r < 1023 {
      ValueAtBlock(b + 1, r + 1);
    } else {
      ValueAtBlock(b + 2, 0);
      assert IndexOf(v) + 1 == (b + 2) * 1024 + 0;
      assert Pow2(b + 1) == 2 * p;
    }
  }

  /** A value lies between the lowest value of its count and that of the next. */
  lemma {:induction false} Brackets(v: nat)
    ensures Bucket(v) >= 0 && IndexOf(v) >= 0
    ensures ValueAt(IndexOf(v)) <= v < ValueAt(IndexOf(v) + 1)
  {
    BucketBounds(v);
    if Bucket(v) == 0 {
      FirstBucket(v);
    } else {
      var r := LaterBucket(v);
    }
  }

  // ----- what the layout promises -----

  /** A value is in a count below `i` exactly when it is below the lowest value of `i`. */
  lemma {:induction false} BelowIff(v: nat, i: nat)
    ensures Bucket(v) >= 0
    ensures IndexOf(v) < i <==> v < ValueAt(i)
  {
    Brackets(v);
    if IndexOf(v) < i {
      ValueAtMonotone(IndexOf(v) + 1, i);
    } else {
      ValueAtMonotone(i, IndexOf(v));
    }
  }

  /** The lowest value of a count is recorded in that count. */
  lemma {:induction false} IndexOfValueAt(i: nat)
    ensures Bucket(ValueAt(i)) >= 0 && IndexOf(ValueAt(i)) == i
  {
    BelowIff(ValueAt(i), i);
    BelowIff(ValueAt(i), i + 1);
    ValueAtGrows(i);
    Brackets(ValueAt(i));
  }

  /** Larger values never go to a lower count. */
  lemma {:induction false} IndexOfMonotone(v: nat, w: nat)
    requires v <= w
    ensures Bucket(v) >= 0 && Bucket(w) >= 0 && IndexOf(v) <= IndexOf(w)
  {
    Brackets(w);
    BelowIff(v, IndexOf(w) + 1);
  }

  /** Every value within the histogram's bounds has a count. */
  lemma {:induction false} IndexInBounds(v: nat)
    requires v <= 60_000_000
    ensures Bucket(v) >= 0 && 0 <= IndexOf(v) < LEN == 17_408
  {
    Brackets(v);
    ValueAtBlock(17, 0);
    Pow2Ten();
    Pow2Eleven(5);
    assert Pow2(2) == 4 && Pow2(5) == 32;
    assert ValueAt(LEN) == 1024 * Pow2(16);
    BelowIff(v, LEN);
  }

  /** A value exceeds the lowest value of its count by less than one part in 1024. */
  lemma {:induction false} Resolution(v: nat)
    requires v > 0
    ensures Bucket(v) >= 0 && IndexOf(v) >= 0
    ensures 1024 * (v - ValueAt(IndexOf(v))) < v
  {
    BucketBounds(v);
    if Bucket(v) == 0 {
      FirstBucket(v);
    } else {
      var r := LaterBucket(v);
      var p := Pow2(Bucket(v));
      assert (1024 + r + 1) * p == (1024 + r) * p + p;
    }
  }
}
