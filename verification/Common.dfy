/** Small types shared by every model. */
module Common {

  datatype Option<+T> = None | Some(value: T)

  /** An octet, a number from 0 to 255; bit operations are written as arithmetic on it. */
  type byte = b: int | 0 <= b < 256

  /** The larger of two numbers. */
  function Max(a: nat, b: nat): nat { if a < b then b else a }

  /** The smaller of two numbers. */
  function Min(a: nat, b: nat): nat { if a < b then a else b }

  /** Subtraction that stops at zero. */
  function SaturatingSub(a: nat, b: nat): nat { if a < b then 0 else a - b }

  /** The sum of a list of counts. */
  function Sum(s: seq<nat>): nat
  {
    if s == [] then 0 else s[0] + Sum(s[1..])
  }

  lemma {:induction false} SumAppend(s: seq<nat>, t: seq<nat>)
    ensures Sum(s + t) == Sum(s) + Sum(t)
  {
    if s == [] {
      assert s + t == t;
    } else {
      SumAppend(s[1..], t);
      assert (s + t)[1..] == s[1..] + t;
    }
  }

  lemma {:induction false} SumUpdate(s: seq<nat>, i: nat, v: nat)
    requires i < |s|
    ensures Sum(s[i := v]) == Sum(s) - s[i] + v
  {
    if i > 0 {
      SumUpdate(s[1..], i - 1, v);
      assert s[i := v][1..] == s[1..][i - 1 := v];
    }
  }

  function Pow2(k: nat): (p: nat)
    ensures p > 0
  {
    if k == 0 then 1 else 2 * Pow2(k - 1)
  }

  /** A list without its element at `n`. */
  function Without<T>(s: seq<T>, n: nat): (r: seq<T>)
    requires n < |s|
    ensures |r| == |s| - 1
  {
    s[..n] + s[n + 1..]
  }

  lemma {:induction false} Assoc<T>(a: seq<T>, b: seq<T>, c: seq<T>)
    ensures (a + b) + c == a + (b + c)
  {
  }
}
