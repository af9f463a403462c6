/**
 * Padded standard base64, the codec of `src/base64.rs` (section 4 of RFC 4648).
 * Text is the bytes of its UTF-8 form, as the decoder reads it; shifts and
 * masks on `u32` are written as arithmetic.
 */
module Base64 {
  import opened Common

  const PAD: byte := 61

  /** The alphabet, in the order of table 1 of RFC 4648: A-Z, a-z, 0-9, `+` and `/`. */
  function Digit(v: nat): byte
    requires v < 64
  {
    if v < 26 then 65 + v
    else if v < 52 then 97 + (v - 26)
    else if v < 62 then 48 + (v - 52)
    else if v == 62 then 43
    else 47
  }

  /** The value of a digit; the two directions of the alphabet agree. */
  function Sextet(c: byte): (r: Option<nat>)
    ensures r.Some? ==> r.value < 64 && Digit(r.value) == c
    ensures r == None ==> forall v :: 0 <= v < 64 ==> Digit(v) != c
  {
    if 65 <= c <= 90 then Some(c - 65)
    else if 97 <= c <= 122 then Some(c - 97 + 26)
    else if 48 <= c <= 57 then Some(c - 48 + 52)
    else if c == 43 then Some(62)
    else if c == 47 then Some(63)
    else None
  }

  lemma {:induction false} SextetOfDigit(v: nat)
    requires v < 64
    ensures Sextet(Digit(v)) == Some(v) && Digit(v) != PAD
  {
  }

  /** Table 1 of RFC 4648, in characters, and its padding sign. */
  lemma {:induction false} DigitsAreStandard(v: nat)
    requires v < 64
    ensures Digit(v) ==
      if v < 26 then 'A' as int + v else if v < 52 then 'a' as int + (v - 26) else if v < 62 then '0' as int + (v - 52)
      else if v == 62 then '+' as int else '/' as int
    ensures PAD == '=' as int
  {
  }

  // -------------------------------------------------------------------
  // Encoding
  // -------------------------------------------------------------------

  /** Three bytes as one 24-bit number. */
  function Number(b0: int, b1: int, b2: int): int { b0 * 65536 + b1 * 256 + b2 }

  /** The four characters of a chunk of one to three bytes. */
  function EncodeChunk(b: seq<byte>): (g: seq<byte>)
    requires 1 <= |b| <= 3
    ensures |g| == 4
  {
    var n := Number(b[0], if |b| > 1 then b[1] else 0, if |b| > 2 then b[2] else 0);
    [Digit(n / 262144), Digit(n / 4096 % 64),
     if |b| > 1 then Digit(n / 64 % 64) else PAD,
     if |b| > 2 then Digit(n % 64) else PAD]
  }

  /** A chunk's bits, six at a time from the top: the last digit is filled up with zeros, and a
      sign stands for every byte missing from the chunk. */
  lemma {:induction false} ChunkBits(b: seq<byte>)
    requires 1 <= |b| <= 3
    ensures |b| == 1 ==> EncodeChunk(b) == [Digit(b[0] / 4), Digit(b[0] % 4 * 16), PAD, PAD]
    ensures |b| == 2 ==>
      EncodeChunk(b) == [Digit(b[0] / 4), Digit(b[0] % 4 * 16 + b[1] / 16), Digit(b[1] % 16 * 4), PAD]
    ensures |b| == 3 ==>
      EncodeChunk(b) == [Digit(b[0] / 4), Digit(b[0] % 4 * 16 + b[1] / 16), Digit(b[1] % 16 * 4 + b[2] / 64), Digit(b[2] % 64)]
  {
    NumberBits(b[0], if |b| > 1 then b[1] else 0, if |b| > 2 then b[2] else 0);
    hide Digit, Number;
  }

  lemma {:induction false} NumberBits(b0: byte, b1: byte, b2: byte)
    ensures var n := Number(b0, b1, b2);
      && n / 262144 == b0 / 4 && n / 4096 % 64 == b0 % 4 * 16 + b1 / 16
      && n / 64 % 64 == b1 % 16 * 4 + b2 / 64 && n % 64 == b2 % 64
  {
    var x, y, z, w: int := b0 / 4, b0 % 4 * 16 + b1 / 16, b1 % 16 * 4 + b2 / 64, b2 % 64;
    assert Number(b0, b1, b2) == ((x * 64 + y) * 64 + z) * 64 + w;
    SpelledDigits(x, y, z, w);
  }

  function Encoded(input: seq<byte>): seq<byte>
    decreases |input|
  {
    if input == [] then []
    else if |input| <= 3 then EncodeChunk(input)
    else EncodeChunk(input[..3]) + Encoded(input[3..])
  }

  method Encode(input: seq<byte>) returns (out: seq<byte>)
    ensures out == Encoded(input)
  {
    out := [];
    var i := 0;
    assert input[0..] == input;
    while i < |input|
      invariant 0 <= i <= |input|
      invariant out + Encoded(input[i..]) == Encoded(input)
    {
      hide EncodeChunk;
      var chunk := input[i..Min(i + 3, |input|)];
      ghost var rest := input[i..];
      assert |rest| <= 3 ==> chunk == rest && input[|input|..] == [];
      assert |rest| > 3 ==> chunk == rest[..3] && rest[3..] == input[i + 3..];
      out := out + EncodeChunk(chunk);
      i := Min(i + 3, |input|);
    }
    assert input[i..] == [];
  }

  // -------------------------------------------------------------------
  // Decoding
  // -------------------------------------------------------------------

  /** How many `=` a group of four ends in. */
  function Padding(g: seq<byte>): (p: nat)
    requires |g| == 4
    ensures p <= 4
  {
    if g[3] != PAD then 0 else if g[2] != PAD then 1
    else if g[1] != PAD then 2 else if g[0] != PAD then 3 else 4
  }

  /** The number a list of digits spells, if all of them are digits. */
  function Spelled(ds: seq<byte>): (r: Option<nat>)
    ensures r.Some? <==> forall i :: 0 <= i < |ds| ==> Sextet(ds[i]).Some?
  {
    if ds == [] then Some(0)
    else
      var n := |ds| - 1;
      var high := Spelled(ds[..n]);
      var low := Sextet(ds[n]);
      if high.Some? && low.Some? then Some(high.value * 64 + low.value) else None
  }

  function Shift(n: nat, padding: nat): nat
    requires padding <= 2
  {
    if padding == 0 then n else if padding == 1 then n * 64 else n * 4096
  }

  function Low(n: nat): byte { n % 256 }

  /** The high bytes of a 24-bit number that `padding` leaves. */
  function Bytes(n: nat, padding: nat): seq<byte>
  {
    [Low(n / 65536)]
    + (if padding < 2 then [Low(n / 256)] else [])
    + (if padding < 1 then [Low(n)] else [])
  }

  /** `out` before what is still to come, unless that fails. */
  function Before(out: seq<byte>, rest: Option<seq<byte>>): Option<seq<byte>>
  {
    if rest == None then None else Some(out + rest.value)
  }

  /** The bytes of one group; only the last group may be padded. */
  function DecodeGroup(g: seq<byte>, last: bool): (r: Option<seq<byte>>)
    requires |g| == 4
  {
    var padding := Padding(g);
    if padding > 2 || (padding > 0 && !last) then None
    else
      var spelled := Spelled(g[..4 - padding]);
      if spelled == None then None
      else
        Some(Bytes(Shift(spelled.value, padding), padding))
  }

  /** The bytes of the groups of four in `s`. */
  function DecodedGroups(s: seq<byte>): Option<seq<byte>>
    decreases |s|
  {
    if |s| < 4 then Some([])
    else
      var first := DecodeGroup(s[..4], |s| == 4);
      if first == None then None else Before(first.value, DecodedGroups(s[4..]))
  }

  function Decoded(s: seq<byte>): Option<seq<byte>>
  {
    if |s| % 4 != 0 then None else DecodedGroups(s)
  }

  /** The inner loop: the digits of one group, most significant first. */
  method SpellDigits(ds: seq<byte>) returns (r: Option<nat>)
    ensures r == Spelled(ds)
  {
    var n: nat := 0;
    var i := 0;
    while i < |ds|
      invariant 0 <= i <= |ds|
      invariant Spelled(ds[..i]) == Some(n)
    {
      var digit := Sextet(ds[i]);
      if digit == None {
        return None;
      }
      assert ds[..i + 1][..i] == ds[..i];
      n := n * 64 + digit.value;
      i := i + 1;
    }
    assert ds[..i] == ds;
    return Some(n);
  }

  /** One pass of the decoding loop; the same value as `DecodeGroup`. */
  method TakeGroup(group: seq<byte>, last: bool, out: seq<byte>) returns (r: Option<seq<byte>>)
    requires |group| == 4
    ensures r == Before(out, DecodeGroup(group, last))
  {
    var padding := Padding(group);
    if padding > 2 || (padding > 0 && !last) {
      return None;
    }
    var spelled := SpellDigits(group[..4 - padding]);
    if spelled == None {
      return None;
    }
    var n := Shift(spelled.value, padding);
    var more := out + [Low(n / 65536)];
    if padding < 2 {
      more := more + [Low(n / 256)];
    }
    if padding < 1 {
      more := more + [Low(n)];
    }
    assert more == out + Bytes(n, padding);
    return Some(more);
  }

  method Decode(s: seq<byte>) returns (r: Option<seq<byte>>)
    ensures r == Decoded(s)
  {
    if |s| % 4 != 0 {
      return None;
    }
    var groups := |s| / 4;
    var out: seq<byte> := [];
    var index := 0;
    assert s[0..] == s;
    BeforeNothing(DecodedGroups(s));
    assert Decoded(s) == DecodedGroups(s);
    hide *;
    while index < groups
      invariant 0 <= index <= groups
      invariant DecodedGroups(s) == Before(out, DecodedGroups(s[4 * index..]))
    {
      NextGroup(s, 4 * index, out);
      var more := TakeGroup(s[4 * index..4 * index + 4], index + 1 == groups, out);
      if more == None {
        return None;
      }
      out := more.value;
      index := index + 1;
    }
    NoGroups(s, out);
    return Some(out);
  }

  /** One pass of the loop moves one group from the rest to the output. */
  lemma {:induction false} NextGroup(s: seq<byte>, i: nat, out: seq<byte>)
    requires i + 4 <= |s|
    ensures var more := Before(out, DecodeGroup(s[i..i + 4], i + 4 == |s|));
            Before(out, DecodedGroups(s[i..]))
            == if more == None then None else Before(more.value, DecodedGroups(s[i + 4..]))
  {
    hide DecodeGroup;
    assert s[i..][..4] == s[i..i + 4] && s[i..][4..] == s[i + 4..];
    var first := DecodeGroup(s[i..i + 4], i + 4 == |s|);
    if first.Some? {
      BeforeBoth(out, first.value, DecodedGroups(s[i + 4..]));
    }
  }

  lemma {:induction false} NoGroups(s: seq<byte>, out: seq<byte>)
    ensures Before(out, DecodedGroups(s[|s|..])) == Some(out)
  {
    assert s[|s|..] == [] && out + [] == out;
  }

  lemma {:induction false} BeforeNothing(rest: Option<seq<byte>>)
    ensures Before([], rest) == rest
  {
    if rest.Some? { assert [] + rest.value == rest.value; }
  }

  lemma {:induction false} BeforeBoth(out: seq<byte>, first: seq<byte>, rest: Option<seq<byte>>)
    ensures Before(out, Before(first, rest)) == Before(out + first, rest)
  {
    if rest.Some? { assert out + (first + rest.value) == out + first + rest.value; }
  }

  // -------------------------------------------------------------------
  // The two directions
  // -------------------------------------------------------------------

  /** A group of two digits. */
  lemma {:induction false} TwoDigits(a: byte, b: byte)
    requires Sextet(a).Some? && Sextet(b).Some?
    ensures Spelled([a, b]) == Some(Sextet(a).value * 64 + Sextet(b).value)
    ensures DecodeGroup([a, b, PAD, PAD], true)
         == Some(Bytes(Shift(Sextet(a).value * 64 + Sextet(b).value, 2), 2))
  {
    hide Bytes, Shift;
    assert [a, b][..1] == [a] && [a][..0] == [];
    assert Spelled([a]) == Some(Sextet(a).value);
    assert [a, b, PAD, PAD][..2] == [a, b];
  }

  lemma {:induction false} ThreeDigits(a: byte, b: byte, c: byte)
    requires Sextet(a).Some? && Sextet(b).Some? && Sextet(c).Some?
    ensures Spelled([a, b, c]) == Some((Sextet(a).value * 64 + Sextet(b).value) * 64 + Sextet(c).value)
    ensures DecodeGroup([a, b, c, PAD], true)
         == Some(Bytes(Shift((Sextet(a).value * 64 + Sextet(b).value) * 64 + Sextet(c).value, 1), 1))
  {
    hide Bytes, Shift;
    TwoDigits(a, b);
    assert [a, b, c][..2] == [a, b];
    assert [a, b, c, PAD][..3] == [a, b, c];
  }

  lemma {:induction false} FourDigits(a: byte, b: byte, c: byte, d: byte, last: bool)
    requires Sextet(a).Some? && Sextet(b).Some? && Sextet(c).Some? && Sextet(d).Some?
    ensures DecodeGroup([a, b, c, d], last)
         == Some(Bytes(((Sextet(a).value * 64 + Sextet(b).value) * 64 + Sextet(c).value) * 64 + Sextet(d).value, 0))
  {
    hide Bytes;
    ThreeDigits(a, b, c);
    assert [a, b, c, d][..3] == [a, b, c];
    assert [a, b, c, d][..4] == [a, b, c, d];
  }

  /** The four digits of a 24-bit number spell it. */
  lemma {:induction false} DigitsSpell(n: nat)
    requires n < 16777216
    ensures ((n / 262144 * 64 + n / 4096 % 64) * 64 + n / 64 % 64) * 64 + n % 64 == n
  {
    assert n / 4096 == n / 64 / 64 && n / 262144 == n / 4096 / 64;
  }

  /** A number whose low digits are zero is its high digits, shifted. */
  lemma {:induction false} HighDigits(n: nat)
    requires n < 16777216
    ensures n % 64 == 0 ==> Shift((n / 262144 * 64 + n / 4096 % 64) * 64 + n / 64 % 64, 1) == n
    ensures n % 4096 == 0 ==> Shift(n / 262144 * 64 + n / 4096 % 64, 2) == n
  {
    DigitsSpell(n);
    if n % 4096 == 0 {
      assert n % 64 == 0 && n / 64 % 64 == 0;
    }
  }

  lemma {:induction false} LowDigits(b0: byte, b1: byte, b2: byte)
    ensures var n := Number(b0, b1, b2);
            (b2 == 0 ==> n % 64 == 0) && (b1 == b2 == 0 ==> n % 4096 == 0)
  {
    if b2 == 0 { assert Number(b0, b1, b2) == 64 * (b0 * 1024 + b1 * 4); }
    if b1 == b2 == 0 { assert Number(b0, b1, b2) == 4096 * (b0 * 16); }
  }

  lemma {:induction false} BytesOfNumber(b0: byte, b1: byte, b2: byte)
    ensures var n := Number(b0, b1, b2);
            && 0 <= n < 16777216
            && Bytes(n, 0) == [b0, b1, b2] && Bytes(n, 1) == [b0, b1] && Bytes(n, 2) == [b0]
            && (b2 == 0 ==> n % 64 == 0) && (b1 == b2 == 0 ==> n % 4096 == 0)
  {
    LowDigits(b0, b1, b2);
    var n := Number(b0, b1, b2);
    assert n / 65536 == b0 && n / 256 == b0 * 256 + b1;
    assert Low(n / 65536) == b0 && Low(n / 256) == b1 && Low(n) == b2;
  }

  /** The digits of a 24-bit number, as characters. */
  lemma {:induction false} DigitsOf(n: nat)
    requires n < 16777216
    ensures Sextet(Digit(n / 262144)) == Some(n / 262144) && Digit(n / 262144) != PAD
    ensures Sextet(Digit(n / 4096 % 64)) == Some(n / 4096 % 64) && Digit(n / 4096 % 64) != PAD
    ensures Sextet(Digit(n / 64 % 64)) == Some(n / 64 % 64) && Digit(n / 64 % 64) != PAD
    ensures Sextet(Digit(n % 64)) == Some(n % 64) && Digit(n % 64) != PAD
  {
    SextetOfDigit(n / 262144);
    SextetOfDigit(n / 4096 % 64);
    SextetOfDigit(n / 64 % 64);
    SextetOfDigit(n % 64);
  }

  lemma {:induction false} DecodeChunk3(b: seq<byte>, last: bool)
    requires |b| == 3
    ensures DecodeGroup(EncodeChunk(b), last) == Some(b)
  {
    hide DecodeGroup, Sextet, Digit, Bytes, Number;
    var g, n := EncodeChunk(b), Number(b[0], b[1], b[2]);
    BytesOfNumber(b[0], b[1], b[2]);
    DigitsOf(n);
    DigitsSpell(n);
    FourDigits(g[0], g[1], g[2], g[3], last);
    assert b == [b[0], b[1], b[2]];
  }

  lemma {:induction false} DecodeChunk2(b: seq<byte>)
    requires |b| == 2
    ensures DecodeGroup(EncodeChunk(b), true) == Some(b)
  {
    hide DecodeGroup, Sextet, Digit, Bytes, Shift, Number;
    var g, n := EncodeChunk(b), Number(b[0], b[1], 0);
    BytesOfNumber(b[0], b[1], 0);
    DigitsOf(n);
    HighDigits(n);
    ThreeDigits(g[0], g[1], g[2]);
    assert b == [b[0], b[1]];
  }

  lemma {:induction false} DecodeChunk1(b: seq<byte>)
    requires |b| == 1
    ensures DecodeGroup(EncodeChunk(b), true) == Some(b)
  {
    hide DecodeGroup, Sextet, Digit, Bytes, Shift, Number;
    var g, n := EncodeChunk(b), Number(b[0], 0, 0);
    BytesOfNumber(b[0], 0, 0);
    DigitsOf(n);
    HighDigits(n);
    TwoDigits(g[0], g[1]);
    assert b == [b[0]];
  }

  /** Every byte string survives: encoding, then decoding, returns it. */
  lemma {:induction false} DecodeEncoded(b: seq<byte>)
    ensures Decoded(Encoded(b)) == Some(b)
    decreases |b|
  {
    hide DecodeGroup, EncodeChunk;
    if b == [] {
    } else if |b| <= 3 {
      var g := EncodeChunk(b);
      if |b| == 3 { DecodeChunk3(b, true); } else if |b| == 2 { DecodeChunk2(b); } else { DecodeChunk1(b); }
      assert g[..4] == g && g[4..] == [] && b + [] == b;
      assert DecodedGroups([]) == Some([]);
    } else {
      var g, rest := EncodeChunk(b[..3]), Encoded(b[3..]);
      DecodeEncoded(b[3..]);
      assert rest != [];
      DecodeChunk3(b[..3], false);
      assert (g + rest)[..4] == g && (g + rest)[4..] == rest;
      assert b[..3] + b[3..] == b;
    }
  }

  // -------------------------------------------------------------------
  // What the decoder accepts
  // -------------------------------------------------------------------

  /** Digits, then at most two `=`, four characters to a group. */
  ghost predicate WellFormed(s: seq<byte>, padding: nat)
  {
    && |s| % 4 == 0 && padding <= 2 && padding <= |s|
    && (forall i :: 0 <= i < |s| - padding ==> Sextet(s[i]).Some?)
    && (forall i :: |s| - padding <= i < |s| ==> s[i] == PAD)
  }

  /** The bits of the last digit that no byte uses are zero. */
  predicate SpareBitsClear(s: seq<byte>)
  {
    var n := |s|;
    if n < 4 || s[n - 1] != PAD then true
    else if s[n - 2] != PAD then var d := Sextet(s[n - 2]); d.Some? && d.value % 4 == 0
    else var d := Sextet(s[n - 3]); d.Some? && d.value % 16 == 0
  }

  /** A group's own shape: digits, then `padding` signs, none unless it is the last. */
  ghost predicate GroupShape(g: seq<byte>, last: bool, padding: nat)
    requires |g| == 4
  {
    && padding <= 2 && (padding > 0 ==> last)
    && (forall i :: 0 <= i < 4 - padding ==> Sextet(g[i]).Some?)
    && (forall i :: 4 - padding <= i < 4 ==> g[i] == PAD)
  }

  ghost predicate GroupOk(g: seq<byte>, last: bool)
    requires |g| == 4
  {
    exists p :: GroupShape(g, last, p)
  }

  lemma {:induction false} GroupAccepted(g: seq<byte>, last: bool)
    requires |g| == 4
    ensures DecodeGroup(g, last).Some? <==> GroupOk(g, last)
    ensures DecodeGroup(g, last).Some? ==> GroupShape(g, last, Padding(g))
  {
    hide Bytes, Shift;
    var padding := Padding(g);
    assert Sextet(PAD) == None;
    if DecodeGroup(g, last).Some? {
      var ds := g[..4 - padding];
      assert forall i :: 0 <= i < 4 - padding ==> ds[i] == g[i];
      assert GroupShape(g, last, padding);
    }
    if p: nat :| GroupShape(g, last, p) {
      assert Sextet(g[0]).Some? && Sextet(g[1]).Some?;
      assert Sextet(g[4 - p - 1]).Some?;
      assert p == padding;
    }
  }

  /** The decoder accepts exactly the well-formed texts. */
  lemma {:induction false} AcceptsExactly(s: seq<byte>)
    ensures Decoded(s).Some? <==> exists p :: WellFormed(s, p)
    decreases |s|
  {
    if |s| % 4 != 0 {
    } else if |s| == 0 {
      assert WellFormed(s, 0);
    } else {
      assert (|s| - 4) % 4 == 0;
      GroupAccepted(s[..4], |s| == 4);
      AcceptsExactly(s[4..]);
      hide DecodeGroup;
      SplitWellFormed(s);
    }
  }

  lemma {:induction false} SplitWellFormed(s: seq<byte>)
    requires |s| >= 4 && |s| % 4 == 0
    ensures (exists p :: WellFormed(s, p))
        <==> GroupOk(s[..4], |s| == 4) && (exists p :: WellFormed(s[4..], p))
  {
    var g, rest := s[..4], s[4..];
    if |s| == 4 {
      assert WellFormed(rest, 0);
      assert g == s;
      assert forall p :: WellFormed(s, p) <==> GroupShape(g, true, p);
    } else {
      if p: nat :| WellFormed(s, p) {
        HeadOfWellFormed(s, p);
      }
      if q: nat, p: nat :| GroupShape(g, false, q) && WellFormed(rest, p) {
        JoinWellFormed(s, p);
      }
    }
  }

  lemma {:induction false} HeadOfWellFormed(s: seq<byte>, p: nat)
    requires |s| > 4 && WellFormed(s, p)
    ensures GroupShape(s[..4], false, 0) && WellFormed(s[4..], p)
  {
    hide Sextet;
    assert |s| >= 8 && |s[4..]| % 4 == 0;
    assert forall i :: 0 <= i < 4 ==> s[..4][i] == s[i];
    assert forall i :: 0 <= i < |s| - 4 ==> s[4..][i] == s[i + 4];
  }

  lemma {:induction false} JoinWellFormed(s: seq<byte>, p: nat)
    requires |s| > 4 && |s| % 4 == 0 && GroupShape(s[..4], false, 0) && WellFormed(s[4..], p)
    ensures WellFormed(s, p)
  {
    hide Sextet;
    var g, rest := s[..4], s[4..];
    assert forall i :: 0 <= i < 4 ==> s[i] == g[i];
    assert forall i :: 4 <= i < |s| ==> s[i] == rest[i - 4];
  }

  // -------------------------------------------------------------------
  // Encoding what was decoded
  // -------------------------------------------------------------------

  /** Four digits are found again in the number they spell. */
  lemma {:induction false} SpelledDigits(a: nat, b: nat, c: nat, d: nat)
    requires a < 64 && b < 64 && c < 64 && d < 64
    ensures var n := ((a * 64 + b) * 64 + c) * 64 + d;
            n / 262144 == a && n / 4096 % 64 == b && n / 64 % 64 == c && n % 64 == d
  {
    var n := ((a * 64 + b) * 64 + c) * 64 + d;
    assert n / 64 == (a * 64 + b) * 64 + c;
    assert n / 4096 == a * 64 + b;
  }

  /** The bytes of a 24-bit number, put together again. */
  lemma {:induction false} NumberOfBytes(n: nat)
    requires n < 16777216
    ensures Number(Low(n / 65536), Low(n / 256), Low(n)) == n
    ensures Number(Low(n / 65536), Low(n / 256), 0) == n - n % 256
    ensures Number(Low(n / 65536), 0, 0) == n - n % 65536
  {
    assert n / 65536 == n / 256 / 256;
  }

  /** Bytes whose number the digits spell are encoded to those digits. */
  lemma {:induction false} EncodeDigits(b0: byte, b1: byte, b2: byte, x: nat, y: nat, z: nat, w: nat)
    requires x < 64 && y < 64 && z < 64 && w < 64
    requires Number(b0, b1, b2) == ((x * 64 + y) * 64 + z) * 64 + w
    ensures EncodeChunk([b0, b1, b2]) == [Digit(x), Digit(y), Digit(z), Digit(w)]
    ensures b2 == 0 ==> EncodeChunk([b0, b1]) == [Digit(x), Digit(y), Digit(z), PAD]
    ensures b1 == b2 == 0 ==> EncodeChunk([b0]) == [Digit(x), Digit(y), PAD, PAD]
  {
    hide Digit, Number;
    SpelledDigits(x, y, z, w);
  }

  lemma {:induction false} MultipleOf256(q: nat, r: nat)
    requires r < 256
    ensures (q * 256 + r) - (q * 256 + r) % 256 == q * 256
  {
  }

  lemma {:induction false} MultipleOf65536(q: nat, r: nat)
    requires r < 65536
    ensures (q * 65536 + r) - (q * 65536 + r) % 65536 == q * 65536
  {
  }

  lemma {:induction false} CutBits(high: nat, z: nat)
    ensures var n := (high * 64 + z) * 64; n - n % 256 == (high * 64 + (z - z % 4)) * 64
  {
    MultipleOf256(high * 16 + z / 4, 64 * (z % 4));
    assert z == 4 * (z / 4) + z % 4;
  }

  lemma {:induction false} CutMoreBits(x: nat, y: nat)
    ensures var n := (x * 64 + y) * 4096; n - n % 65536 == (x * 64 + (y - y % 16)) * 4096
  {
    MultipleOf65536(x * 4 + y / 16, 4096 * (y % 16));
    assert y == 16 * (y / 16) + y % 16;
  }

  /** The bytes of four digits. */
  lemma {:induction false} SplitFour(x: nat, y: nat, z: nat, w: nat) returns (b0: byte, b1: byte, b2: byte)
    requires x < 64 && y < 64 && z < 64 && w < 64
    ensures Bytes(((x * 64 + y) * 64 + z) * 64 + w, 0) == [b0, b1, b2]
    ensures Number(b0, b1, b2) == ((x * 64 + y) * 64 + z) * 64 + w
  {
    var n := ((x * 64 + y) * 64 + z) * 64 + w;
    NumberOfBytes(n);
    b0, b1, b2 := Low(n / 65536), Low(n / 256), Low(n);
  }

  /** The bytes of three digits: the last two bits of the third are cut off. */
  lemma {:induction false} SplitThree(x: nat, y: nat, z: nat) returns (b0: byte, b1: byte)
    requires x < 64 && y < 64 && z < 64
    ensures Bytes(((x * 64 + y) * 64 + z) * 64, 1) == [b0, b1]
    ensures Number(b0, b1, 0) == ((x * 64 + y) * 64 + (z - z % 4)) * 64 + 0
  {
    hide Low, Number;
    var n := ((x * 64 + y) * 64 + z) * 64;
    NumberOfBytes(n);
    b0, b1 := Low(n / 65536), Low(n / 256);
    CutBits(x * 64 + y, z);
  }

  /** The bytes of two digits: the last four bits of the second are cut off. */
  lemma {:induction false} SplitTwo(x: nat, y: nat) returns (b0: byte)
    requires x < 64 && y < 64
    ensures Bytes((x * 64 + y) * 4096, 2) == [b0]
    ensures Number(b0, 0, 0) == ((x * 64 + (y - y % 16)) * 64 + 0) * 64 + 0
  {
    hide Low, Number;
    var n := (x * 64 + y) * 4096;
    NumberOfBytes(n);
    b0 := Low(n / 65536);
    CutMoreBits(x, y);
  }

  /** The text a decoded group is encoded to: the group itself, but for the spare bits. */
  lemma {:induction false} EncodeFour(a: byte, b: byte, c: byte, d: byte)
    requires Sextet(a).Some? && Sextet(b).Some? && Sextet(c).Some? && Sextet(d).Some?
    ensures var n := ((Sextet(a).value * 64 + Sextet(b).value) * 64 + Sextet(c).value) * 64 + Sextet(d).value;
            EncodeChunk(Bytes(n, 0)) == [a, b, c, d]
  {
    hide *;
    var x, y, z, w := Sextet(a).value, Sextet(b).value, Sextet(c).value, Sextet(d).value;
    var b0, b1, b2 := SplitFour(x, y, z, w);
    EncodeDigits(b0, b1, b2, x, y, z, w);
  }

  lemma {:induction false} EncodeThree(a: byte, b: byte, c: byte)
    requires Sextet(a).Some? && Sextet(b).Some? && Sextet(c).Some?
    ensures var n := ((Sextet(a).value * 64 + Sextet(b).value) * 64 + Sextet(c).value) * 64;
            EncodeChunk(Bytes(n, 1)) == [a, b, c, PAD] <==> Sextet(c).value % 4 == 0
  {
    hide *;
    var x, y, z := Sextet(a).value, Sextet(b).value, Sextet(c).value;
    var b0, b1 := SplitThree(x, y, z);
    EncodeDigits(b0, b1, 0, x, y, z - z % 4, 0);
    SextetOfDigit(z - z % 4);
    assert EncodeChunk([b0, b1])[2] == Digit(z - z % 4);
  }

  lemma {:induction false} EncodeTwo(a: byte, b: byte)
    requires Sextet(a).Some? && Sextet(b).Some?
    ensures var n := (Sextet(a).value * 64 + Sextet(b).value) * 4096;
            EncodeChunk(Bytes(n, 2)) == [a, b, PAD, PAD] <==> Sextet(b).value % 16 == 0
  {
    hide *;
    var x, y := Sextet(a).value, Sextet(b).value;
    var b0 := SplitTwo(x, y);
    EncodeDigits(b0, 0, 0, x, y - y % 16, 0, 0);
    SextetOfDigit(y - y % 16);
    assert EncodeChunk([b0])[1] == Digit(y - y % 16);
  }

  /** What padding says about a group that is accepted. */
  lemma {:induction false} PaddingShape(g: seq<byte>, last: bool)
    requires |g| == 4 && DecodeGroup(g, last).Some?
    ensures Sextet(g[0]).Some? && Sextet(g[1]).Some? && (!last ==> Padding(g) == 0)
    ensures Padding(g) == 0 ==> Sextet(g[2]).Some? && Sextet(g[3]).Some? && SpareBitsClear(g)
    ensures Padding(g) == 1 ==> Sextet(g[2]).Some? && g[3] == PAD
                                && SpareBitsClear(g) == (Sextet(g[2]).value % 4 == 0)
    ensures Padding(g) > 1 ==> g[2] == g[3] == PAD
                               && SpareBitsClear(g) == (Sextet(g[1]).value % 16 == 0)
  {
    GroupAccepted(g, last);
    hide DecodeGroup;
  }

  lemma {:induction false} EncodeGroup(g: seq<byte>, last: bool)
    requires |g| == 4 && DecodeGroup(g, last).Some?
    ensures var b := DecodeGroup(g, last).value;
            && 1 <= |b| <= 3
            && (EncodeChunk(b) == g <==> SpareBitsClear(g))
            && (!last ==> |b| == 3 && SpareBitsClear(g))
  {
    hide Spelled, Sextet, Digit, EncodeChunk, DecodeGroup, SpareBitsClear, Padding, Low;
    PaddingShape(g, last);
    assert g == [g[0], g[1], g[2], g[3]];
    if Padding(g) == 0 {
      FourDigits(g[0], g[1], g[2], g[3], last);
      EncodeFour(g[0], g[1], g[2], g[3]);
    } else if Padding(g) == 1 {
      ThreeDigits(g[0], g[1], g[2]);
      EncodeThree(g[0], g[1], g[2]);
    } else {
      TwoDigits(g[0], g[1]);
      EncodeTwo(g[0], g[1]);
    }
  }

  /** A decoded text is what the encoder writes for its bytes if and only if its
   *  spare bits are clear; with other spare bits the decoder still accepts it. */
  lemma {:induction false} EncodeDecoded(s: seq<byte>)
    requires Decoded(s).Some?
    ensures Encoded(Decoded(s).value) == s <==> SpareBitsClear(s)
    decreases |s|
  {
    hide DecodeGroup, EncodeChunk, SpareBitsClear, Padding;
    if s == [] {
      assert SpareBitsClear([]) by { NothingIsClear(); }
    } else {
      var g, rest := s[..4], s[4..];
      assert s == g + rest;
      var b := DecodeGroup(g, |s| == 4).value;
      EncodeGroup(g, |s| == 4);
      if |s| == 4 {
        assert g == s && rest == [] && b + [] == b;
        assert DecodedGroups(rest) == Some([]);
        assert Decoded(s).value == b;
        assert Encoded(b) == EncodeChunk(b);
      } else {
        var more := Decoded(rest).value;
        assert Decoded(s).value == b + more;
        EncodeDecoded(rest);
        TailClear(s);
        assert more != [] by { DecodesToSome(rest); }
        assert (b + more)[..3] == b && (b + more)[3..] == more;
        assert Encoded(b + more) == g + Encoded(more);
        SameTail(g, Encoded(more), rest);
      }
    }
  }

  lemma {:induction false} NothingIsClear()
    ensures SpareBitsClear([])
  {
  }

  lemma {:induction false} SameTail(g: seq<byte>, a: seq<byte>, b: seq<byte>)
    ensures g + a == g + b <==> a == b
  {
    if g + a == g + b { assert (g + a)[|g|..] == a && (g + b)[|g|..] == b; }
  }

  lemma {:induction false} TailClear(s: seq<byte>)
    requires |s| >= 8
    ensures SpareBitsClear(s[4..]) == SpareBitsClear(s)
  {
    var n, t := |s|, s[4..];
    assert t[n - 5] == s[n - 1] && t[n - 6] == s[n - 2] && t[n - 7] == s[n - 3];
  }

  lemma {:induction false} DecodesToSome(s: seq<byte>)
    requires s != [] && Decoded(s).Some?
    ensures Decoded(s).value != []
  {
    hide Spelled, Sextet;
    assert |s| >= 4;
    assert DecodeGroup(s[..4], |s| == 4).value != [];
  }

  /** "Zh==" is accepted, although the encoder writes "Zg==" for the same byte. */
  lemma {:induction false} AcceptsSpareBits()
    ensures Decoded([90, 104, PAD, PAD]) == Some([102])
    ensures Encoded([102]) == [90, 103, PAD, PAD]
  {
    var s: seq<byte> := [90, 104, PAD, PAD];
    assert Sextet(90) == Some(25) && Sextet(104) == Some(33);
    TwoDigits(90, 104);
    assert Shift(25 * 64 + 33, 2) == 6688768;
    hide Shift, DecodeGroup;
    assert Bytes(6688768, 2) == [102];
    assert s[..4] == s && s[4..] == [] && [102] + [] == [102];
    assert DecodedGroups([]) == Some([]);
    var b: seq<byte> := [102];
    assert EncodeChunk(b) == [90, 103, PAD, PAD];
  }
}
