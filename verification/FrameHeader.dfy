/** WebSocket frame headers (section 5.2 of RFC 6455) and frame masks. */
module FrameHeader {
  import opened Common

  type Key = k: seq<byte> | |k| == 4 witness [0, 0, 0, 0]

  /** The RSV2 and RSV3 bits, in place. */
  type Rsv23Bits = b: int | b == 0 || b == 0x10 || b == 0x20 || b == 0x30

  type Nibble = b: int | 0 <= b < 16

  /** A parsed header. `len` is the header's own length, `payload` the payload's. */
  datatype Header = Header(
    fin: bool,
    rsv1: bool,
    rsv23: Rsv23Bits,
    opcode: Nibble,
    mask: Option<Key>,
    len: nat,
    payload: nat)
  {
    /** Data frames have opcodes 0 to 7, control frames the others. */
    predicate IsData() { opcode < 8 }
  }

  const U64: nat := 0x1_0000_0000_0000_0000

  // ----- big-endian numbers -----

  function Pow256(k: nat): nat { if k == 0 then 1 else 256 * Pow256(k - 1) }

  function FromBigEndian(s: seq<byte>): (n: nat)
  {
    if s == [] then 0 else FromBigEndian(s[..|s| - 1]) * 256 + s[|s| - 1]
  }

  /** The low `k` bytes of `n`, most significant first. */
  function ToBigEndian(n: nat, k: nat): (s: seq<byte>)
    ensures |s| == k
  {
    if k == 0 then [] else ToBigEndian(n / 256, k - 1) + [n % 256]
  }

  lemma {:induction false} BigEndianRoundTrip(n: nat, k: nat)
    requires n < Pow256(k)
    ensures FromBigEndian(ToBigEndian(n, k)) == n
  {
    if k > 0 {
      BigEndianRoundTrip(n / 256, k - 1);
      var s := ToBigEndian(n, k);
      assert s[..|s| - 1] == ToBigEndian(n / 256, k - 1);
    }
  }

  lemma {:induction false} BigEndianInverse(s: seq<byte>)
    ensures FromBigEndian(s) < Pow256(|s|)
    ensures ToBigEndian(FromBigEndian(s), |s|) == s
  {
    if s != [] {
      BigEndianInverse(s[..|s| - 1]);
      assert s == s[..|s| - 1] + [s[|s| - 1]];
    }
  }

  lemma {:induction false} Pow256Values()
    ensures Pow256(2) == 0x1_0000 && Pow256(8) == U64
  {
    assert Pow256(1) == 256;
    assert Pow256(2) == 0x1_0000;
    assert Pow256(3) == 0x100_0000;
    assert Pow256(4) == 0x1_0000_0000;
    assert Pow256(5) == 0x100_0000_0000;
    assert Pow256(6) == 0x1_0000_0000_0000;
    assert Pow256(7) == 0x100_0000_0000_0000;
  }

  // ----- the codec -----

  // The fields of a header's first byte.
  predicate Fin(b: byte) { b / 128 == 1 }
  predicate Rsv1(b: byte) { b / 64 % 2 == 1 }
  function Rsv23(b: byte): Rsv23Bits { b / 16 % 4 * 16 }
  function Opcode(b: byte): Nibble { b % 16 }

  /** The first byte with the given fields. */
  function FlagByte(h: Header, rsv1: bool): byte
  {
    (if h.fin then 0x80 else 0) + (if rsv1 then 0x40 else 0) + h.rsv23 + h.opcode
  }

  lemma {:induction false} FlagByteFields(h: Header, rsv1: bool)
    ensures var b := FlagByte(h, rsv1);
      Fin(b) == h.fin && Rsv1(b) == rsv1 && Rsv23(b) == h.rsv23 && Opcode(b) == h.opcode
  {
    var high := (if h.fin then 2 else 0) + (if rsv1 then 1 else 0);
    FlagBits(high, h.rsv23 / 16, h.opcode);
  }

  /** A byte of two high bits, two middle bits and a low nibble. */
  lemma {:induction false} FlagBits(high: nat, middle: nat, low: nat)
    requires high < 4 && middle < 4 && low < 16
    ensures var b := high * 64 + middle * 16 + low;
      b < 256 && b / 128 == high / 2 && b / 64 % 2 == high % 2 && b / 16 % 4 == middle && b % 16 == low
  {
    var b := high * 64 + middle * 16 + low;
    assert b / 64 == high && b / 16 == high * 4 + middle;
  }

  lemma {:induction false} FlagByteOfFields(b: byte, h: Header)
    requires Fin(b) == h.fin && Rsv23(b) == h.rsv23 && Opcode(b) == h.opcode
    ensures FlagByte(h, Rsv1(b)) == b
  {
    assert b == b / 128 * 128 + b / 64 % 2 * 64 + b / 16 % 4 * 16 + b % 16;
  }

  /** Bytes of the extended length field that a 7-bit length announces. */
  function ExtendedLen(short: nat): nat {
    if short == 126 then 2 else if short == 127 then 8 else 0
  }

  /** The header that `buf` begins with, if all of it is there. */
  function Parse(buf: seq<byte>): (r: Option<Header>)
    ensures r.Some? ==> 2 <= r.value.len <= |buf|
  {
    if |buf| < 2 then None else
    var b0, b1 := buf[0], buf[1];
    var short := b1 % 128;
    var at := 2 + ExtendedLen(short);
    if |buf| < at then None else
    var payload := if short < 126 then short else FromBigEndian(buf[2..at]);
    var masked := b1 / 128 == 1;
    if masked && |buf| < at + 4 then None else
    var mask: Option<Key> := if masked then Some(buf[at..at + 4]) else None;
    Some(Header(
      Fin(b0), Rsv1(b0), Rsv23(b0), Opcode(b0),
      mask,
      if masked then at + 4 else at,
      payload))
  }

  /** The 7-bit length that stands for a payload of `payload` bytes. */
  function ShortLen(payload: nat): nat {
    if payload <= 125 then payload else if payload <= 0xffff then 126 else 127
  }

  /** The header with `h`'s flags and mask, the given RSV1 bit and payload length. */
  function Write(h: Header, rsv1: bool, payload: nat): (out: seq<byte>)
    ensures |out| == 2 + ExtendedLen(ShortLen(payload)) + (if h.mask.Some? then 4 else 0)
  {
    var maskBit := if h.mask.Some? then 0x80 else 0;
    var short := ShortLen(payload);
    [FlagByte(h, rsv1), maskBit + short]
      + ToBigEndian(payload, ExtendedLen(short))
      + (if h.mask.Some? then h.mask.value else [])
  }

  /** A written header, followed by any bytes, parses back to what was written. */
  lemma {:induction false} ParseWritten(h: Header, rsv1: bool, payload: nat, tail: seq<byte>)
    requires payload < U64
    ensures Parse(Write(h, rsv1, payload) + tail)
         == Some(h.(rsv1 := rsv1, len := |Write(h, rsv1, payload)|, payload := payload))
  {
    var short := ShortLen(payload);
    var ext := ExtendedLen(short);
    var buf := Write(h, rsv1, payload) + tail;
    FlagByteFields(h, rsv1);
    assert buf[0] == FlagByte(h, rsv1);
    assert buf[1] % 128 == short && (buf[1] / 128 == 1 <==> h.mask.Some?);
    var key := if h.mask.Some? then h.mask.value else [];
    assert buf == buf[..2] + (ToBigEndian(payload, ext) + (key + tail));
    assert buf[2..2 + ext] == ToBigEndian(payload, ext);
    assert short >= 126 ==> FromBigEndian(buf[2..2 + ext]) == payload by {
      Pow256Values();
      if short >= 126 {
        BigEndianRoundTrip(payload, ext);
      }
    }
    assert h.mask.Some? ==> buf[2 + ext..2 + ext + 4] == h.mask.value;
  }

  /** Parsing is decided by exactly the header's bytes: no proper prefix of them
      parses, and nothing after them matters. */
  lemma {:induction false} ParseIsPrefixFree(buf: seq<byte>, k: nat, tail: seq<byte>)
    requires Parse(buf).Some?
    ensures k < Parse(buf).value.len ==> Parse(buf[..k]) == None
    ensures Parse(buf[..Parse(buf).value.len] + tail) == Parse(buf)
    ensures Parse(buf + tail) == Parse(buf)
  {
    var h := Parse(buf).value;
    var at := 2 + ExtendedLen(buf[1] % 128);
    var cut := buf[..h.len] + tail;
    assert cut[2..at] == buf[2..at] == (buf + tail)[2..at];
    if h.mask.Some? {
      assert cut[at..at + 4] == buf[at..at + 4] == (buf + tail)[at..at + 4];
    }
  }

  /** Rewriting a parsed header reproduces its bytes exactly when it used the
      shortest length field. */
  lemma {:induction false} WriteParsed(buf: seq<byte>)
    requires Parse(buf).Some?
    ensures var h := Parse(buf).value;
      Write(h, h.rsv1, h.payload) == buf[..h.len] <==> ShortLen(h.payload) == buf[1] % 128
  {
    var h := Parse(buf).value;
    var short := buf[1] % 128;
    var at := 2 + ExtendedLen(short);
    var out := Write(h, h.rsv1, h.payload);
    FlagByteOfFields(buf[0], h);
    assert out[1] % 128 == ShortLen(h.payload);
    if short == ShortLen(h.payload) {
      assert ToBigEndian(h.payload, at - 2) == buf[2..at] by {
        if short >= 126 {
          BigEndianInverse(buf[2..at]);
        }
      }
      assert out[1] == buf[1];
      var key := if h.mask.Some? then h.mask.value else [];
      assert buf[at..h.len] == key;
      assert buf[..h.len] == [buf[0], buf[1]] + buf[2..at] + key;
    }
  }

  // ----- the layout, byte by byte -----

  function TwoByteNumber(s: seq<byte>): int
    requires |s| == 2
  {
    s[0] as int * 0x100 + s[1]
  }

  function EightByteNumber(s: seq<byte>): int
    requires |s| == 8
  {
    s[0] as int * 0x100_0000_0000_0000 + s[1] as int * 0x1_0000_0000_0000 + s[2] as int * 0x100_0000_0000
    + s[3] as int * 0x1_0000_0000 + s[4] as int * 0x100_0000 + s[5] as int * 0x1_0000 + s[6] as int * 0x100 + s[7]
  }

  lemma {:induction false} TwoBytes(s: seq<byte>)
    requires |s| == 2
    ensures FromBigEndian(s) == TwoByteNumber(s)
  {
    assert s[..1] == [s[0]] && s[..1][..0] == [];
    assert FromBigEndian(s[..1]) == s[0];
  }

  lemma {:induction false} FourBytes(s: seq<byte>)
    requires |s| == 4
    ensures FromBigEndian(s) == s[0] as int * 0x100_0000 + s[1] as int * 0x1_0000 + s[2] as int * 0x100 + s[3]
  {
    var t := s[..3];
    assert t[..2] == s[..2];
    TwoBytes(s[..2]);
    assert FromBigEndian(t) == FromBigEndian(s[..2]) * 256 + t[2];
  }

  lemma {:induction false} EightBytes(s: seq<byte>)
    requires |s| == 8
    ensures FromBigEndian(s) == EightByteNumber(s)
  {
    var a, b, c := s[..7], s[..6], s[..5];
    assert a[..6] == b && b[..5] == c && c[..4] == s[..4];
    FourBytes(s[..4]);
    assert FromBigEndian(c) == FromBigEndian(s[..4]) * 256 + s[4];
    assert FromBigEndian(b) == FromBigEndian(c) * 256 + s[5];
    assert FromBigEndian(a) == FromBigEndian(b) * 256 + s[6];
  }

  /** Figure of section 5.2 of RFC 6455: a length below 126 stands in the second byte, 126 there
      is followed by two bytes of length and 127 by eight; the top bit announces a mask key of
      four bytes. A buffer that holds fewer bytes than that has no header yet. */
  lemma {:induction false} ParseLength(buf: seq<byte>)
    ensures |buf| < 2 ==> Parse(buf) == None
    ensures |buf| >= 2 ==>
      var short := buf[1] % 0x80;
      var at := if short < 126 then 2 else if short == 126 then 4 else 10;
      var end := if buf[1] >= 0x80 then at + 4 else at;
      && (Parse(buf).Some? <==> |buf| >= end)
      && (Parse(buf).Some? ==>
           var h := Parse(buf).value;
           && h.len == end
           && h.mask == (if buf[1] >= 0x80 then Some(buf[at..at + 4]) else None)
           && (short < 126 ==> h.payload == short)
           && (short == 126 ==> h.payload == TwoByteNumber(buf[2..4]))
           && (short == 127 ==> h.payload == EightByteNumber(buf[2..10])))
  {
    if |buf| >= 4 && buf[1] % 0x80 == 126 {
      TwoBytes(buf[2..4]);
    }
    if |buf| >= 10 && buf[1] % 0x80 == 127 {
      EightBytes(buf[2..10]);
    }
    hide FromBigEndian;
  }

  /** The first byte: FIN, the three RSV bits and the opcode, from the top. */
  lemma {:induction false} ParseFlags(buf: seq<byte>)
    requires Parse(buf).Some?
    ensures var h := Parse(buf).value;
      && (h.fin <==> buf[0] >= 0x80)
      && (h.rsv1 <==> buf[0] % 0x80 >= 0x40)
      && h.rsv23 == buf[0] % 0x40 - buf[0] % 0x10
      && h.opcode == buf[0] % 0x10
  {
    hide FromBigEndian;
    var b := buf[0];
    assert b == b / 128 * 128 + b / 64 % 2 * 64 + b / 16 % 4 * 16 + b % 16;
  }

  /** What is written: the flag byte, the shortest of the three lengths, and the mask key. */
  lemma {:induction false} WriteLayout(h: Header, rsv1: bool, payload: nat)
    requires payload < 0x1_0000_0000_0000_0000
    ensures var out := Write(h, rsv1, payload);
      var at := if payload <= 125 then 2 else if payload <= 0xffff then 4 else 10;
      && |out| == at + (if h.mask.Some? then 4 else 0)
      && out[0] == (if h.fin then 0x80 else 0) + (if rsv1 then 0x40 else 0) + h.rsv23 + h.opcode
      && out[1] == (if h.mask.Some? then 0x80 else 0)
           + (if payload <= 125 then payload else if payload <= 0xffff then 126 else 127)
      && (125 < payload <= 0xffff ==> TwoByteNumber(out[2..4]) == payload)
      && (payload > 0xffff ==> EightByteNumber(out[2..10]) == payload)
      && (h.mask.Some? ==> out[at..] == h.mask.value)
  {
    var out := Write(h, rsv1, payload);
    var at := if payload <= 125 then 2 else if payload <= 0xffff then 4 else 10;
    var bytes := ToBigEndian(payload, at - 2);
    var key := if h.mask.Some? then h.mask.value else [];
    assert out == out[..2] + (bytes + key);
    assert out[2..at] == bytes && out[at..] == key;
    Pow256Values();
    if 125 < payload <= 0xffff {
      BigEndianRoundTrip(payload, 2);
      TwoBytes(bytes);
    } else if payload > 0xffff {
      BigEndianRoundTrip(payload, 8);
      EightBytes(bytes);
    }
  }

  // ----- masks -----

  /** Bitwise exclusive or of the low `bits` bits. */
  function XorBits(a: nat, b: nat, bits: nat): (r: nat)
    ensures r < Pow2(bits)
  {
    if bits == 0 then 0 else 2 * XorBits(a / 2, b / 2, bits - 1) + (if a % 2 == b % 2 then 0 else 1)
  }

  function Xor(a: byte, b: byte): byte {
    assert Pow2(1) == 2 && Pow2(2) == 4 && Pow2(3) == 8 && Pow2(4) == 16 && Pow2(8) == 256;
    XorBits(a, b, 8)
  }

  lemma {:induction false} XorBitsTwice(a: nat, b: nat, bits: nat)
    requires a < Pow2(bits)
    ensures XorBits(XorBits(a, b, bits), b, bits) == a
  {
    if bits > 0 {
      XorBitsTwice(a / 2, b / 2, bits - 1);
      var x := XorBits(a, b, bits);
      assert x / 2 == XorBits(a / 2, b / 2, bits - 1);
      assert x % 2 == if a % 2 == b % 2 then 0 else 1;
    }
  }

  lemma {:induction false} XorTwice(a: byte, b: byte)
    ensures Xor(Xor(a, b), b) == a
  {
    assert Pow2(4) == 16 && Pow2(8) == 256;
    XorBitsTwice(a, b, 8);
  }

  /** `data` with the mask applied (or removed). */
  function Mask(data: seq<byte>, key: Option<Key>): (r: seq<byte>)
    ensures |r| == |data|
  {
    match key
    case None => data
    case Some(k) => seq(|data|, i requires 0 <= i < |data| => Xor(data[i], k[i % 4]))
  }

  /** Masking twice with one key gives the data back. */
  lemma {:induction false} MaskTwice(data: seq<byte>, key: Option<Key>)
    ensures Mask(Mask(data, key), key) == data
  {
    if key.Some? {
      forall i | 0 <= i < |data| {
        XorTwice(data[i], key.value[i % 4]);
      }
    }
  }

  /** The in-place loop over a frame's payload. */
  method ApplyMask(data: array<byte>, key: Key)
    modifies data
    ensures data[..] == Mask(old(data[..]), Some(key))
  {
    var i := 0;
    while i < data.Length
      invariant 0 <= i <= data.Length
      invariant forall j :: 0 <= j < i ==> data[j] == Xor(old(data[j]), key[j % 4])
      invariant forall j :: i <= j < data.Length ==> data[j] == old(data[j])
    {
      data[i] := Xor(data[i], key[i % 4]);
      i := i + 1;
    }
  }

  /** Bit `k` of a number, the lowest first. */
  function Bit(n: nat, k: nat): nat
    decreases k
  {
    if k == 0 then n % 2 else Bit(n / 2, k - 1)
  }

  /** Exclusive or, bit by bit: a bit is set where exactly one of the two is. */
  lemma {:induction false} XorBit(a: nat, b: nat, bits: nat, k: nat)
    requires k < bits
    ensures Bit(XorBits(a, b, bits), k) == if Bit(a, k) == Bit(b, k) then 0 else 1
  {
    var x := XorBits(a, b, bits);
    assert x / 2 == XorBits(a / 2, b / 2, bits - 1);
    if k > 0 {
      XorBit(a / 2, b / 2, bits - 1, k - 1);
    }
  }

  /** A mask flips, in byte `i`, exactly the bits that byte `i` modulo 4 of the key has. */
  lemma {:induction false} MaskBit(data: seq<byte>, key: Key, i: nat, k: nat)
    requires i < |data| && k < 8
    ensures Mask(data, None) == data
    ensures Bit(Mask(data, Some(key))[i], k) == if Bit(data[i], k) == Bit(key[i % 4], k) then 0 else 1
  {
    XorBit(data[i], key[i % 4], 8, k);
  }
}
