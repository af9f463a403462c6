/** permessage-deflate (RFC 7692): what one frame turns into in each direction, over
    any compression library that keeps the two laws below. */
module Deflate {
  import opened Common
  import opened FrameHeader
  import opened Frames

  const SYNC_TAIL: seq<byte> := [0x00, 0x00, 0xff, 0xff]
  const MAX_MESSAGE: nat := 0x400_0000
  const MAX_FRAME: nat := 0x400_0000

  /** The compression library: a deflater and an inflater with their contexts.
      `inStep` says that an inflater has seen what a deflater has put out. */
  datatype Codec<!D, !I> = Codec(
    newDeflater: D,
    newInflater: I,
    deflate: (D, seq<byte>) -> Option<(D, seq<byte>)>,
    inflate: (I, seq<byte>) -> Option<(I, seq<byte>)>,
    inStep: (D, I) -> bool)

  /** The laws: new contexts are in step; a deflater's sync-flushed output ends in the
      sync tail, and an inflater in step with it gets the input back and stays in step; and
      an inflater may be given its input in pieces. */
  ghost predicate Lawful<D(!new), I(!new)>(c: Codec<D, I>) {
    InverseLaw(c) && PiecewiseLaw(c)
  }

  ghost predicate InverseLaw<D(!new), I(!new)>(c: Codec<D, I>) {
    && c.inStep(c.newDeflater, c.newInflater)
    && forall d: D, i: I, x: seq<byte> {:trigger c.inStep(d, i), c.deflate(d, x)} :: c.inStep(d, i) ==>
         && c.deflate(d, x).Some?
         && var (next, out) := c.deflate(d, x).value;
           && EndsWithTail(out)
           && c.inflate(i, out).Some?
           && c.inflate(i, out).value.1 == x
           && c.inStep(next, c.inflate(i, out).value.0)
  }

  ghost predicate PiecewiseLaw<D, I(!new)>(c: Codec<D, I>) {
    forall i: I, a: seq<byte>, b: seq<byte> :: c.inflate(i, a + b) == InPieces(c, i, a, b)
  }

  /** Two pieces inflated one after the other. */
  function InPieces<D, I>(c: Codec<D, I>, i: I, a: seq<byte>, b: seq<byte>): Option<(I, seq<byte>)> {
    var first := c.inflate(i, a);
    if first.None? then None else
    var second := c.inflate(first.value.0, b);
    if second.None? then None else Some((second.value.0, first.value.1 + second.value.1))
  }

  predicate EndsWithTail(s: seq<byte>) {
    |s| >= 4 && s[|s| - 4..] == SYNC_TAIL
  }

  // ----- a library that keeps the laws -----

  /** Every byte behind a 1. */
  function Pairs(x: seq<byte>): seq<byte> {
    if x == [] then [] else [1, x[0]] + Pairs(x[1..])
  }

  /** Reads pairs: the second byte of one that starts with a 1, nothing for any other. `half`
      is the first byte of a pair whose second has not come yet. */
  function Unpair(half: Option<byte>, s: seq<byte>): (Option<byte>, seq<byte>)
    decreases |s|
  {
    if s == [] then (half, [])
    else if half.None? then Unpair(Some(s[0]), s[1..])
    else
      var (last, out) := Unpair(None, s[1..]);
      (last, (if half.value == 1 then [s[0]] else []) + out)
  }

  /** It writes pairs, of which the sync tail is two without content. */
  function PairCodec(): Codec<(), Option<byte>> {
    Codec((), None,
      (d: (), x: seq<byte>) => Some(((), Pairs(x) + SYNC_TAIL)),
      (i: Option<byte>, s: seq<byte>) => Some(Unpair(i, s)),
      (d: (), i: Option<byte>) => i.None?)
  }

  lemma {:induction false} UnpairPieces(half: Option<byte>, a: seq<byte>, b: seq<byte>)
    ensures Unpair(half, a + b) == (Unpair(Unpair(half, a).0, b).0, Unpair(half, a).1 + Unpair(Unpair(half, a).0, b).1)
    decreases |a|
  {
    if a == [] {
      assert a + b == b && [] + Unpair(half, b).1 == Unpair(half, b).1;
    } else {
      assert (a + b)[0] == a[0] && (a + b)[1..] == a[1..] + b;
      if half.None? {
        UnpairPieces(Some(a[0]), a[1..], b);
      } else {
        UnpairPieces(None, a[1..], b);
        var head, x, y := if half.value == 1 then [a[0]] else [], Unpair(None, a[1..]).1, Unpair(Unpair(None, a[1..]).0, b).1;
        assert head + (x + y) == (head + x) + y;
      }
    }
  }

  lemma {:induction false} UnpairPairs(x: seq<byte>)
    ensures Unpair(None, Pairs(x)) == (None, x)
  {
    if x != [] {
      var p := Pairs(x);
      assert p[0] == 1 && p[1..][0] == x[0] && p[1..][1..] == Pairs(x[1..]);
      UnpairPairs(x[1..]);
      assert [x[0]] + x[1..] == x;
    }
  }

  /** A pair without content leaves no trace. */
  lemma {:induction false} UnpairSkips(a: byte, b: byte, s: seq<byte>)
    requires a != 1
    ensures Unpair(None, [a, b] + s) == Unpair(None, s)
  {
    var t := [a, b] + s;
    assert t[0] == a && t[1..][0] == b && t[1..][1..] == s;
    assert [] + Unpair(None, s).1 == Unpair(None, s).1;
  }

  lemma {:induction false} UnpairTail()
    ensures Unpair(None, SYNC_TAIL) == (None, [])
  {
    UnpairSkips(0xff, 0xff, []);
    UnpairSkips(0x00, 0x00, [0xff, 0xff]);
    var last: seq<byte> := [0xff, 0xff];
    assert last + [] == last && [0x00, 0x00] + last == SYNC_TAIL;
  }

  /** So the laws can be kept. */
  lemma {:induction false} PairCodecIsLawful()
    ensures Lawful(PairCodec())
  {
    var c := PairCodec();
    forall x: seq<byte> ensures EndsWithTail(Pairs(x) + SYNC_TAIL) && Unpair(None, Pairs(x) + SYNC_TAIL) == (None, x) {
      UnpairPairs(x);
      UnpairTail();
      UnpairPieces(None, Pairs(x), SYNC_TAIL);
      assert x + [] == x;
    }
    forall i: Option<byte>, a: seq<byte>, b: seq<byte> ensures c.inflate(i, a + b) == InPieces(c, i, a, b) {
      UnpairPieces(i, a, b);
    }
  }

  // ----- the agreement -----

  datatype Role = Client | Server
  {
    function Peer(): Role { if Client? then Server else Client }
  }

  /** The parameters of an agreed extension (section 7.1 of RFC 7692). */
  datatype Params = Params(
    serverNoContextTakeover: bool,
    clientNoContextTakeover: bool,
    serverMaxWindowBits: Option<nat>,
    clientMaxWindowBits: Option<nat>)
  {
    predicate CanCompress(role: Role) {
      var bits := if role.Client? then clientMaxWindowBits else serverMaxWindowBits;
      bits.None? || bits.value == 15
    }

    predicate ResetDeflater(role: Role) {
      if role.Client? then clientNoContextTakeover else serverNoContextTakeover
    }

    predicate ResetInflater(role: Role) {
      if role.Client? then serverNoContextTakeover else clientNoContextTakeover
    }
  }

  /** One agreed direction's fixed parts. */
  datatype Config<!D, !I> = Config(codec: Codec<D, I>, params: Params, role: Role)

  // ----- inbound -----

  /** The receiving side of an agreed connection: whether the data message in progress
      is compressed, its size so far, the inflater, and the run's byte counters. */
  datatype InState<+I> = InState(inflating: bool, inflated: nat, inflater: I, bytes: nat, wire: nat)

  /** Inflates one frame of a message, the sync tail added back at the message's end. */
  function Inflate<D, I>(c: Codec<D, I>, inflater: I, data: seq<byte>, last: bool, inflated: nat)
    : (r: Option<(I, seq<byte>)>)
    ensures r.Some? ==> inflated + |r.value.1| <= MAX_MESSAGE
  {
    match c.inflate(inflater, if last then data + SYNC_TAIL else data)
    case None => None
    case Some((next, out)) =>
      if inflated + |out| > MAX_MESSAGE then None else Some((next, out))
  }

  function StepIn<D, I>(cfg: Config<D, I>, st: InState<I>, f: Frame): Option<(InState<I>, Frame)> {
    var h := f.header;
    // A frame that opens a message decides for all of it.
    var first := h.IsData() && h.opcode != 0;
    var inflating := if first then h.rsv1 else st.inflating;
    var inflated := if first then 0 else st.inflated;
    if h.IsData() && inflating then
      match Inflate(cfg.codec, st.inflater, f.Plain(), h.fin, inflated)
      case None => None
      case Some((next, out)) =>
        var inflater := if h.fin && cfg.params.ResetInflater(cfg.role) then cfg.codec.newInflater else next;
        Some((InState(!h.fin, inflated + |out|, inflater, st.bytes + |out|, st.wire + h.payload),
              Rebuilt(f, false, out)))
    else
      var n := if h.IsData() then h.payload else 0;
      Some((InState(inflating, inflated, st.inflater, st.bytes + n, st.wire + n), f))
  }

  function InStepper<D, I>(cfg: Config<D, I>): (InState<I>, Frame) -> Option<(InState<I>, Frame)> {
    (st: InState<I>, f: Frame) => StepIn(cfg, st, f)
  }

  // ----- outbound -----

  /** The sending side: its deflater, made on first use, and the byte counters. */
  datatype OutState<+D> = OutState(deflater: Option<D>, bytes: nat, wire: nat)

  function DeflaterOf<D, I>(c: Codec<D, I>, st: OutState<D>): D {
    if st.deflater.Some? then st.deflater.value else c.newDeflater
  }

  /** Deflates a message, without the sync tail. */
  function DeflateMessage<D, I>(c: Codec<D, I>, deflater: D, data: seq<byte>): Option<(D, seq<byte>)> {
    match c.deflate(deflater, data)
    case None => None
    case Some((next, out)) => Some((next, if EndsWithTail(out) then out[..|out| - 4] else out))
  }

  predicate IsMessage(h: Header) { h.opcode == 1 || h.opcode == 2 }

  /** Whether an outbound frame is sent compressed. */
  predicate Compresses<D, I>(cfg: Config<D, I>, f: Frame) {
    cfg.params.CanCompress(cfg.role) && IsMessage(f.header) && f.header.fin && !f.header.rsv1
  }

  function StepOut<D, I>(cfg: Config<D, I>, st: OutState<D>, f: Frame): Option<(OutState<D>, Frame)> {
    if Compresses(cfg, f) then
      match DeflateMessage(cfg.codec, DeflaterOf(cfg.codec, st), f.Plain())
      case None => None
      case Some((next, out)) =>
        var deflater := if cfg.params.ResetDeflater(cfg.role) then cfg.codec.newDeflater else next;
        Some((OutState(Some(deflater), st.bytes + f.header.payload, st.wire + |out|), Rebuilt(f, true, out)))
    else
      var n := if IsMessage(f.header) then f.header.payload else 0;
      Some((OutState(st.deflater, st.bytes + n, st.wire + n), f))
  }

  function OutStepper<D, I>(cfg: Config<D, I>): (OutState<D>, Frame) -> Option<(OutState<D>, Frame)> {
    (st: OutState<D>, f: Frame) => StepOut(cfg, st, f)
  }

  // ----- byte accounting -----

  /** Payload bytes of the data frames of `fs`. */
  function DataBytes(fs: seq<Frame>): nat {
    if fs == [] then 0 else (if fs[0].header.opcode < 8 then fs[0].header.payload else 0) + DataBytes(fs[1..])
  }

  /** Over any error-free run of inbound frames, the byte counters grow by exactly the
      data bytes delivered and the data bytes taken off the wire. */
  lemma {:induction false} InboundAccounting<D, I>(cfg: Config<D, I>, limit: Option<nat>, st: InState<I>, fs: seq<Frame>)
    requires Fold(InStepper(cfg), limit, st, fs).Some?
    ensures var (last, gs) := Fold(InStepper(cfg), limit, st, fs).value;
      && last.bytes == st.bytes + DataBytes(gs)
      && last.wire == st.wire + DataBytes(fs)
    decreases |fs|
  {
    if fs != [] {
      var (next, g) := StepIn(cfg, st, fs[0]).value;
      InboundAccounting(cfg, limit, next, fs[1..]);
      var (last, gs) := Fold(InStepper(cfg), limit, next, fs[1..]).value;
      assert ([g] + gs)[1..] == gs;
    }
  }

  /** Payload bytes of the text and binary frames of `fs`. */
  function MessageBytes(fs: seq<Frame>): nat {
    if fs == [] then 0
    else (if fs[0].header.opcode == 1 || fs[0].header.opcode == 2 then fs[0].header.payload else 0) + MessageBytes(fs[1..])
  }

  /** The sending counters count only text and binary frames, as written and as sent. They
      equal the data bytes exactly when every other data frame (a continuation of a
      fragmented message) is empty. */
  lemma {:induction false} OutboundAccounting<D, I>(cfg: Config<D, I>, st: OutState<D>, fs: seq<Frame>)
    requires Fold(OutStepper(cfg), None, st, fs).Some?
    ensures var (last, gs) := Fold(OutStepper(cfg), None, st, fs).value;
      && last.bytes == st.bytes + MessageBytes(fs)
      && last.wire == st.wire + MessageBytes(gs)
    ensures MessageBytes(fs) <= DataBytes(fs)
    ensures MessageBytes(fs) == DataBytes(fs) <==>
      forall f :: f in fs && f.header.IsData() && !IsMessage(f.header) ==> f.header.payload == 0
    decreases |fs|
  {
    if fs != [] {
      var (next, g) := StepOut(cfg, st, fs[0]).value;
      OutboundAccounting(cfg, next, fs[1..]);
      var (last, gs) := Fold(OutStepper(cfg), None, next, fs[1..]).value;
      assert ([g] + gs)[1..] == gs;
      assert fs == [fs[0]] + fs[1..];
    }
  }

  /** Frames `fs[0..]` all belong to one compressed message: its first frame, then
      continuation frames and interleaved control frames, final data frame at most last. */
  predicate OneCompressedMessage(fs: seq<Frame>) {
    && fs != []
    && fs[0].header.IsData() && fs[0].header.opcode != 0 && fs[0].header.rsv1
    && ContinuesMessage(fs[0].header.fin, fs[1..])
  }

  predicate ContinuesMessage(ended: bool, fs: seq<Frame>)
    decreases |fs|
  {
    fs == [] ||
    if fs[0].header.IsData() then !ended && fs[0].header.opcode == 0 && ContinuesMessage(fs[0].header.fin, fs[1..])
    else ContinuesMessage(ended, fs[1..])
  }

  lemma {:induction false} ContinuationBound<D, I>(cfg: Config<D, I>, limit: Option<nat>, st: InState<I>, fs: seq<Frame>)
    requires st.inflated <= MAX_MESSAGE && ContinuesMessage(!st.inflating, fs)
    requires Fold(InStepper(cfg), limit, st, fs).Some?
    ensures var (last, gs) := Fold(InStepper(cfg), limit, st, fs).value;
      last.inflated == st.inflated + DataBytes(gs) <= 67_108_864
    decreases |fs|
  {
    if fs != [] {
      var (next, g) := StepIn(cfg, st, fs[0]).value;
      ContinuationBound(cfg, limit, next, fs[1..]);
      var (last, gs) := Fold(InStepper(cfg), limit, next, fs[1..]).value;
      assert ([g] + gs)[1..] == gs;
    }
  }

  /** No compressed message is delivered with more than MAX_MESSAGE bytes, however many
      fragments it comes in and whatever came before it. */
  lemma {:induction false} MessageBound<D, I>(
      cfg: Config<D, I>, limit: Option<nat>, st: InState<I>, before: seq<Frame>, message: seq<Frame>)
    requires OneCompressedMessage(message)
    requires Fold(InStepper(cfg), limit, st, before + message).Some?
    ensures DataBytes(Fold(InStepper(cfg), limit, st, before + message).value.1[|before|..]) <= 67_108_864
    decreases |before|
  {
    if before == [] {
      assert before + message == message;
      var (next, g) := StepIn(cfg, st, message[0]).value;
      ContinuationBound(cfg, limit, next, message[1..]);
      var (last, gs) := Fold(InStepper(cfg), limit, next, message[1..]).value;
      assert ([g] + gs)[1..] == gs;
    } else {
      var (next, g) := StepIn(cfg, st, before[0]).value;
      assert (before + message)[1..] == before[1..] + message && (before + message)[0] == before[0];
      MessageBound(cfg, limit, next, before[1..], message);
      var (last, gs) := Fold(InStepper(cfg), limit, next, before[1..] + message).value;
      assert ([g] + gs)[|before|..] == gs[|before| - 1..];
    }
  }
}
