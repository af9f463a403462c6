/** What one frame turns into in each direction, said of the frame that comes out and in the
    numbers of RFC 6455 and RFC 7692: which frames are compressed, by which end, under which
    agreed parameter; and what both ends keep of their contexts after a message. */
module FrameSteps {
  import opened Common
  import opened FrameHeader
  import opened Rewriting
  import opened Frames
  import opened Deflate

  /** A frame that may be sent compressed: all of a text or binary message, without RSV1. */
  predicate WholeMessage(f: Frame) {
    (f.header.opcode == 1 || f.header.opcode == 2) && f.header.fin && !f.header.rsv1
  }

  /** The window the agreement leaves to the end that sends: its own, 15 bits unless it is
      told otherwise. Only that window is one the library can use. */
  predicate FullWindow(role: Role, p: Params) {
    if role.Client? then p.clientMaxWindowBits == None || p.clientMaxWindowBits == Some(15)
    else p.serverMaxWindowBits == None || p.serverMaxWindowBits == Some(15)
  }

  /** Of the frames an end sends, exactly its whole messages are compressed, and exactly when
      its own window is the full one; RSV1 marks them. Every other frame goes out as it is. */
  lemma {:induction false} SendsCompressed<D, I>(cfg: Config<D, I>, st: OutState<D>, f: Frame)
    requires StepOut(cfg, st, f).Some?
    ensures var g := StepOut(cfg, st, f).value.1;
      && (WholeMessage(f) ==>
           (g.header.rsv1 <==>
             if cfg.role.Client? then cfg.params.clientMaxWindowBits in {None, Some(15)}
             else cfg.params.serverMaxWindowBits in {None, Some(15)}))
      && (!WholeMessage(f) || !g.header.rsv1 ==> g == f)
  {
    hide Rebuilt, f.Plain, DeflateMessage;
    if WholeMessage(f) && FullWindow(cfg.role, cfg.params) {
      SentStep(cfg, st, f);
    } else {
      SentOther(cfg, st, f);
    }
  }

  /** A compressed message: the same flags, opcode and mask key, and for payload what the
      deflater gave, less the tail of a sync flush. The next message starts from the context the
      deflater was left with, or from a new one if the agreement says so of this end. */
  lemma {:induction false} SentMessage<D, I>(cfg: Config<D, I>, st: OutState<D>, f: Frame)
    requires StepOut(cfg, st, f).Some? && WholeMessage(f) && FullWindow(cfg.role, cfg.params)
    ensures var (next, g) := StepOut(cfg, st, f).value;
      var deflated := cfg.codec.deflate(if st.deflater.Some? then st.deflater.value else cfg.codec.newDeflater, f.Plain());
      && deflated.Some?
      && g.header == f.header.(rsv1 := true, len := g.header.len, payload := |g.payload|)
      && (var out := deflated.value.1;
          if |out| >= 4 && out[|out| - 4..] == [0x00, 0x00, 0xff, 0xff] then g.Plain() + [0x00, 0x00, 0xff, 0xff] == out
          else g.Plain() == out)
      && next.deflater == Some(
           if cfg.role.Client? && cfg.params.clientNoContextTakeover then cfg.codec.newDeflater
           else if cfg.role.Server? && cfg.params.serverNoContextTakeover then cfg.codec.newDeflater
           else deflated.value.0)
      && next.bytes == st.bytes + f.header.payload && next.wire == st.wire + |g.payload|
  {
    hide Rebuilt, f.Plain, DeflateMessage, StepOut, Compresses;
    SentStep(cfg, st, f);
    var d := if st.deflater.Some? then st.deflater.value else cfg.codec.newDeflater;
    var sent := DeflateMessage(cfg.codec, d, f.Plain()).value.1;
    RebuiltPlain(f, true, sent);
    WithoutTail(cfg.codec, d, f.Plain());
  }

  /** The step of a compressed message, by the deflater's part of it. */
  lemma {:induction false} SentStep<D, I>(cfg: Config<D, I>, st: OutState<D>, f: Frame)
    requires StepOut(cfg, st, f).Some? && WholeMessage(f) && FullWindow(cfg.role, cfg.params)
    ensures var message := DeflateMessage(cfg.codec, if st.deflater.Some? then st.deflater.value else cfg.codec.newDeflater, f.Plain());
      && message.Some?
      && StepOut(cfg, st, f) == Some((
           OutState(
             Some(if cfg.role.Client? && cfg.params.clientNoContextTakeover then cfg.codec.newDeflater
                  else if cfg.role.Server? && cfg.params.serverNoContextTakeover then cfg.codec.newDeflater
                  else message.value.0),
             st.bytes + f.header.payload,
             st.wire + |message.value.1|),
           Rebuilt(f, true, message.value.1)))
  {
    hide Rebuilt, f.Plain, DeflateMessage;
  }

  /** What is sent of a deflater's output. */
  lemma {:induction false} WithoutTail<D, I>(c: Codec<D, I>, d: D, data: seq<byte>)
    requires DeflateMessage(c, d, data).Some?
    ensures c.deflate(d, data).Some?
    ensures var (next, sent) := DeflateMessage(c, d, data).value; var out := c.deflate(d, data).value.1;
      && next == c.deflate(d, data).value.0
      && if |out| >= 4 && out[|out| - 4..] == [0x00, 0x00, 0xff, 0xff] then sent + [0x00, 0x00, 0xff, 0xff] == out
         else sent == out
  {
    var out := c.deflate(d, data).value.1;
    if EndsWithTail(out) {
      assert out == out[..|out| - 4] + out[|out| - 4..];
    }
  }

  lemma {:induction false} RebuiltPlain(f: Frame, rsv1: bool, plain: seq<byte>)
    ensures Rebuilt(f, rsv1, plain).Plain() == plain
  {
    MaskTwice(plain, f.header.mask);
  }

  /** Any other frame leaves the deflater as it was; text and binary frames are counted. */
  lemma {:induction false} SentOther<D, I>(cfg: Config<D, I>, st: OutState<D>, f: Frame)
    requires !WholeMessage(f) || !FullWindow(cfg.role, cfg.params)
    ensures var n := if f.header.opcode == 1 || f.header.opcode == 2 then f.header.payload else 0;
      StepOut(cfg, st, f) == Some((OutState(st.deflater, st.bytes + n, st.wire + n), f))
  {
  }

  /** A control frame comes through, counts in nothing and changes nothing. */
  lemma {:induction false} ReceivedControl<D, I>(cfg: Config<D, I>, st: InState<I>, f: Frame)
    requires f.header.opcode >= 8
    ensures StepIn(cfg, st, f) == Some((st, f))
  {
  }

  /** A data frame is compressed when its message is: the frame that opens the message, with
      an opcode other than 0, says so by RSV1, and those that continue it follow. A frame that
      is not comes through as it is. */
  lemma {:induction false} ReceivedPlain<D, I>(cfg: Config<D, I>, st: InState<I>, f: Frame)
    requires f.header.opcode < 8 && !(if f.header.opcode == 0 then st.inflating else f.header.rsv1)
    ensures StepIn(cfg, st, f) ==
      Some((InState(false, if f.header.opcode == 0 then st.inflated else 0, st.inflater,
                    st.bytes + f.header.payload, st.wire + f.header.payload), f))
  {
  }

  /** A compressed one is inflated, with the tail of a sync flush put back at the end of the
      message; the message may inflate to 64 MiB. The next message starts from the context the
      inflater was left with, or from a new one if the agreement says so of the other end. */
  lemma {:induction false} ReceivedCompressed<D, I>(cfg: Config<D, I>, st: InState<I>, f: Frame)
    requires f.header.opcode < 8 && (if f.header.opcode == 0 then st.inflating else f.header.rsv1)
    ensures var before := if f.header.opcode == 0 then st.inflated else 0;
      var inflated := cfg.codec.inflate(st.inflater, f.Plain() + (if f.header.fin then [0x00, 0x00, 0xff, 0xff] else []));
      var r := StepIn(cfg, st, f);
      && (r.Some? <==> inflated.Some? && before + |inflated.value.1| <= 67_108_864)
      && (r.Some? ==>
           var (next, g) := r.value;
           var out := inflated.value.1;
           && g.Plain() == out && g.header == f.header.(rsv1 := false, len := g.header.len, payload := |out|)
           && next.inflating == !f.header.fin && next.inflated == before + |out|
           && next.bytes == st.bytes + |out| && next.wire == st.wire + f.header.payload
           && next.inflater ==
                if f.header.fin && cfg.role.Client? && cfg.params.serverNoContextTakeover then cfg.codec.newInflater
                else if f.header.fin && cfg.role.Server? && cfg.params.clientNoContextTakeover then cfg.codec.newInflater
                else inflated.value.0)
  {
    assert f.Plain() + [] == f.Plain();
    hide f.Plain;
    var inflated := cfg.codec.inflate(st.inflater, f.Plain() + (if f.header.fin then [0x00, 0x00, 0xff, 0xff] else []));
    if inflated.Some? {
      RebuiltPlain(f, false, inflated.value.1);
    }
    hide Rebuilt;
  }

  /** Inbound, a frame may carry 64 MiB, and is refused for more as soon as its header is there;
      outbound, the layer takes any length. */
  lemma {:induction false} FrameLimits(f: Frame, rest: seq<byte>)
    requires f.Valid()
    ensures CutFrame(f.Bytes() + rest, Some(MAX_FRAME)) == if f.header.payload > 67_108_864 then TooLarge else Whole(f, rest)
    ensures CutFrame(f.Bytes() + rest, None) == Whole(f, rest)
  {
    hide f.Valid, f.Bytes, CutFrame;
    CutSerialized(f, rest, Some(MAX_FRAME));
    CutSerialized(f, rest, None);
  }
}
