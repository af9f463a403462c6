/** One peer's outbound rewriting followed by the other's inbound rewriting. */
module EndToEnd {
  import opened Common
  import opened FrameHeader
  import opened Frames
  import opened Deflate

  /** The other end of the same agreement. */
  function PeerOf<D, I>(cfg: Config<D, I>): Config<D, I> { cfg.(role := cfg.role.Peer()) }

  /** The receiver is between messages and its inflater is in step with the sender's deflater. */
  predicate Paired<D, I>(cfg: Config<D, I>, sender: OutState<D>, receiver: InState<I>) {
    !receiver.inflating && cfg.codec.inStep(DeflaterOf(cfg.codec, sender), receiver.inflater)
  }

  /** Frames as an application may write them: no data frame has RSV1 set. */
  ghost predicate Plain(fs: seq<Frame>) {
    forall f :: f in fs ==> f.Valid() && (f.header.IsData() ==> !f.header.rsv1)
  }

  /** What the receiving application sees of a frame. Only the header bytes can differ:
      a compressed frame comes out with the shortest length field. */
  function Delivered<D, I>(cfg: Config<D, I>, f: Frame): Frame {
    if Compresses(cfg, f) then Rebuilt(f, false, f.Plain()) else f
  }

  function DeliveredAll<D, I>(cfg: Config<D, I>, fs: seq<Frame>): (r: seq<Frame>)
    ensures |r| == |fs|
  {
    if fs == [] then [] else [Delivered(cfg, fs[0])] + DeliveredAll(cfg, fs[1..])
  }

  /** Delivery keeps everything an application can observe of a frame. */
  lemma {:induction false} DeliveredSame<D, I>(cfg: Config<D, I>, f: Frame)
    requires f.Valid()
    ensures var g := Delivered(cfg, f);
      && g.header == f.header.(len := g.header.len)
      && g.payload == f.payload
      && g.Plain() == f.Plain()
      && (|f.payload| < U64 ==> g.Valid())
      && (g == f <==> !Compresses(cfg, f) || ShortLen(f.header.payload) == f.head[1] % 128)
  {
    MaskTwice(f.payload, f.header.mask);
    if |f.payload| < U64 {
      RebuiltValid(f, false, f.Plain());
    }
    WriteParsed(f.head);
    assert f.head[..f.header.len] == f.head;
  }

  /** The size limits of the receiver on a frame `f` that goes over the wire as `g`. */
  predicate Fits<D, I>(cfg: Config<D, I>, f: Frame, g: Frame) {
    && g.header.payload <= MAX_FRAME
    && (Compresses(cfg, f) ==> |f.payload| <= MAX_MESSAGE)
  }

  predicate AllFit<D, I>(cfg: Config<D, I>, fs: seq<Frame>, gs: seq<Frame>)
    requires |fs| == |gs|
  {
    forall k :: 0 <= k < |fs| ==> Fits(cfg, fs[k], gs[k])
  }

  /** One frame over the wire and back. */
  lemma {:induction false} FrameRoundTrip<D(!new), I(!new)>(cfg: Config<D, I>, sender: OutState<D>, receiver: InState<I>, f: Frame)
    requires Lawful(cfg.codec) && Paired(cfg, sender, receiver)
    requires f.Valid() && (f.header.IsData() ==> !f.header.rsv1)
    ensures StepOut(cfg, sender, f).Some?
    ensures var (sender', g) := StepOut(cfg, sender, f).value;
      && (g.header.payload <= MAX_FRAME ==> g.Valid())
      && (Fits(cfg, f, g) ==>
           && StepIn(PeerOf(cfg), receiver, g).Some?
           && StepIn(PeerOf(cfg), receiver, g).value.1 == Delivered(cfg, f)
           && Paired(cfg, sender', StepIn(PeerOf(cfg), receiver, g).value.0))
      && (g.header.payload <= MAX_FRAME && !Fits(cfg, f, g) ==> StepIn(PeerOf(cfg), receiver, g).None?)
  {
    hide Lawful, Paired, StepIn, StepOut, Delivered;
    if Compresses(cfg, f) {
      CompressedRoundTrip(cfg, sender, receiver, f);
    } else {
      UnchangedRoundTrip(cfg, sender, receiver, f);
    }
  }

  /** A frame that is not compressed passes both ends as it is. */
  lemma {:induction false} UnchangedRoundTrip<D, I>(cfg: Config<D, I>, sender: OutState<D>, receiver: InState<I>, f: Frame)
    requires Paired(cfg, sender, receiver) && !Compresses(cfg, f)
    requires f.Valid() && (f.header.IsData() ==> !f.header.rsv1)
    ensures StepOut(cfg, sender, f).Some?
    ensures var (sender', g) := StepOut(cfg, sender, f).value;
      && g == f == Delivered(cfg, f)
      && StepIn(PeerOf(cfg), receiver, g).Some?
      && StepIn(PeerOf(cfg), receiver, g).value.1 == f
      && Paired(cfg, sender', StepIn(PeerOf(cfg), receiver, g).value.0)
  {
    hide Rebuilt, Inflate, f.Valid;
  }

  /** A message goes through a lawful codec and comes back, the contexts still in step. */
  lemma {:induction false} MessageSurvives<D(!new), I(!new)>(c: Codec<D, I>, d: D, i: I, x: seq<byte>)
    returns (next: D, short: seq<byte>, j: I)
    requires Lawful(c) && c.inStep(d, i)
    ensures DeflateMessage(c, d, x) == Some((next, short))
    ensures c.inflate(i, short + SYNC_TAIL) == Some((j, x)) && c.inStep(next, j)
  {
    var out := c.deflate(d, x).value.1;
    next, short, j := c.deflate(d, x).value.0, out[..|out| - 4], c.inflate(i, out).value.0;
    assert short + SYNC_TAIL == out;
  }

  /** What the receiver makes of a compressed frame that inflates to `x`. */
  lemma {:induction false} Received<D, I>(cfg: Config<D, I>, receiver: InState<I>, g: Frame, j: I, x: seq<byte>)
    requires IsMessage(g.header) && g.header.fin && g.header.rsv1
    requires cfg.codec.inflate(receiver.inflater, g.Plain() + SYNC_TAIL) == Some((j, x))
    ensures var reset := cfg.params.ResetInflater(cfg.role);
      StepIn(cfg, receiver, g) ==
        if |x| > MAX_MESSAGE then None
        else Some((InState(false, |x|, if reset then cfg.codec.newInflater else j,
                           receiver.bytes + |x|, receiver.wire + g.header.payload), Rebuilt(g, false, x)))
  {
    hide Rebuilt, g.Plain;
  }

  /** A compressed frame is inflated to what it was, by an inflater in step. */
  lemma {:induction false} CompressedRoundTrip<D(!new), I(!new)>(cfg: Config<D, I>, sender: OutState<D>, receiver: InState<I>, f: Frame)
    requires Lawful(cfg.codec) && Paired(cfg, sender, receiver) && Compresses(cfg, f)
    requires f.Valid() && !f.header.rsv1
    ensures StepOut(cfg, sender, f).Some?
    ensures var (sender', g) := StepOut(cfg, sender, f).value;
      && (g.header.payload <= MAX_FRAME ==> g.Valid())
      && (Fits(cfg, f, g) ==>
           && StepIn(PeerOf(cfg), receiver, g).Some?
           && StepIn(PeerOf(cfg), receiver, g).value.1 == Delivered(cfg, f)
           && Paired(cfg, sender', StepIn(PeerOf(cfg), receiver, g).value.0))
      && (g.header.payload <= MAX_FRAME && !Fits(cfg, f, g) ==> StepIn(PeerOf(cfg), receiver, g).None?)
  {
    var d, x := DeflaterOf(cfg.codec, sender), f.Plain();
    var next, short, j := MessageSurvives(cfg.codec, d, receiver.inflater, x);
    var g := Rebuilt(f, true, short);
    NewInStep(cfg.codec);
    hide Lawful, DeflateMessage, StepIn, Rebuilt, f.Valid, f.Plain;
    if |short| <= MAX_FRAME {
      RebuiltValid(f, true, short);
      Received(PeerOf(cfg), receiver, g, j, x);
      RebuiltTwice(f, short, x);
    }
  }

  lemma {:induction false} NewInStep<D(!new), I(!new)>(c: Codec<D, I>)
    requires Lawful(c)
    ensures c.inStep(c.newDeflater, c.newInflater)
  {
  }

  /** A rebuilt frame's payload leaves no trace once it is rebuilt again. */
  lemma {:induction false} RebuiltTwice(f: Frame, short: seq<byte>, x: seq<byte>)
    ensures Rebuilt(Rebuilt(f, true, short), false, x) == Rebuilt(f, false, x)
    ensures |f.Plain()| == |f.payload|
  {
    hide Mask;
  }

  /** End to end, over whole runs: with a lawful codec, a sender never fails; its peer
      accepts exactly the runs within the size limits, and then delivers every frame in
      order, with both contexts still in step. */
  lemma {:induction false} RunRoundTrip<D(!new), I(!new)>(
      cfg: Config<D, I>, sender: OutState<D>, receiver: InState<I>, fs: seq<Frame>)
    requires Lawful(cfg.codec) && Paired(cfg, sender, receiver) && Plain(fs)
    ensures Fold(OutStepper(cfg), None, sender, fs).Some?
    ensures var (sender', gs) := Fold(OutStepper(cfg), None, sender, fs).value;
      var back := Fold(InStepper(PeerOf(cfg)), Some(MAX_FRAME), receiver, gs);
      && (back.Some? <==> AllFit(cfg, fs, gs))
      && (back.Some? ==> AllValid(gs) && back.value.1 == DeliveredAll(cfg, fs) && Paired(cfg, sender', back.value.0))
    decreases |fs|
  {
    hide Lawful, Paired, StepOut, StepIn, Delivered, Compresses, CutFrame, Rebuilt;
    if fs != [] {
      FrameRoundTrip(cfg, sender, receiver, fs[0]);
      var (s1, g) := StepOut(cfg, sender, fs[0]).value;
      if Fits(cfg, fs[0], g) {
        var (r1, h) := StepIn(PeerOf(cfg), receiver, g).value;
        RunRoundTrip(cfg, s1, r1, fs[1..]);
        var (s2, gs) := Fold(OutStepper(cfg), None, s1, fs[1..]).value;
        assert ([g] + gs)[1..] == gs;
        assert AllFit(cfg, fs, [g] + gs) <==> AllFit(cfg, fs[1..], gs) by {
          AllFitCons(cfg, fs, [g] + gs);
        }
      } else {
        assert cfg.codec.inStep(DeflaterOf(cfg.codec, sender), receiver.inflater) by { PairedInStep(cfg, sender, receiver); }
        var j := SenderStep(cfg, sender, receiver.inflater, fs[0]);
        SenderNeverFails(cfg, s1, j, fs[1..]);
        var (s2, gs) := Fold(OutStepper(cfg), None, s1, fs[1..]).value;
        assert ([g] + gs)[0] == g;
        assert !Fits(cfg, fs[0], ([g] + gs)[0]);
      }
    }
  }

  lemma {:induction false} PairedInStep<D, I>(cfg: Config<D, I>, sender: OutState<D>, receiver: InState<I>)
    requires Paired(cfg, sender, receiver)
    ensures cfg.codec.inStep(DeflaterOf(cfg.codec, sender), receiver.inflater)
  {
  }

  lemma {:induction false} AllFitCons<D, I>(cfg: Config<D, I>, fs: seq<Frame>, gs: seq<Frame>)
    requires |fs| == |gs| > 0
    ensures AllFit(cfg, fs, gs) <==> Fits(cfg, fs[0], gs[0]) && AllFit(cfg, fs[1..], gs[1..])
  {
    if Fits(cfg, fs[0], gs[0]) && AllFit(cfg, fs[1..], gs[1..]) {
      forall k | 0 <= k < |fs| ensures Fits(cfg, fs[k], gs[k]) {
        if k > 0 {
          assert Fits(cfg, fs[1..][k - 1], gs[1..][k - 1]);
        }
      }
    }
    if AllFit(cfg, fs, gs) {
      forall k | 0 <= k < |fs| - 1 ensures Fits(cfg, fs[1..][k], gs[1..][k]) {
        assert Fits(cfg, fs[k + 1], gs[k + 1]);
      }
    }
  }

  /** After any step the sender's deflater still has an inflater in step with it. */
  lemma {:induction false} SenderStep<D(!new), I(!new)>(cfg: Config<D, I>, sender: OutState<D>, i: I, f: Frame) returns (j: I)
    requires Lawful(cfg.codec) && cfg.codec.inStep(DeflaterOf(cfg.codec, sender), i)
    ensures StepOut(cfg, sender, f).Some?
    ensures cfg.codec.inStep(DeflaterOf(cfg.codec, StepOut(cfg, sender, f).value.0), j)
  {
    j := i;
    if Compresses(cfg, f) {
      var d := DeflaterOf(cfg.codec, sender);
      var (next, out) := cfg.codec.deflate(d, f.Plain()).value;
      assert cfg.codec.inStep(next, cfg.codec.inflate(i, out).value.0);
      j := if cfg.params.ResetDeflater(cfg.role) then cfg.codec.newInflater else cfg.codec.inflate(i, out).value.0;
    }
  }

  lemma {:induction false} SenderNeverFails<D(!new), I(!new)>(cfg: Config<D, I>, sender: OutState<D>, i: I, fs: seq<Frame>)
    requires Lawful(cfg.codec) && cfg.codec.inStep(DeflaterOf(cfg.codec, sender), i)
    ensures Fold(OutStepper(cfg), None, sender, fs).Some?
    decreases |fs|
  {
    if fs != [] {
      var j := SenderStep(cfg, sender, i, fs[0]);
      SenderNeverFails(cfg, StepOut(cfg, sender, fs[0]).value.0, j, fs[1..]);
    }
  }
}
