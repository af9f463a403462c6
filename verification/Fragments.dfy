/** A compressed message that its sender splits into fragments, with control frames between
    them: the receiver inflates the fragments one by one, and what it delivers is the message. */
module Fragments {
  import opened Common
  import opened FrameHeader
  import opened Frames
  import opened Deflate
  import opened EndToEnd

  /** The unmasked payloads of the data frames, joined. */
  function Payload(fs: seq<Frame>): seq<byte> {
    if fs == [] then []
    else (if fs[0].header.IsData() then fs[0].Plain() else []) + Payload(fs[1..])
  }

  predicate AllWithin(fs: seq<Frame>) {
    forall i :: 0 <= i < |fs| ==> fs[i].header.payload <= MAX_FRAME
  }

  /** The message ends: one of the data frames is final. */
  predicate Ends(fs: seq<Frame>) {
    exists i :: 0 <= i < |fs| && fs[i].header.IsData() && fs[i].header.fin
  }

  /** A control frame comes through as it is; a data frame keeps its flags, opcode and mask
      key, and loses the mark of compression. */
  predicate SameFrame(f: Frame, g: Frame) {
    if f.header.IsData() then g.header == f.header.(rsv1 := false, len := g.header.len, payload := g.header.payload)
    else g == f
  }

  predicate SameFrames(fs: seq<Frame>, gs: seq<Frame>) {
    |fs| == |gs| && forall i :: 0 <= i < |fs| ==> SameFrame(fs[i], gs[i])
  }

  /** The inflater after a message that leaves it at `j`. */
  function Rested<D, I>(cfg: Config<D, I>, j: I): I {
    if cfg.params.ResetInflater(cfg.role) then cfg.codec.newInflater else j
  }

  function Receive<D, I>(cfg: Config<D, I>, st: InState<I>, fs: seq<Frame>): Option<(InState<I>, seq<Frame>)> {
    Fold(InStepper(cfg), Some(MAX_FRAME), st, fs)
  }

  /** What receiving `fs` must give when their payloads inflate to `y`, after `inflated` bytes
      of the message: they are refused exactly for their size. */
  ghost predicate Gives<D, I>(cfg: Config<D, I>, st: InState<I>, fs: seq<Frame>, inflated: nat, j: I, y: seq<byte>) {
    var r := Receive(cfg, st, fs);
    && (r.Some? <==> inflated + |y| <= MAX_MESSAGE && AllWithin(fs))
    && (r.Some? ==>
         && Payload(r.value.1) == y && SameFrames(fs, r.value.1)
         && !r.value.0.inflating && r.value.0.inflater == Rested(cfg, j))
  }

  /** Receiving is stepping over the first frame, then receiving the others. */
  lemma {:induction false} ReceiveStep<D, I>(cfg: Config<D, I>, st: InState<I>, fs: seq<Frame>)
    requires fs != []
    ensures var s := StepIn(cfg, st, fs[0]);
      var r := Receive(cfg, st, fs);
      && (s.None? ==> r.None?)
      && (s.Some? ==>
           var q := Receive(cfg, s.value.0, fs[1..]);
           && (r.Some? <==> fs[0].header.payload <= MAX_FRAME && q.Some?)
           && (r.Some? ==> r.value == (q.value.0, [s.value.1] + q.value.1)))
  {
    hide StepIn;
  }

  lemma {:induction false} WithinTail(fs: seq<Frame>)
    requires fs != []
    ensures AllWithin(fs) <==> fs[0].header.payload <= MAX_FRAME && AllWithin(fs[1..])
  {
    if fs[0].header.payload <= MAX_FRAME && AllWithin(fs[1..]) {
      forall i | 0 <= i < |fs| ensures fs[i].header.payload <= MAX_FRAME {
        if i > 0 { assert fs[i] == fs[1..][i - 1]; }
      }
    }
  }

  lemma {:induction false} SameCons(f: Frame, fs: seq<Frame>, g: Frame, gs: seq<Frame>)
    requires SameFrame(f, g) && SameFrames(fs, gs)
    ensures SameFrames([f] + fs, [g] + gs)
    ensures Payload([g] + gs) == (if g.header.IsData() then g.Plain() else []) + Payload(gs)
  {
    assert ([g] + gs)[1..] == gs;
  }

  /** After the last fragment only control frames are left, and they pass. */
  lemma {:induction false} OnlyControl<D, I>(cfg: Config<D, I>, st: InState<I>, fs: seq<Frame>)
    requires ContinuesMessage(true, fs) && !st.inflating
    ensures Payload(fs) == []
    ensures var r := Receive(cfg, st, fs);
      && (r.Some? <==> AllWithin(fs))
      && (r.Some? ==> Payload(r.value.1) == [] && SameFrames(fs, r.value.1) && r.value.0 == st)
    decreases |fs|
  {
    if fs != [] {
      OnlyControl(cfg, st, fs[1..]);
      WithinTail(fs);
      assert StepIn(cfg, st, fs[0]) == Some((st, fs[0]));
      assert fs == [fs[0]] + fs[1..];
      var r := Receive(cfg, st, fs[1..]);
      if r.Some? {
        hide Payload;
        SameCons(fs[0], fs[1..], fs[0], r.value.1);
      }
    }
  }

  /** One fragment: the first frame of a compressed message, or one that continues it. */
  predicate IsFragment<I>(st: InState<I>, f: Frame, inflated: nat) {
    && f.header.IsData()
    && if f.header.opcode != 0 then f.header.rsv1 && inflated == 0 else st.inflating && inflated == st.inflated
  }

  lemma {:induction false} FragmentStep<D, I>(cfg: Config<D, I>, st: InState<I>, f: Frame, inflated: nat)
    requires IsFragment(st, f, inflated)
    ensures var r := Inflate(cfg.codec, st.inflater, f.Plain(), f.header.fin, inflated);
      StepIn(cfg, st, f) == if r.None? then None else
        Some((InState(!f.header.fin, inflated + |r.value.1|, if f.header.fin then Rested(cfg, r.value.0) else r.value.0,
                      st.bytes + |r.value.1|, st.wire + f.header.payload), Rebuilt(f, false, r.value.1)))
  {
    hide Inflate, Rebuilt;
  }

  lemma {:induction false} InflatePiece<D, I>(c: Codec<D, I>, i: I, data: seq<byte>, last: bool, inflated: nat, j: I, y: seq<byte>)
    requires c.inflate(i, if last then data + SYNC_TAIL else data) == Some((j, y))
    ensures Inflate(c, i, data, last, inflated) == if inflated + |y| > MAX_MESSAGE then None else Some((j, y))
  {
  }

  lemma {:induction false} RebuiltSame(f: Frame, plain: seq<byte>)
    requires f.header.IsData()
    ensures SameFrame(f, Rebuilt(f, false, plain)) && Rebuilt(f, false, plain).Plain() == plain
    ensures Rebuilt(f, false, plain).header.IsData()
  {
    MaskTwice(plain, f.header.mask);
  }

  /** A frame that comes through as `g`, its payload `x`, in front of others that give `y`. */
  lemma {:induction false} Prepends<D, I>(
      cfg: Config<D, I>, st: InState<I>, fs: seq<Frame>, next: InState<I>, g: Frame, inflated: nat, j: I, x: seq<byte>, y: seq<byte>)
    requires fs != [] && StepIn(cfg, st, fs[0]) == Some((next, g)) && SameFrame(fs[0], g)
    requires (if g.header.IsData() then g.Plain() else []) == x
    requires Gives(cfg, next, fs[1..], inflated + |x|, j, y)
    ensures Gives(cfg, st, fs, inflated, j, x + y)
  {
    hide StepIn, Fold, Payload, g.Plain, AllWithin, SameFrames, SameFrame, Rested;
    ReceiveStep(cfg, st, fs);
    WithinTail(fs);
    assert fs == [fs[0]] + fs[1..];
    var r := Receive(cfg, next, fs[1..]);
    if r.Some? {
      SameCons(fs[0], fs[1..], g, r.value.1);
    }
  }

  /** A first frame that is refused for its size refuses them all. */
  lemma {:induction false} Refuses<D, I>(cfg: Config<D, I>, st: InState<I>, fs: seq<Frame>, inflated: nat, j: I, y: seq<byte>)
    requires fs != [] && StepIn(cfg, st, fs[0]).None? && inflated + |y| > MAX_MESSAGE
    ensures Gives(cfg, st, fs, inflated, j, y)
  {
    hide StepIn, Fold, AllWithin;
    ReceiveStep(cfg, st, fs);
  }

  lemma {:induction false} LastPayload<D, I>(cfg: Config<D, I>, next: InState<I>, fs: seq<Frame>)
    requires fs != [] && fs[0].header.IsData() && ContinuesMessage(true, fs[1..]) && !next.inflating
    ensures Payload(fs) == fs[0].Plain()
  {
    hide Receive, AllWithin, SameFrames;
    OnlyControl(cfg, next, fs[1..]);
    assert fs[0].Plain() + [] == fs[0].Plain();
  }

  lemma {:induction false} ControlGives<D, I>(cfg: Config<D, I>, next: InState<I>, fs: seq<Frame>, inflated: nat, j: I)
    requires ContinuesMessage(true, fs) && !next.inflating && next.inflater == Rested(cfg, j) && inflated <= MAX_MESSAGE
    ensures Gives(cfg, next, fs, inflated, j, [])
  {
    hide Receive, AllWithin, SameFrames, Payload, Rested;
    OnlyControl(cfg, next, fs);
  }

  /** The last fragment, and what follows it. */
  lemma {:induction false} LastFragment<D, I>(cfg: Config<D, I>, st: InState<I>, fs: seq<Frame>, inflated: nat, j: I, y: seq<byte>)
    requires fs != [] && IsFragment(st, fs[0], inflated) && fs[0].header.fin && ContinuesMessage(true, fs[1..])
    requires cfg.codec.inflate(st.inflater, Payload(fs) + SYNC_TAIL) == Some((j, y))
    ensures Gives(cfg, st, fs, inflated, j, y)
  {
    var f := fs[0];
    hide Gives, StepIn, Rebuilt, SameFrame, Rested, Inflate, Payload, f.Plain;
    var next := InState(false, inflated + |y|, Rested(cfg, j), st.bytes + |y|, st.wire + f.header.payload);
    LastPayload(cfg, next, fs);
    FragmentStep(cfg, st, f, inflated);
    InflatePiece(cfg.codec, st.inflater, f.Plain(), true, inflated, j, y);
    if inflated + |y| > MAX_MESSAGE {
      Refuses(cfg, st, fs, inflated, j, y);
    } else {
      RebuiltSame(f, y);
      ControlGives(cfg, next, fs[1..], inflated + |y|, j);
      Prepends(cfg, st, fs, next, Rebuilt(f, false, y), inflated, j, y, []);
      assert y + [] == y;
    }
  }

  /** A fragment that is not the last: its piece is inflated, and the rest goes on from there. */
  lemma {:induction false} NextFragment<D, I>(
      cfg: Config<D, I>, st: InState<I>, fs: seq<Frame>, inflated: nat, i: I, x: seq<byte>, j: I, y: seq<byte>)
    requires fs != [] && IsFragment(st, fs[0], inflated) && !fs[0].header.fin
    requires cfg.codec.inflate(st.inflater, fs[0].Plain()) == Some((i, x))
    requires Gives(cfg, InState(true, inflated + |x|, i, st.bytes + |x|, st.wire + fs[0].header.payload), fs[1..], inflated + |x|, j, y)
    ensures Gives(cfg, st, fs, inflated, j, x + y)
  {
    var f := fs[0];
    hide Gives, StepIn, Rebuilt, SameFrame, Inflate, f.Plain;
    FragmentStep(cfg, st, f, inflated);
    InflatePiece(cfg.codec, st.inflater, f.Plain(), false, inflated, i, x);
    if inflated + |x| > MAX_MESSAGE {
      Refuses(cfg, st, fs, inflated, j, x + y);
    } else {
      var next := InState(true, inflated + |x|, i, st.bytes + |x|, st.wire + f.header.payload);
      RebuiltSame(f, x);
      Prepends(cfg, st, fs, next, Rebuilt(f, false, x), inflated, j, x, y);
    }
  }

  /** A control frame between fragments. */
  lemma {:induction false} BetweenFragments<D, I>(cfg: Config<D, I>, st: InState<I>, fs: seq<Frame>, inflated: nat, j: I, y: seq<byte>)
    requires fs != [] && !fs[0].header.IsData() && Gives(cfg, st, fs[1..], inflated, j, y)
    ensures Gives(cfg, st, fs, inflated, j, y)
  {
    assert StepIn(cfg, st, fs[0]) == Some((st, fs[0]));
    assert SameFrame(fs[0], fs[0]) && [] + y == y;
    hide Gives, StepIn;
    Prepends(cfg, st, fs, st, fs[0], inflated, j, [], y);
  }

  lemma {:induction false} EndsLater(fs: seq<Frame>)
    requires fs != [] && Ends(fs) && !(fs[0].header.IsData() && fs[0].header.fin)
    ensures Ends(fs[1..])
  {
    var i :| 0 <= i < |fs| && fs[i].header.IsData() && fs[i].header.fin;
    assert fs[1..][i - 1] == fs[i];
  }

  /** The fragments from one on, in a message that is being inflated. */
  lemma {:induction false} FragmentsFrom<D, I(!new)>(
      cfg: Config<D, I>, st: InState<I>, fs: seq<Frame>, inflated: nat, j: I, y: seq<byte>)
    requires PiecewiseLaw(cfg.codec) && Ends(fs)
    requires if fs[0].header.IsData() then IsFragment(st, fs[0], inflated) && ContinuesMessage(fs[0].header.fin, fs[1..])
             else st.inflating && inflated == st.inflated && ContinuesMessage(false, fs)
    requires cfg.codec.inflate(st.inflater, Payload(fs) + SYNC_TAIL) == Some((j, y))
    ensures Gives(cfg, st, fs, inflated, j, y)
    decreases |fs|
  {
    hide Gives, StepIn, Fold;
    var f, rest := fs[0], fs[1..];
    if f.header.IsData() && f.header.fin {
      LastFragment(cfg, st, fs, inflated, j, y);
    } else {
      EndsLater(fs);
      if f.header.IsData() {
        var a, b := f.Plain(), Payload(rest) + SYNC_TAIL;
        assert Payload(fs) + SYNC_TAIL == a + b;
        assert cfg.codec.inflate(st.inflater, a + b) == InPieces(cfg.codec, st.inflater, a, b);
        var (i, x) := cfg.codec.inflate(st.inflater, a).value;
        var (k, z) := cfg.codec.inflate(i, b).value;
        var next := InState(true, inflated + |x|, i, st.bytes + |x|, st.wire + f.header.payload);
        FragmentsFrom(cfg, next, rest, inflated + |x|, k, z);
        NextFragment(cfg, st, fs, inflated, i, x, k, z);
      } else {
        assert Payload(fs) == Payload(rest);
        FragmentsFrom(cfg, st, rest, inflated, j, y);
        BetweenFragments(cfg, st, fs, inflated, j, y);
      }
    }
  }

  /** For every message, every way of splitting its compressed form into fragments and every
      placing of control frames between them: the receiver refuses the frames exactly when the
      message or a frame is too large, and otherwise delivers every frame in its place, the
      fragments' payloads joined are the message, and the contexts are in step again. */
  lemma {:induction false} FragmentsSurvive<D(!new), I(!new)>(
      cfg: Config<D, I>, sender: OutState<D>, st: InState<I>, message: seq<byte>, fs: seq<Frame>)
    requires Lawful(cfg.codec) && cfg.codec.inStep(DeflaterOf(cfg.codec, sender), st.inflater)
    requires OneCompressedMessage(fs) && Ends(fs)
    requires var out := DeflateMessage(cfg.codec, DeflaterOf(cfg.codec, sender), message);
      out.Some? && Payload(fs) == out.value.1
    ensures var next := DeflateMessage(cfg.codec, DeflaterOf(cfg.codec, sender), message).value.0;
      var deflater := if cfg.params.ResetDeflater(cfg.role.Peer()) then cfg.codec.newDeflater else next;
      var r := Receive(cfg, st, fs);
      && (r.Some? <==> |message| <= MAX_MESSAGE && AllWithin(fs))
      && (r.Some? ==>
           && Payload(r.value.1) == message && SameFrames(fs, r.value.1)
           && Paired(PeerOf(cfg), sender.(deflater := Some(deflater)), r.value.0))
  {
    var next, short, j := MessageSurvives(cfg.codec, DeflaterOf(cfg.codec, sender), st.inflater, message);
    NewInStep(cfg.codec);
    hide Payload, StepIn, Fold, Ends, DeflateMessage, AllWithin, InverseLaw;
    FragmentsFrom(cfg, st, fs, 0, j, message);
  }
}
