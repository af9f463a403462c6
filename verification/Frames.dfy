/** WebSocket frames cut out of a byte stream, and rewriting seen frame by frame. */
module Frames {
  import opened Common
  import opened FrameHeader
  import opened Rewriting

  /** A complete frame: its header bytes, what they parse to, and its payload bytes. */
  datatype Frame = Frame(head: seq<byte>, header: Header, payload: seq<byte>)
  {
    ghost predicate Valid() {
      && Parse(head) == Some(header)
      && header.len == |head|
      && header.payload == |payload|
    }

    function Bytes(): seq<byte> { head + payload }

    /** The payload with the mask removed. */
    function Plain(): seq<byte> { Mask(payload, header.mask) }
  }

  /** The frame with `f`'s flags, mask, opcode and the given RSV1 bit, carrying `plain`. */
  function Rebuilt(f: Frame, rsv1: bool, plain: seq<byte>): (g: Frame)
    ensures |g.payload| == |plain|
    ensures g.header == f.header.(rsv1 := rsv1, len := |g.head|, payload := |plain|)
  {
    var head := Write(f.header, rsv1, |plain|);
    Frame(head, f.header.(rsv1 := rsv1, len := |head|, payload := |plain|), Mask(plain, f.header.mask))
  }

  lemma {:induction false} RebuiltValid(f: Frame, rsv1: bool, plain: seq<byte>)
    requires |plain| < U64
    ensures Rebuilt(f, rsv1, plain).Valid()
    ensures Rebuilt(f, rsv1, plain).Plain() == plain
  {
    ParseWritten(f.header, rsv1, |plain|, []);
    assert Write(f.header, rsv1, |plain|) + [] == Write(f.header, rsv1, |plain|);
    MaskTwice(plain, f.header.mask);
  }

  ghost predicate AllValid(fs: seq<Frame>) { forall f :: f in fs ==> f.Valid() }

  // ----- cutting -----

  predicate Within(payload: nat, limit: Option<nat>) {
    limit.Some? ==> payload <= limit.value
  }

  /** The first frame of `buf`. A payload over `limit` is refused as soon as its
      header is complete. */
  function CutFrame(buf: seq<byte>, limit: Option<nat>): (r: Cut<Frame>)
  {
    match Parse(buf)
    case None => Incomplete
    case Some(h) =>
      if !Within(h.payload, limit) then TooLarge
      else if |buf| < h.len + h.payload then Incomplete
      else Whole(Frame(buf[..h.len], h, buf[h.len..h.len + h.payload]), buf[h.len + h.payload..])
  }

  /** A valid frame in front of any bytes is cut off again, unless it is too large. */
  lemma {:induction false} CutSerialized(f: Frame, tail: seq<byte>, limit: Option<nat>)
    requires f.Valid()
    ensures CutFrame(f.Bytes() + tail, limit)
         == if Within(f.header.payload, limit) then Whole(f, tail) else TooLarge
  {
    var buf := f.Bytes() + tail;
    ParseIsPrefixFree(f.head, 0, f.payload + tail);
    assert buf == f.head + (f.payload + tail);
    var n := f.header.len + f.header.payload;
    assert buf[..f.header.len] == f.head;
    assert buf[f.header.len..n] == f.payload;
    assert buf[n..] == tail;
  }

  /** What a cut takes off is a valid frame within the limit. */
  lemma {:induction false} CutValid(buf: seq<byte>, limit: Option<nat>)
    requires CutFrame(buf, limit).Whole?
    ensures var c := CutFrame(buf, limit);
      && c.frame.Valid()
      && c.frame.Bytes() != []
      && c.frame.Bytes() + c.rest == buf
      && Within(c.frame.header.payload, limit)
  {
    var h := Parse(buf).value;
    ParseIsPrefixFree(buf, 0, []);
    assert buf[..h.len] + [] == buf[..h.len];
    assert buf[..h.len] + buf[h.len..h.len + h.payload] == buf[..h.len + h.payload];
  }

  /** The rewriter of WebSocket frames with the given step. */
  function FrameRewriter<S>(limit: Option<nat>, step: (S, Frame) -> Option<(S, Frame)>): Rewriter<S, Frame> {
    Rewriter(buf => CutFrame(buf, limit), step, (f: Frame) => f.Bytes())
  }

  lemma {:induction false} FrameRewriterCutsLocally<S>(limit: Option<nat>, step: (S, Frame) -> Option<(S, Frame)>)
    ensures CutsLocally(FrameRewriter(limit, step))
  {
    var k := FrameRewriter(limit, step);
    forall buf | k.cut(buf).Whole?
      ensures k.bytes(k.cut(buf).frame) != [] && k.bytes(k.cut(buf).frame) + k.cut(buf).rest == buf
    {
      CutValid(buf, limit);
    }
    forall buf, tail | k.cut(buf).Whole?
      ensures k.cut(k.bytes(k.cut(buf).frame) + tail) == Whole(k.cut(buf).frame, tail)
    {
      CutValid(buf, limit);
      CutSerialized(k.cut(buf).frame, tail, limit);
    }
    forall buf, tail | k.cut(buf).TooLarge?
      ensures k.cut(buf + tail).TooLarge?
    {
      ParseIsPrefixFree(buf, 0, tail);
    }
  }

  // ----- rewriting frames instead of bytes -----

  /** The same pass over frames. */
  function Fold<S>(step: (S, Frame) -> Option<(S, Frame)>, limit: Option<nat>, state: S, fs: seq<Frame>)
    : (r: Option<(S, seq<Frame>)>)
    ensures r.Some? ==> |r.value.1| == |fs|
  {
    if fs == [] then Some((state, []))
    else if !Within(fs[0].header.payload, limit) then None
    else
      match step(state, fs[0])
      case None => None
      case Some((next, g)) =>
        match Fold(step, limit, next, fs[1..])
        case None => None
        case Some((last, gs)) => Some((last, [g] + gs))
  }

  /** Rewriting the bytes of valid frames, followed by an incomplete tail, is rewriting
      the frames. */
  lemma {:induction false} RewriteSerialized<S>(
      limit: Option<nat>, step: (S, Frame) -> Option<(S, Frame)>, state: S, fs: seq<Frame>, tail: seq<byte>)
    requires AllValid(fs) && CutFrame(tail, limit).Incomplete?
    ensures var k := FrameRewriter(limit, step);
      var r := Fold(step, limit, state, fs);
      Rewrite(k, state, Serialize(k, fs) + tail) ==
        if r.None? then Failed else Done(r.value.0, r.value.1, tail)
    decreases |fs|
  {
    var k := FrameRewriter(limit, step);
    if fs == [] {
      assert Serialize(k, fs) + tail == tail;
    } else {
      var f := fs[0];
      var rest := Serialize(k, fs[1..]) + tail;
      Assoc(f.Bytes(), Serialize(k, fs[1..]), tail);
      CutSerialized(f, rest, limit);
      if Within(f.header.payload, limit) && step(state, f).Some? {
        RewriteSerialized(limit, step, step(state, f).value.0, fs[1..], tail);
        ParseIsPrefixFree(f.head, 0, []);
        assert |rest| < |f.Bytes() + rest|;
      }
    }
  }

  /** The complete frames at the start of `buf`, up to one that is too large. */
  function FramesIn(buf: seq<byte>, limit: Option<nat>): seq<Frame>
    decreases |buf|
  {
    match CutFrame(buf, limit)
    case Whole(f, rest) => if |rest| < |buf| then [f] + FramesIn(rest, limit) else []
    case _ => []
  }

  /** A rewritten buffer is the bytes of its frames followed by what is left over, and
      rewriting it is rewriting those frames. */
  lemma {:induction false} RewriteOfFrames<S>(
      limit: Option<nat>, step: (S, Frame) -> Option<(S, Frame)>, state: S, buf: seq<byte>)
    requires Rewrite(FrameRewriter(limit, step), state, buf).Done?
    ensures var k := FrameRewriter(limit, step);
      var r := Rewrite(k, state, buf);
      var fs := FramesIn(buf, limit);
      && AllValid(fs)
      && buf == Serialize(k, fs) + r.rest
      && Fold(step, limit, state, fs) == Some((r.state, r.frames))
    decreases |buf|
  {
    var k := FrameRewriter(limit, step);
    match k.cut(buf)
    case Incomplete =>
    case Whole(f, rest) =>
      CutValid(buf, limit);
      var next := step(state, f).value.0;
      RewriteOfFrames(limit, step, next, rest);
      var more := FramesIn(rest, limit);
      assert ([f] + more)[1..] == more;
      Assoc(f.Bytes(), Serialize(k, more), Rewrite(k, next, rest).rest);
  }

  /** The bytes of frames, one after the other. */
  function Wire(fs: seq<Frame>): seq<byte> {
    if fs == [] then [] else fs[0].Bytes() + Wire(fs[1..])
  }

  lemma {:induction false} SerializeIsWire<S>(limit: Option<nat>, step: (S, Frame) -> Option<(S, Frame)>, fs: seq<Frame>)
    ensures Serialize(FrameRewriter(limit, step), fs) == Wire(fs)
  {
    if fs != [] {
      SerializeIsWire(limit, step, fs[1..]);
    }
  }

  /** Frames can be read off the wire in only one way. */
  lemma {:induction false} WireIsUnique(fs: seq<Frame>, gs: seq<Frame>, tail: seq<byte>)
    requires AllValid(fs) && AllValid(gs) && Wire(gs) == Wire(fs) + tail
    ensures |fs| <= |gs| && fs == gs[..|fs|]
    ensures tail == Wire(gs[|fs|..])
    decreases |fs|
  {
    if fs == [] {
      assert Wire(fs) + tail == tail && gs[0..] == gs;
    } else {
      var rest := Wire(fs[1..]) + tail;
      Assoc(fs[0].Bytes(), Wire(fs[1..]), tail);
      CutSerialized(fs[0], rest, None);
      assert gs != [] by {
        ParseIsPrefixFree(fs[0].head, 0, []);
      }
      CutSerialized(gs[0], Wire(gs[1..]), None);
      WireIsUnique(fs[1..], gs[1..], tail);
      assert fs == [fs[0]] + fs[1..] && gs[..|fs|] == [gs[0]] + gs[1..][..|fs| - 1];
      assert gs[|fs|..] == gs[1..][|fs| - 1..];
    }
  }

  /** As long as frames are on the wire, the next one is complete. */
  lemma {:induction false} WireIncomplete(fs: seq<Frame>, limit: Option<nat>)
    requires AllValid(fs) && CutFrame(Wire(fs), limit).Incomplete?
    ensures fs == []
  {
    if fs != [] {
      CutSerialized(fs[0], Wire(fs[1..]), limit);
    }
  }

  /** Rewriting a prefix of the frames gives a prefix of the result. */
  lemma {:induction false} FoldPrefix<S>(
      step: (S, Frame) -> Option<(S, Frame)>, limit: Option<nat>, state: S, fs: seq<Frame>, n: nat)
    requires n <= |fs| && Fold(step, limit, state, fs).Some?
    ensures Fold(step, limit, state, fs[..n]).Some?
    ensures Fold(step, limit, state, fs[..n]).value.1 == Fold(step, limit, state, fs).value.1[..n]
    decreases n
  {
    if n > 0 {
      var next, g := step(state, fs[0]).value.0, step(state, fs[0]).value.1;
      FoldPrefix(step, limit, next, fs[1..], n - 1);
      assert fs[..n][1..] == fs[1..][..n - 1] && fs[..n][0] == fs[0];
      var gs := Fold(step, limit, next, fs[1..]).value.1;
      assert ([g] + gs)[..n] == [g] + gs[..n - 1];
    }
  }
}
