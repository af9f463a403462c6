/** Rewriting a byte stream frame by frame, and one direction of a stream that passes an
    HTTP head through first. Written once for both directions: how frames are cut out of
    the bytes and what a frame turns into are parameters. */
module Rewriting {
  import opened Common

  datatype Cut<+F> =
    | Incomplete
    | TooLarge
    | Whole(frame: F, rest: seq<byte>)

  datatype Rewriter<!S, !F> = Rewriter(
    cut: seq<byte> -> Cut<F>,
    step: (S, F) -> Option<(S, F)>,
    bytes: F -> seq<byte>)

  /** Cutting takes the frame's bytes off the front, and what it finds depends on no
      byte after them. */
  ghost predicate CutsLocally<S, F>(k: Rewriter<S, F>) {
    && k.cut([]).Incomplete?
    && (forall buf {:trigger k.cut(buf)} :: k.cut(buf).Whole? ==>
         && k.bytes(k.cut(buf).frame) != []
         && k.bytes(k.cut(buf).frame) + k.cut(buf).rest == buf)
    && (forall buf, tail :: k.cut(buf).Whole? ==>
         k.cut(k.bytes(k.cut(buf).frame) + tail) == Whole(k.cut(buf).frame, tail))
    && (forall buf, tail :: k.cut(buf).TooLarge? ==> k.cut(buf + tail).TooLarge?)
  }

  function Serialize<S, F>(k: Rewriter<S, F>, fs: seq<F>): seq<byte> {
    if fs == [] then [] else k.bytes(fs[0]) + Serialize(k, fs[1..])
  }

  lemma {:induction false} SerializeAppend<S, F>(k: Rewriter<S, F>, fs: seq<F>, gs: seq<F>)
    ensures Serialize(k, fs + gs) == Serialize(k, fs) + Serialize(k, gs)
  {
    if fs == [] {
      assert fs + gs == gs;
    } else {
      SerializeAppend(k, fs[1..], gs);
      assert (fs + gs)[1..] == fs[1..] + gs && (fs + gs)[0] == fs[0];
      Assoc(k.bytes(fs[0]), Serialize(k, fs[1..]), Serialize(k, gs));
    }
  }

  lemma {:induction false} SerializeOne<S, F>(k: Rewriter<S, F>, f: F)
    ensures Serialize(k, [f]) == k.bytes(f)
  {
    assert k.bytes(f) + [] == k.bytes(f);
  }

  // ----- one pass -----

  /** What rewriting did: the new state, the frames it put out, the bytes left over. */
  datatype Rewritten<+S, +F> =
    | Failed
    | Done(state: S, frames: seq<F>, rest: seq<byte>)

  /** One pass over `buf`: every complete frame goes through the step, in order. (A cut
      that takes no bytes fails; lawful ones always take some.) */
  function Rewrite<S, F>(k: Rewriter<S, F>, state: S, buf: seq<byte>): (r: Rewritten<S, F>)
    decreases |buf|
  {
    match k.cut(buf)
    case Incomplete => Done(state, [], buf)
    case TooLarge => Failed
    case Whole(f, rest) =>
      match k.step(state, f)
      case None => Failed
      case Some((next, g)) =>
        if |rest| < |buf| then Prepend([g], Rewrite(k, next, rest)) else Failed
  }

  function Prepend<S, F>(fs: seq<F>, r: Rewritten<S, F>): Rewritten<S, F> {
    match r
    case Failed => Failed
    case Done(s, gs, rest) => Done(s, fs + gs, rest)
  }

  lemma {:induction false} PrependPrepend<S, F>(fs: seq<F>, gs: seq<F>, r: Rewritten<S, F>)
    ensures Prepend(fs, Prepend(gs, r)) == Prepend(fs + gs, r)
    ensures Prepend([], r) == r
  {
    if r.Done? {
      Assoc(fs, gs, r.frames);
      assert [] + r.frames == r.frames;
    }
  }

  /** Streaming refinement: rewriting bytes as they arrive gives what one pass over all
      of them gives, and fails exactly when the one pass fails. */
  lemma {:induction false} RewriteStreams<S, F>(k: Rewriter<S, F>, state: S, a: seq<byte>, b: seq<byte>)
    requires CutsLocally(k)
    ensures var first := Rewrite(k, state, a);
      Rewrite(k, state, a + b) ==
        if first.Failed? then Failed
        else Prepend(first.frames, Rewrite(k, first.state, first.rest + b))
    decreases |a|
  {
    match k.cut(a)
    case Incomplete =>
      PrependPrepend([], [], Rewrite(k, state, a + b));
    case TooLarge =>
    case Whole(f, rest) =>
      Assoc(k.bytes(f), rest, b);
      assert k.cut(a + b) == Whole(f, rest + b);
      match k.step(state, f)
      case None =>
      case Some((next, g)) =>
        RewriteStreams(k, next, rest, b);
        var first := Rewrite(k, next, rest);
        if first.Done? {
          PrependPrepend([g], first.frames, Rewrite(k, first.state, first.rest + b));
        }
  }

  /** What is left over never holds a complete frame. */
  lemma {:induction false} RewriteSettles<S, F>(k: Rewriter<S, F>, state: S, buf: seq<byte>)
    ensures var r := Rewrite(k, state, buf); r.Done? ==> k.cut(r.rest).Incomplete?
    decreases |buf|
  {
    var c := k.cut(buf);
    if c.Whole? && |c.rest| < |buf| && k.step(state, c.frame).Some? {
      RewriteSettles(k, k.step(state, c.frame).value.0, c.rest);
    }
  }

  /** Rewriting exactly the bytes that were used up leaves nothing over. */
  lemma {:induction false} RewriteUsed<S, F>(k: Rewriter<S, F>, state: S, buf: seq<byte>) returns (used: seq<byte>)
    requires CutsLocally(k) && Rewrite(k, state, buf).Done?
    ensures var r := Rewrite(k, state, buf);
      && buf == used + r.rest
      && Rewrite(k, state, used) == Done(r.state, r.frames, [])
    decreases |buf|
  {
    match k.cut(buf)
    case Incomplete =>
      used := [];
    case Whole(f, rest) =>
      var next := k.step(state, f).value.0;
      var more := RewriteUsed(k, next, rest);
      used := k.bytes(f) + more;
      Assoc(k.bytes(f), more, Rewrite(k, next, rest).rest);
      assert k.cut(used) == Whole(f, more);
  }

  /** Rewriting goes on where it stopped, once everything before is used up. */
  lemma {:induction false} RewriteOn<S, F>(k: Rewriter<S, F>, state: S, used: seq<byte>, raw: seq<byte>)
    requires CutsLocally(k) && Rewrite(k, state, used).Done? && Rewrite(k, state, used).rest == []
    ensures var first := Rewrite(k, state, used);
      Rewrite(k, state, used + raw) == Prepend(first.frames, Rewrite(k, first.state, raw))
  {
    RewriteStreams(k, state, used, raw);
    assert [] + raw == raw;
  }

  lemma {:induction false} OneMore<S, F>(k: Rewriter<S, F>, fs: seq<F>, g: F, r: Rewritten<S, F>)
    ensures Prepend(fs, Prepend([g], r)) == Prepend(fs + [g], r)
    ensures Serialize(k, fs + [g]) == Serialize(k, fs) + k.bytes(g)
  {
    PrependPrepend(fs, [g], r);
    SerializeAppend(k, fs, [g]);
    SerializeOne(k, g);
  }

  lemma {:induction false} TailOf(buf: seq<byte>, from: nat, a: seq<byte>, tail: seq<byte>)
    requires from <= |buf| && buf[from..] == a + tail
    ensures buf[|buf| - |tail|..] == tail
  {
    assert buf[|buf| - |tail|..] == buf[from..][|a|..];
  }

  /** The loop over a buffer, with its cursor: refines the one pass. */
  method RewriteLoop<S, F>(k: Rewriter<S, F>, state: S, buf: seq<byte>) returns (ok: bool, last: S, out: seq<byte>, rest: seq<byte>)
    requires CutsLocally(k)
    ensures ok <==> Rewrite(k, state, buf).Done?
    ensures ok ==> var r := Rewrite(k, state, buf);
      last == r.state && out == Serialize(k, r.frames) && rest == r.rest
  {
    ghost var frames: seq<F> := [];
    ghost var whole := Rewrite(k, state, buf);
    last, out, rest := state, [], [];
    var consumed := 0;
    PrependPrepend([], [], whole);
    assert buf[0..] == buf;
    while true
      invariant consumed <= |buf|
      invariant out == Serialize(k, frames)
      invariant whole == Prepend(frames, Rewrite(k, last, buf[consumed..]))
      decreases |buf| - consumed
    {
      match k.cut(buf[consumed..])
      case Incomplete =>
        assert frames + [] == frames;
        break;
      case TooLarge =>
        return false, last, out, rest;
      case Whole(f, left) =>
        match k.step(last, f)
        case None =>
          return false, last, out, rest;
        case Some((next, g)) =>
          OneMore(k, frames, g, Rewrite(k, next, left));
          frames, last, out := frames + [g], next, out + k.bytes(g);
          assert |left| < |buf| - consumed;
          TailOf(buf, consumed, k.bytes(f), left);
          consumed := |buf| - |left|;
    }
    ok, rest := true, buf[consumed..];
  }

  // ----- the head -----

  const HEAD_MARK: seq<byte> := [13, 10, 13, 10]

  /** Where the first blank line at or after `from` ends. */
  function HeadEndFrom(buf: seq<byte>, from: nat): (r: Option<nat>)
    ensures r.Some? ==> from + 4 <= r.value <= |buf|
    decreases |buf| - from
  {
    if from + 4 > |buf| then None
    else if buf[from..from + 4] == HEAD_MARK then Some(from + 4)
    else HeadEndFrom(buf, from + 1)
  }

  function HeadEnd(buf: seq<byte>): Option<nat> { HeadEndFrom(buf, 0) }

  /** CR LF CR LF stands at `i`. */
  predicate BlankLineAt(buf: seq<byte>, i: nat) {
    i + 4 <= |buf| && buf[i..i + 4] == [0x0d, 0x0a, 0x0d, 0x0a]
  }

  /** A head ends after the first CR LF CR LF, and has not ended without one. */
  lemma {:induction false} HeadEndsAtBlankLine(buf: seq<byte>)
    ensures HeadEnd(buf).None? ==> forall i: nat :: !BlankLineAt(buf, i)
    ensures HeadEnd(buf).Some? ==>
      var e := HeadEnd(buf).value;
      e >= 4 && BlankLineAt(buf, e - 4) && forall i: nat :: BlankLineAt(buf, i) ==> i >= e - 4
  {
    HeadEndIsFirst(buf, 0);
  }

  lemma {:induction false} HeadEndIsFirst(buf: seq<byte>, from: nat)
    ensures HeadEndFrom(buf, from).None? ==> forall i: nat :: BlankLineAt(buf, i) ==> i < from
    ensures HeadEndFrom(buf, from).Some? ==>
      var e := HeadEndFrom(buf, from).value;
      BlankLineAt(buf, e - 4) && forall i: nat :: BlankLineAt(buf, i) ==> i < from || i >= e - 4
    decreases |buf| - from
  {
    if from + 4 <= |buf| && !BlankLineAt(buf, from) {
      HeadEndIsFirst(buf, from + 1);
    }
  }

  /** A head's end depends only on the head. */
  lemma {:induction false} HeadEndStable(buf: seq<byte>, from: nat, more: seq<byte>)
    requires HeadEndFrom(buf, from).Some?
    ensures HeadEndFrom(buf + more, from) == HeadEndFrom(buf, from)
    ensures HeadEndFrom(buf[..HeadEndFrom(buf, from).value], from) == HeadEndFrom(buf, from)
    decreases |buf| - from
  {
    var e := HeadEndFrom(buf, from).value;
    assert (buf + more)[from..from + 4] == buf[from..from + 4] == buf[..e][from..from + 4];
    if buf[from..from + 4] != HEAD_MARK {
      HeadEndStable(buf, from + 1, more);
    }
  }

  // ----- one direction -----

  datatype View<+S> =
    | Broken
    | View(out: seq<byte>, pending: seq<byte>, state: S)

  /** What is known of the agreement: nothing, declined, or how frames are rewritten. */
  type Agreed<!S, !F> = Option<Option<Rewriter<S, F>>>

  ghost predicate AgreedLocal<S, F>(agreed: Agreed<S, F>) {
    agreed.Some? && agreed.value.Some? ==> CutsLocally(agreed.value.value)
  }

  /** One pass over everything that went in: the head unchanged, then what the agreement
      makes of the rest. */
  function OnePass<S, F>(agreed: Agreed<S, F>, start: S, all: seq<byte>): View<S> {
    match HeadEnd(all)
    case None => View([], all, start)
    case Some(e) =>
      match agreed
      case None => View(all[..e], all[e..], start)
      case Some(None) => View(all, [], start)
      case Some(Some(k)) =>
        match Rewrite(k, start, all[e..])
        case Failed => Broken
        case Done(s, fs, rest) => View(all[..e] + Serialize(k, fs), rest, s)
  }

  /** One direction's fields: bytes that wait to be rewritten, output that waits
      to be taken (from `pos` on), whether the head has passed, and the rewriter's state. */
  datatype Half<+S> = Half(raw: seq<byte>, ready: seq<byte>, pos: nat, headDone: bool, state: S)
  {
    predicate Normal() { pos < |ready| || (pos == 0 && ready == []) }

    function Waiting(): seq<byte>
      requires Normal()
    {
      ready[pos..]
    }
  }

  /** A direction's history: the head, the bytes used up after it, the bytes taken. */
  datatype Track = Track(head: seq<byte>, used: seq<byte>, taken: seq<byte>)

  /** Everything that went in. */
  function All<S>(h: Half<S>, t: Track): seq<byte> { t.head + t.used + h.raw }

  /** Everything that came out. */
  function Out<S>(h: Half<S>, t: Track): seq<byte>
    requires h.Normal()
  {
    t.taken + h.Waiting()
  }

  /** The invariant of a direction, which may still have frames waiting. */
  ghost predicate Tracks<S, F>(agreed: Agreed<S, F>, start: S, h: Half<S>, t: Track) {
    && h.Normal()
    && if !h.headDone then
         t.head == [] && t.used == [] && Out(h, t) == [] && h.state == start
       else
         && HeadEnd(t.head) == Some(|t.head|)
         && match agreed
            case None => t.used == [] && Out(h, t) == t.head && h.state == start
            case Some(None) => Out(h, t) == t.head + t.used && h.state == start
            case Some(Some(k)) =>
              var r := Rewrite(k, start, t.used);
              && r.Done?
              && r.rest == []
              && r.state == h.state
              && Out(h, t) == t.head + Serialize(k, r.frames)
  }

  /** The direction is the one pass over everything that went in: its output is what came
      out, what it leaves over is exactly what waits, its state the direction's state. */
  ghost predicate Settled<S, F>(agreed: Agreed<S, F>, start: S, h: Half<S>, t: Track)
    requires h.Normal()
  {
    OnePass(agreed, start, All(h, t)) == View(Out(h, t), h.raw, h.state)
  }

  /** A complete head moves on unchanged. */
  function PassHead<S>(h: Half<S>, e: nat): Half<S>
    requires e <= |h.raw|
  {
    h.(raw := h.raw[e..], ready := h.ready + h.raw[..e], headDone := true)
  }

  lemma {:induction false} RewriteNothing<S, F>(k: Rewriter<S, F>, start: S)
    requires CutsLocally(k)
    ensures Rewrite(k, start, []) == Done(start, [], []) && Serialize(k, []) == []
  {
  }

  /** A direction that has passed on its head and nothing else fits any agreement. */
  lemma {:induction false} TracksFresh<S, F>(now: Agreed<S, F>, start: S, h: Half<S>, t: Track)
    requires AgreedLocal(now) && h.Normal() && h.headDone && h.state == start
    requires HeadEnd(t.head) == Some(|t.head|) && t.used == [] && Out(h, t) == t.head
    ensures Tracks(now, start, h, t)
  {
    hide HeadEnd, Rewrite, CutsLocally, Serialize, Out;
    assert t.head + [] == t.head;
    if now.Some? && now.value.Some? {
      RewriteNothing(now.value.value, start);
    }
  }

  lemma {:induction false} TracksHead<S, F>(agreed: Agreed<S, F>, now: Agreed<S, F>, start: S, h: Half<S>, t: Track)
    requires Tracks(agreed, start, h, t) && !h.headDone && HeadEnd(h.raw).Some? && AgreedLocal(now)
    ensures var e := HeadEnd(h.raw).value;
      var t' := t.(head := h.raw[..e]);
      && Tracks(now, start, PassHead(h, e), t')
      && All(PassHead(h, e), t') == All(h, t)
  {
    var e := HeadEnd(h.raw).value;
    HeadEndStable(h.raw, 0, []);
    hide HeadEndFrom, Rewrite, CutsLocally, AgreedLocal, Serialize;
    assert h.ready == [] && t.taken == [] && t.used == [] && h.state == start;
    PassedHead(h, t, e);
    TracksFresh(now, start, PassHead(h, e), t.(head := h.raw[..e]));
  }

  lemma {:induction false} PassedHead<S>(h: Half<S>, t: Track, e: nat)
    requires 0 < e <= |h.raw| && h.ready == [] && h.pos == 0 && t == Track([], [], [])
    ensures PassHead(h, e).Normal() && Out(PassHead(h, e), t.(head := h.raw[..e])) == h.raw[..e]
    ensures All(PassHead(h, e), t.(head := h.raw[..e])) == All(h, t)
  {
    assert [] + h.raw[..e] == h.raw[..e];
    assert h.raw[..e] + h.raw[e..] == h.raw;
  }

  /** The agreement arriving does not disturb a direction that waited for it. */
  lemma {:induction false} TracksAgreement<S, F>(agreed: Option<Rewriter<S, F>>, start: S, h: Half<S>, t: Track)
    requires Tracks<S, F>(None, start, h, t)
    requires AgreedLocal(Some(agreed))
    ensures Tracks(Some(agreed), start, h, t)
  {
    hide HeadEnd, Rewrite, CutsLocally, AgreedLocal, Serialize;
    if h.headDone {
      TracksFresh(Some(agreed), start, h, t);
    }
  }

  /** New bytes go to the end of what waits. */
  lemma {:induction false} TracksMore<S, F>(agreed: Agreed<S, F>, start: S, h: Half<S>, t: Track, more: seq<byte>)
    requires Tracks(agreed, start, h, t)
    ensures Tracks(agreed, start, h.(raw := h.raw + more), t)
    ensures All(h.(raw := h.raw + more), t) == All(h, t) + more
  {
    Assoc(t.head + t.used, h.raw, more);
  }

  // ----- what one processing of a direction does -----

  /** Rewriting what waits gives exactly the one pass over everything that went in. */
  lemma {:induction false} RewriteIsOnePass<S, F>(k: Rewriter<S, F>, start: S, h: Half<S>, t: Track)
    requires CutsLocally(k) && Tracks(Some(Some(k)), start, h, t) && h.headDone
    ensures var r := Rewrite(k, h.state, h.raw);
      OnePass(Some(Some(k)), start, All(h, t)) ==
        if r.Failed? then Broken else View(Out(h, t) + Serialize(k, r.frames), r.rest, r.state)
  {
    var first := Rewrite(k, start, t.used);
    Assoc(t.head, t.used, h.raw);
    OnePassOfHead(k, start, t.head, t.used + h.raw);
    RewriteOn(k, start, t.used, h.raw);
    var r := Rewrite(k, h.state, h.raw);
    var fs := if r.Done? then r.frames else [];
    SerializeAppend(k, first.frames, fs);
    Assoc(t.head, Serialize(k, first.frames), Serialize(k, fs));
  }

  /** One pass over a known head and the rest. */
  lemma {:induction false} OnePassOfHead<S, F>(k: Rewriter<S, F>, start: S, head: seq<byte>, rest: seq<byte>)
    requires HeadEnd(head) == Some(|head|)
    ensures var r := Rewrite(k, start, rest);
      OnePass(Some(Some(k)), start, head + rest) ==
        if r.Failed? then Broken else View(head + Serialize(k, r.frames), r.rest, r.state)
  {
    HeadEndStable(head, 0, rest);
    assert (head + rest)[..|head|] == head && (head + rest)[|head|..] == rest;
  }

  /** The direction after its complete frames were rewritten. */
  function Rewrote<S, F>(k: Rewriter<S, F>, h: Half<S>, r: Rewritten<S, F>): Half<S>
    requires r.Done?
  {
    h.(raw := r.rest, ready := h.ready + Serialize(k, r.frames), state := r.state)
  }

  /** The invariant holds again after rewriting, and the direction is settled. */
  lemma {:induction false} RewriteKeepsTrack<S, F>(k: Rewriter<S, F>, start: S, h: Half<S>, t: Track) returns (t': Track)
    requires CutsLocally(k) && Tracks(Some(Some(k)), start, h, t) && h.headDone
    requires Rewrite(k, h.state, h.raw).Done?
    ensures var h' := Rewrote(k, h, Rewrite(k, h.state, h.raw));
      && t'.head == t.head && t'.taken == t.taken
      && Tracks(Some(Some(k)), start, h', t')
      && All(h', t') == All(h, t)
      && Settled(Some(Some(k)), start, h', t')
  {
    var first := Rewrite(k, start, t.used);
    var r := Rewrite(k, h.state, h.raw);
    var used := RewriteUsed(k, h.state, h.raw);
    t' := t.(used := t.used + used);
    OutAppend(h, t, Serialize(k, r.frames));
    RewriteIsOnePass(k, start, h, t);
    RewriteOn(k, start, t.used, used);
    SerializeAppend(k, first.frames, r.frames);
    Assoc(t.head, Serialize(k, first.frames), Serialize(k, r.frames));
    Assoc(t.head, t.used, used);
    Assoc(t.head + t.used, used, r.rest);
  }

  lemma {:induction false} OutAppend<S>(h: Half<S>, t: Track, more: seq<byte>)
    requires h.Normal()
    ensures var h' := h.(ready := h.ready + more);
      h'.Normal() && Out(h', t) == Out(h, t) + more
  {
    assert (h.ready + more)[h.pos..] == h.ready[h.pos..] + more;
    Assoc(t.taken, h.Waiting(), more);
  }

  /** A declined direction moves everything on as it is. */
  function MoveAll<S>(h: Half<S>): Half<S> { h.(raw := [], ready := h.ready + h.raw) }

  lemma {:induction false} MoveKeepsTrack<S, F>(start: S, h: Half<S>, t: Track)
    requires Tracks<S, F>(Some(None), start, h, t) && h.headDone
    ensures var t' := t.(used := t.used + h.raw);
      && Tracks<S, F>(Some(None), start, MoveAll(h), t')
      && All(MoveAll(h), t') == All(h, t) == Out(MoveAll(h), t')
      && Settled<S, F>(Some(None), start, MoveAll(h), t')
  {
    OutAppend(h, t, h.raw);
    Assoc(t.head, t.used, h.raw);
    HeadEndStable(t.head, 0, t.used + h.raw);
    assert t.head + (t.used + h.raw) + [] == t.head + (t.used + h.raw);
  }

  /** A direction still waiting, for its head or for the agreement, is settled too. */
  lemma {:induction false} WaitingSettled<S, F>(agreed: Agreed<S, F>, start: S, h: Half<S>, t: Track)
    requires Tracks(agreed, start, h, t)
    requires if h.headDone then agreed.None? else HeadEnd(h.raw).None?
    ensures Settled(agreed, start, h, t)
  {
    assert [] + [] + h.raw == h.raw;
    if h.headDone {
      HeadEndStable(t.head, 0, h.raw);
      assert t.head + [] == t.head;
      assert (t.head + h.raw)[..|t.head|] == t.head && (t.head + h.raw)[|t.head|..] == h.raw;
    }
  }

  /** A direction in which nothing waits is settled. */
  lemma {:induction false} EmptySettled<S, F>(agreed: Agreed<S, F>, start: S, h: Half<S>, t: Track)
    requires AgreedLocal(agreed) && Tracks(agreed, start, h, t) && h.raw == []
    ensures Settled(agreed, start, h, t)
  {
    hide HeadEndFrom, CutsLocally;
    if !h.headDone || agreed.None? {
      assert !h.headDone ==> HeadEnd(h.raw).None?  by { NoHeadInNothing(h.raw); }
      WaitingSettled(agreed, start, h, t);
    } else if agreed.value.None? {
      assert h.ready + h.raw == h.ready && t.used + h.raw == t.used;
      MoveKeepsTrack<S, F>(start, h, t);
    } else {
      var k := agreed.value.value;
      RewriteNothing(k, h.state);
      RewriteIsOnePass(k, start, h, t);
      assert Out(h, t) + [] == Out(h, t);
    }
  }

  lemma {:induction false} NoHeadInNothing(buf: seq<byte>)
    requires buf == []
    ensures HeadEnd(buf).None?
  {
  }

  /** Once the head has passed, everything that went in has a head. */
  lemma {:induction false} HeadKnown<S, F>(agreed: Agreed<S, F>, start: S, h: Half<S>, t: Track)
    requires Tracks(agreed, start, h, t) && h.headDone
    ensures HeadEnd(All(h, t)) == Some(|t.head|)
  {
    Assoc(t.head, t.used, h.raw);
    HeadEndStable(t.head, 0, t.used + h.raw);
  }

  /** Processes a direction whose head has passed: waits for the agreement, moves bytes on
      as they are, or rewrites the complete frames. */
  method ProcessHalf<S, F>(agreed: Agreed<S, F>, ghost start: S, h: Half<S>, ghost t: Track)
    returns (ok: bool, h': Half<S>, ghost t': Track)
    requires AgreedLocal(agreed) && Tracks(agreed, start, h, t) && h.headDone
    ensures ok <==> !OnePass(agreed, start, All(h, t)).Broken?
    ensures h'.headDone && t'.head == t.head && t'.taken == t.taken && All(h', t') == All(h, t)
    ensures ok ==> Tracks(agreed, start, h', t') && Settled(agreed, start, h', t')
  {
    ok, h', t' := true, h, t;
    match agreed {
      case None =>
        WaitingSettled(agreed, start, h, t);
      case Some(None) =>
        MoveKeepsTrack<S, F>(start, h, t);
        h', t' := MoveAll(h), t.(used := t.used + h.raw);
      case Some(Some(k)) =>
        RewriteIsOnePass(k, start, h, t);
        var state, out, rest;
        ok, state, out, rest := RewriteLoop(k, h.state, h.raw);
        if ok {
          t' := RewriteKeepsTrack(k, start, h, t);
          h' := h.(raw := rest, ready := h.ready + out, state := state);
        }
    }
  }

  // ----- taking what is ready -----

  /** The direction after `n` of the ready bytes are taken. */
  function Take<S>(h: Half<S>, n: nat): Half<S>
    requires h.Normal() && n <= |h.Waiting()|
  {
    if h.pos + n == |h.ready| then h.(ready := [], pos := 0) else h.(pos := h.pos + n)
  }

  lemma {:induction false} TakeKeepsTrack<S, F>(agreed: Agreed<S, F>, start: S, h: Half<S>, t: Track, n: nat)
    requires Tracks(agreed, start, h, t) && n <= |h.Waiting()|
    ensures var t' := t.(taken := t.taken + h.Waiting()[..n]);
      && Tracks(agreed, start, Take(h, n), t')
      && Out(Take(h, n), t') == Out(h, t)
      && All(Take(h, n), t') == All(h, t)
      && (Settled(agreed, start, h, t) ==> Settled(agreed, start, Take(h, n), t'))
  {
    var w := h.Waiting();
    assert Take(h, n).Waiting() == w[n..];
    Assoc(t.taken, w[..n], w[n..]);
    assert w[..n] + w[n..] == w;
  }

  /** Bytes may go straight through a declined direction that holds none. */
  lemma {:induction false} ThroughKeepsTrack<S, F>(start: S, h: Half<S>, t: Track, chunk: seq<byte>)
    requires Tracks<S, F>(Some(None), start, h, t) && h.headDone && h.raw == [] && h.ready == []
    ensures var t' := t.(used := t.used + chunk, taken := t.taken + chunk);
      && Tracks<S, F>(Some(None), start, h, t')
      && All(h, t') == All(h, t) + chunk
      && Settled<S, F>(Some(None), start, h, t')
  {
    var t' := t.(used := t.used + chunk, taken := t.taken + chunk);
    Assoc(t.head, t.used, chunk);
    assert t.taken + [] == t.taken && t'.taken + [] == t'.taken;
    assert All(h, t') == t.head + t'.used && All(h, t) == t.head + t.used;
    HeadEndStable(t.head, 0, t'.used);
  }
}
