/** The stream layer: two directions with their buffers and the agreement between them,
    updated in place. What a frame turns into comes from the layer's configuration. */
module DeflateStream {
  import opened Common
  import opened Rewriting
  import opened Deflate

  const MAX_HEAD: nat := 0x1_0000
  const HIGH_WATER: nat := 0x4_0000

  /** Which end the layer is on, what a response head agrees to (`None` is a refusal),
      and how each direction rewrites frames under agreed parameters. */
  datatype Layer<!SI, !SO, !F> = Layer(
    role: Role,
    negotiated: seq<byte> -> Option<Params>,
    inStart: SI,
    inbound: Params -> Rewriter<SI, F>,
    outStart: SO,
    outbound: Params -> Rewriter<SO, F>)
  {
    ghost predicate Valid() {
      forall p: Params :: CutsLocally(inbound(p)) && CutsLocally(outbound(p))
    }

    function InAgreed(agreement: Option<Option<Params>>): Agreed<SI, F> {
      match agreement
      case None => None
      case Some(None) => Some(None)
      case Some(Some(p)) => Some(Some(inbound(p)))
    }

    function OutAgreed(agreement: Option<Option<Params>>): Agreed<SO, F> {
      match agreement
      case None => None
      case Some(None) => Some(None)
      case Some(Some(p)) => Some(Some(outbound(p)))
    }
  }

  ghost predicate HeadTooLong(all: seq<byte>) { HeadEnd(all).None? && |all| > MAX_HEAD }

  /** The agreement is what the response head says, once that has passed. */
  ghost predicate AgreementOk<SI, SO, F>(layer: Layer<SI, SO, F>, agreement: Option<Option<Params>>,
      inb: Half<SI>, tin: Track, outb: Half<SO>, tout: Track)
  {
    agreement ==
      if layer.role.Client? then (if inb.headDone then Some(layer.negotiated(tin.head)) else None)
      else if outb.headDone then Some(layer.negotiated(tout.head)) else None
  }

  ghost predicate StreamOk<SI, SO, F>(layer: Layer<SI, SO, F>, agreement: Option<Option<Params>>,
      inb: Half<SI>, tin: Track, outb: Half<SO>, tout: Track)
  {
    && layer.Valid()
    && Tracks(layer.InAgreed(agreement), layer.inStart, inb, tin)
    && Tracks(layer.OutAgreed(agreement), layer.outStart, outb, tout)
    && AgreementOk(layer, agreement, inb, tin, outb, tout)
  }

  /** Bytes bypass a direction before its own head has passed only after a refusal that came
      first, and only away from the response: into a server or out of a client. */
  predicate EarlyOk(role: Role, agreement: Option<Option<Params>>, earlyIn: seq<byte>, earlyOut: seq<byte>) {
    && (earlyIn != [] ==> role.Server? && agreement == Some(None))
    && (earlyOut != [] ==> role.Client? && agreement == Some(None))
  }

  lemma {:induction false} LayerLocal<SI, SO, F>(layer: Layer<SI, SO, F>, agreement: Option<Option<Params>>)
    requires layer.Valid()
    ensures AgreedLocal(layer.InAgreed(agreement)) && AgreedLocal(layer.OutAgreed(agreement))
  {
    hide CutsLocally;
  }

  /** The inbound head passing keeps the stream's invariant. */
  lemma {:induction false} InHeadPasses<SI, SO, F>(layer: Layer<SI, SO, F>, agreement: Option<Option<Params>>,
      inb: Half<SI>, tin: Track, outb: Half<SO>, tout: Track)
    requires StreamOk(layer, agreement, inb, tin, outb, tout) && !inb.headDone && HeadEnd(inb.raw).Some?
    ensures var e := HeadEnd(inb.raw).value;
      var head := inb.raw[..e];
      var now := if layer.role.Client? then Some(layer.negotiated(head)) else agreement;
      && StreamOk(layer, now, PassHead(inb, e), tin.(head := head), outb, tout)
      && All(PassHead(inb, e), tin.(head := head)) == All(inb, tin)
  {
    var head := inb.raw[..HeadEnd(inb.raw).value];
    var now := if layer.role.Client? then Some(layer.negotiated(head)) else agreement;
    LayerLocal(layer, now);
    hide Tracks, HeadEndFrom, AgreedLocal, All, layer.Valid;
    TracksHead(layer.InAgreed(agreement), layer.InAgreed(now), layer.inStart, inb, tin);
    if layer.role.Client? {
      TracksAgreement(layer.OutAgreed(now).value, layer.outStart, outb, tout);
    }
  }

  /** The outbound head passing keeps the stream's invariant. */
  lemma {:induction false} OutHeadPasses<SI, SO, F>(layer: Layer<SI, SO, F>, agreement: Option<Option<Params>>,
      inb: Half<SI>, tin: Track, outb: Half<SO>, tout: Track)
    requires StreamOk(layer, agreement, inb, tin, outb, tout) && !outb.headDone && HeadEnd(outb.raw).Some?
    ensures var e := HeadEnd(outb.raw).value;
      var head := outb.raw[..e];
      var now := if layer.role.Server? then Some(layer.negotiated(head)) else agreement;
      && StreamOk(layer, now, inb, tin, PassHead(outb, e), tout.(head := head))
      && All(PassHead(outb, e), tout.(head := head)) == All(outb, tout)
  {
    var head := outb.raw[..HeadEnd(outb.raw).value];
    var now := if layer.role.Server? then Some(layer.negotiated(head)) else agreement;
    LayerLocal(layer, now);
    hide Tracks, HeadEndFrom, AgreedLocal, All, layer.Valid;
    TracksHead(layer.OutAgreed(agreement), layer.OutAgreed(now), layer.outStart, outb, tout);
    if layer.role.Server? {
      TracksAgreement(layer.InAgreed(now).value, layer.inStart, inb, tin);
    }
  }

  /** A direction may move on by itself once its head has passed. */
  lemma {:induction false} HalfMoves<SI, SO, F>(layer: Layer<SI, SO, F>, agreement: Option<Option<Params>>,
      inb: Half<SI>, tin: Track, outb: Half<SO>, tout: Track, inb': Half<SI>, tin': Track, outb': Half<SO>, tout': Track)
    requires StreamOk(layer, agreement, inb, tin, outb, tout)
    requires Tracks(layer.InAgreed(agreement), layer.inStart, inb', tin')
    requires Tracks(layer.OutAgreed(agreement), layer.outStart, outb', tout')
    requires inb'.headDone == inb.headDone && tin'.head == tin.head
    requires outb'.headDone == outb.headDone && tout'.head == tout.head
    ensures StreamOk(layer, agreement, inb', tin', outb', tout')
  {
  }

  /** What a poll gives: a value, nothing yet, or an error. */
  datatype Poll<+T> = Ready(value: T) | Pending | Error

  class DeflateStream<SI, SO, F> {
    const layer: Layer<SI, SO, F>

    /** What the response says of compression, unknown before it has passed: parameters, or a
        refusal. */
    var agreement: Option<Option<Params>>
    var inb: Half<SI>
    var outb: Half<SO>

    // The history of each direction: bytes that bypassed it before its head, then the rest.
    ghost var earlyIn: seq<byte>
    ghost var tin: Track
    ghost var earlyOut: seq<byte>
    ghost var tout: Track

    constructor (layer: Layer<SI, SO, F>)
      requires layer.Valid()
      ensures Valid() && InSettled() && OutSettled()
      ensures this.layer == layer && Received() == Delivered() == Accepted() == Sent() == []
    {
      this.layer := layer;
      agreement := None;
      inb := Half([], [], 0, false, layer.inStart);
      outb := Half([], [], 0, false, layer.outStart);
      tin, tout := Track([], [], []), Track([], [], []);
      earlyIn, earlyOut := [], [];
    }

    /** Every byte read from the connection. */
    ghost function Received(): seq<byte> reads this { earlyIn + InFlow() }

    /** Every byte handed to the reader. */
    ghost function Delivered(): seq<byte> reads this { earlyIn + tin.taken }

    /** Every byte accepted from the writer. */
    ghost function Accepted(): seq<byte> reads this { earlyOut + OutFlow() }

    /** Every byte written to the connection. */
    ghost function Sent(): seq<byte> reads this { earlyOut + tout.taken }

    /** Every byte that went into the inbound direction. */
    ghost function InFlow(): seq<byte> reads this { All(inb, tin) }

    /** Every byte that went into the outbound direction. */
    ghost function OutFlow(): seq<byte> reads this { All(outb, tout) }

    ghost predicate Valid()
      reads this
    {
      StreamOk(layer, agreement, inb, tin, outb, tout) && EarlyOk(layer.role, agreement, earlyIn, earlyOut)
    }

    lemma SidesNormal()
      requires Valid()
      ensures inb.Normal() && outb.Normal()
    {
    }

    /** The inbound side equals one pass over everything that went into it. */
    ghost predicate InSettled()
      requires inb.Normal()
      reads this
    {
      Settled(layer.InAgreed(agreement), layer.inStart, inb, tin)
    }

    ghost predicate OutSettled()
      requires outb.Normal()
      reads this
    {
      Settled(layer.OutAgreed(agreement), layer.outStart, outb, tout)
    }

    ghost predicate InBroken() reads this {
      HeadTooLong(InFlow()) || OnePass(layer.InAgreed(agreement), layer.inStart, InFlow()).Broken?
    }

    ghost predicate OutBroken() reads this {
      HeadTooLong(OutFlow()) || OnePass(layer.OutAgreed(agreement), layer.outStart, OutFlow()).Broken?
    }

    // ----- the HTTP head -----

    /** Looks for the end of the inbound head: when it is there, the head goes on as it is, and
        on a client it settles the agreement. */
    method EndHeadIn() returns (ok: bool, ended: bool)
      requires Valid() && !inb.headDone
      modifies `agreement, `inb, `tin
      ensures ok ==> Valid() && ended == inb.headDone
      ensures Received() == old(Received()) && Delivered() == old(Delivered())
      ensures InFlow() == old(InFlow())
      ensures ok <==> HeadEnd(InFlow()).Some? || |InFlow()| <= 65_536
      ensures ok && !ended ==> InSettled()
    {
      assert [] + [] + inb.raw == inb.raw;
      var e := HeadEnd(inb.raw);
      if e.None? {
        WaitingSettled(layer.InAgreed(agreement), layer.inStart, inb, tin);
        return |inb.raw| <= MAX_HEAD, false;
      }
      InHeadPasses(layer, agreement, inb, tin, outb, tout);
      var head := inb.raw[..e.value];
      if layer.role.Client? {
        agreement := Some(layer.negotiated(head));
      }
      inb, tin := PassHead(inb, e.value), tin.(head := head);
      return true, true;
    }

    /** Ends the outbound head likewise; on a server it is the response. */
    method EndHeadOut() returns (ok: bool, ended: bool)
      requires Valid() && !outb.headDone
      modifies `agreement, `outb, `tout
      ensures ok ==> Valid() && ended == outb.headDone
      ensures Accepted() == old(Accepted()) && Sent() == old(Sent())
      ensures OutFlow() == old(OutFlow())
      ensures ok <==> HeadEnd(OutFlow()).Some? || |OutFlow()| <= 65_536
      ensures ok && !ended ==> OutSettled()
    {
      assert [] + [] + outb.raw == outb.raw;
      var e := HeadEnd(outb.raw);
      if e.None? {
        WaitingSettled(layer.OutAgreed(agreement), layer.outStart, outb, tout);
        return |outb.raw| <= MAX_HEAD, false;
      }
      OutHeadPasses(layer, agreement, inb, tin, outb, tout);
      var head := outb.raw[..e.value];
      if layer.role.Server? {
        agreement := Some(layer.negotiated(head));
      }
      outb, tout := PassHead(outb, e.value), tout.(head := head);
      return true, true;
    }

    // ----- rewriting -----

    /** Processes the inbound side once its head has passed. */
    method AdvanceIn() returns (ok: bool)
      requires Valid() && inb.headDone
      modifies `inb, `tin
      ensures ok ==> Valid() && InSettled()
      ensures InFlow() == old(InFlow()) && HeadEnd(InFlow()).Some?
      ensures !ok ==> InBroken()
      ensures Received() == old(Received()) && Delivered() == old(Delivered())
    {
      LayerLocal(layer, agreement);
      hide HeadEndFrom, OnePass, Settled, All, Tracks, AgreedLocal, EarlyOk, AgreementOk;
      HeadKnown(layer.InAgreed(agreement), layer.inStart, inb, tin);
      var next;
      ghost var t';
      ok, next, t' := ProcessHalf(layer.InAgreed(agreement), layer.inStart, inb, tin);
      if ok {
        HalfMoves(layer, agreement, inb, tin, outb, tout, next, t', outb, tout);
      }
      inb, tin := next, t';
    }

    /** Rewrites the complete inbound frames. It fails exactly when the head is too long
        or the one pass over everything that went in fails; otherwise the inbound side is
        that one pass. */
    method ProcessIn() returns (ok: bool)
      requires Valid()
      modifies `agreement, `inb, `tin
      ensures ok ==> Valid() && InSettled() && !HeadTooLong(InFlow())
      ensures InFlow() == old(InFlow())
      ensures !ok ==> InBroken()
      ensures Received() == old(Received()) && Delivered() == old(Delivered())
    {
      if !inb.headDone {
        var fine, ended := EndHeadIn();
        if !fine || !ended {
          return fine;
        }
      }
      ok := AdvanceIn();
    }

    /** Processes the outbound side once its head has passed. */
    method AdvanceOut() returns (ok: bool)
      requires Valid() && outb.headDone
      modifies `outb, `tout
      ensures ok ==> Valid() && OutSettled()
      ensures OutFlow() == old(OutFlow()) && HeadEnd(OutFlow()).Some?
      ensures !ok ==> OutBroken()
      ensures Accepted() == old(Accepted()) && Sent() == old(Sent())
    {
      LayerLocal(layer, agreement);
      hide HeadEndFrom, OnePass, Settled, All, Tracks, AgreedLocal, EarlyOk, AgreementOk;
      HeadKnown(layer.OutAgreed(agreement), layer.outStart, outb, tout);
      var next;
      ghost var t';
      ok, next, t' := ProcessHalf(layer.OutAgreed(agreement), layer.outStart, outb, tout);
      if ok {
        HalfMoves(layer, agreement, inb, tin, outb, tout, inb, tin, next, t');
      }
      outb, tout := next, t';
    }

    /** Rewrites the complete outbound frames, with the same promise. */
    method ProcessOut() returns (ok: bool)
      requires Valid()
      modifies `agreement, `outb, `tout
      ensures ok ==> Valid() && OutSettled() && !HeadTooLong(OutFlow())
      ensures OutFlow() == old(OutFlow())
      ensures !ok ==> OutBroken()
      ensures Accepted() == old(Accepted()) && Sent() == old(Sent())
    {
      if !outb.headDone {
        var fine, ended := EndHeadOut();
        if !fine || !ended {
          return fine;
        }
      }
      ok := AdvanceOut();
    }

    // ----- reading -----

    predicate Declined() reads this { agreement == Some(None) }

    /** The reader gets up to `room` of the bytes that are ready. */
    method TakeIn(room: nat) returns (bytes: seq<byte>)
      requires Valid()
      modifies `inb, `tin
      ensures Valid() && Received() == old(Received())
      ensures Delivered() == old(Delivered()) + bytes
      ensures InFlow() == old(InFlow())
      ensures bytes == old(inb.ready[inb.pos..][..Min(room, |inb.ready| - inb.pos)])
      ensures |bytes| <= room && (room > 0 && old(inb.ready) != [] ==> bytes != [])
      ensures old(ClientSettled()) ==> ClientSettled()
    {
      var n := Min(room, |inb.ready| - inb.pos);
      bytes := inb.ready[inb.pos..][..n];
      Assoc(earlyIn, tin.taken, bytes);
      TakeKeepsTrack(layer.InAgreed(agreement), layer.inStart, inb, tin, n);
      ghost var t' := tin.(taken := tin.taken + bytes);
      HalfMoves(layer, agreement, inb, tin, outb, tout, Take(inb, n), t', outb, tout);
      inb, tin := Take(inb, n), t';
    }

    /** Bytes read from the connection join what waits to be rewritten. */
    method Append(chunk: seq<byte>)
      requires Valid()
      modifies `inb
      ensures Valid() && Received() == old(Received()) + chunk && Delivered() == old(Delivered())
      ensures InFlow() == old(InFlow()) + chunk
      ensures inb == old(inb).(raw := old(inb).raw + chunk)
    {
      Assoc(earlyIn, InFlow(), chunk);
      TracksMore(layer.InAgreed(agreement), layer.inStart, inb, tin, chunk);
      ghost var h := inb.(raw := inb.raw + chunk);
      HalfMoves(layer, agreement, inb, tin, outb, tout, h, tin, outb, tout);
      inb := inb.(raw := inb.raw + chunk);
    }

    /** With compression declined and nothing waiting, bytes go straight to the reader, even
        ahead of a head that has not come yet. */
    method Through(chunk: seq<byte>)
      requires Valid() && Declined() && inb.raw == [] && inb.ready == []
      modifies `tin, `earlyIn
      ensures Valid() && InSettled()
      ensures Received() == old(Received()) + chunk && Delivered() == old(Delivered()) + chunk
    {
      if !inb.headDone {
        WaitingSettled(layer.InAgreed(agreement), layer.inStart, inb, tin);
        EarlyMore(inb, tin, earlyIn, chunk);
        earlyIn := earlyIn + chunk;
        return;
      }
      BothMore(earlyIn, InFlow(), tin.taken, chunk);
      ghost var t' := tin.(used := tin.used + chunk, taken := tin.taken + chunk);
      ThroughKeepsTrack<SI, F>(layer.inStart, inb, tin, chunk);
      HalfMoves(layer, agreement, inb, tin, outb, tout, inb, t', outb, tout);
      tin := t';
    }

    /** Rewrites what waits, when nothing is ready for the reader. */
    method Refill() returns (ok: bool)
      requires Valid()
      modifies `agreement, `inb, `tin
      ensures !ok ==> InBroken()
      ensures ok ==> Valid() && (old(ClientSettled()) ==> ClientSettled())
      ensures ok && inb.ready == [] ==> inb.Normal() && InSettled()
      ensures Received() == old(Received()) && Delivered() == old(Delivered())
    {
      if inb.ready == [] && inb.raw != [] {
        ok := ProcessIn();
      } else {
        ok := true;
        SidesNormal();
        if inb.raw == [] {
          LayerLocal(layer, agreement);
          EmptySettled(layer.InAgreed(agreement), layer.inStart, inb, tin);
        }
      }
    }

    /** Reads once from the connection: straight to the reader when compression was
        declined, into the layer otherwise. */
    method ReadMore(chunk: seq<byte>) returns (r: Poll<bool>)
      requires Valid() && inb.ready == []
      modifies `agreement, `inb, `tin, `earlyIn
      ensures r.Error? ==> InBroken()
      ensures !r.Error? ==> Valid() && (old(ClientSettled()) ==> ClientSettled())
      ensures Received() == old(Received()) + chunk
      ensures r == Ready(true) ==> Delivered() == old(Delivered()) + chunk
      ensures r == Ready(false) || r.Error? ==> Delivered() == old(Delivered())
      ensures !r.Pending? && (r == Ready(true) <==> old(Declined() && inb.raw == []))
    {
      if Declined() && inb.raw == [] {
        Through(chunk);
        return Ready(true);
      }
      Append(chunk);
      var ok := ProcessIn();
      return if ok then Ready(false) else Error;
    }

    /** A client's inbound side is always settled between polls. */
    ghost predicate ClientSettled()
      reads this
    {
      layer.role.Client? && inb.Normal() && InSettled()
    }

    /** A read of the layer. `net` is what the connection still has to give, and `pace(k)`
        how much of it is at hand at its k-th read, so the two range over every way the
        bytes can be split into reads. */
    method PollRead(room: nat, net: seq<byte>, pace: nat -> nat) returns (r: Poll<seq<byte>>, got: nat)
      requires Valid()
      modifies `agreement, `inb, `tin, `earlyIn
      ensures got <= |net| && Received() == old(Received()) + net[..got]
      ensures r.Error? ==> InBroken()
      ensures !r.Error? ==> Valid() && (old(ClientSettled()) ==> ClientSettled())
      ensures !r.Error? ==> Delivered() == old(Delivered()) + (if r.Ready? then r.value else [])
      ensures r.Ready? ==> |r.value| <= room && (room > 0 ==> r.value != [])
      ensures r.Pending? ==> got == |net| && inb.ready == [] && inb.Normal() && InSettled()
    {
      hide *;
      ghost var settled := ClientSettled();
      var k := 0;
      got := 0;
      assert Received() == old(Received()) + net[..got];
      while true
        invariant Valid() && (settled ==> ClientSettled())
        invariant Delivered() == old(Delivered())
        invariant got <= |net| && Received() == old(Received()) + net[..got]
        decreases |net| - got
      {
        // What waits may have become free to go since the last read.
        var ok := Refill();
        if !ok {
          return Error, got;
        }
        if inb.ready != [] {
          var bytes := TakeIn(room);
          return Ready(bytes), got;
        }
        if got == |net| {
          return Pending, got;
        }
        var direct := Declined() && inb.raw == [];
        var n := ReadSize(if direct then room else 0x4000, |net| - got, pace(k));
        var chunk := net[got..got + n];
        assert net[..got + n] == net[..got] + chunk;
        k, got := k + 1, got + n;
        var more := ReadMore(chunk);
        if more.Error? {
          return Error, got;
        }
        if more.value {
          return Ready(chunk), got;
        }
      }
    }

    // ----- writing -----

    /** The connection takes `n` of the bytes that are ready to be sent. */
    method TakeOut(n: nat) returns (bytes: seq<byte>)
      requires Valid() && n <= |outb.ready| - outb.pos
      modifies `outb, `tout
      ensures Valid() && Accepted() == old(Accepted()) && OutFlow() == old(OutFlow())
      ensures bytes == old(outb.ready[outb.pos..outb.pos + n]) && Sent() == old(Sent()) + bytes
      ensures outb == if old(outb.pos) + n == |old(outb.ready)| then old(outb).(ready := [], pos := 0) else old(outb).(pos := old(outb.pos) + n)
      ensures old(OutSettled()) ==> outb.Normal() && OutSettled()
    {
      bytes := outb.ready[outb.pos..outb.pos + n];
      Assoc(earlyOut, tout.taken, bytes);
      assert outb.ready[outb.pos..][..n] == bytes;
      TakeKeepsTrack(layer.OutAgreed(agreement), layer.outStart, outb, tout, n);
      ghost var t' := tout.(taken := tout.taken + bytes);
      HalfMoves(layer, agreement, inb, tin, outb, tout, inb, tin, Take(outb, n), t');
      outb, tout := Take(outb, n), t';
    }

    method AppendOut(buf: seq<byte>)
      requires Valid()
      modifies `outb
      ensures Valid() && Accepted() == old(Accepted()) + buf && Sent() == old(Sent())
      ensures OutFlow() == old(OutFlow()) + buf
    {
      Assoc(earlyOut, OutFlow(), buf);
      TracksMore(layer.OutAgreed(agreement), layer.outStart, outb, tout, buf);
      ghost var h := outb.(raw := outb.raw + buf);
      HalfMoves(layer, agreement, inb, tin, outb, tout, inb, tin, h, tout);
      outb := outb.(raw := outb.raw + buf);
    }

    method ThroughOut(buf: seq<byte>)
      requires Valid() && Declined() && outb.raw == [] && outb.ready == []
      modifies `tout, `earlyOut
      ensures Valid() && OutSettled()
      ensures Accepted() == old(Accepted()) + buf && Sent() == old(Sent()) + buf
    {
      if !outb.headDone {
        WaitingSettled(layer.OutAgreed(agreement), layer.outStart, outb, tout);
        EarlyMore(outb, tout, earlyOut, buf);
        earlyOut := earlyOut + buf;
        return;
      }
      BothMore(earlyOut, OutFlow(), tout.taken, buf);
      ghost var t' := tout.(used := tout.used + buf, taken := tout.taken + buf);
      ThroughKeepsTrack<SO, F>(layer.outStart, outb, tout, buf);
      HalfMoves(layer, agreement, inb, tin, outb, tout, inb, tin, outb, t');
      tout := t';
    }

    /** The outbound side between polls: settled, with the cursor in bounds. */
    ghost predicate OutCalm()
      reads this
    {
      outb.Normal() && OutSettled()
    }

    /** One write to the connection, which takes at most `room` bytes. */
    method WriteOnce(room: nat) returns (bytes: seq<byte>)
      requires Valid() && outb.pos < |outb.ready|
      modifies `outb, `tout
      ensures Valid() && Accepted() == old(Accepted()) && OutFlow() == old(OutFlow())
      ensures Sent() == old(Sent()) + bytes && (old(OutCalm()) ==> OutCalm())
      ensures |bytes| == old(if room < |outb.ready| - outb.pos then room else |outb.ready| - outb.pos)
      ensures |outb.ready| - outb.pos == old(|outb.ready| - outb.pos) - |bytes|
      ensures outb.raw == old(outb.raw) && outb.headDone == old(outb.headDone)
    {
      bytes := TakeOut(Min(room, |outb.ready| - outb.pos));
    }

    /** A side whose cursor has reached the end holds nothing. */
    lemma Emptied()
      requires Valid() && outb.pos >= |outb.ready|
      ensures outb.ready == [] && outb.pos == 0
    {
    }

    /** Writes as much as the connection takes: `room[k]` bytes at its k-th write, then no
        more for now. A write that takes nothing is an error. `sent` is what the connection
        took, in order. */
    method PollDrain(room: seq<nat>) returns (r: Poll<()>, used: nat, sent: seq<byte>)
      requires Valid()
      modifies `outb, `tout
      ensures used <= |room|
      ensures Valid() && Accepted() == old(Accepted()) && OutFlow() == old(OutFlow())
      ensures Sent() == old(Sent()) + sent && (old(OutCalm()) ==> OutCalm())
      ensures r.Ready? ==> outb.ready == [] && outb.pos == 0 && |sent| == old(|outb.ready| - outb.pos)
      ensures |sent| <= Sum(room[..used])
      ensures r.Pending? ==> used == |room| && |sent| == Sum(room)
      ensures r.Error? ==> used > 0 && room[used - 1] == 0
      ensures outb.raw == old(outb.raw) && outb.headDone == old(outb.headDone)
    {
      hide *;
      used, sent := 0, [];
      SumNone(room);
      assert Sent() + [] == Sent();
      while outb.pos < |outb.ready|
        invariant used <= |room|
        invariant Valid() && Accepted() == old(Accepted()) && OutFlow() == old(OutFlow())
        invariant Sent() == old(Sent()) + sent && (old(OutCalm()) ==> OutCalm())
        invariant outb.raw == old(outb.raw) && outb.headDone == old(outb.headDone)
        invariant |sent| <= Sum(room[..used]) && (outb.pos < |outb.ready| ==> |sent| == Sum(room[..used]))
        invariant |sent| + (|outb.ready| - outb.pos) == old(|outb.ready| - outb.pos)
        decreases |room| - used
      {
        if used == |room| {
          assert room[..used] == room;
          return Pending, used, sent;
        }
        SumMore(room, used);
        var bytes := WriteOnce(room[used]);
        used := used + 1;
        Assoc(old(Sent()), sent, bytes);
        sent := sent + bytes;
        if bytes == [] {
          return Error, used, sent;
        }
      }
      Emptied();
      r := Ready(());
    }

    /** A write to the layer: all of `buf` is accepted and rewritten, or, once declined,
        goes straight to the connection, which takes part of it. */
    method PollWrite(buf: seq<byte>, room: seq<nat>) returns (r: Poll<nat>, sent: seq<byte>)
      requires Valid()
      modifies `agreement, `outb, `tout, `earlyOut
      ensures r.Ready? ==> r.value <= |buf| && Valid() && OutCalm() && Accepted() == old(Accepted()) + buf[..r.value]
      ensures r.Pending? ==> Valid() && Accepted() == old(Accepted()) && (old(OutCalm()) ==> OutCalm())
      ensures Sent() == old(Sent()) + sent
      ensures r.Ready? && !old(Declined()) ==> r.value == |buf|
      ensures r == Ready(0) ==> buf == [] || 0 in room
      ensures r.Pending? ==> old(Declined() || |outb.ready| - outb.pos > 262_144)
      ensures old(|outb.ready| - outb.pos > 262_144) && room == [] ==> r.Pending?
      ensures r.Error? ==> OutBroken() || 0 in room
    {
      assert room == [] ==> Sum(room) == 0;
      hide StreamOk, EarlyOk, All, Settled, OnePass, Sum;
      var used := 0;
      sent := [];
      assert Sent() + [] == Sent();
      if |outb.ready| - outb.pos > HIGH_WATER {
        var drained;
        drained, used, sent := PollDrain(room);
        assert room == [] ==> room[..used] == room;
        if !drained.Ready? {
          return if drained.Pending? then Pending else Error, sent;
        }
      }
      assert outb.Normal() by { SidesNormal(); }
      if Declined() && outb.raw == [] && outb.pos == |outb.ready| {
        if used == |room| {
          return Pending, sent;
        }
        var n := Min(room[used], |buf|);
        Assoc(old(Sent()), sent, buf[..n]);
        ThroughOut(buf[..n]);
        return Ready(n), sent + buf[..n];
      }
      var more;
      r, more := RewriteAndSend(buf, room[used..]);
      assert buf[..|buf|] == buf;
      Assoc(old(Sent()), sent, more);
      sent := sent + more;
    }

    /** Accepts all of `buf`, rewrites it and starts sending; the rest goes out later, with
        another write or a flush. */
    method RewriteAndSend(buf: seq<byte>, room: seq<nat>) returns (r: Poll<nat>, sent: seq<byte>)
      requires Valid()
      modifies `agreement, `outb, `tout
      ensures r.Ready? ==> r.value == |buf| && Valid() && OutCalm() && Accepted() == old(Accepted()) + buf
      ensures Sent() == old(Sent()) + sent
      ensures !r.Pending? && (r.Error? ==> OutBroken() || 0 in room)
    {
      AppendOut(buf);
      var ok := ProcessOut();
      if !ok {
        assert Sent() + [] == Sent();
        return Error, [];
      }
      var drained, _, bytes := PollDrain(room);
      return if drained.Error? then Error else Ready(|buf|), bytes;
    }

    /** A flush that completes has sent the whole one-pass rewrite of what was accepted; only
        an incomplete frame, or what waits for the response, stays behind. */
    method PollFlush(room: seq<nat>) returns (r: Poll<()>, sent: seq<byte>)
      requires Valid()
      modifies `agreement, `outb, `tout
      ensures Accepted() == old(Accepted()) && OutFlow() == old(OutFlow())
      ensures Sent() == old(Sent()) + sent
      ensures r.Ready? ==> OnePass(layer.OutAgreed(agreement), layer.outStart, OutFlow()) == View(tout.taken, outb.raw, outb.state)
      ensures !r.Error? ==> Valid() && OutCalm()
      ensures r.Error? ==> OutBroken() || 0 in room
    {
      var ok := ProcessOut();
      if !ok {
        assert Sent() + [] == Sent();
        return Error, [];
      }
      var used;
      r, used, sent := PollDrain(room);
      if r.Ready? {
        NothingWaits(outb, tout);
      }
    }
  }

  lemma {:induction false} SumNone(s: seq<nat>)
    ensures Sum(s[..0]) == 0
  {
  }

  lemma {:induction false} SumMore(s: seq<nat>, i: nat)
    requires i < |s|
    ensures Sum(s[..i + 1]) == Sum(s[..i]) + s[i]
  {
    assert s[..i + 1] == s[..i] + [s[i]];
    SumAppend(s[..i], [s[i]]);
    assert Sum([s[i]]) == s[i];
  }

  /** Bytes that bypass a direction without a head leave it as it is. */
  lemma {:induction false} EarlyMore<S>(h: Half<S>, t: Track, early: seq<byte>, more: seq<byte>)
    requires h.Normal() && h.raw == [] && t.head == [] && t.used == [] && Out(h, t) == []
    ensures (early + more) + All(h, t) == (early + All(h, t)) + more
    ensures (early + more) + t.taken == (early + t.taken) + more
  {
    assert All(h, t) == [] && t.taken == [];
    assert early + [] == early && (early + more) + [] == early + more;
  }

  /** Bytes that go in and straight out are added at the end of both. */
  lemma {:induction false} BothMore(early: seq<byte>, flow: seq<byte>, taken: seq<byte>, more: seq<byte>)
    ensures early + (flow + more) == (early + flow) + more
    ensures early + (taken + more) == (early + taken) + more
  {
    Assoc(early, flow, more);
    Assoc(early, taken, more);
  }

  /** With nothing ready, everything that came out was sent. */
  lemma {:induction false} NothingWaits<S>(h: Half<S>, t: Track)
    requires h.ready == [] && h.pos == 0
    ensures h.Normal() && Out(h, t) == t.taken
  {
    assert t.taken + [] == t.taken;
  }

  /** How many bytes one read takes: what is at hand, at most `cap`. */
  function ReadSize(cap: nat, left: nat, pace: nat): (n: nat)
    requires left > 0
    ensures n <= left && n <= cap && (cap > 0 ==> n > 0)
  {
    Min(cap, Min(left, Max(pace, 1)))
  }
}
