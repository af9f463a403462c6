/** Two deflate streams joined by a connection: what one application writes is what the
    other reads, at every moment and however the bytes are split on the way. */
module Connection {
  import opened Common
  import opened FrameHeader
  import opened Rewriting
  import opened Frames
  import opened Deflate
  import opened EndToEnd
  import opened DeflateStream

  /** The layer as the program builds it: WebSocket frames, inflated inbound and deflated
      outbound. */
  function DeflateLayer<D, I>(codec: Codec<D, I>, role: Role, negotiated: seq<byte> -> Option<Params>)
    : Layer<InState<I>, OutState<D>, Frame>
  {
    Layer(
      role,
      negotiated,
      InState(false, 0, codec.newInflater, 0, 0),
      (p: Params) => FrameRewriter(Some(MAX_FRAME), InStepper(Config(codec, p, role))),
      OutState(None, 0, 0),
      (p: Params) => FrameRewriter(None, OutStepper(Config(codec, p, role))))
  }

  lemma {:induction false} DeflateLayerValid<D, I>(codec: Codec<D, I>, role: Role, negotiated: seq<byte> -> Option<Params>)
    ensures DeflateLayer(codec, role, negotiated).Valid()
  {
    var l := DeflateLayer(codec, role, negotiated);
    forall p: Params ensures CutsLocally(l.inbound(p)) && CutsLocally(l.outbound(p)) {
      FrameRewriterCutsLocally(Some(MAX_FRAME), InStepper(Config(codec, p, role)));
      FrameRewriterCutsLocally(None, OutStepper(Config(codec, p, role)));
    }
  }

  // ----- a client's reads -----

  /** Once a direction's head has passed, it is the head of everything that went in. */
  lemma {:induction false} HeadOf<S, F>(agreed: Agreed<S, F>, start: S, h: Half<S>, t: Track)
    requires Tracks(agreed, start, h, t) && h.headDone
    ensures HeadEnd(All(h, t)) == Some(|t.head|) && All(h, t)[..|t.head|] == t.head
  {
    HeadKnown(agreed, start, h, t);
    Assoc(t.head, t.used, h.raw);
  }

  /** A settled direction without an agreement has let its head pass if it is complete. */
  lemma {:induction false} SettledHead<S, F>(start: S, h: Half<S>, t: Track)
    requires Tracks<S, F>(None, start, h, t) && !h.headDone && Settled<S, F>(None, start, h, t)
    ensures HeadEnd(All(h, t)).None?
  {
  }

  /** A settled client knows the agreement as soon as the whole head was received. */
  lemma {:induction false} ClientAgreement<SI, SO, F>(c: DeflateStream<SI, SO, F>)
    requires c.Valid() && c.layer.role.Client? && c.InSettled()
    ensures var e := HeadEnd(c.Received());
      c.agreement == if e.None? then None else Some(c.layer.negotiated(c.Received()[..e.value]))
  {
    assert c.Received() == c.InFlow();
    if c.inb.headDone {
      HeadOf(c.layer.InAgreed(c.agreement), c.layer.inStart, c.inb, c.tin);
    } else {
      SettledHead<SI, F>(c.layer.inStart, c.inb, c.tin);
    }
  }

  /** However the bytes a client received were split into reads, what the reader gets, what
      waits and the codec state are the same. */
  lemma {:induction false} SplitIndependence<SI, SO, F>(a: DeflateStream<SI, SO, F>, b: DeflateStream<SI, SO, F>)
    requires a.layer == b.layer && a.layer.role.Client?
    requires a.Valid() && a.InSettled() && b.Valid() && b.InSettled()
    requires a.Received() == b.Received()
    ensures Out(a.inb, a.tin) == Out(b.inb, b.tin)
    ensures a.inb.raw == b.inb.raw && a.inb.state == b.inb.state && a.agreement == b.agreement
  {
    ClientAgreement(a);
    ClientAgreement(b);
    assert a.Received() == a.InFlow() && b.Received() == b.InFlow();
  }

  /** A declined agreement makes the layer the identity, in both directions and at every
      moment, whether or not the direction's own head has passed: what came out and what
      waits are together what went in. */
  lemma {:induction false} DeclinedIsIdentity<SI, SO, F>(s: DeflateStream<SI, SO, F>)
    requires s.Valid() && s.Declined()
    ensures s.earlyIn + Out(s.inb, s.tin) + s.inb.raw == s.Received()
    ensures s.earlyOut + Out(s.outb, s.tout) + s.outb.raw == s.Accepted()
  {
    Assoc(s.earlyIn, Out(s.inb, s.tin), s.inb.raw);
    Assoc(s.earlyOut, Out(s.outb, s.tout), s.outb.raw);
    PassedOn<SI, F>(s.layer.inStart, s.inb, s.tin);
    PassedOn<SO, F>(s.layer.outStart, s.outb, s.tout);
  }

  lemma {:induction false} PassedOn<S, F>(start: S, h: Half<S>, t: Track)
    requires Tracks<S, F>(Some(None), start, h, t)
    ensures Out(h, t) + h.raw == All(h, t)
  {
    if !h.headDone {
      assert [] + [] + h.raw == [] + h.raw;
    }
  }

  // ----- both ends -----

  /** The two ends of one connection: same library, same reading of a response, and each
      has received a prefix of what the other sent. */
  ghost predicate Joined<D, I>(
      x: DeflateStream<InState<I>, OutState<D>, Frame>, y: DeflateStream<InState<I>, OutState<D>, Frame>,
      codec: Codec<D, I>, negotiated: seq<byte> -> Option<Params>)
    reads x, y
  {
    && x.layer == DeflateLayer(codec, x.layer.role, negotiated)
    && y.layer == DeflateLayer(codec, y.layer.role, negotiated)
    && y.layer.role == x.layer.role.Peer()
    && x.Valid() && y.Valid()
    && y.Received() <= x.Sent()
    && x.Received() <= y.Sent()
  }

  // ----- the handshake -----

  /** A head alone comes out of one pass as it is, whatever was agreed. */
  lemma {:induction false} HeadOnePass<S, F>(agreed: Agreed<S, F>, start: S, head: seq<byte>)
    requires AgreedLocal(agreed) && HeadEnd(head) == Some(|head|)
    ensures OnePass(agreed, start, head) == View(head, [], start)
  {
    hide HeadEnd, Rewrite, CutsLocally, Serialize;
    assert head[..|head|] == head && head[|head|..] == [] && head + [] == head;
    if agreed.Some? && agreed.value.Some? {
      RewriteNothing(agreed.value.value, start);
    }
  }

  /** A settled direction that got a head and nothing else has let exactly that pass. */
  lemma {:induction false} SettledOnHead<S, F>(agreed: Agreed<S, F>, start: S, h: Half<S>, t: Track, head: seq<byte>)
    requires AgreedLocal(agreed) && Tracks(agreed, start, h, t) && Settled(agreed, start, h, t)
    requires All(h, t) == head && HeadEnd(head) == Some(|head|)
    ensures h.Normal() && h.headDone && t.head == head && Out(h, t) == head
  {
    HeadOnePass(agreed, start, head);
    assert Out(h, t) == head;
    assert head != [];
    hide HeadEnd, Rewrite, CutsLocally, Serialize;
    if h.headDone {
      HeadOf(agreed, start, h, t);
      assert head[..|head|] == head;
    }
  }

  /** An end writes its head, and the connection takes it. */
  method SendHead<SI, SO, F>(s: DeflateStream<SI, SO, F>, head: seq<byte>)
    requires s.Valid() && s.Accepted() == s.Sent() == [] && HeadEnd(head) == Some(|head|)
    modifies s`agreement, s`outb, s`tout
    ensures s.Valid() && s.outb.headDone && s.tout.head == head && s.Accepted() == s.Sent() == head
  {
    hide HeadEnd, Tracks, Settled, OnePass;
    assert s.OutFlow() == [];
    s.AppendOut(head);
    assert [] + head == head;
    var ok := s.ProcessOut();
    assert AgreedLocal(s.layer.OutAgreed(s.agreement)) by { LayerLocal(s.layer, s.agreement); }
    HeadOnePass(s.layer.OutAgreed(s.agreement), s.layer.outStart, head);
    assert ok;
    SettledOnHead(s.layer.OutAgreed(s.agreement), s.layer.outStart, s.outb, s.tout, head);
    ghost var before := s.outb;
    var _ := s.TakeOut(|s.outb.ready| - s.outb.pos);
    assert before.ready[before.pos..|before.ready|] == before.ready[before.pos..];
    SettledOnHead(s.layer.OutAgreed(s.agreement), s.layer.outStart, s.outb, s.tout, head);
  }

  /** An end receives the other's head. */
  method ReceiveHead<SI, SO, F>(s: DeflateStream<SI, SO, F>, head: seq<byte>)
    requires s.Valid() && s.Received() == [] && HeadEnd(head) == Some(|head|)
    modifies s`agreement, s`inb, s`tin
    ensures s.Valid() && s.inb.headDone && s.tin.head == head && s.Received() == head
  {
    hide HeadEnd, Tracks, Settled, OnePass;
    assert s.InFlow() == [];
    s.Append(head);
    assert [] + head == head;
    var ok := s.ProcessIn();
    assert AgreedLocal(s.layer.InAgreed(s.agreement)) by { LayerLocal(s.layer, s.agreement); }
    HeadOnePass(s.layer.InAgreed(s.agreement), s.layer.inStart, head);
    assert ok;
    SettledOnHead(s.layer.InAgreed(s.agreement), s.layer.inStart, s.inb, s.tin, head);
  }

  /** Two new ends of a connection. */
  method NewEnds<D, I>(codec: Codec<D, I>, negotiated: seq<byte> -> Option<Params>)
    returns (client: DeflateStream<InState<I>, OutState<D>, Frame>, server: DeflateStream<InState<I>, OutState<D>, Frame>)
    ensures fresh(client) && fresh(server) && client != server
    ensures client.layer == DeflateLayer(codec, Client, negotiated) && server.layer == DeflateLayer(codec, Server, negotiated)
    ensures client.layer.role == Client && server.layer.role == Server
    ensures client.layer.negotiated == server.layer.negotiated == negotiated
    ensures client.Valid() && client.Received() == client.Accepted() == client.Sent() == []
    ensures server.Valid() && server.Received() == server.Accepted() == server.Sent() == []
  {
    DeflateLayerValid(codec, Client, negotiated);
    DeflateLayerValid(codec, Server, negotiated);
    client := new DeflateStream(DeflateLayer(codec, Client, negotiated));
    server := new DeflateStream(DeflateLayer(codec, Server, negotiated));
  }

  /** Two new ends that exchange a request and a response are joined, and both hold the
      agreement that the response names: a client reads it, a server writes it. */
  method Handshake<D, I>(
      codec: Codec<D, I>, negotiated: seq<byte> -> Option<Params>, request: seq<byte>, response: seq<byte>)
    returns (client: DeflateStream<InState<I>, OutState<D>, Frame>, server: DeflateStream<InState<I>, OutState<D>, Frame>)
    requires HeadEnd(request) == Some(|request|) && HeadEnd(response) == Some(|response|)
    ensures fresh(client) && fresh(server)
    ensures Joined(client, server, codec, negotiated) && Joined(server, client, codec, negotiated)
    ensures client.agreement == server.agreement == Some(negotiated(response))
    ensures client.inb.headDone && server.inb.headDone
  {
    client, server := NewEnds(codec, negotiated);
    hide HeadEnd, Tracks, Settled, All, DeflateLayer;
    SendHead(client, request);
    ReceiveHead(server, request);
    SendHead(server, response);
    ReceiveHead(client, response);
  }

  /** Whatever came out of a direction starts with its head. */
  lemma {:induction false} OutHasHead<S, F>(agreed: Agreed<S, F>, start: S, h: Half<S>, t: Track)
    requires Tracks(agreed, start, h, t)
    ensures Out(h, t) == [] || (h.headDone && t.head <= Out(h, t) && HeadEnd(Out(h, t)) == Some(|t.head|))
  {
    if h.headDone {
      var rest := Out(h, t)[|t.head|..];
      assert Out(h, t) == t.head + rest;
      HeadEndStable(t.head, 0, rest);
    }
  }

  /** What arrived over a connection has the sender's own head in front. */
  lemma {:induction false} SameHead<S, T, F>(
      from: Agreed<S, F>, start: S, outb: Half<S>, tout: Track, to: Agreed<T, F>, first: T, inb: Half<T>, tin: Track)
    requires Tracks(from, start, outb, tout) && Tracks(to, first, inb, tin)
    requires inb.headDone && All(inb, tin) <= tout.taken
    ensures outb.headDone && tout.head == tin.head
  {
    OutHasHead(from, start, outb, tout);
    HeadOf(to, first, inb, tin);
    var out := Out(outb, tout);
    var got := All(inb, tin);
    assert got <= out;
    assert out == got + out[|got|..];
    HeadEndStable(got, 0, out[|got|..]);
    assert out[..|tin.head|] == got[..|tin.head|];
  }

  /** The two ends never hold different agreements: both read the same response. */
  lemma {:induction false} AgreementsMatch<D, I>(
      x: DeflateStream<InState<I>, OutState<D>, Frame>, y: DeflateStream<InState<I>, OutState<D>, Frame>,
      codec: Codec<D, I>, negotiated: seq<byte> -> Option<Params>)
    requires Joined(x, y, codec, negotiated)
    ensures x.agreement.Some? && y.agreement.Some? ==> x.agreement == y.agreement
  {
    if x.agreement.Some? && y.agreement.Some? {
      if x.layer.role.Client? {
        assert x.Received() == x.InFlow() && y.Sent() == y.tout.taken;
        SameHead(y.layer.OutAgreed(y.agreement), y.layer.outStart, y.outb, y.tout,
          x.layer.InAgreed(x.agreement), x.layer.inStart, x.inb, x.tin);
      } else {
        assert y.Received() == y.InFlow() && x.Sent() == x.tout.taken;
        SameHead(x.layer.OutAgreed(x.agreement), x.layer.outStart, x.outb, x.tout,
          y.layer.InAgreed(y.agreement), y.layer.inStart, y.inb, y.tin);
      }
    }
  }

  /** However the handshake was split on the way: a settled client that has received the whole
      head of the response holds the agreement that response names, and so does the server
      that wrote it. */
  lemma {:induction false} HandshakeAgrees<D, I>(
      client: DeflateStream<InState<I>, OutState<D>, Frame>, server: DeflateStream<InState<I>, OutState<D>, Frame>,
      codec: Codec<D, I>, negotiated: seq<byte> -> Option<Params>)
    requires Joined(client, server, codec, negotiated) && client.layer.role.Client?
    requires client.InSettled() && HeadEnd(client.Received()).Some?
    ensures var head := client.Received()[..HeadEnd(client.Received()).value];
      && server.outb.headDone && head <= server.Accepted()
      && client.agreement == server.agreement == Some(negotiated(head))
  {
    ClientAgreement(client);
    assert client.Received() == client.InFlow() && server.Sent() == server.tout.taken;
    assert client.inb.headDone;
    HeadOf(client.layer.InAgreed(client.agreement), client.layer.inStart, client.inb, client.tin);
    SameHead(server.layer.OutAgreed(server.agreement), server.layer.outStart, server.outb, server.tout,
      client.layer.InAgreed(client.agreement), client.layer.inStart, client.inb, client.tin);
    assert server.Accepted() == server.tout.head + (server.tout.used + server.outb.raw) by {
      Assoc(server.tout.head, server.tout.used, server.outb.raw);
    }
  }

  // ----- delivery -----

  ghost predicate Small(fs: seq<Frame>) { forall f :: f in fs ==> |f.payload| < U64 }

  lemma {:induction false} OutFramesValid<D, I>(cfg: Config<D, I>, st: OutState<D>, fs: seq<Frame>)
    requires AllValid(fs) && Fold(OutStepper(cfg), None, st, fs).Some?
    requires Small(Fold(OutStepper(cfg), None, st, fs).value.1)
    ensures AllValid(Fold(OutStepper(cfg), None, st, fs).value.1)
    decreases |fs|
  {
    if fs != [] {
      var (next, g) := StepOut(cfg, st, fs[0]).value;
      var gs := Fold(OutStepper(cfg), None, next, fs[1..]).value.1;
      var all := [g] + gs;
      assert forall f :: f in gs ==> f in all;
      assert g in all;
      OutFramesValid(cfg, next, fs[1..]);
      if Compresses(cfg, fs[0]) {
        var out := DeflateMessage(cfg.codec, DeflaterOf(cfg.codec, st), fs[0].Plain()).value.1;
        RebuiltValid(fs[0], true, out);
      }
    }
  }

  function OutKit<D, I>(cfg: Config<D, I>): Rewriter<OutState<D>, Frame> { FrameRewriter(None, OutStepper(cfg)) }

  function InKit<D, I>(cfg: Config<D, I>): Rewriter<InState<I>, Frame> { FrameRewriter(Some(MAX_FRAME), InStepper(cfg)) }

  /** The receiver's frames are the sender's first ones. `written` and `read` are the bytes
      each end has used up; nothing the receiver used came from anywhere else. */
  lemma {:induction false} DeliveredPrefix<D(!new), I(!new)>(
      cfg: Config<D, I>, sender: OutState<D>, receiver: InState<I>, written: seq<byte>, read: seq<byte>, ahead: seq<byte>)
    requires Lawful(cfg.codec) && Paired(cfg, sender, receiver)
    requires Rewrite(OutKit(cfg), sender, written).Done?
    requires Rewrite(InKit(PeerOf(cfg)), receiver, read).Done? && Rewrite(InKit(PeerOf(cfg)), receiver, read).rest == []
    requires Plain(FramesIn(written, None)) && Small(Rewrite(OutKit(cfg), sender, written).frames)
    requires Wire(Rewrite(OutKit(cfg), sender, written).frames) == read + ahead
    ensures var fs := FramesIn(written, None);
      var hs := Rewrite(InKit(PeerOf(cfg)), receiver, read).frames;
      && |hs| <= |fs|
      && hs == DeliveredAll(cfg, fs[..|hs|])
      && (CutFrame(ahead, Some(MAX_FRAME)).Incomplete? ==> |hs| == |fs|)
  {
    var fs := FramesIn(written, None);
    var gs := Rewrite(OutKit(cfg), sender, written).frames;
    var ks := FramesIn(read, Some(MAX_FRAME));
    RewriteOfFrames(None, OutStepper(cfg), sender, written);
    RewriteOfFrames(Some(MAX_FRAME), InStepper(PeerOf(cfg)), receiver, read);
    SerializeIsWire(Some(MAX_FRAME), InStepper(PeerOf(cfg)), ks);
    assert read == Wire(ks) by {
      assert Wire(ks) + [] == Wire(ks);
    }
    OutFramesValid(cfg, sender, fs);
    WireIsUnique(ks, gs, ahead);
    var n := |ks|;
    FoldPrefix(OutStepper(cfg), None, sender, fs, n);
    RunRoundTrip(cfg, sender, receiver, fs[..n]);
    if CutFrame(ahead, Some(MAX_FRAME)).Incomplete? {
      WireIncomplete(gs[n..], Some(MAX_FRAME));
    }
  }

  /** A settled, agreed direction leaves no complete frame waiting. */
  lemma {:induction false} SettledIncomplete<S, F>(k: Rewriter<S, F>, start: S, h: Half<S>, t: Track)
    requires Tracks(Some(Some(k)), start, h, t) && h.headDone && Settled(Some(Some(k)), start, h, t)
    ensures k.cut(h.raw).Incomplete?
  {
    HeadOf(Some(Some(k)), start, h, t);
    RewriteSettles(k, start, All(h, t)[|t.head|..]);
  }

  /** The bytes of an agreed direction, after the head: what arrived is part of what was sent. */
  lemma {:induction false} Ahead(out: seq<byte>, got: seq<byte>, head: seq<byte>, wire: seq<byte>, used: seq<byte>, raw: seq<byte>)
    returns (ahead: seq<byte>)
    requires got <= out && out == head + wire && got == head + used + raw
    ensures wire == used + ahead && raw <= ahead && (got == out ==> raw == ahead)
  {
    ahead := wire[|used|..];
    var body := used + raw;
    Assoc(head, used, raw);
    assert out[..|got|] == got;
    assert wire[..|body|] == body by {
      assert wire == out[|head|..];
      assert wire[..|body|] == out[|head|..|got|] == got[|head|..];
    }
    assert wire[..|used|] == used;
    assert wire == wire[..|used|] + ahead;
    assert ahead[..|raw|] == wire[|used|..|body|] == raw;
  }

  /** What `y` has handed on of the frames `x` accepted, under the parameters `p`: the head,
      then the first of those frames, in order and unchanged; and all of them once everything
      `x` has put out has arrived and been processed. */
  ghost predicate HandedOn<D, I>(
      x: DeflateStream<InState<I>, OutState<D>, Frame>, y: DeflateStream<InState<I>, OutState<D>, Frame>,
      codec: Codec<D, I>, p: Params)
    requires x.Valid() && y.Valid()
    reads x, y
  {
    var cfg := Config(codec, p, x.layer.role);
    var fs := FramesIn(x.tout.used, None);
    var r := Rewrite(y.layer.inbound(p), y.layer.inStart, y.tin.used);
    && r.Done? && |r.frames| <= |fs|
    && x.tout.head == y.tin.head
    && x.Accepted() == x.tout.head + x.tout.used + x.outb.raw
    && Out(y.inb, y.tin) == y.tin.head + Wire(DeliveredAll(cfg, fs[..|r.frames|]))
    && (y.Received() == Out(x.outb, x.tout) && y.InSettled() ==> |r.frames| == |fs|)
  }

  /** The two ends agreed on `p`, the head has arrived, and the application at `x` has written
      frames without RSV1 whose compressed form has a length that a header can carry. */
  ghost predicate Flows<D, I>(
      x: DeflateStream<InState<I>, OutState<D>, Frame>, y: DeflateStream<InState<I>, OutState<D>, Frame>, p: Params)
    reads x, y
  {
    && x.agreement == y.agreement == Some(Some(p)) && y.inb.headDone
    && Plain(FramesIn(x.tout.used, None))
    && var r := Rewrite(x.layer.outbound(p), x.layer.outStart, x.tout.used);
       r.Done? ==> Small(r.frames)
  }

  /** End to end, for any two joined ends: the reader at one end has been handed the writer's
      first frames. */
  lemma {:induction false} Delivery<D(!new), I(!new)>(
      x: DeflateStream<InState<I>, OutState<D>, Frame>, y: DeflateStream<InState<I>, OutState<D>, Frame>,
      codec: Codec<D, I>, negotiated: seq<byte> -> Option<Params>, p: Params)
    requires Joined(x, y, codec, negotiated) && Lawful(codec) && Flows(x, y, p)
    ensures HandedOn(x, y, codec, p)
  {
    var cfg := Config(codec, p, x.layer.role);
    assert y.Received() == y.InFlow() && x.Sent() == x.tout.taken && x.Accepted() == x.OutFlow();
    SameHead(x.layer.OutAgreed(x.agreement), x.layer.outStart, x.outb, x.tout,
      y.layer.InAgreed(y.agreement), y.layer.inStart, y.inb, y.tin);
    assert x.layer.outbound(p) == OutKit(cfg) && y.layer.inbound(p) == InKit(PeerOf(cfg));
    var gs := Rewrite(OutKit(cfg), x.layer.outStart, x.tout.used).frames;
    var hs := Rewrite(InKit(PeerOf(cfg)), y.layer.inStart, y.tin.used).frames;
    SerializeIsWire(None, OutStepper(cfg), gs);
    SerializeIsWire(Some(MAX_FRAME), InStepper(PeerOf(cfg)), hs);
    var ahead := Ahead(Out(x.outb, x.tout), y.InFlow(), x.tout.head, Wire(gs), y.tin.used, y.inb.raw);
    DeliveredPrefix(cfg, x.layer.outStart, y.layer.inStart, x.tout.used, y.tin.used, ahead);
    if y.InSettled() {
      SettledIncomplete(InKit(PeerOf(cfg)), y.layer.inStart, y.inb, y.tin);
    }
  }

  /** The byte counters of a connection that agreed on compression: data bytes handed to the
      reader and data bytes taken off the wire, control frames in neither. */
  lemma {:induction false} StreamAccounting<D, I>(
      y: DeflateStream<InState<I>, OutState<D>, Frame>,
      codec: Codec<D, I>, negotiated: seq<byte> -> Option<Params>, p: Params)
    requires y.layer == DeflateLayer(codec, y.layer.role, negotiated) && y.Valid()
    requires y.agreement == Some(Some(p)) && y.inb.headDone
    ensures var hs := Rewrite(y.layer.inbound(p), y.layer.inStart, y.tin.used).frames;
      && Out(y.inb, y.tin) == y.tin.head + Wire(hs)
      && y.tin.used == Wire(FramesIn(y.tin.used, Some(MAX_FRAME)))
      && y.inb.state.bytes == DataBytes(hs)
      && y.inb.state.wire == DataBytes(FramesIn(y.tin.used, Some(MAX_FRAME)))
  {
    var cfg := Config(codec, p, y.layer.role);
    var step := InStepper(cfg);
    assert y.layer.inbound(p) == InKit(cfg);
    var fs := FramesIn(y.tin.used, Some(MAX_FRAME));
    var hs := Rewrite(InKit(cfg), y.layer.inStart, y.tin.used).frames;
    RewriteOfFrames(Some(MAX_FRAME), step, y.layer.inStart, y.tin.used);
    SerializeIsWire(Some(MAX_FRAME), step, hs);
    SerializeIsWire(Some(MAX_FRAME), step, fs);
    assert Wire(fs) + [] == Wire(fs);
    InboundAccounting(cfg, Some(MAX_FRAME), y.layer.inStart, fs);
  }

  /** Outbound likewise: what came out is the frames the accepted ones turn into, and the
      counters are the bytes of the text and binary ones, as accepted and as sent. */
  lemma {:induction false} SendAccounting<D, I>(
      x: DeflateStream<InState<I>, OutState<D>, Frame>,
      codec: Codec<D, I>, negotiated: seq<byte> -> Option<Params>, p: Params)
    requires x.layer == DeflateLayer(codec, x.layer.role, negotiated) && x.Valid()
    requires x.agreement == Some(Some(p)) && x.outb.headDone
    ensures var gs := Rewrite(x.layer.outbound(p), x.layer.outStart, x.tout.used).frames;
      && Out(x.outb, x.tout) == x.tout.head + Wire(gs)
      && x.tout.used == Wire(FramesIn(x.tout.used, None))
      && x.outb.state.bytes == MessageBytes(FramesIn(x.tout.used, None))
      && x.outb.state.wire == MessageBytes(gs)
  {
    var cfg := Config(codec, p, x.layer.role);
    var step := OutStepper(cfg);
    assert x.layer.outbound(p) == OutKit(cfg);
    var fs := FramesIn(x.tout.used, None);
    var gs := Rewrite(OutKit(cfg), x.layer.outStart, x.tout.used).frames;
    RewriteOfFrames(None, step, x.layer.outStart, x.tout.used);
    SerializeIsWire(None, step, gs);
    SerializeIsWire(None, step, fs);
    assert Wire(fs) + [] == Wire(fs);
    OutboundAccounting(cfg, x.layer.outStart, fs);
  }

  // ----- whole runs -----

  /** One poll of one end. A read finds at most `arrived` of the bytes on their way to that
      end, in the pieces `pace` gives; a write to the connection takes what `takes` says. */
  datatype Op =
    | Read(room: nat, arrived: nat, pace: nat -> nat)
    | Write(buf: seq<byte>, takes: seq<nat>)
    | Flush(takes: seq<nat>)

  /** A poll of one end: what it takes off the way in and puts on the way out. */
  method PollEnd<SI, SO, F>(s: DeflateStream<SI, SO, F>, op: Op, coming: seq<byte>)
    returns (ok: bool, still: seq<byte>, sent: seq<byte>)
    requires s.Valid()
    modifies s
    ensures ok ==> s.Valid()
    ensures s.Received() + still == old(s.Received()) + coming && s.Sent() == old(s.Sent()) + sent
    ensures !ok && op.Read? ==> s.InBroken()
    ensures !ok && !op.Read? ==> s.OutBroken() || 0 in op.takes
  {
    hide StreamOk, EarlyOk, All;
    still, sent := coming, [];
    assert s.Sent() + [] == s.Sent();
    match op
    case Read(room, arrived, pace) =>
      var net := coming[..Min(arrived, |coming|)];
      var r, got := s.PollRead(room, net, pace);
      still := coming[got..];
      assert net[..got] == coming[..got] && coming == coming[..got] + coming[got..];
      Assoc(old(s.Received()), coming[..got], coming[got..]);
      ok := !r.Error?;
    case Write(buf, takes) =>
      var r, bytes := s.PollWrite(buf, takes);
      ok, sent := !r.Error?, bytes;
    case Flush(takes) =>
      var r, bytes := s.PollFlush(takes);
      ok, sent := !r.Error?, bytes;
  }

  /** Two ends with the bytes that are on their way to each. */
  ghost predicate Linked<D, I>(
      client: DeflateStream<InState<I>, OutState<D>, Frame>, server: DeflateStream<InState<I>, OutState<D>, Frame>,
      codec: Codec<D, I>, negotiated: seq<byte> -> Option<Params>, toClient: seq<byte>, toServer: seq<byte>)
    reads client, server
  {
    && client != server
    && client.layer == DeflateLayer(codec, Client, negotiated)
    && server.layer == DeflateLayer(codec, Server, negotiated)
    && client.Valid() && server.Valid()
    && server.Sent() == client.Received() + toClient
    && client.Sent() == server.Received() + toServer
  }

  lemma {:induction false} LinkedIsJoined<D, I>(
      client: DeflateStream<InState<I>, OutState<D>, Frame>, server: DeflateStream<InState<I>, OutState<D>, Frame>,
      codec: Codec<D, I>, negotiated: seq<byte> -> Option<Params>, toClient: seq<byte>, toServer: seq<byte>)
    requires Linked(client, server, codec, negotiated, toClient, toServer)
    ensures Joined(client, server, codec, negotiated) && Joined(server, client, codec, negotiated)
  {
    hide StreamOk, EarlyOk;
  }

  /** A step of a run: which end is polled, and how. */
  datatype Step = Step(atClient: bool, op: Op)

  /** A new connection and any list of polls of its ends, until one of them fails: what either
      end received and what is on its way there is always what the other sent. */
  method RunPolls<D, I>(codec: Codec<D, I>, negotiated: seq<byte> -> Option<Params>, steps: seq<Step>)
    returns (client: DeflateStream<InState<I>, OutState<D>, Frame>, server: DeflateStream<InState<I>, OutState<D>, Frame>,
      ok: bool, toClient: seq<byte>, toServer: seq<byte>)
    ensures fresh(client) && fresh(server)
    ensures ok ==> Linked(client, server, codec, negotiated, toClient, toServer)
  {
    client, server := NewEnds(codec, negotiated);
    toClient, toServer, ok := [], [], true;
    hide StreamOk, EarlyOk, All, DeflateLayer;
    var i := 0;
    while i < |steps|
      invariant i <= |steps| && fresh(client) && fresh(server) && ok
      invariant Linked(client, server, codec, negotiated, toClient, toServer)
    {
      ghost var got, gone := server.Received(), client.Received();
      var sent;
      if steps[i].atClient {
        ok, toClient, sent := PollEnd(client, steps[i].op, toClient);
        Assoc(got, toServer, sent);
        toServer := toServer + sent;
      } else {
        ok, toServer, sent := PollEnd(server, steps[i].op, toServer);
        Assoc(gone, toClient, sent);
        toClient := toClient + sent;
      }
      if !ok {
        return;
      }
      i := i + 1;
    }
  }

  /** End to end over every run: after any list of polls of two new ends, however the bytes
      were split and delayed on the way, the ends are joined and do not disagree, and in both
      directions the reader has been handed the writer's first frames. Any shorter list is
      another such run, so this holds at every moment. */
  method Session<D(!new), I(!new)>(codec: Codec<D, I>, negotiated: seq<byte> -> Option<Params>, steps: seq<Step>)
    returns (client: DeflateStream<InState<I>, OutState<D>, Frame>, server: DeflateStream<InState<I>, OutState<D>, Frame>, ok: bool)
    requires Lawful(codec)
    ensures fresh(client) && fresh(server)
    ensures ok ==> Joined(client, server, codec, negotiated) && Joined(server, client, codec, negotiated)
    ensures ok && client.agreement.Some? && server.agreement.Some? ==> client.agreement == server.agreement
    ensures ok ==> forall p :: Flows(client, server, p) ==> HandedOn(client, server, codec, p)
    ensures ok ==> forall p :: Flows(server, client, p) ==> HandedOn(server, client, codec, p)
  {
    hide Lawful, Linked, Joined, Flows, HandedOn;
    var toClient, toServer;
    client, server, ok, toClient, toServer := RunPolls(codec, negotiated, steps);
    if ok {
      LinkedIsJoined(client, server, codec, negotiated, toClient, toServer);
      AgreementsMatch(client, server, codec, negotiated);
      DeliveryBothWays(client, server, codec, negotiated);
    }
  }

  lemma {:induction false} DeliveryBothWays<D(!new), I(!new)>(
      x: DeflateStream<InState<I>, OutState<D>, Frame>, y: DeflateStream<InState<I>, OutState<D>, Frame>,
      codec: Codec<D, I>, negotiated: seq<byte> -> Option<Params>)
    requires Joined(x, y, codec, negotiated) && Joined(y, x, codec, negotiated) && Lawful(codec)
    ensures x.Valid() && y.Valid()
    ensures forall p :: Flows(x, y, p) ==> HandedOn(x, y, codec, p)
    ensures forall p :: Flows(y, x, p) ==> HandedOn(y, x, codec, p)
  {
    hide Lawful, Flows, HandedOn, StreamOk, EarlyOk;
    forall p | Flows(x, y, p) ensures HandedOn(x, y, codec, p) {
      Delivery(x, y, codec, negotiated, p);
    }
    forall p | Flows(y, x, p) ensures HandedOn(y, x, codec, p) {
      Delivery(y, x, codec, negotiated, p);
    }
  }
}
