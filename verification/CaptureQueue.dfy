/** The capture queue: workers claim a slot, offer a record to a bounded queue and give the
    slot back when it is full; one writer takes records off. Every atomic operation of every
    worker is one step, so runs are exactly the interleavings of those operations. */
module CaptureQueue {
  import opened Common

  /** Where a worker is in a call of `record`. */
  datatype Phase<+R> =
    | Idle
    | Loaded(record: R)   // the limit check passed, the slot is not claimed yet
    | Holding(record: R)  // about to offer the record to the queue
    | Refused             // the queue was full: the slot has to be given back

  /** A session's stream: its call in progress and the drops it has counted itself. */
  datatype Stream<+R> = Stream(phase: Phase<R>, dropped: nat, open: bool)

  datatype Command<+R> = Record(record: R) | Finish

  /** What the writer thread did, in order. */
  datatype Writer<+R> = Writer(written: seq<R>, lost: nat, failed: bool, stopped: bool)

  /** What happened so far, for stating properties: records offered, records queued, records
      the writer took, claims that overshot the limit, and whether the capture was finished
      with every stream closed. */
  datatype History<+R> = History(produced: nat, queued: seq<R>, taken: seq<R>, overshoot: nat, finishing: bool, orderly: bool)

  datatype State<+R> = State(
    limit: Option<nat>,
    capacity: nat,
    claimed: nat,
    dropped: nat,
    streams: seq<Stream<R>>,
    queue: seq<Command<R>>,
    writer: Writer<R>,
    past: History<R>)

  datatype Step<+R> =
    | Open
    | Begin(worker: nat, record: R)
    | Claim(worker: nat)
    | TrySend(worker: nat)
    | GiveBack(worker: nat)
    | Close(worker: nat)
    | SendFinish
    | HeaderFails
    | Write(succeeds: bool)

  function Init<R>(limit: Option<nat>, capacity: nat): State<R> {
    State(limit, capacity, 0, 0, [], [], Writer([], 0, false, false), History(0, [], [], 0, false, false))
  }

  function Set<R>(s: State<R>, w: nat, stream: Stream<R>): State<R>
    requires w < |s.streams|
  {
    s.(streams := s.streams[w := stream])
  }

  /** The stream counts a drop and is done with its call. */
  function Drop<R>(stream: Stream<R>): Stream<R> { stream.(phase := Idle, dropped := stream.dropped + 1) }

  /** One atomic operation; `None` when it cannot happen now. */
  function Next<R>(s: State<R>, step: Step<R>): Option<State<R>> {
    match step
    case Open =>
      Some(s.(streams := s.streams + [Stream(Idle, 0, true)],
              past := s.past.(orderly := s.past.orderly && !s.past.finishing)))
    case Begin(w, record) =>
      if !(w < |s.streams| && s.streams[w].open && s.streams[w].phase.Idle?) then None else
      var t := s.(past := s.past.(produced := s.past.produced + 1));
      if s.limit.None? then Some(Set(t, w, s.streams[w].(phase := Holding(record))))
      else if s.claimed >= s.limit.value then Some(Set(t, w, Drop(s.streams[w])))
      else Some(Set(t, w, s.streams[w].(phase := Loaded(record))))
    case Claim(w) =>
      if !(w < |s.streams| && s.streams[w].phase.Loaded? && s.limit.Some?) then None else
      var t := s.(claimed := s.claimed + 1);
      if s.claimed >= s.limit.value then
        Some(Set(t.(past := s.past.(overshoot := s.past.overshoot + 1)), w, Drop(s.streams[w])))
      else Some(Set(t, w, s.streams[w].(phase := Holding(s.streams[w].phase.record))))
    case TrySend(w) =>
      if !(w < |s.streams| && s.streams[w].phase.Holding?) then None else
      var record := s.streams[w].phase.record;
      if !s.writer.stopped && |s.queue| < s.capacity then
        Some(Set(s.(queue := s.queue + [Record(record)], past := s.past.(queued := s.past.queued + [record])),
                 w, s.streams[w].(phase := Idle)))
      else if s.limit.Some? then Some(Set(s, w, s.streams[w].(phase := Refused)))
      else Some(Set(s, w, Drop(s.streams[w])))
    case GiveBack(w) =>
      if !(w < |s.streams| && s.streams[w].phase.Refused? && s.claimed > 0) then None else
      Some(Set(s.(claimed := s.claimed - 1), w, Drop(s.streams[w])))
    case Close(w) =>
      if !(w < |s.streams| && s.streams[w].open && s.streams[w].phase.Idle?) then None else
      Some(Set(s.(dropped := s.dropped + s.streams[w].dropped), w, Stream(Idle, 0, false)))
    case SendFinish =>
      if s.past.finishing || s.writer.stopped || |s.queue| >= s.capacity then None else
      Some(s.(queue := s.queue + [Finish], past := s.past.(finishing := true, orderly := AllClosed(s.streams))))
    case HeaderFails =>
      if s.writer.stopped || s.writer.failed || s.past.taken != [] then None else
      Some(s.(writer := s.writer.(failed := true)))
    case Write(succeeds) =>
      if s.writer.stopped || s.queue == [] then None else
      var rest := s.(queue := s.queue[1..]);
      match s.queue[0]
      case Finish => Some(rest.(writer := s.writer.(stopped := true)))
      case Record(record) =>
        var t := rest.(past := s.past.(taken := s.past.taken + [record]));
        if s.writer.failed then Some(t.(writer := s.writer.(lost := s.writer.lost + 1)))
        else if succeeds then Some(t.(writer := s.writer.(written := s.writer.written + [record])))
        else Some(t.(writer := s.writer.(lost := s.writer.lost + 1, failed := true)))
  }

  predicate AllClosed<R>(streams: seq<Stream<R>>) {
    forall i :: 0 <= i < |streams| ==> !streams[i].open
  }

  function Run<R>(s: State<R>, steps: seq<Step<R>>): Option<State<R>>
    decreases |steps|
  {
    if steps == [] then Some(s) else
    match Next(s, steps[0])
    case None => None
    case Some(t) => Run(t, steps[1..])
  }

  // ----- sums over the streams -----

  function Total<R>(f: Stream<R> -> nat, streams: seq<Stream<R>>): nat {
    if streams == [] then 0 else f(streams[0]) + Total(f, streams[1..])
  }

  lemma {:induction false} TotalUpdate<R>(f: Stream<R> -> nat, streams: seq<Stream<R>>, w: nat, x: Stream<R>)
    requires w < |streams|
    ensures Total(f, streams[w := x]) == Total(f, streams) - f(streams[w]) + f(x)
    decreases |streams|
  {
    if w > 0 {
      TotalUpdate(f, streams[1..], w - 1, x);
      assert streams[w := x][1..] == streams[1..][w - 1 := x];
    }
  }

  lemma {:induction false} TotalAppend<R>(f: Stream<R> -> nat, streams: seq<Stream<R>>, x: Stream<R>)
    ensures Total(f, streams + [x]) == Total(f, streams) + f(x)
    decreases |streams|
  {
    if streams != [] {
      TotalAppend(f, streams[1..], x);
      assert (streams + [x])[1..] == streams[1..] + [x];
    } else {
      assert (streams + [x])[1..] == [];
    }
  }

  lemma {:induction false} TotalZero<R>(f: Stream<R> -> nat, streams: seq<Stream<R>>)
    requires forall i :: 0 <= i < |streams| ==> f(streams[i]) == 0
    ensures Total(f, streams) == 0
    decreases |streams|
  {
    if streams != [] {
      TotalZero(f, streams[1..]);
    }
  }

  /** 1 for a stream that holds a claimed slot. */
  function HasSlot<R>(): Stream<R> -> nat {
    (x: Stream<R>) => if x.phase.Holding? || x.phase.Refused? then 1 else 0
  }

  /** 1 for a stream in the middle of a call. */
  function InCall<R>(): Stream<R> -> nat {
    (x: Stream<R>) => if x.phase.Idle? then 0 else 1
  }

  function OwnDrops<R>(): Stream<R> -> nat {
    (x: Stream<R>) => x.dropped
  }

  // ----- invariants -----

  /** Every claim is a queued record, a slot in a worker's hands, or an overshoot, and the
      first two never exceed the limit. */
  ghost predicate SlotsOk<R>(s: State<R>) {
    var held := Total(HasSlot<R>(), s.streams);
    if s.limit.None? then
      s.claimed == 0 && forall i :: 0 <= i < |s.streams| ==> !s.streams[i].phase.Refused?
    else
      && s.claimed == |s.past.queued| + held + s.past.overshoot
      && |s.past.queued| + held <= s.limit.value
  }

  /** A step by worker `w` changes only that worker's stream. */
  lemma {:induction false} WorkerStep<R>(s: State<R>, step: Step<R>, f: Stream<R> -> nat)
    requires Next(s, step).Some? && (step.Begin? || step.Claim? || step.TrySend? || step.GiveBack? || step.Close?)
    ensures var t := Next(s, step).value;
      && step.worker < |s.streams| == |t.streams|
      && t.streams == s.streams[step.worker := t.streams[step.worker]]
      && Total(f, t.streams) == Total(f, s.streams) - f(s.streams[step.worker]) + f(t.streams[step.worker])
  {
    TotalUpdate(f, s.streams, step.worker, Next(s, step).value.streams[step.worker]);
  }

  lemma {:induction false} SlotsWorker<R>(s: State<R>, step: Step<R>)
    requires SlotsOk(s) && Next(s, step).Some? && (step.Begin? || step.Claim? || step.Close?)
    ensures SlotsOk(Next(s, step).value)
  {
    WorkerStep(s, step, HasSlot<R>());
  }

  lemma {:induction false} SlotsSend<R>(s: State<R>, step: Step<R>)
    requires SlotsOk(s) && Next(s, step).Some? && (step.TrySend? || step.GiveBack?)
    ensures SlotsOk(Next(s, step).value)
  {
    WorkerStep(s, step, HasSlot<R>());
  }

  /** Every step of every worker keeps the slot accounting. */
  lemma {:induction false} SlotsStep<R>(s: State<R>, step: Step<R>)
    requires SlotsOk(s) && Next(s, step).Some?
    ensures SlotsOk(Next(s, step).value)
  {
    match step
    case Open => TotalAppend(HasSlot<R>(), s.streams, Stream(Idle, 0, true));
    case Begin(_, _) => SlotsWorker(s, step);
    case Claim(_) => SlotsWorker(s, step);
    case TrySend(_) => SlotsSend(s, step);
    case GiveBack(_) => SlotsSend(s, step);
    case Close(_) => SlotsWorker(s, step);
    case SendFinish =>
    case HeaderFails =>
    case Write(_) =>
  }

  /** The records in a stretch of the queue. */
  function Records<R>(queue: seq<Command<R>>): seq<R> {
    if queue == [] then []
    else (if queue[0].Record? then [queue[0].record] else []) + Records(queue[1..])
  }

  lemma {:induction false} RecordsAppend<R>(queue: seq<Command<R>>, c: Command<R>)
    ensures Records(queue + [c]) == Records(queue) + (if c.Record? then [c.record] else [])
    decreases |queue|
  {
    if queue == [] {
      assert queue + [c] == [c];
    } else {
      RecordsAppend(queue[1..], c);
      assert (queue + [c])[1..] == queue[1..] + [c] && (queue + [c])[0] == queue[0];
      var first := if queue[0].Record? then [queue[0].record] else [];
      var last := if c.Record? then [c.record] else [];
      assert first + (Records(queue[1..]) + last) == (first + Records(queue[1..])) + last;
    }
  }

  /** Nothing is lost between a worker and the file: every record offered was queued, was
      counted as dropped, or is still in a worker's hands. */
  ghost predicate OffersOk<R>(s: State<R>) {
    s.past.produced == |s.past.queued| + s.dropped + Total(OwnDrops<R>(), s.streams) + Total(InCall<R>(), s.streams)
  }

  /** The writer takes records in the order they were queued, and what it wrote is a prefix
      of that order: after a failed write everything else is lost. */
  ghost predicate WriterOk<R>(s: State<R>) {
    && s.past.queued == s.past.taken + Records(s.queue)
    && |s.past.taken| == |s.writer.written| + s.writer.lost
    && s.writer.written <= s.past.taken
    && (!s.writer.failed ==> s.writer.lost == 0)
  }

  lemma {:induction false} OffersBegin<R>(s: State<R>, step: Step<R>)
    requires OffersOk(s) && Next(s, step).Some? && step.Begin?
    ensures OffersOk(Next(s, step).value)
  {
    WorkerStep(s, step, OwnDrops<R>());
    WorkerStep(s, step, InCall<R>());
  }

  lemma {:induction false} OffersClaim<R>(s: State<R>, step: Step<R>)
    requires OffersOk(s) && Next(s, step).Some? && step.Claim?
    ensures OffersOk(Next(s, step).value)
  {
    WorkerStep(s, step, OwnDrops<R>());
    WorkerStep(s, step, InCall<R>());
  }

  lemma {:induction false} OffersEnd<R>(s: State<R>, step: Step<R>)
    requires OffersOk(s) && Next(s, step).Some? && (step.GiveBack? || step.Close?)
    ensures OffersOk(Next(s, step).value)
  {
    WorkerStep(s, step, OwnDrops<R>());
    WorkerStep(s, step, InCall<R>());
  }

  lemma {:induction false} OffersSend<R>(s: State<R>, step: Step<R>)
    requires OffersOk(s) && Next(s, step).Some? && step.TrySend?
    ensures OffersOk(Next(s, step).value)
  {
    WorkerStep(s, step, OwnDrops<R>());
    WorkerStep(s, step, InCall<R>());
  }

  lemma {:induction false} OffersOther<R>(s: State<R>, step: Step<R>)
    requires OffersOk(s) && Next(s, step).Some? && (step.Open? || step.SendFinish? || step.HeaderFails? || step.Write?)
    ensures OffersOk(Next(s, step).value)
  {
    TotalAppend(OwnDrops<R>(), s.streams, Stream(Idle, 0, true));
    TotalAppend(InCall<R>(), s.streams, Stream(Idle, 0, true));
  }

  lemma {:induction false} OffersStep<R>(s: State<R>, step: Step<R>)
    requires OffersOk(s) && Next(s, step).Some?
    ensures OffersOk(Next(s, step).value)
  {
    hide OffersOk, Next;
    if step.Open? || step.SendFinish? || step.HeaderFails? || step.Write? {
      OffersOther(s, step);
    } else if step.TrySend? {
      OffersSend(s, step);
    } else if step.GiveBack? || step.Close? {
      OffersEnd(s, step);
    } else if step.Claim? {
      OffersClaim(s, step);
    } else {
      OffersBegin(s, step);
    }
  }

  lemma {:induction false} WriterAppend<R>(s: State<R>, step: Step<R>)
    requires WriterOk(s) && Next(s, step).Some? && (step.TrySend? || step.SendFinish?)
    ensures WriterOk(Next(s, step).value)
  {
    if step.SendFinish? {
      RecordsAppend(s.queue, Finish);
      assert Records(s.queue) + [] == Records(s.queue);
    } else {
      var record := s.streams[step.worker].phase.record;
      RecordsAppend(s.queue, Record(record));
      assert s.past.taken + (Records(s.queue) + [record]) == s.past.taken + Records(s.queue) + [record];
    }
  }

  lemma {:induction false} WriterTakes<R>(s: State<R>, step: Step<R>)
    requires WriterOk(s) && Next(s, step).Some? && (step.Write? || step.HeaderFails?)
    ensures WriterOk(Next(s, step).value)
  {
    if step.Write? && s.queue[0].Record? {
      var record := s.queue[0].record;
      assert s.past.taken + ([record] + Records(s.queue[1..])) == s.past.taken + [record] + Records(s.queue[1..]);
      assert s.past.taken <= s.past.taken + [record];
    }
  }

  lemma {:induction false} WriterAside<R>(s: State<R>, step: Step<R>)
    requires WriterOk(s) && Next(s, step).Some? && !step.TrySend? && !step.SendFinish? && !step.HeaderFails? && !step.Write?
    ensures WriterOk(Next(s, step).value)
  {
    var t := Next(s, step).value;
    assert t.queue == s.queue && t.writer == s.writer && t.past.queued == s.past.queued && t.past.taken == s.past.taken;
  }

  lemma {:induction false} WriterStep<R>(s: State<R>, step: Step<R>)
    requires WriterOk(s) && Next(s, step).Some?
    ensures WriterOk(Next(s, step).value)
  {
    hide WriterOk, Next;
    if step.TrySend? || step.SendFinish? {
      WriterAppend(s, step);
    } else if step.Write? || step.HeaderFails? {
      WriterTakes(s, step);
    } else {
      WriterAside(s, step);
    }
  }

  /** After an orderly finish no stream can record, and the marker ends the queue. */
  ghost predicate FinishOk<R>(s: State<R>) {
    && (forall i :: 0 <= i < |s.streams| && !s.streams[i].open ==> s.streams[i] == Stream(Idle, 0, false))
    && (!s.past.finishing ==> !s.writer.stopped && Finish !in s.queue && !s.past.orderly)
    && (s.past.orderly ==>
         && AllClosed(s.streams)
         && (s.writer.stopped ==> s.queue == [])
         && (!s.writer.stopped ==> EndsInMarker(s.queue)))
  }

  ghost predicate EndsInMarker<R>(queue: seq<Command<R>>) {
    && queue != []
    && queue[|queue| - 1].Finish?
    && forall i :: 0 <= i < |queue| - 1 ==> queue[i].Record?
  }

  lemma {:induction false} FinishWorker<R>(s: State<R>, step: Step<R>)
    requires FinishOk(s) && Next(s, step).Some?
    requires step.Begin? || step.Claim? || step.TrySend? || step.GiveBack? || step.Close?
    ensures FinishOk(Next(s, step).value)
  {
    assert !s.past.orderly || step.Claim? || step.TrySend? || step.GiveBack?;
    assert s.streams[step.worker].open;
  }

  lemma {:induction false} FinishStep<R>(s: State<R>, step: Step<R>)
    requires FinishOk(s) && Next(s, step).Some?
    ensures FinishOk(Next(s, step).value)
  {
    if step.SendFinish? {
      forall i | 0 <= i < |s.queue| ensures s.queue[i].Record? {
        assert s.queue[i] in s.queue;
      }
    } else if step.Write? {
      assert s.queue[0] in s.queue;
    } else if !step.Open? && !step.HeaderFails? {
      FinishWorker(s, step);
    }
  }

  ghost predicate Inv<R>(s: State<R>) {
    SlotsOk(s) && OffersOk(s) && WriterOk(s) && FinishOk(s)
  }

  lemma {:induction false} InvStep<R>(s: State<R>, step: Step<R>)
    requires Inv(s) && Next(s, step).Some?
    ensures Inv(Next(s, step).value) && Next(s, step).value.limit == s.limit
  {
    assert Next(s, step).value.limit == s.limit;
    hide SlotsOk, OffersOk, WriterOk, FinishOk, Next;
    SlotsStep(s, step);
    OffersStep(s, step);
    WriterStep(s, step);
    FinishStep(s, step);
  }
}
