/** The limit of the capture queue: when a record is refused, exactly, with calls that overlap
    and calls that do not. */
module CaptureLimit {
  import opened Common
  import opened CaptureQueue
  import opened CaptureRuns

  // ----- calls that do not overlap -----

  /** The run never starts a call while another is in progress. */
  predicate Sequential<R>(s: State<R>, steps: seq<Step<R>>)
    decreases |steps|
  {
    steps == [] ||
    (&& (steps[0].Begin? ==> Total(InCall<R>(), s.streams) == 0)
     && (Next(s, steps[0]).Some? ==> Sequential(Next(s, steps[0]).value, steps[1..])))
  }

  /** No claim has overshot: at most one call is in progress, and one that passed the limit
      check still finds a slot. */
  ghost predicate AloneOk<R>(s: State<R>) {
    && s.past.overshoot == 0
    && Total(InCall<R>(), s.streams) <= 1
    && (s.limit.Some? ==> forall i :: 0 <= i < |s.streams| && s.streams[i].phase.Loaded? ==> s.claimed < s.limit.value)
  }

  lemma {:induction false} TotalAtLeast<R>(f: Stream<R> -> nat, streams: seq<Stream<R>>, i: nat, j: nat)
    requires i < j < |streams|
    ensures f(streams[i]) + f(streams[j]) <= Total(f, streams)
    decreases |streams|
  {
    if i > 0 {
      TotalAtLeast(f, streams[1..], i - 1, j - 1);
    } else {
      TotalOne(f, streams[1..], j - 1);
    }
  }

  lemma {:induction false} TotalOne<R>(f: Stream<R> -> nat, streams: seq<Stream<R>>, i: nat)
    requires i < |streams|
    ensures f(streams[i]) <= Total(f, streams)
    decreases |streams|
  {
    if i > 0 {
      TotalOne(f, streams[1..], i - 1);
    }
  }

  /** With one call in progress, every other stream is idle. */
  lemma {:induction false} OthersIdle<R>(s: State<R>, w: nat, i: nat)
    requires w < |s.streams| && i < |s.streams| && i != w
    requires Total(InCall<R>(), s.streams) <= (if s.streams[w].phase.Idle? then 0 else 1)
    ensures s.streams[i].phase.Idle?
  {
    if i < w {
      TotalAtLeast(InCall<R>(), s.streams, i, w);
    } else {
      TotalAtLeast(InCall<R>(), s.streams, w, i);
    }
  }

  lemma {:induction false} AloneStep<R>(s: State<R>, step: Step<R>)
    requires AloneOk(s) && Next(s, step).Some? && (step.Begin? ==> Total(InCall<R>(), s.streams) == 0)
    ensures AloneOk(Next(s, step).value)
  {
    if step.Open? {
      TotalAppend(InCall<R>(), s.streams, Stream(Idle, 0, true));
    } else if !step.SendFinish? && !step.HeaderFails? && !step.Write? {
      AloneWorker(s, step);
    }
  }

  lemma {:induction false} AloneWorker<R>(s: State<R>, step: Step<R>)
    requires AloneOk(s) && Next(s, step).Some? && (step.Begin? ==> Total(InCall<R>(), s.streams) == 0)
    requires step.Begin? || step.Claim? || step.TrySend? || step.GiveBack? || step.Close?
    ensures AloneOk(Next(s, step).value)
  {
    WorkerStep(s, step, InCall<R>());
    if !step.Close? {
      forall i | 0 <= i < |s.streams| && i != step.worker ensures s.streams[i].phase.Idle? {
        OthersIdle(s, step.worker, i);
      }
    }
  }

  lemma {:induction false} AloneRun<R>(s: State<R>, steps: seq<Step<R>>)
    requires AloneOk(s) && Run(s, steps).Some? && Sequential(s, steps)
    ensures AloneOk(Run(s, steps).value)
    decreases |steps|
  {
    hide AloneOk, Next;
    if steps != [] {
      AloneStep(s, steps[0]);
      AloneRun(Next(s, steps[0]).value, steps[1..]);
    }
  }

  /** The run never starts a call while another is in progress. */
  ghost predicate OneByOne<R>(limit: nat, capacity: nat, steps: seq<Step<R>>) {
    Sequential(Init(Some(limit), capacity), steps)
  }

  /** What every claim of a limited run is. */
  lemma {:induction false} ClaimsOfRun<R>(s: State<R>, limit: nat, capacity: nat, steps: seq<Step<R>>)
    requires Reached(s, Some(limit), capacity, steps)
    ensures s.limit == Some(limit)
    ensures s.claimed == |s.past.queued| + Total(HasSlot<R>(), s.streams) + s.past.overshoot
  {
    hide Reached, Total;
    LimitHolds(s, Some(limit), capacity, steps);
    InvReached(s, Some(limit), capacity, steps);
  }

  /** When calls do not overlap, the limit is exact: between calls the claims are exactly the
      records queued, so a record the full queue refused used no slot. */
  lemma {:induction false} SequentialLimitIsExact<R>(s: State<R>, limit: nat, capacity: nat, steps: seq<Step<R>>)
    requires Reached(s, Some(limit), capacity, steps) && OneByOne(limit, capacity, steps)
    ensures s.past.overshoot == 0
    ensures Total(InCall<R>(), s.streams) == 0 ==> s.claimed == |s.past.queued|
  {
    var s0 := Init<R>(Some(limit), capacity);
    assert AloneOk(s0);
    hide Run, Next, Init, Total, Sequential;
    ClaimsOfRun(s, limit, capacity, steps);
    AloneRun(s0, steps);
    if Total(InCall<R>(), s.streams) == 0 {
      NoneHeld(s.streams);
    }
  }

  /** A worker's call that the limit check turns away. */
  ghost predicate RefusedCall<R>(s: State<R>, w: nat, record: R) {
    var t := Next(s, Begin(w, record));
    t.Some? && w < |t.value.streams| && t.value.streams[w].phase.Idle?
  }

  /** A worker's claim that is turned away. */
  ghost predicate RefusedClaim<R>(s: State<R>, w: nat) {
    var t := Next(s, Claim(w));
    t.Some? && w < |t.value.streams| && t.value.streams[w].phase.Idle?
  }

  /** A worker that can start a call. */
  predicate CanBegin<R>(s: State<R>, w: nat) {
    w < |s.streams| && s.streams[w].open && s.streams[w].phase.Idle?
  }

  /** A worker that has passed the limit check and is about to claim. */
  predicate CanClaim<R>(s: State<R>, w: nat) {
    w < |s.streams| && s.streams[w].phase.Loaded?
  }

  /** The two checks, in any state: they compare the claims with the limit. */
  lemma {:induction false} Checks<R>(s: State<R>, limit: nat, w: nat, record: R)
    requires s.limit == Some(limit)
    ensures CanBegin(s, w) ==> (RefusedCall(s, w, record) <==> s.claimed >= limit)
    ensures CanClaim(s, w) ==> (RefusedClaim(s, w) <==> s.claimed >= limit)
  {
  }

  /** The limit check of a call, in every reachable state: it refuses a record exactly when
      the queued records, the slots in workers' hands and the overshoots together reach the
      limit. So it refuses one with room left exactly when slots that may still be given back,
      and overshoots, make up for what is missing. The second check, on the claim itself,
      refuses in exactly the same states. */
  lemma {:induction false} Refusal<R>(s: State<R>, limit: nat, capacity: nat, steps: seq<Step<R>>, w: nat, record: R)
    requires Reached(s, Some(limit), capacity, steps)
    ensures CanBegin(s, w) ==>
      (RefusedCall(s, w, record) <==> |s.past.queued| + Total(HasSlot<R>(), s.streams) + s.past.overshoot >= limit)
    ensures CanClaim(s, w) ==>
      (RefusedClaim(s, w) <==> |s.past.queued| + Total(HasSlot<R>(), s.streams) + s.past.overshoot >= limit)
  {
    hide *;
    ClaimsOfRun(s, limit, capacity, steps);
    Checks(s, limit, w, record);
  }

  /** With no call in progress, only queued records and overshoots count. */
  lemma {:induction false} QuietRefusal<R>(s: State<R>, limit: nat, capacity: nat, steps: seq<Step<R>>, w: nat, record: R)
    requires Reached(s, Some(limit), capacity, steps) && CanBegin(s, w) && Total(InCall<R>(), s.streams) == 0
    ensures RefusedCall(s, w, record) <==> |s.past.queued| + s.past.overshoot >= limit
  {
    hide *;
    Refusal(s, limit, capacity, steps, w, record);
    NoneHeld(s.streams);
  }

  /** When calls do not overlap, only queued records count. */
  lemma {:induction false} SequentialRefusal<R>(s: State<R>, limit: nat, capacity: nat, steps: seq<Step<R>>, w: nat, record: R)
    requires Reached(s, Some(limit), capacity, steps) && OneByOne(limit, capacity, steps)
    requires CanBegin(s, w) && Total(InCall<R>(), s.streams) == 0
    ensures RefusedCall(s, w, record) <==> |s.past.queued| >= limit
  {
    hide *;
    SequentialLimitIsExact(s, limit, capacity, steps);
    QuietRefusal(s, limit, capacity, steps, w, record);
  }

  /** With no call in progress, no stream holds a slot. */
  lemma {:induction false} NoneHeld<R>(streams: seq<Stream<R>>)
    requires Total(InCall<R>(), streams) == 0
    ensures Total(HasSlot<R>(), streams) == 0
  {
    forall i | 0 <= i < |streams| ensures HasSlot<R>()(streams[i]) == 0 {
      TotalOne(InCall<R>(), streams, i);
    }
    TotalZero(HasSlot<R>(), streams);
  }

  // A run of three workers over a queue of any capacity, with a limit one above it.

  const FRESH: Stream<int> := Stream(Idle, 0, true)
  const DROPPED: Stream<int> := Stream(Idle, 1, true)

  function At(capacity: nat, claimed: nat, streams: seq<Stream<int>>, n: nat, produced: nat, overshoot: nat): State<int> {
    Init<int>(Some(capacity + 1), capacity).(claimed := claimed, streams := streams, queue := seq(n, _ => Record(1)),
      past := History(produced, seq(n, _ => 1), [], overshoot, false, false))
  }

  /** Three open streams, and `n` records queued one call at a time. */
  function Filled(capacity: nat, n: nat): State<int> { At(capacity, n, [FRESH, FRESH, FRESH], n, n, 0) }

  /** Worker 0 queues one record more. */
  lemma {:induction false} FillOne(capacity: nat, n: nat)
    requires n < capacity
    ensures Run(Filled(capacity, n), [Begin(0, 1), Claim(0), TrySend(0)]) == Some(Filled(capacity, n + 1))
  {
    var s := Filled(capacity, n);
    var t := Next(s, Begin(0, 1)).value;
    assert t.streams == [FRESH.(phase := Loaded(1)), FRESH, FRESH];
    var u := Next(t, Claim(0)).value;
    assert u.streams == [FRESH.(phase := Holding(1)), FRESH, FRESH];
    var v := Next(u, TrySend(0)).value;
    assert v.streams == [FRESH, FRESH, FRESH];
    assert v.queue == seq(n + 1, _ => Record(1)) && v.past.queued == seq(n + 1, _ => 1);
    RunThree(s, Begin(0, 1), Claim(0), TrySend(0));
  }

  /** Three workers open their streams. */
  lemma {:induction false} OpenThree(capacity: nat)
    ensures Run(Init<int>(Some(capacity + 1), capacity), [Open, Open, Open]) == Some(Filled(capacity, 0))
  {
    var s := Init<int>(Some(capacity + 1), capacity);
    RunThree(s, Open, Open, Open);
    var t := Next(s, Open).value;
    assert t.streams == [FRESH];
    var u := Next(t, Open).value;
    assert u.streams == [FRESH, FRESH];
    assert [FRESH, FRESH] + [FRESH] == [FRESH, FRESH, FRESH];
    var f := Filled(capacity, 0);
    assert f.queue == [] && f.past.queued == [];
  }

  /** Three workers open their streams, and worker 0 fills the queue up to `n` records. */
  lemma {:induction false} Fill(capacity: nat, n: nat) returns (steps: seq<Step<int>>)
    requires n <= capacity
    ensures Run(Init<int>(Some(capacity + 1), capacity), steps) == Some(Filled(capacity, n))
    decreases n
  {
    var s := Init<int>(Some(capacity + 1), capacity);
    hide Next, Run, Filled;
    if n == 0 {
      OpenThree(capacity);
      steps := [Open, Open, Open];
    } else {
      var before := Fill(capacity, n - 1);
      FillOne(capacity, n - 1);
      RunAppend(s, before, [Begin(0, 1), Claim(0), TrySend(0)]);
      steps := before + [Begin(0, 1), Claim(0), TrySend(0)];
    }
  }

  /** The queue is full and one slot is left: workers 0 and 1 both pass the limit check before
      either claims it. */
  lemma {:induction false} BothPass(capacity: nat)
    ensures Run(Filled(capacity, capacity), [Begin(0, 2), Begin(1, 3), Claim(0)])
         == Some(At(capacity, capacity + 1, [FRESH.(phase := Holding(2)), FRESH.(phase := Loaded(3)), FRESH], capacity, capacity + 2, 0))
  {
    var s := Filled(capacity, capacity);
    var t := Next(s, Begin(0, 2)).value;
    assert t.streams == [FRESH.(phase := Loaded(2)), FRESH, FRESH];
    var u := Next(t, Begin(1, 3)).value;
    assert u.streams == [FRESH.(phase := Loaded(2)), FRESH.(phase := Loaded(3)), FRESH];
    var v := Next(u, Claim(0)).value;
    assert v.streams == [FRESH.(phase := Holding(2)), FRESH.(phase := Loaded(3)), FRESH];
    RunThree(s, Begin(0, 2), Begin(1, 3), Claim(0));
  }

  /** Worker 1 overshoots; worker 0 finds the queue full and gives its slot back. */
  lemma {:induction false} OneOvershoots(capacity: nat)
    ensures Run(At(capacity, capacity + 1, [FRESH.(phase := Holding(2)), FRESH.(phase := Loaded(3)), FRESH], capacity, capacity + 2, 0),
                [Claim(1), TrySend(0), GiveBack(0)])
         == Some(At(capacity, capacity + 1, [DROPPED, DROPPED, FRESH], capacity, capacity + 2, 1))
  {
    var s := At(capacity, capacity + 1, [FRESH.(phase := Holding(2)), FRESH.(phase := Loaded(3)), FRESH], capacity, capacity + 2, 0);
    var t := Next(s, Claim(1)).value;
    assert t.streams == [FRESH.(phase := Holding(2)), DROPPED, FRESH];
    var u := Next(t, TrySend(0)).value;
    assert u.streams == [FRESH.(phase := Refused), DROPPED, FRESH];
    var v := Next(u, GiveBack(0)).value;
    assert v.streams == [DROPPED, DROPPED, FRESH];
    RunThree(s, Claim(1), TrySend(0), GiveBack(0));
  }

  /** No call is in progress, the queue has room and fewer records than the limit were ever
      queued; and yet worker 2's next record is dropped. */
  ghost predicate Wastes(s: State<int>, limit: nat) {
    && Total(InCall<int>(), s.streams) == 0
    && |s.queue| < s.capacity && !s.writer.stopped && |s.past.queued| < limit
    && Next(s, Begin(2, 9)).Some?
    && |s.streams| == |Next(s, Begin(2, 9)).value.streams| == 3
    && Next(s, Begin(2, 9)).value.streams[2].dropped == s.streams[2].dropped + 1
  }

  /** The writer takes a record; a third worker is refused all the same. */
  lemma {:induction false} StillRefused(capacity: nat)
    requires capacity >= 1
    ensures var s := At(capacity, capacity + 1, [DROPPED, DROPPED, FRESH], capacity, capacity + 2, 1);
      Next(s, Write(true)).Some? && Wastes(Next(s, Write(true)).value, capacity + 1)
  {
    var s := At(capacity, capacity + 1, [DROPPED, DROPPED, FRESH], capacity, capacity + 2, 1);
    TotalZero(InCall<int>(), Next(s, Write(true)).value.streams);
  }

  ghost predicate WastesAfter(capacity: nat, steps: seq<Step<int>>) {
    var s := Run(Init<int>(Some(capacity + 1), capacity), steps);
    s.Some? && Wastes(s.value, capacity + 1)
  }

  /** Overlapping claims can leave a slot unused for good, whatever the queue's capacity: with
      a limit one above it, as many records as fill the queue were ever queued, the queue has
      room again and no call is in progress, and yet the next record is refused as over the
      limit. */
  lemma {:induction false} OvershootWastesSlot(capacity: nat)
    requires capacity >= 1
    ensures exists steps :: WastesAfter(capacity, steps)
  {
    hide Next, Run, At, Filled, Wastes;
    var s0 := Init<int>(Some(capacity + 1), capacity);
    var a := Fill(capacity, capacity);
    var b, c := [Begin(0, 2), Begin(1, 3), Claim(0)], [Claim(1), TrySend(0), GiveBack(0)];
    BothPass(capacity);
    OneOvershoots(capacity);
    StillRefused(capacity);
    RunAppend(s0, a, b);
    RunAppend(s0, a + b, c);
    var d: seq<Step<int>> := [Write(true)];
    RunAppend(s0, a + b + c, d);
    var s := At(capacity, capacity + 1, [DROPPED, DROPPED, FRESH], capacity, capacity + 2, 1);
    RunCons(s, Write(true), []);
    assert d + [] == d;
    RunNone(Next(s, Write(true)).value);
    assert WastesAfter(capacity, a + b + c + d);
  }
}
