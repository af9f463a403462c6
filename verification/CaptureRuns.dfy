/** What a capture promises over whole runs: the limit, and where every record went. */
module CaptureRuns {
  import opened Common
  import opened CaptureQueue

  /** Every state of a run keeps all of it. */
  lemma {:induction false} InvRun<R>(s: State<R>, steps: seq<Step<R>>, t: State<R>)
    requires Inv(s) && Run(s, steps) == Some(t)
    ensures Inv(t) && t.limit == s.limit
    decreases |steps|
  {
    hide Next, Inv;
    if steps != [] {
      InvStep(s, steps[0]);
      InvRun(Next(s, steps[0]).value, steps[1..], t);
    }
  }

  /** `s` is reached from the start by the steps of a run. */
  ghost predicate Reached<R>(s: State<R>, limit: Option<nat>, capacity: nat, steps: seq<Step<R>>) {
    Run(Init(limit, capacity), steps) == Some(s)
  }

  lemma {:induction false} InvReached<R>(s: State<R>, limit: Option<nat>, capacity: nat, steps: seq<Step<R>>)
    requires Reached(s, limit, capacity, steps)
    ensures Inv(s) && s.limit == limit
  {
    hide Run, Inv, Init;
    InitInv<R>(limit, capacity);
    InvRun(Init(limit, capacity), steps, s);
  }

  lemma {:induction false} InitInv<R>(limit: Option<nat>, capacity: nat)
    ensures Inv(Init<R>(limit, capacity)) && Init<R>(limit, capacity).limit == limit
  {
    hide Run;
  }

  /** The limit, in every reachable state: no more records are ever queued, let alone written,
      than it allows; every claim is a queued record, a slot in a worker's hands or an
      overshoot; and the file is a prefix of the queue order. */
  lemma {:induction false} LimitHolds<R>(s: State<R>, limit: Option<nat>, capacity: nat, steps: seq<Step<R>>)
    requires Reached(s, limit, capacity, steps)
    ensures limit.Some? ==> |s.writer.written| <= |s.past.queued| <= limit.value
    ensures limit.Some? ==> s.claimed == |s.past.queued| + Total(HasSlot<R>(), s.streams) + s.past.overshoot
    ensures s.writer.written <= s.past.queued
  {
    hide Reached, Total, Records;
    InvReached(s, limit, capacity, steps);
    assert s.writer.written <= s.past.taken <= s.past.queued;
  }

  /** In every reachable state, the records the summary does not account for are exactly those
      queued behind the marker, those still in a worker's hands, and the drops of streams not
      closed yet. After an orderly finish there are none. */
  lemma {:induction false} Conservation<R>(s: State<R>, limit: Option<nat>, capacity: nat, steps: seq<Step<R>>)
    requires Reached(s, limit, capacity, steps)
    ensures s.past.produced == |s.writer.written| + s.writer.lost + s.dropped
      + |Records(s.queue)| + Total(OwnDrops<R>(), s.streams) + Total(InCall<R>(), s.streams)
    ensures s.writer.stopped && s.past.orderly ==>
      |s.writer.written| + (s.dropped + s.writer.lost) == s.past.produced
  {
    hide *;
    InvReached(s, limit, capacity, steps);
    Balance(s);
  }

  lemma {:induction false} Balance<R>(s: State<R>)
    requires Inv(s)
    ensures s.past.produced == |s.writer.written| + s.writer.lost + s.dropped
      + |Records(s.queue)| + Total(OwnDrops<R>(), s.streams) + Total(InCall<R>(), s.streams)
    ensures s.writer.stopped && s.past.orderly ==>
      |s.writer.written| + (s.dropped + s.writer.lost) == s.past.produced
  {
    if s.writer.stopped && s.past.orderly {
      TotalZero(OwnDrops<R>(), s.streams);
      TotalZero(InCall<R>(), s.streams);
    }
  }

  /** A run that ends with the writer stopped and one record, the only one, in no count. */
  ghost predicate LosesOne<R>(s: State<R>) {
    s.writer.stopped && !s.past.orderly && s.past.produced == 1 && |s.writer.written| + s.dropped + s.writer.lost == 0
  }

  /** Finishing while a stream is still open can leave a record out of every count, whatever
      the queue's capacity and whatever the limit, as long as both let a record through. */
  lemma {:induction false} EarlyFinishLosesCount(limit: Option<nat>, capacity: nat)
    requires capacity >= 1 && (limit.Some? ==> limit.value >= 1)
    ensures exists steps: seq<Step<int>> ::
      Run(Init<int>(limit, capacity), steps).Some? && LosesOne(Run(Init<int>(limit, capacity), steps).value)
  {
    var s0 := Init<int>(limit, capacity);
    var s1 := Next(s0, Open).value;
    var s2 := Next(s1, Begin(0, 7)).value;
    var finish := [SendFinish, Write(true), TrySend(0)];
    if limit.None? {
      assert s2.streams == [Stream(Holding(7), 0, true)];
      FinishFirst(s2);
      RunThenRest(s0, Open, Begin(0, 7), finish);
    } else {
      var s3 := Next(s2, Claim(0)).value;
      assert s3.streams == [Stream(Holding(7), 0, true)];
      FinishFirst(s3);
      RunCons(s2, Claim(0), finish);
      RunThenRest(s0, Open, Begin(0, 7), [Claim(0)] + finish);
    }
  }

  lemma {:induction false} RunThenRest<R>(s: State<R>, x: Step<R>, y: Step<R>, rest: seq<Step<R>>)
    requires Next(s, x).Some? && Next(Next(s, x).value, y).Some?
    ensures Run(s, [x] + ([y] + rest)) == Run(Next(Next(s, x).value, y).value, rest)
  {
    hide Next;
    RunCons(s, x, [y] + rest);
    RunCons(Next(s, x).value, y, rest);
  }

  /** A worker is about to offer the only record; the marker overtakes it. */
  lemma {:induction false} FinishFirst(s: State<int>)
    requires s.capacity >= 1 && s.queue == [] && s.streams == [Stream(Holding(7), 0, true)]
    requires s.dropped == 0 && s.writer == Writer([], 0, false, false) && s.past == History(1, [], [], 0, false, false)
    ensures var r := Run(s, [SendFinish, Write(true), TrySend(0)]); r.Some? && LosesOne(r.value)
  {
    var t := Next(s, SendFinish).value;
    var u := Next(t, Write(true)).value;
    assert u.queue == [] && u.writer.stopped;
    RunThree(s, SendFinish, Write(true), TrySend(0));
  }

  lemma {:induction false} RunCons<R>(s: State<R>, step: Step<R>, rest: seq<Step<R>>)
    requires Next(s, step).Some?
    ensures Run(s, [step] + rest) == Run(Next(s, step).value, rest)
  {
    assert ([step] + rest)[1..] == rest;
  }

  lemma {:induction false} RunNone<R>(s: State<R>)
    ensures Run(s, []) == Some(s)
  {
  }

  lemma {:induction false} RunThree<R>(s: State<R>, x: Step<R>, y: Step<R>, z: Step<R>)
    requires Next(s, x).Some? && Next(Next(s, x).value, y).Some?
    ensures Run(s, [x, y, z]) == Next(Next(Next(s, x).value, y).value, z)
  {
    RunCons(s, x, [y, z]);
    RunCons(Next(s, x).value, y, [z]);
    var t := Next(Next(s, x).value, y).value;
    if Next(t, z).Some? {
      RunCons(t, z, []);
    }
  }

  lemma {:induction false} RunAppend<R>(s: State<R>, a: seq<Step<R>>, b: seq<Step<R>>)
    requires Run(s, a).Some?
    ensures Run(s, a + b) == Run(Run(s, a).value, b)
    decreases |a|
  {
    if a == [] {
      assert a + b == b;
    } else {
      RunAppend(Next(s, a[0]).value, a[1..], b);
      assert (a + b)[1..] == a[1..] + b && (a + b)[0] == a[0];
    }
  }

  // ----- what can happen -----

  lemma {:induction false} SlotHeld<R>(streams: seq<Stream<R>>, w: nat)
    requires w < |streams| && (streams[w].phase.Holding? || streams[w].phase.Refused?)
    ensures Total(HasSlot<R>(), streams) > 0
    decreases |streams|
  {
    if w > 0 { SlotHeld(streams[1..], w - 1); }
  }

  /** In every reachable state a worker between calls can start one or close its stream, and one
      in a call can take its next step, whatever the others do: no call is ever stuck. The writer
      can take whatever is queued, and the marker waits for room only. */
  lemma {:induction false} NeverStuck<R>(s: State<R>, limit: Option<nat>, capacity: nat, steps: seq<Step<R>>, w: nat, record: R, succeeds: bool)
    requires Reached(s, limit, capacity, steps)
    ensures Next(s, Open).Some?
    ensures Next(s, Begin(w, record)).Some? <==> w < |s.streams| && s.streams[w].open && s.streams[w].phase.Idle?
    ensures Next(s, Close(w)).Some? <==> w < |s.streams| && s.streams[w].open && s.streams[w].phase.Idle?
    ensures Next(s, Claim(w)).Some? <==> w < |s.streams| && s.streams[w].phase.Loaded?
    ensures Next(s, TrySend(w)).Some? <==> w < |s.streams| && s.streams[w].phase.Holding?
    ensures Next(s, GiveBack(w)).Some? <==> w < |s.streams| && s.streams[w].phase.Refused?
    ensures Next(s, Write(succeeds)).Some? <==> !s.writer.stopped && s.queue != []
    ensures Next(s, SendFinish).Some? <==> !s.past.finishing && !s.writer.stopped && |s.queue| < s.capacity
  {
    InvReached(s, limit, capacity, steps);
    var s0 := Init<R>(limit, capacity);
    assert LimitedOk(s0);
    hide Run, Next, Init, Total, OffersOk, WriterOk, FinishOk;
    LimitedRun(s0, steps, s);
    if w < |s.streams| && s.streams[w].phase.Refused? {
      SlotHeld(s.streams, w);
    }
    Possible(s, w, record, succeeds);
  }

  lemma {:induction false} Possible<R>(s: State<R>, w: nat, record: R, succeeds: bool)
    requires w < |s.streams| && s.streams[w].phase.Refused? ==> s.claimed > 0
    requires w < |s.streams| && s.streams[w].phase.Loaded? ==> s.limit.Some?
    ensures Next(s, Open).Some?
    ensures Next(s, Begin(w, record)).Some? <==> w < |s.streams| && s.streams[w].open && s.streams[w].phase.Idle?
    ensures Next(s, Close(w)).Some? <==> w < |s.streams| && s.streams[w].open && s.streams[w].phase.Idle?
    ensures Next(s, Claim(w)).Some? <==> w < |s.streams| && s.streams[w].phase.Loaded?
    ensures Next(s, TrySend(w)).Some? <==> w < |s.streams| && s.streams[w].phase.Holding?
    ensures Next(s, GiveBack(w)).Some? <==> w < |s.streams| && s.streams[w].phase.Refused?
    ensures Next(s, Write(succeeds)).Some? <==> !s.writer.stopped && s.queue != []
    ensures Next(s, SendFinish).Some? <==> !s.past.finishing && !s.writer.stopped && |s.queue| < s.capacity
  {
  }

  /** Only a limited capture checks the limit before it claims. */
  ghost predicate LimitedOk<R>(s: State<R>) {
    s.limit.None? ==> forall i :: 0 <= i < |s.streams| ==> !s.streams[i].phase.Loaded?
  }

  lemma {:induction false} LimitedStep<R>(s: State<R>, step: Step<R>)
    requires LimitedOk(s) && Next(s, step).Some?
    ensures LimitedOk(Next(s, step).value)
  {
  }

  lemma {:induction false} LimitedRun<R>(s: State<R>, steps: seq<Step<R>>, t: State<R>)
    requires LimitedOk(s) && Run(s, steps) == Some(t)
    ensures LimitedOk(t)
    decreases |steps|
  {
    hide Next, LimitedOk;
    if steps != [] {
      LimitedStep(s, steps[0]);
      LimitedRun(Next(s, steps[0]).value, steps[1..], t);
    }
  }

  // ----- nothing is dropped or lost without a cause -----

  /** The file's header was written, and so was every line tried. */
  predicate AllWrites<R>(steps: seq<Step<R>>) {
    forall i :: 0 <= i < |steps| ==> !steps[i].HeaderFails? && (steps[i].Write? ==> steps[i].succeeds)
  }

  /** Without a failing write no record is lost: the file holds every record the writer took. */
  lemma {:induction false} NothingLost<R>(s: State<R>, limit: Option<nat>, capacity: nat, steps: seq<Step<R>>)
    requires Reached(s, limit, capacity, steps) && AllWrites(steps)
    ensures s.writer.lost == 0 && s.writer.written == s.past.taken
  {
    var s0 := Init<R>(limit, capacity);
    assert !s0.writer.failed;
    hide Run, Next, Init;
    WritesRun(s0, steps, s);
    InvReached(s, limit, capacity, steps);
    assert s.writer.written == s.past.taken[..|s.writer.written|];
  }

  lemma {:induction false} WritesRun<R>(s: State<R>, steps: seq<Step<R>>, t: State<R>)
    requires Run(s, steps) == Some(t) && AllWrites(steps) && !s.writer.failed
    ensures !t.writer.failed
    decreases |steps|
  {
    if steps != [] {
      var next := Next(s, steps[0]).value;
      assert !next.writer.failed by { WriteStep(s, steps[0]); }
      hide Next;
      WritesRun(next, steps[1..], t);
    }
  }

  lemma {:induction false} WriteStep<R>(s: State<R>, step: Step<R>)
    requires Next(s, step).Some? && !step.HeaderFails? && (step.Write? ==> step.succeeds) && !s.writer.failed
    ensures !Next(s, step).value.writer.failed
  {
  }

  /** When the header could not be written nothing is: every record the writer takes is lost. */
  lemma {:induction false} NothingWritten<R>(s: State<R>, limit: Option<nat>, capacity: nat, steps: seq<Step<R>>)
    requires Reached(s, limit, capacity, steps) && HeaderFails in steps
    ensures s.writer.written == [] && s.writer.lost == |s.past.taken|
  {
    var s0 := Init<R>(limit, capacity);
    assert s0.writer.written == [] && s0.past.taken == [];
    hide Run, Next, Init;
    HeaderlessRun(s0, steps, s);
    InvReached(s, limit, capacity, steps);
  }

  /** The header failed, or it has not been tried and nothing was taken. */
  ghost predicate Headerless<R>(s: State<R>) { s.writer.failed && s.writer.written == [] }

  lemma {:induction false} HeaderlessStep<R>(s: State<R>, step: Step<R>)
    requires Next(s, step).Some?
    ensures Headerless(s) ==> Headerless(Next(s, step).value)
    ensures step.HeaderFails? && |s.writer.written| <= |s.past.taken| ==> Headerless(Next(s, step).value)
    ensures |s.writer.written| <= |s.past.taken| ==> |Next(s, step).value.writer.written| <= |Next(s, step).value.past.taken|
  {
  }

  lemma {:induction false} HeaderlessRun<R>(s: State<R>, steps: seq<Step<R>>, t: State<R>)
    requires Run(s, steps) == Some(t) && |s.writer.written| <= |s.past.taken|
    ensures Headerless(s) || HeaderFails in steps ==> t.writer.written == []
    decreases |steps|
  {
    hide Next;
    if steps != [] {
      HeaderlessStep(s, steps[0]);
      HeaderlessRun(Next(s, steps[0]).value, steps[1..], t);
      assert steps == [steps[0]] + steps[1..];
    }
  }

  /** Nothing was dropped so far, and nothing is about to be. */
  ghost predicate NoDrops<R>(s: State<R>) {
    && !s.writer.stopped && s.dropped == 0 && s.past.overshoot == 0
    && (forall i :: 0 <= i < |s.streams| ==> s.streams[i].dropped == 0 && !s.streams[i].phase.Refused?)
    && |s.queue| <= |s.past.queued| + (if s.past.finishing then 1 else 0)
  }

  /** The queue is longer than there were records, and so is the limit, if there is one. */
  predicate HasRoom<R>(s: State<R>) {
    s.past.produced < s.capacity && (s.limit.Some? ==> s.past.produced <= s.limit.value)
  }

  /** A stream in a call holds at most one slot, and one that has not claimed yet holds none. */
  lemma {:induction false} SlotsInCalls<R>(streams: seq<Stream<R>>)
    ensures Total(HasSlot<R>(), streams) <= Total(InCall<R>(), streams)
  {
    if streams != [] { SlotsInCalls(streams[1..]); }
  }

  lemma {:induction false} OneUnclaimed<R>(streams: seq<Stream<R>>, w: nat)
    requires w < |streams| && streams[w].phase.Loaded?
    ensures Total(HasSlot<R>(), streams) < Total(InCall<R>(), streams)
    decreases |streams|
  {
    SlotsInCalls(streams[1..]);
    if w > 0 { OneUnclaimed(streams[1..], w - 1); }
  }

  lemma {:induction false} OneInCall<R>(streams: seq<Stream<R>>, w: nat)
    requires w < |streams| && !streams[w].phase.Idle?
    ensures Total(InCall<R>(), streams) > 0
    decreases |streams|
  {
    if w > 0 { OneInCall(streams[1..], w - 1); }
  }

  /** With nothing dropped, every record is queued or in a call, and claims are no more. */
  lemma {:induction false} NoDropsCounts<R>(s: State<R>)
    requires Inv(s) && NoDrops(s)
    ensures s.past.produced == |s.past.queued| + Total(InCall<R>(), s.streams)
    ensures s.limit.Some? ==> s.claimed == |s.past.queued| + Total(HasSlot<R>(), s.streams)
  {
    TotalZero(OwnDrops<R>(), s.streams);
    hide HasSlot, InCall;
  }

  lemma {:induction false} NoDropsBegin<R>(s: State<R>, step: Step<R>)
    requires Inv(s) && NoDrops(s) && Next(s, step).Some? && step.Begin?
    requires HasRoom(Next(s, step).value) && !Next(s, step).value.writer.stopped
    ensures NoDrops(Next(s, step).value)
  {
    NoDropsCounts(s);
    SlotsInCalls(s.streams);
    hide Inv, Total;
  }

  lemma {:induction false} NoDropsClaim<R>(s: State<R>, step: Step<R>)
    requires Inv(s) && NoDrops(s) && Next(s, step).Some? && step.Claim?
    requires HasRoom(Next(s, step).value) && !Next(s, step).value.writer.stopped
    ensures NoDrops(Next(s, step).value)
  {
    NoDropsCounts(s);
    OneUnclaimed(s.streams, step.worker);
    hide Inv, Total;
  }

  lemma {:induction false} NoDropsSend<R>(s: State<R>, step: Step<R>)
    requires Inv(s) && NoDrops(s) && Next(s, step).Some? && step.TrySend?
    requires HasRoom(Next(s, step).value) && !Next(s, step).value.writer.stopped
    ensures NoDrops(Next(s, step).value)
  {
    NoDropsCounts(s);
    OneInCall(s.streams, step.worker);
    hide Inv, Total;
  }

  lemma {:induction false} NoDropsOther<R>(s: State<R>, step: Step<R>)
    requires Inv(s) && NoDrops(s) && Next(s, step).Some? && !step.Begin? && !step.Claim? && !step.TrySend?
    requires HasRoom(Next(s, step).value) && !Next(s, step).value.writer.stopped
    ensures NoDrops(Next(s, step).value)
  {
    hide Inv, Total;
  }

  lemma {:induction false} NoDropsStep<R>(s: State<R>, step: Step<R>)
    requires Inv(s) && NoDrops(s) && Next(s, step).Some?
    requires HasRoom(Next(s, step).value) && !Next(s, step).value.writer.stopped
    ensures NoDrops(Next(s, step).value)
  {
    hide *;
    if step.Begin? {
      NoDropsBegin(s, step);
    } else if step.Claim? {
      NoDropsClaim(s, step);
    } else if step.TrySend? {
      NoDropsSend(s, step);
    } else {
      NoDropsOther(s, step);
    }
  }

  lemma {:induction false} NeverBack<R>(s: State<R>, step: Step<R>)
    requires Next(s, step).Some?
    ensures var t := Next(s, step).value;
      && s.past.produced <= t.past.produced && (s.writer.stopped ==> t.writer.stopped)
      && t.capacity == s.capacity && t.limit == s.limit
  {
  }

  lemma {:induction false} NeverBackRun<R>(s: State<R>, steps: seq<Step<R>>, t: State<R>)
    requires Run(s, steps) == Some(t)
    ensures s.past.produced <= t.past.produced && (s.writer.stopped ==> t.writer.stopped)
    ensures t.capacity == s.capacity && t.limit == s.limit
    decreases |steps|
  {
    hide Next;
    if steps != [] {
      NeverBack(s, steps[0]);
      NeverBackRun(Next(s, steps[0]).value, steps[1..], t);
    }
  }

  lemma {:induction false} NoDropsRun<R>(s: State<R>, steps: seq<Step<R>>, t: State<R>)
    requires Inv(s) && NoDrops(s) && Run(s, steps) == Some(t) && HasRoom(t) && !t.writer.stopped
    ensures NoDrops(t)
    decreases |steps|
  {
    hide Next, Inv, NoDrops;
    if steps != [] {
      var next := Next(s, steps[0]).value;
      NeverBackRun(next, steps[1..], t);
      InvStep(s, steps[0]);
      NoDropsStep(s, steps[0]);
      NoDropsRun(next, steps[1..], t);
    }
  }

  /** No record is dropped as long as the queue could hold all there were, the limit allows them
      and the writer runs: every one is queued, or still in a call. */
  lemma {:induction false} NothingDropped<R>(s: State<R>, limit: Option<nat>, capacity: nat, steps: seq<Step<R>>)
    requires Reached(s, limit, capacity, steps) && !s.writer.stopped
    requires s.past.produced < capacity && (limit.Some? ==> s.past.produced <= limit.value)
    ensures s.dropped == 0 && forall i :: 0 <= i < |s.streams| ==> s.streams[i].dropped == 0
    ensures s.past.produced == |s.past.queued| + Total(InCall<R>(), s.streams)
  {
    hide Reached, Total, Inv;
    NoDropsReached(s, limit, capacity, steps);
    NoDropsCounts(s);
  }

  lemma {:induction false} NoDropsReached<R>(s: State<R>, limit: Option<nat>, capacity: nat, steps: seq<Step<R>>)
    requires Reached(s, limit, capacity, steps) && !s.writer.stopped
    requires s.past.produced < capacity && (limit.Some? ==> s.past.produced <= limit.value)
    ensures Inv(s) && NoDrops(s)
  {
    hide Run, Init, Inv, NoDrops;
    InitInv<R>(limit, capacity);
    InitNoDrops<R>(limit, capacity);
    NeverBackRun(Init(limit, capacity), steps, s);
    NoDropsRun(Init(limit, capacity), steps, s);
    InvReached(s, limit, capacity, steps);
  }

  lemma {:induction false} InitNoDrops<R>(limit: Option<nat>, capacity: nat)
    ensures NoDrops(Init<R>(limit, capacity)) && Init<R>(limit, capacity).capacity == capacity
  {
    hide Run, Inv;
  }
}
