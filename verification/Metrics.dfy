/** Live counters split into shards, per-worker metrics, and the totals merged from them. */
module Metrics {
  datatype ErrorCategory =
    | DnsResolution | TcpConnect | TlsHandshake | HttpUpgradeRejected | ProtocolError | WriteError
    | ReadError | Timeout | UnexpectedClose | Other | CheckFailed

  datatype Scope = Attempt | SentMessage

  /** The live counters: those of a shard, or their sum. */
  datatype Counters = Counters(
    active: int, established: int, failed: int, reconnects: int,
    sent: int, received: int, bytesSent: int, bytesReceived: int, errors: int, unsolicited: int)

  const ZERO := Counters(0, 0, 0, 0, 0, 0, 0, 0, 0, 0)

  function Add(a: Counters, b: Counters): Counters {
    Counters(a.active + b.active, a.established + b.established, a.failed + b.failed, a.reconnects + b.reconnects,
      a.sent + b.sent, a.received + b.received, a.bytesSent + b.bytesSent, a.bytesReceived + b.bytesReceived,
      a.errors + b.errors, a.unsolicited + b.unsolicited)
  }

  function SumCounters(cs: seq<Counters>): Counters {
    if cs == [] then ZERO else Add(cs[0], SumCounters(cs[1..]))
  }

  lemma {:induction false} SumBump(cs: seq<Counters>, i: nat, d: Counters)
    requires i < |cs|
    ensures SumCounters(cs[i := Add(cs[i], d)]) == Add(SumCounters(cs), d)
    decreases |cs|
  {
    if i > 0 {
      SumBump(cs[1..], i - 1, d);
      assert cs[i := Add(cs[i], d)][1..] == cs[1..][i - 1 := Add(cs[i], d)];
    }
  }

  lemma {:induction false} SumMore(cs: seq<Counters>, c: Counters)
    ensures SumCounters(cs + [c]) == Add(SumCounters(cs), c)
    decreases |cs|
  {
    if cs == [] {
      assert cs + [c] == [c];
    } else {
      SumMore(cs[1..], c);
      assert (cs + [c])[1..] == cs[1..] + [c];
    }
  }

  /** The snapshot loop: adds the shards up one by one. */
  method Snapshot(shards: seq<Counters>) returns (snap: Counters)
    ensures snap == SumCounters(shards)
  {
    snap := ZERO;
    var i := 0;
    while i < |shards|
      invariant i <= |shards|
      invariant snap == SumCounters(shards[..i])
    {
      SumMore(shards[..i], shards[i]);
      assert shards[..i + 1] == shards[..i] + [shards[i]];
      snap := Add(snap, shards[i]);
      i := i + 1;
    }
    assert shards[..i] == shards;
  }

  // ----- workers -----

  type Errors = map<ErrorCategory, nat>

  const CATEGORIES: seq<ErrorCategory> :=
    [DnsResolution, TcpConnect, TlsHandshake, HttpUpgradeRejected, ProtocolError, WriteError,
     ReadError, Timeout, UnexpectedClose, Other, CheckFailed]

  function Get(m: Errors, c: ErrorCategory): nat { if c in m then m[c] else 0 }

  /** The sum of a breakdown's values. */
  function ErrorSum(m: Errors, cs: seq<ErrorCategory>): nat {
    if cs == [] then 0 else Get(m, cs[0]) + ErrorSum(m, cs[1..])
  }

  predicate Distinct<T(==)>(s: seq<T>) { forall i, j :: 0 <= i < j < |s| ==> s[i] != s[j] }

  lemma {:induction false} ErrorSumBump(m: Errors, cs: seq<ErrorCategory>, c: ErrorCategory, n: nat)
    requires Distinct(cs)
    ensures ErrorSum(m[c := Get(m, c) + n], cs) == ErrorSum(m, cs) + (if c in cs then n else 0)
    decreases |cs|
  {
    if cs != [] {
      ErrorSumBump(m, cs[1..], c, n);
      assert c in cs <==> c == cs[0] || c in cs[1..];
    }
  }

  lemma {:induction false} AllCategories(c: ErrorCategory)
    ensures Distinct(CATEGORIES) && c in CATEGORIES
  {
    match c
    case DnsResolution => assert CATEGORIES[0] == c;
    case TcpConnect => assert CATEGORIES[1] == c;
    case TlsHandshake => assert CATEGORIES[2] == c;
    case HttpUpgradeRejected => assert CATEGORIES[3] == c;
    case ProtocolError => assert CATEGORIES[4] == c;
    case WriteError => assert CATEGORIES[5] == c;
    case ReadError => assert CATEGORIES[6] == c;
    case Timeout => assert CATEGORIES[7] == c;
    case UnexpectedClose => assert CATEGORIES[8] == c;
    case Other => assert CATEGORIES[9] == c;
    case CheckFailed => assert CATEGORIES[10] == c;
  }

  /** A worker's own counters. Connections opened and closed, first handshakes and failed
      attempts are in the live counters only. */
  datatype Worker = Worker(
    shard: nat,
    messagesSent: nat, messagesRecv: nat, bytesSent: nat, bytesRecv: nat,
    errors: Errors, sentMessageErrors: nat, reconnects: nat, unsolicited: nat, interrupted: bool)

  /** The calls a session makes. */
  datatype Event =
    | Handshake(micros: nat)
    | Reconnect(micros: nat)
    | ConnectionFailed(category: ErrorCategory)
    | ConnectionClosed
    | MessageSent(bytes: nat)
    | MessageRecv(bytes: nat)
    | Unsolicited(count: nat)
    | Error(category: ErrorCategory, scope: Scope)
    | Interrupted

  function RecordError(w: Worker, c: ErrorCategory, scope: Scope): Worker {
    w.(errors := w.errors[c := Get(w.errors, c) + 1],
       sentMessageErrors := w.sentMessageErrors + (if scope.SentMessage? then 1 else 0))
  }

  /** What a call changes in the worker's own metrics ... */
  function Apply(w: Worker, e: Event): Worker {
    match e
    case Handshake(_) => w
    case Reconnect(_) => w.(reconnects := w.reconnects + 1)
    case ConnectionFailed(c) => RecordError(w, c, Attempt)
    case ConnectionClosed => w
    case MessageSent(n) => w.(messagesSent := w.messagesSent + 1, bytesSent := w.bytesSent + n)
    case MessageRecv(n) => w.(messagesRecv := w.messagesRecv + 1, bytesRecv := w.bytesRecv + n)
    case Unsolicited(n) => w.(unsolicited := w.unsolicited + n)
    case Error(c, scope) => RecordError(w, c, scope)
    case Interrupted => w.(interrupted := true)
  }

  /** ... and in its shard of the live counters. */
  function Delta(e: Event): Counters {
    match e
    case Handshake(_) => ZERO.(active := 1, established := 1)
    case Reconnect(_) => ZERO.(active := 1, reconnects := 1)
    case ConnectionFailed(_) => ZERO.(errors := 1, failed := 1)
    case ConnectionClosed => ZERO.(active := -1)
    case MessageSent(n) => ZERO.(sent := 1, bytesSent := n)
    case MessageRecv(n) => ZERO.(received := 1, bytesReceived := n)
    case Unsolicited(n) => ZERO.(unsolicited := n)
    case Error(_, _) => ZERO.(errors := 1)
    case Interrupted => ZERO
  }

  /** The counters that workers keep as well. */
  function OwnFields(c: Counters): Counters { c.(active := 0, established := 0, failed := 0) }

  /** A worker's metrics as live counters would show them. */
  function Contribution(w: Worker): Counters {
    Counters(0, 0, 0, w.reconnects,
      w.messagesSent, w.messagesRecv, w.bytesSent, w.bytesRecv, ErrorTotal(w.errors), w.unsolicited)
  }

  function Contributions(ws: seq<Worker>): (cs: seq<Counters>)
    ensures |cs| == |ws| && forall i :: 0 <= i < |ws| ==> cs[i] == Contribution(ws[i])
  {
    seq(|ws|, i requires 0 <= i < |ws| => Contribution(ws[i]))
  }

  /** The sum over every category there is. */
  function ErrorTotal(m: Errors): nat { ErrorSum(m, CATEGORIES) }

  lemma {:induction false} ErrorTotalBump(m: Errors, c: ErrorCategory, n: nat)
    ensures ErrorTotal(m[c := Get(m, c) + n]) == ErrorTotal(m) + n
  {
    AllCategories(c);
    ErrorSumBump(m, CATEGORIES, c, n);
  }

  lemma {:induction false} ErrorTotalEmpty()
    ensures ErrorTotal(map[]) == 0
  {
    NoErrors(CATEGORIES);
  }

  lemma {:induction false} NoErrors(cs: seq<ErrorCategory>)
    ensures ErrorSum(map[], cs) == 0
  {
    if cs != [] {
      NoErrors(cs[1..]);
    }
  }

  lemma {:induction false} ContributionStep(w: Worker, e: Event)
    ensures Contribution(Apply(w, e)) == Add(Contribution(w), OwnFields(Delta(e)))
    ensures w.sentMessageErrors <= ErrorTotal(w.errors) ==>
      Apply(w, e).sentMessageErrors <= ErrorTotal(Apply(w, e).errors)
  {
    hide ErrorTotal, ErrorSum;
    if e.ConnectionFailed? || e.Error? {
      ErrorTotalBump(w.errors, e.category, 1);
    }
  }

  // ----- runs -----

  /** A run: the live shards, the workers so far, and the handshake samples in the shared
      recorder. */
  datatype Live = Live(shards: seq<Counters>, nextShard: nat, workers: seq<Worker>, handshakes: seq<nat>)

  datatype Step = Join | Record(worker: nat, event: Event)

  function NewWorker(shard: nat): Worker {
    Worker(shard, 0, 0, 0, 0, map[], 0, 0, 0, false)
  }

  /** A run that has zeroed shards and no workers yet. */
  function Start(shards: seq<Counters>): Live { Live(shards, 0, [], []) }

  /** A worker joins, round robin over the shards, or records an event. */
  function Next(l: Live, step: Step): Live
    requires |l.shards| > 0
  {
    match step
    case Join =>
      l.(workers := l.workers + [NewWorker(l.nextShard % |l.shards|)], nextShard := l.nextShard + 1)
    case Record(w, e) =>
      if w >= |l.workers| then l else
      var shard := l.workers[w].shard % |l.shards|;
      l.(workers := l.workers[w := Apply(l.workers[w], e)],
         shards := l.shards[shard := Add(l.shards[shard], Delta(e))],
         handshakes := l.handshakes + (if e.Handshake? || e.Reconnect? then [e.micros] else []))
  }

  function Run(l: Live, steps: seq<Step>): Live
    requires |l.shards| > 0
    decreases |steps|
  {
    if steps == [] then l else Run(Next(l, steps[0]), steps[1..])
  }

  /** The calls of a run, in order: those of workers that have joined before. */
  function Events(joined: nat, steps: seq<Step>): seq<Event>
    decreases |steps|
  {
    if steps == [] then []
    else if steps[0].Join? then Events(joined + 1, steps[1..])
    else (if steps[0].worker < joined then [steps[0].event] else []) + Events(joined, steps[1..])
  }

  /** The calls of worker `w`. */
  function EventsOf(w: nat, joined: nat, steps: seq<Step>): seq<Event>
    decreases |steps|
  {
    if steps == [] then []
    else if steps[0].Join? then EventsOf(w, joined + 1, steps[1..])
    else (if steps[0].worker == w && w < joined then [steps[0].event] else []) + EventsOf(w, joined, steps[1..])
  }

  /** What can be counted of calls. */
  datatype Measure =
    | Opens | Closes | Firsts | Failures | Reconnects
    | SentMessages | SentBytes | ReceivedMessages | ReceivedBytes | UnsolicitedFrames
    | Errors | ErrorsOf(category: ErrorCategory) | SentErrors | Interruptions

  /** What one call counts for. */
  function Amount(m: Measure, e: Event): nat {
    match m
    case Opens => if e.Handshake? || e.Reconnect? then 1 else 0
    case Closes => if e.ConnectionClosed? then 1 else 0
    case Firsts => if e.Handshake? then 1 else 0
    case Failures => if e.ConnectionFailed? then 1 else 0
    case Reconnects => if e.Reconnect? then 1 else 0
    case SentMessages => if e.MessageSent? then 1 else 0
    case SentBytes => if e.MessageSent? then e.bytes else 0
    case ReceivedMessages => if e.MessageRecv? then 1 else 0
    case ReceivedBytes => if e.MessageRecv? then e.bytes else 0
    case UnsolicitedFrames => if e.Unsolicited? then e.count else 0
    case Errors => if e.ConnectionFailed? || e.Error? then 1 else 0
    case ErrorsOf(c) => if (e.ConnectionFailed? || e.Error?) && e.category == c then 1 else 0
    case SentErrors => if e.Error? && e.scope.SentMessage? then 1 else 0
    case Interruptions => if e.Interrupted? then 1 else 0
  }

  function Total(m: Measure, es: seq<Event>): nat {
    if es == [] then 0 else Total(m, es[..|es| - 1]) + Amount(m, es[|es| - 1])
  }

  lemma {:induction false} TotalMore(m: Measure, es: seq<Event>, e: Event)
    ensures Total(m, es + [e]) == Total(m, es) + Amount(m, e)
  {
    assert (es + [e])[..|es + [e]| - 1] == es;
  }

  /** A worker's own counters are those of the calls `es`, error categories one by one. */
  ghost predicate Ledger(w: Worker, es: seq<Event>) {
    && w.reconnects == Total(Reconnects, es)
    && w.messagesSent == Total(SentMessages, es) && w.bytesSent == Total(SentBytes, es)
    && w.messagesRecv == Total(ReceivedMessages, es) && w.bytesRecv == Total(ReceivedBytes, es)
    && w.unsolicited == Total(UnsolicitedFrames, es)
    && (forall c :: Get(w.errors, c) == Total(ErrorsOf(c), es))
    && w.sentMessageErrors == Total(SentErrors, es)
    && (w.interrupted <==> Total(Interruptions, es) > 0)
  }

  lemma {:induction false} LedgerMore(w: Worker, es: seq<Event>, e: Event)
    requires Ledger(w, es)
    ensures Ledger(Apply(w, e), es + [e])
  {
    hide Total;
    TotalMore(Reconnects, es, e);
    TotalMore(SentMessages, es, e);
    TotalMore(SentBytes, es, e);
    TotalMore(ReceivedMessages, es, e);
    TotalMore(ReceivedBytes, es, e);
    TotalMore(UnsolicitedFrames, es, e);
    TotalMore(SentErrors, es, e);
    TotalMore(Interruptions, es, e);
    forall c ensures Get(Apply(w, e).errors, c) == Total(ErrorsOf(c), es + [e]) {
      TotalMore(ErrorsOf(c), es, e);
    }
  }

  lemma {:induction false} LedgerNone(shard: nat)
    ensures Ledger(NewWorker(shard), [])
  {
  }

  /** For every trace and every worker in it, the worker's own counters are those of its own
      calls. */
  lemma {:induction false} LedgerRun(l: Live, w: nat, es: seq<Event>, steps: seq<Step>)
    requires |l.shards| > 0 && w < |Run(l, steps).workers|
    requires if w < |l.workers| then Ledger(l.workers[w], es) else es == []
    ensures Ledger(Run(l, steps).workers[w], es + EventsOf(w, |l.workers|, steps))
    decreases |steps|
  {
    hide Ledger, Next;
    if steps == [] {
      assert es + [] == es;
    } else {
      var next, rest := Next(l, steps[0]), steps[1..];
      NextWorkers(l, steps[0]);
      LedgerNone(l.nextShard % |l.shards|);
      var more := EventsOf(w, |next.workers|, rest);
      hide Run, Total, Apply, NewWorker;
      if !steps[0].Join? && steps[0].worker == w && w < |l.workers| {
        var e := steps[0].event;
        LedgerMore(l.workers[w], es, e);
        LedgerRun(next, w, es + [e], rest);
        assert es + [e] + more == es + ([e] + more);
      } else {
        LedgerRun(next, w, es, rest);
        assert [] + more == more;
      }
    }
  }

  /** What a step does to the workers. */
  lemma {:induction false} NextWorkers(l: Live, step: Step)
    requires |l.shards| > 0
    ensures var next := Next(l, step);
      && |next.shards| == |l.shards|
      && next.workers ==
           if step.Join? then l.workers + [NewWorker(l.nextShard % |l.shards|)]
           else if step.worker < |l.workers| then l.workers[step.worker := Apply(l.workers[step.worker], step.event)]
           else l.workers
  {
    hide Apply, NewWorker, Delta, Add;
  }

  /** A worker's count of a measure that workers keep. */
  function Kept(w: Worker, m: Measure): nat {
    if m.ErrorsOf? then Get(w.errors, m.category) else w.sentMessageErrors
  }

  /** The errors of one category, and those that ended a sent message, over all workers. */
  function KeptBy(ws: seq<Worker>, m: Measure): nat {
    if ws == [] then 0 else KeptBy(ws[..|ws| - 1], m) + Kept(ws[|ws| - 1], m)
  }

  lemma {:induction false} KeptMore(ws: seq<Worker>, w: Worker, m: Measure)
    ensures KeptBy(ws + [w], m) == KeptBy(ws, m) + Kept(w, m)
  {
    assert (ws + [w])[..|ws + [w]| - 1] == ws;
  }

  lemma {:induction false} KeptUpdate(ws: seq<Worker>, i: nat, w: Worker, m: Measure)
    requires i < |ws|
    ensures KeptBy(ws[i := w], m) == KeptBy(ws, m) - Kept(ws[i], m) + Kept(w, m)
    decreases |ws|
  {
    var init := ws[..|ws| - 1];
    if i < |init| {
      KeptUpdate(init, i, w, m);
      assert ws[i := w][..|ws| - 1] == init[i := w];
    } else {
      assert ws[i := w][..|ws| - 1] == init;
    }
  }

  lemma {:induction false} KeptStep(w: Worker, e: Event, m: Measure)
    requires m.ErrorsOf? || m.SentErrors?
    ensures Kept(Apply(w, e), m) == Kept(w, m) + Amount(m, e)
  {
  }

  /** Over a run, the workers' counts of such a measure add up to that of all calls. */
  lemma {:induction false} KeptRun(l: Live, es: seq<Event>, steps: seq<Step>, m: Measure)
    requires |l.shards| > 0 && (m.ErrorsOf? || m.SentErrors?) && KeptBy(l.workers, m) == Total(m, es)
    ensures KeptBy(Run(l, steps).workers, m) == Total(m, es + Events(|l.workers|, steps))
    decreases |steps|
  {
    hide Next;
    if steps == [] {
      assert es + [] == es;
    } else {
      var next, rest := Next(l, steps[0]), steps[1..];
      NextWorkers(l, steps[0]);
      var more := Events(|next.workers|, rest);
      hide Run, Total, Apply, NewWorker, Kept, KeptBy, Amount;
      if steps[0].Join? {
        NewKept(l.nextShard % |l.shards|, m);
        KeptMore(l.workers, NewWorker(l.nextShard % |l.shards|), m);
        KeptRun(next, es, rest, m);
      } else if steps[0].worker < |l.workers| {
        var w, e := steps[0].worker, steps[0].event;
        KeptStep(l.workers[w], e, m);
        KeptUpdate(l.workers, w, Apply(l.workers[w], e), m);
        TotalMore(m, es, e);
        KeptRun(next, es + [e], rest, m);
        assert es + [e] + more == es + ([e] + more);
      } else {
        KeptRun(next, es, rest, m);
        assert [] + more == more;
      }
    }
  }

  lemma {:induction false} NewKept(shard: nat, m: Measure)
    ensures Kept(NewWorker(shard), m) == 0
  {
  }

  /** The live counters are those of the calls `es`, every one of them. */
  ghost predicate Counted(live: Counters, es: seq<Event>) {
    && live.active == Total(Opens, es) - Total(Closes, es)
    && live.established == Total(Firsts, es) && live.failed == Total(Failures, es) && live.reconnects == Total(Reconnects, es)
    && live.sent == Total(SentMessages, es) && live.bytesSent == Total(SentBytes, es)
    && live.received == Total(ReceivedMessages, es) && live.bytesReceived == Total(ReceivedBytes, es)
    && live.errors == Total(Errors, es) && live.unsolicited == Total(UnsolicitedFrames, es)
  }

  /** After the calls `es`: what both the live counters and the workers keep agrees, and what
      only the live counters keep is what happened. */
  ghost predicate Agrees(l: Live, es: seq<Event>) {
    var live := SumCounters(l.shards);
    && |l.shards| > 0
    && OwnFields(live) == SumCounters(Contributions(l.workers))
    && Counted(live, es)
    && |l.handshakes| == Total(Opens, es)
    && ErrorsCovered(l.workers)
  }

  /** No worker has more errors that ended a sent message than errors. */
  ghost predicate ErrorsCovered(ws: seq<Worker>) {
    forall i :: 0 <= i < |ws| ==> ws[i].sentMessageErrors <= ErrorTotal(ws[i].errors)
  }

  /** A new worker has counted nothing. */
  lemma {:induction false} NewContributes(shard: nat)
    ensures Contribution(NewWorker(shard)) == ZERO
    ensures NewWorker(shard).sentMessageErrors <= ErrorTotal(NewWorker(shard).errors)
  {
    hide ErrorTotal;
    ErrorTotalEmpty();
  }

  lemma {:induction false} JoinContributes(ws: seq<Worker>, shard: nat)
    ensures SumCounters(Contributions(ws + [NewWorker(shard)])) == SumCounters(Contributions(ws))
    ensures ErrorsCovered(ws) ==> ErrorsCovered(ws + [NewWorker(shard)])
  {
    NewContributes(shard);
    hide ErrorTotal, SumCounters, NewWorker, Contribution;
    var w := NewWorker(shard);
    assert Contributions(ws + [w]) == Contributions(ws) + [Contribution(w)];
    SumMore(Contributions(ws), Contribution(w));
  }

  lemma {:induction false} AgreesJoin(l: Live, es: seq<Event>)
    requires Agrees(l, es)
    ensures Agrees(Next(l, Join), es)
  {
    hide SumCounters, Contributions, ErrorsCovered, Counted;
    JoinContributes(l.workers, l.nextShard % |l.shards|);
  }

  /** A call changes its worker's share of the sum, and no other. */
  lemma {:induction false} RecordContributes(ws: seq<Worker>, w: nat, e: Event)
    requires w < |ws|
    ensures var after := ws[w := Apply(ws[w], e)];
      && SumCounters(Contributions(after)) == Add(SumCounters(Contributions(ws)), OwnFields(Delta(e)))
      && (ErrorsCovered(ws) ==> ErrorsCovered(after))
  {
    hide ErrorTotal, SumCounters;
    ContributionStep(ws[w], e);
    hide Apply, Delta;
    var after := ws[w := Apply(ws[w], e)];
    assert Contributions(after) == Contributions(ws)[w := Add(Contribution(ws[w]), OwnFields(Delta(e)))];
    SumBump(Contributions(ws), w, OwnFields(Delta(e)));
  }

  lemma {:induction false} CountedMore(live: Counters, es: seq<Event>, e: Event)
    requires Counted(live, es)
    ensures Counted(Add(live, Delta(e)), es + [e])
  {
    hide Total;
    TotalMore(Opens, es, e);
    TotalMore(Closes, es, e);
    TotalMore(Firsts, es, e);
    TotalMore(Failures, es, e);
    TotalMore(Reconnects, es, e);
    TotalMore(SentMessages, es, e);
    TotalMore(SentBytes, es, e);
    TotalMore(ReceivedMessages, es, e);
    TotalMore(ReceivedBytes, es, e);
    TotalMore(Errors, es, e);
    TotalMore(UnsolicitedFrames, es, e);
  }

  lemma {:induction false} OpensAre(e: Event)
    ensures Amount(Opens, e) == if e.Handshake? || e.Reconnect? then 1 else 0
  {
  }

  lemma {:induction false} AgreesRecord(l: Live, es: seq<Event>, w: nat, e: Event)
    requires Agrees(l, es) && w < |l.workers|
    ensures Agrees(Next(l, Record(w, e)), es + [e])
  {
    hide SumCounters, Contributions, ErrorsCovered, Counted, Total, Apply, Delta, Amount;
    RecordContributes(l.workers, w, e);
    SumBump(l.shards, l.workers[w].shard % |l.shards|, Delta(e));
    CountedMore(SumCounters(l.shards), es, e);
    TotalMore(Opens, es, e);
    OpensAre(e);
  }

  lemma {:induction false} AgreesRun(l: Live, es: seq<Event>, steps: seq<Step>)
    requires Agrees(l, es)
    ensures Agrees(Run(l, steps), es + Events(|l.workers|, steps))
    decreases |steps|
  {
    hide Agrees;
    if steps == [] {
      assert es + [] == es;
    } else {
      assert |l.shards| > 0 by { AgreesShards(l, es); }
      var rest := steps[1..];
      if steps[0].Join? {
        AgreesJoin(l, es);
        AgreesRun(Next(l, Join), es, rest);
      } else if steps[0].worker < |l.workers| {
        var e := steps[0].event;
        AgreesRecord(l, es, steps[0].worker, e);
        AgreesRun(Next(l, steps[0]), es + [e], rest);
        assert es + [e] + Events(|l.workers|, rest) == es + ([e] + Events(|l.workers|, rest));
      } else {
        AgreesRun(l, es, rest);
        assert [] + Events(|l.workers|, rest) == Events(|l.workers|, rest);
      }
    }
  }

  lemma {:induction false} AgreesShards(l: Live, es: seq<Event>)
    requires Agrees(l, es)
    ensures |l.shards| > 0
  {
  }

  lemma {:induction false} StartAgrees(l: Live, es: seq<Event>)
    requires |l.shards| > 0 && SumCounters(l.shards) == ZERO && l.workers == [] && l.handshakes == [] && es == []
    ensures Agrees(l, es)
  {
    hide SumCounters;
    NoCounters(Contributions(l.workers));
  }

  lemma {:induction false} NoCounters(cs: seq<Counters>)
    requires cs == []
    ensures SumCounters(cs) == ZERO
  {
  }

  predicate AllZero(cs: seq<Counters>) { forall i :: 0 <= i < |cs| ==> cs[i] == ZERO }

  lemma {:induction false} ZeroSum(cs: seq<Counters>)
    requires AllZero(cs)
    ensures SumCounters(cs) == ZERO
    decreases |cs|
  {
    if cs != [] {
      var init, last := cs[..|cs| - 1], cs[|cs| - 1];
      assert AllZero(init) && last == ZERO && init + [last] == cs;
      hide AllZero, SumCounters;
      ZeroSum(init);
      SumMore(init, last);
    }
  }

  /** For every trace of calls by any number of workers over any number of shards, the live
      snapshot and the workers' metrics agree field by field, and every live counter is that of
      the calls: connections opened and not closed, first handshakes, messages, bytes, errors. */
  lemma {:induction false} LiveAgreesWithTotals(shards: seq<Counters>, steps: seq<Step>)
    requires shards != [] && AllZero(shards)
    ensures var l := Run(Start(shards), steps);
      var es := Events(0, steps);
      && |l.shards| > 0
      && OwnFields(SumCounters(l.shards)) == SumCounters(Contributions(l.workers))
      && Counted(SumCounters(l.shards), es)
      && |l.handshakes| == Total(Opens, es)
      && ErrorsCovered(l.workers)
  {
    hide AllZero, SumCounters, Counted, ErrorsCovered, Events, Total;
    ZeroSum(shards);
    StartAgrees(Start(shards), []);
    AgreesRun(Start(shards), [], steps);
    assert [] + Events(0, steps) == Events(0, steps);
  }

  /** For every trace, every worker's counters are those of its own calls, error categories one
      by one; and over all workers each category, and the errors that ended a sent message, are
      counted once for every call that reported one. */
  lemma {:induction false} WorkersAreLedgers(shards: seq<Counters>, steps: seq<Step>)
    requires shards != []
    ensures var ws := Run(Start(shards), steps).workers;
      && (forall w :: 0 <= w < |ws| ==> Ledger(ws[w], EventsOf(w, 0, steps)))
      && (forall c :: KeptBy(ws, ErrorsOf(c)) == Total(ErrorsOf(c), Events(0, steps)))
      && KeptBy(ws, SentErrors) == Total(SentErrors, Events(0, steps))
  {
    hide Ledger, KeptBy, Total, Events, EventsOf, Run;
    var l := Start(shards);
    var ws := Run(l, steps).workers;
    forall w | 0 <= w < |ws| ensures Ledger(ws[w], EventsOf(w, 0, steps)) {
      LedgerRun(l, w, [], steps);
      assert [] + EventsOf(w, 0, steps) == EventsOf(w, 0, steps);
    }
    assert [] + Events(0, steps) == Events(0, steps);
    forall c ensures KeptBy(ws, ErrorsOf(c)) == Total(ErrorsOf(c), Events(0, steps)) {
      NothingKept(ErrorsOf(c));
      KeptRun(l, [], steps, ErrorsOf(c));
    }
    NothingKept(SentErrors);
    KeptRun(l, [], steps, SentErrors);
  }

  lemma {:induction false} NothingKept(m: Measure)
    ensures KeptBy([], m) == 0 == Total(m, [])
  {
  }
}
