/** The run's totals: workers' counters and shared latency recorders merged, and the
    summary of connection slots computed from them. */
module Totals {
  import opened Common
  import opened AtomicHistogram
  import opened Metrics

  /** A complete latency recorder: which one it is, and what was recorded in it. Workers that
      share a recorder hold the same one. */
  datatype Recorder = Recorder(id: nat, handshake: seq<nat>, rtt: seq<nat>, response: seq<nat>)

  datatype Kind = OfHandshake | OfRtt | OfResponse

  function Samples(r: Recorder, k: Kind): seq<nat> {
    match k
    case OfHandshake => r.handshake
    case OfRtt => r.rtt
    case OfResponse => r.response
  }

  /** Everything recorded in a list of recorders. */
  function AllSamples(rs: seq<Recorder>, k: Kind): seq<nat> {
    if rs == [] then [] else AllSamples(rs[..|rs| - 1], k) + Samples(rs[|rs| - 1], k)
  }

  /** Recorders have identities: equal ids mean the same recorder. */
  predicate Consistent(rs: seq<Recorder>) {
    forall i, j :: 0 <= i < |rs| && 0 <= j < |rs| && rs[i].id == rs[j].id ==> rs[i] == rs[j]
  }

  /** The list of recorders counted, after one more is added. */
  function Absorb(absorbed: seq<Recorder>, r: Recorder): seq<Recorder> {
    if r in absorbed then absorbed else absorbed + [r]
  }

  function AbsorbAll(absorbed: seq<Recorder>, rs: seq<Recorder>): seq<Recorder>
    decreases |rs|
  {
    if rs == [] then absorbed else AbsorbAll(Absorb(absorbed, rs[0]), rs[1..])
  }

  /** Each recorder of the list is counted, exactly once. */
  lemma {:induction false} AbsorbsEachOnce(absorbed: seq<Recorder>, rs: seq<Recorder>)
    requires Distinct(absorbed)
    ensures Distinct(AbsorbAll(absorbed, rs))
    ensures forall r :: r in AbsorbAll(absorbed, rs) <==> r in absorbed || r in rs
    decreases |rs|
  {
    if rs != [] {
      AbsorbsEachOnce(Absorb(absorbed, rs[0]), rs[1..]);
      assert forall r :: r in rs <==> r == rs[0] || r in rs[1..];
    }
  }

  // ----- sums over recorders do not depend on the order -----

  function TotalAt(rs: seq<Recorder>, k: Kind, i: nat): nat {
    if rs == [] then 0 else CountAt(Samples(rs[0], k), i) + TotalAt(rs[1..], k, i)
  }

  lemma {:induction false} TotalAtAppend(rs: seq<Recorder>, more: seq<Recorder>, k: Kind, i: nat)
    ensures TotalAt(rs + more, k, i) == TotalAt(rs, k, i) + TotalAt(more, k, i)
    decreases |rs|
  {
    if rs == [] {
      assert rs + more == more;
    } else {
      TotalAtAppend(rs[1..], more, k, i);
      assert (rs + more)[1..] == rs[1..] + more && (rs + more)[0] == rs[0];
    }
  }

  lemma {:induction false} CountAllSamples(rs: seq<Recorder>, k: Kind, i: nat)
    ensures CountAt(AllSamples(rs, k), i) == TotalAt(rs, k, i)
    decreases |rs|
  {
    if rs != [] {
      var init, last := rs[..|rs| - 1], rs[|rs| - 1];
      CountAllSamples(init, k, i);
      CountAtAppend(AllSamples(init, k), Samples(last, k), i);
      TotalAtAppend(init, [last], k, i);
      assert init + [last] == rs;
      assert TotalAt([last], k, i) == CountAt(Samples(last, k), i) + TotalAt([], k, i);
    }
  }

  lemma {:induction false} TotalWithout(rs: seq<Recorder>, n: nat, k: Kind, i: nat)
    requires n < |rs|
    ensures TotalAt(rs, k, i) == CountAt(Samples(rs[n], k), i) + TotalAt(Without(rs, n), k, i)
  {
    var left, right := rs[..n], rs[n + 1..];
    assert rs == left + ([rs[n]] + right);
    TotalAtAppend(left, [rs[n]] + right, k, i);
    TotalAtAppend(left, right, k, i);
    assert ([rs[n]] + right)[1..] == right;
  }

  lemma {:induction false} DistinctWithout(s: seq<Recorder>, n: nat)
    requires n < |s| && Distinct(s)
    ensures Distinct(Without(s, n))
    ensures forall r :: r in Without(s, n) <==> r in s && r != s[n]
  {
    forall r ensures r in Without(s, n) <==> r in s && r != s[n] {
      if r in s && r != s[n] {
        var j :| 0 <= j < |s| && s[j] == r;
        assert Without(s, n)[if j < n then j else j - 1] == r;
      }
    }
  }

  lemma {:induction false} SomeMember<T>(s: seq<T>)
    requires s != []
    ensures exists x :: x in s
  {
    assert s[0] in s;
  }

  /** Two lists without repetitions that hold the same recorders have the same totals. */
  lemma {:induction false} SameRecorders(a: seq<Recorder>, b: seq<Recorder>, k: Kind, i: nat)
    requires Distinct(a) && Distinct(b) && forall r :: r in a <==> r in b
    ensures TotalAt(a, k, i) == TotalAt(b, k, i)
    decreases |a|
  {
    if a == [] {
      if b != [] {
        SomeMember(b);
      }
    } else {
      assert a[0] in a;
      var n :| 0 <= n < |b| && b[n] == a[0];
      TotalWithout(a, 0, k, i);
      TotalWithout(b, n, k, i);
      DistinctWithout(a, 0);
      DistinctWithout(b, n);
      hide Distinct, Without, TotalAt;
      SameRecorders(Without(a, 0), Without(b, n), k, i);
    }
  }

  /** Adding recorders in any order, with any repetitions, gives the same histograms. */
  lemma {:induction false} MergeOrder(xs: seq<Recorder>, ys: seq<Recorder>, k: Kind)
    requires forall r :: r in xs <==> r in ys
    ensures RecordAll(EMPTY, AllSamples(AbsorbAll([], xs), k)) == RecordAll(EMPTY, AllSamples(AbsorbAll([], ys), k))
  {
    AbsorbsEachOnce([], xs);
    AbsorbsEachOnce([], ys);
    var a, b := AbsorbAll([], xs), AbsorbAll([], ys);
    var ca, cb := RecordAll(EMPTY, AllSamples(a, k)), RecordAll(EMPTY, AllSamples(b, k));
    forall i | 0 <= i < |ca| ensures ca[i] == cb[i] {
      RecordAllAt(EMPTY, AllSamples(a, k), i);
      RecordAllAt(EMPTY, AllSamples(b, k), i);
      CountAllSamples(a, k, i);
      CountAllSamples(b, k, i);
      SameRecorders(a, b, k, i);
    }
  }

  lemma {:induction false} NoSamples(k: Kind)
    ensures RecordAll(EMPTY, AllSamples([], k)) == EMPTY
  {
  }

  lemma {:induction false} SamplesMore(rs: seq<Recorder>, r: Recorder, k: Kind)
    ensures RecordAll(EMPTY, AllSamples(rs + [r], k)) == RecordAll(RecordAll(EMPTY, AllSamples(rs, k)), Samples(r, k))
  {
    hide RecordAll;
    assert (rs + [r])[..|rs + [r]| - 1] == rs;
    RecordMore(EMPTY, AllSamples(rs, k), Samples(r, k));
  }

  lemma {:induction false} RecordMore(c: Counts, samples: seq<nat>, more: seq<nat>)
    ensures RecordAll(c, samples + more) == RecordAll(RecordAll(c, samples), more)
    decreases |samples|
  {
    if samples == [] {
      assert samples + more == more;
    } else {
      RecordMore(RecordOne(c, samples[0]), samples[1..], more);
      assert (samples + more)[1..] == samples[1..] + more && (samples + more)[0] == samples[0];
    }
  }

  /** A histogram holds as many values as were recorded. */
  lemma {:induction false} HistogramLen(c: Counts, samples: seq<nat>)
    ensures Sum(RecordAll(c, samples)) == Sum(c) + |samples|
    decreases |samples|
  {
    if samples != [] {
      var s := Slot(samples[0]);
      SumUpdate(c, s, c[s] + 1);
      HistogramLen(RecordOne(c, samples[0]), samples[1..]);
    }
  }

  // ----- error breakdowns -----

  function MergeErrors(a: Errors, b: Errors): Errors {
    map c | c in a.Keys + b.Keys :: Get(a, c) + Get(b, c)
  }

  lemma {:induction false} MergedErrorSum(a: Errors, b: Errors, cs: seq<ErrorCategory>)
    ensures ErrorSum(MergeErrors(a, b), cs) == ErrorSum(a, cs) + ErrorSum(b, cs)
    decreases |cs|
  {
    if cs != [] {
      MergedErrorSum(a, b, cs[1..]);
    }
  }

  lemma {:induction false} MergedGets(a: Errors, b: Errors)
    ensures forall c :: Get(MergeErrors(a, b), c) == Get(a, c) + Get(b, c)
  {
  }

  lemma {:induction false} MergedErrorTotal(a: Errors, b: Errors)
    ensures ErrorTotal(MergeErrors(a, b)) == ErrorTotal(a) + ErrorTotal(b)
  {
    MergedErrorSum(a, b, CATEGORIES);
  }

  // ----- the totals -----

  function InterruptedOf(ws: seq<Worker>): nat {
    if ws == [] then 0 else InterruptedOf(ws[..|ws| - 1]) + (if ws[|ws| - 1].interrupted then 1 else 0)
  }

  /** The counters `view` and `interrupted` are those of the workers `ws`, added up. */
  ghost predicate CountsMatch(view: Counters, interrupted: nat, ws: seq<Worker>) {
    && view == SumCounters(Contributions(ws))
    && interrupted == InterruptedOf(ws)
  }

  /** The breakdown is that of the workers, category by category. */
  ghost predicate ErrorsMatch(errors: map<ErrorCategory, nat>, sentErrors: nat, ws: seq<Worker>) {
    (forall c :: Get(errors, c) == KeptBy(ws, ErrorsOf(c))) && sentErrors == KeptBy(ws, SentErrors)
  }

  lemma {:induction false} ErrorsMatchMore(errors: map<ErrorCategory, nat>, sentErrors: nat, ws: seq<Worker>, w: Worker)
    requires ErrorsMatch(errors, sentErrors, ws)
    ensures ErrorsMatch(MergeErrors(errors, w.errors), sentErrors + w.sentMessageErrors, ws + [w])
  {
    hide KeptBy, MergeErrors, Get;
    MergedGets(errors, w.errors);
    forall c ensures Get(MergeErrors(errors, w.errors), c) == KeptBy(ws + [w], ErrorsOf(c)) {
      KeptMore(ws, w, ErrorsOf(c));
    }
    KeptMore(ws, w, SentErrors);
  }

  function NoErrorsYet(): (m: Errors)
    ensures ErrorTotal(m) == 0 && m == map[]
  {
    ErrorTotalEmpty();
    map[]
  }

  lemma {:induction false} NoErrorsMatch(errors: map<ErrorCategory, nat>, ws: seq<Worker>)
    requires errors == map[] && ws == []
    ensures ErrorsMatch(errors, 0, ws)
  {
  }

  lemma {:induction false} NoneMatch()
    ensures CountsMatch(ZERO, 0, [])
  {
    assert Contributions([]) == [];
  }

  lemma {:induction false} MoreMatch(view: Counters, interrupted: nat, ws: seq<Worker>, w: Worker)
    requires CountsMatch(view, interrupted, ws)
    ensures CountsMatch(Add(view, Contribution(w)), interrupted + (if w.interrupted then 1 else 0), ws + [w])
  {
    hide ErrorTotal, ErrorSum;
    SumMore(Contributions(ws), Contribution(w));
    assert Contributions(ws + [w]) == Contributions(ws) + [Contribution(w)];
    assert (ws + [w])[..|ws + [w]| - 1] == ws;
  }

  class MetricsTotals {
    var handshake: Counts
    var rtt: Counts
    var response: Counts
    var messagesSent: nat
    var messagesRecv: nat
    var bytesSent: nat
    var bytesRecv: nat
    var reconnects: nat
    var unsolicited: nat
    var sentMessageErrors: nat
    var interrupted: nat
    var errors: Errors
    var absorbed: seq<Recorder>

    /** The workers added so far. */
    ghost var workers: seq<Worker>

    ghost function View(): Counters
      reads this
    {
      Counters(0, 0, 0, reconnects, messagesSent, messagesRecv, bytesSent, bytesRecv, ErrorTotal(errors), unsolicited)
    }

    ghost predicate HistogramsOk()
      reads this
    {
      && handshake == RecordAll(EMPTY, AllSamples(absorbed, OfHandshake))
      && rtt == RecordAll(EMPTY, AllSamples(absorbed, OfRtt))
      && response == RecordAll(EMPTY, AllSamples(absorbed, OfResponse))
    }

    ghost predicate CountsOk()
      reads this
    {
      && CountsMatch(View(), interrupted, workers)
      && ErrorsMatch(errors, sentMessageErrors, workers)
      && (ErrorsCovered(workers) ==> sentMessageErrors <= ErrorTotal(errors))
    }

    constructor ()
      ensures handshake == rtt == response == EMPTY && absorbed == []
      ensures View() == ZERO && interrupted == 0 && sentMessageErrors == 0 && errors == map[] && workers == []
    {
      handshake, rtt, response := EMPTY, EMPTY, EMPTY;
      messagesSent, messagesRecv, bytesSent, bytesRecv := 0, 0, 0, 0;
      reconnects, unsolicited, sentMessageErrors, interrupted := 0, 0, 0, 0;
      errors, absorbed, workers := NoErrorsYet(), [], [];
    }

    /** New totals count nothing, as they should. */
    lemma NewIsOk()
      requires handshake == rtt == response == EMPTY && absorbed == []
      requires View() == ZERO && interrupted == 0 && sentMessageErrors == 0 && errors == map[] && workers == []
      ensures HistogramsOk() && CountsOk()
    {
      NoneMatch();
      NoErrorsMatch(errors, workers);
      NoSamples(OfHandshake);
      NoSamples(OfRtt);
      NoSamples(OfResponse);
    }

    /** Records the samples of a recorder that was not counted before. */
    method AddRecorder(r: Recorder)
      requires HistogramsOk() && Consistent(absorbed + [r])
      modifies `handshake, `rtt, `response, `absorbed
      ensures HistogramsOk() && absorbed == Absorb(old(absorbed), r)
    {
      hide RecordAll, AllSamples, Known, Absorb, Consistent;
      KnownAbsorbed(absorbed, r);
      if Known(absorbed, r) {
        return;
      }
      SamplesMore(absorbed, r, OfHandshake);
      SamplesMore(absorbed, r, OfRtt);
      SamplesMore(absorbed, r, OfResponse);
      handshake := RecordAll(handshake, r.handshake);
      rtt := RecordAll(rtt, r.rtt);
      response := RecordAll(response, r.response);
      absorbed := absorbed + [r];
    }

    /** Adds a worker's share to every counter. */
    method AddWorkerCounts(w: Worker)
      requires CountsOk()
      modifies `messagesSent, `messagesRecv, `bytesSent, `bytesRecv, `reconnects, `unsolicited,
        `sentMessageErrors, `interrupted, `errors, `workers
      ensures CountsOk() && workers == old(workers) + [w]
      ensures sentMessageErrors == old(sentMessageErrors) + w.sentMessageErrors
      ensures forall c :: Get(errors, c) == Get(old(errors), c) + Get(w.errors, c)
    {
      hide ErrorTotal, CountsMatch, ErrorsCovered, ErrorsMatch, MergeErrors, Get;
      CoveredMore(workers, w);
      ErrorsMatchMore(errors, sentMessageErrors, workers, w);
      MergedGets(errors, w.errors);
      MergedErrorTotal(errors, w.errors);
      MoreMatch(View(), interrupted, workers, w);
      messagesSent, messagesRecv := messagesSent + w.messagesSent, messagesRecv + w.messagesRecv;
      bytesSent, bytesRecv := bytesSent + w.bytesSent, bytesRecv + w.bytesRecv;
      reconnects, unsolicited := reconnects + w.reconnects, unsolicited + w.unsolicited;
      sentMessageErrors := sentMessageErrors + w.sentMessageErrors;
      interrupted := interrupted + (if w.interrupted then 1 else 0);
      errors := MergeErrors(errors, w.errors);
      workers := workers + [w];
    }

    /** Adds a worker, and its recorder when it is a new one. */
    method AddWorker(w: Worker, r: Recorder)
      requires HistogramsOk() && CountsOk() && Consistent(absorbed + [r])
      modifies this
      ensures HistogramsOk() && CountsOk()
      ensures absorbed == Absorb(old(absorbed), r) && workers == old(workers) + [w]
    {
      hide RecordAll, AllSamples, CountsMatch, ErrorsMatch, ErrorTotal, ErrorSum;
      AddRecorder(r);
      AddWorkerCounts(w);
    }
  }

  lemma {:induction false} CoveredMore(ws: seq<Worker>, w: Worker)
    ensures ErrorsCovered(ws + [w]) ==> ErrorsCovered(ws) && w.sentMessageErrors <= ErrorTotal(w.errors)
  {
    hide ErrorTotal;
    var all := ws + [w];
    if ErrorsCovered(all) {
      assert all[|ws|] == w;
      assert forall i :: 0 <= i < |ws| ==> ws[i] == all[i];
    }
  }

  /** Whether a recorder with this identity was counted before. */
  predicate Known(absorbed: seq<Recorder>, r: Recorder) {
    exists i :: 0 <= i < |absorbed| && absorbed[i].id == r.id
  }

  lemma {:induction false} KnownAbsorbed(absorbed: seq<Recorder>, r: Recorder)
    requires Consistent(absorbed + [r])
    ensures Absorb(absorbed, r) == if Known(absorbed, r) then absorbed else absorbed + [r]
  {
    if Known(absorbed, r) {
      var i :| 0 <= i < |absorbed| && absorbed[i].id == r.id;
      assert (absorbed + [r])[i] == absorbed[i] && (absorbed + [r])[|absorbed|] == r;
    }
  }

  method NewTotals() returns (t: MetricsTotals)
    ensures fresh(t) && t.HistogramsOk() && t.CountsOk() && t.absorbed == [] && t.workers == []
  {
    t := new MetricsTotals();
    t.NewIsOk();
  }

  /** The merge of a finished run: every worker's counters, and each distinct recorder once. */
  method MergeWorkers(ws: seq<Worker>, rs: seq<Recorder>) returns (t: MetricsTotals)
    requires |ws| == |rs| && Consistent(rs)
    ensures fresh(t) && t.HistogramsOk() && t.CountsOk()
    ensures t.workers == ws && t.absorbed == AbsorbAll([], rs)
  {
    hide *;
    t := NewTotals();
    var i := 0;
    NoneYet(rs);
    while i < |ws|
      invariant i <= |ws| && fresh(t)
      invariant t.HistogramsOk() && t.CountsOk()
      invariant t.workers == ws[..i] && AbsorbAll(t.absorbed, rs[i..]) == AbsorbAll([], rs)
      invariant PartOf(t.absorbed, rs)
    {
      NextAbsorbed(t.absorbed, rs, i);
      t.AddWorker(ws[i], rs[i]);
      i := i + 1;
    }
    AbsorbNone(t.absorbed, rs);
  }

  ghost predicate PartOf(a: seq<Recorder>, rs: seq<Recorder>) { forall r :: r in a ==> r in rs }

  lemma {:induction false} NoneYet(rs: seq<Recorder>)
    ensures PartOf([], rs) && rs[0..] == rs
  {
  }

  lemma {:induction false} NextAbsorbed(absorbed: seq<Recorder>, rs: seq<Recorder>, i: nat)
    requires i < |rs| && Consistent(rs) && PartOf(absorbed, rs)
    ensures Consistent(absorbed + [rs[i]])
    ensures AbsorbAll(absorbed, rs[i..]) == AbsorbAll(Absorb(absorbed, rs[i]), rs[i + 1..])
    ensures PartOf(Absorb(absorbed, rs[i]), rs)
  {
    assert rs[i..][1..] == rs[i + 1..];
    assert PartOf(absorbed + [rs[i]], rs);
    hide Consistent;
    ConsistentPart(absorbed + [rs[i]], rs);
  }

  lemma {:induction false} AbsorbNone(absorbed: seq<Recorder>, rs: seq<Recorder>)
    ensures AbsorbAll(absorbed, rs[|rs|..]) == absorbed
  {
  }

  lemma {:induction false} ConsistentPart(a: seq<Recorder>, rs: seq<Recorder>)
    requires Consistent(rs) && PartOf(a, rs)
    ensures Consistent(a)
  {
    forall i, j | 0 <= i < |a| && 0 <= j < |a| && a[i].id == a[j].id ensures a[i] == a[j] {
      assert a[i] in rs && a[j] in rs;
    }
  }

  // ----- the summary -----

  datatype Slots = Slots(attempted: nat, established: nat, failed: nat, interrupted: nat, notStarted: nat)

  /** Connection slots as the report counts them. `handshakes` is the number of values in the
      handshake histogram. */
  function Finish(handshakes: nat, reconnects: nat, interrupted: nat, attempted: nat): (s: Slots)
    ensures s.attempted == attempted == s.established + s.failed + s.interrupted && s.notStarted == 0
    ensures s.interrupted <= interrupted && (s.interrupted == interrupted || s.failed == 0)
    ensures s.established <= attempted && (s.established == attempted || s.established + reconnects == Max(handshakes, reconnects))
    ensures s.established <= Max(handshakes, reconnects) - reconnects
  {
    var established := Min(SaturatingSub(handshakes, reconnects), attempted);
    var stopped := Min(interrupted, SaturatingSub(attempted, established));
    Slots(attempted, established, SaturatingSub(SaturatingSub(attempted, established), stopped), stopped, 0)
  }

  /** Slots that never started were counted as failed; they are moved over. */
  function WithNotStarted(s: Slots, notStarted: nat): (r: Slots)
    requires s.notStarted == 0
    ensures r.established == s.established && r.interrupted == s.interrupted && r.attempted == s.attempted
    ensures r.failed + r.notStarted == s.failed && r.notStarted <= notStarted
    ensures r.notStarted == notStarted || r.failed == 0
  {
    var n := Min(notStarted, s.failed);
    s.(failed := s.failed - n, notStarted := n)
  }

  lemma {:induction false} AbsorbShared(r: Recorder, n: nat)
    ensures AbsorbAll([r], seq(n, _ => r)) == [r]
    decreases n
  {
    if n > 0 {
      var rs := seq(n, _ => r);
      assert rs[0] == r && rs[1..] == seq(n - 1, _ => r);
      AbsorbShared(r, n - 1);
    }
  }

  /** However many workers share a recorder, its handshakes are counted once. */
  lemma {:induction false} SharedHandshakes(r: Recorder, n: nat)
    requires n == 0 ==> r.handshake == []
    ensures Sum(RecordAll(EMPTY, AllSamples(AbsorbAll([], seq(n, _ => r)), OfHandshake))) == |r.handshake|
  {
    var rs := seq(n, _ => r);
    var absorbed := AbsorbAll([], rs);
    if n > 0 {
      assert rs[0] == r && rs[1..] == seq(n - 1, _ => r);
      assert [] + [r] == [r];
      AbsorbShared(r, n - 1);
      assert absorbed == [r];
      assert [r][..0] == [] && [] + r.handshake == r.handshake;
    }
    hide RecordAll, Sum;
    HistogramLen(EMPTY, AllSamples(absorbed, OfHandshake));
    EmptySum(|EMPTY|);
    assert EMPTY[..|EMPTY|] == EMPTY;
  }

  lemma {:induction false} WorkersFirst(l: Live, steps: seq<Step>)
    requires |l.shards| > 0 && (l.workers == [] ==> l.handshakes == [])
    ensures Run(l, steps).workers == [] ==> Run(l, steps).handshakes == []
    decreases |steps|
  {
    if steps != [] {
      WorkersFirst(Next(l, steps[0]), steps[1..]);
    }
  }

  /** How many of the first `n` workers had a call that reported an interruption. */
  function InterruptedIn(n: nat, steps: seq<Step>): nat {
    if n == 0 then 0
    else InterruptedIn(n - 1, steps) + (if Total(Interruptions, EventsOf(n - 1, 0, steps)) > 0 then 1 else 0)
  }

  lemma {:induction false} InterruptedAre(ws: seq<Worker>, n: nat, steps: seq<Step>)
    requires n <= |ws| && forall w :: 0 <= w < |ws| ==> Ledger(ws[w], EventsOf(w, 0, steps))
    ensures InterruptedOf(ws[..n]) == InterruptedIn(n, steps)
  {
    if n > 0 {
      InterruptedAre(ws, n - 1, steps);
      assert ws[..n][..n - 1] == ws[..n - 1];
      assert Ledger(ws[n - 1], EventsOf(n - 1, 0, steps));
      hide Total, EventsOf;
    }
  }

  /** What the merged totals of a run hold, said of its trace. */
  ghost predicate TotalsOf(t: MetricsTotals, shards: seq<Counters>, steps: seq<Step>)
    requires shards != []
    reads t
  {
    var l := Run(Start(shards), steps);
    var es := Events(0, steps);
    && t.HistogramsOk() && t.CountsOk() && t.workers == l.workers
    && t.View() == OwnFields(SumCounters(l.shards))
    && t.sentMessageErrors <= ErrorTotal(t.errors)
    && (forall c :: Get(t.errors, c) == Total(ErrorsOf(c), es))
    && t.sentMessageErrors == Total(SentErrors, es)
    && t.interrupted == InterruptedIn(|t.workers|, steps)
    && Sum(t.handshake) == Total(Firsts, es) + Total(Reconnects, es) && t.reconnects == Total(Reconnects, es)
  }

  /** What is known of the live run and of its workers. */
  lemma {:induction false} RunFacts(shards: seq<Counters>, steps: seq<Step>, r: Recorder, l: Live, es: seq<Event>)
    requires shards != [] && AllZero(shards) && l == Run(Start(shards), steps) && es == Events(0, steps)
    requires r.handshake == l.handshakes
    ensures OwnFields(SumCounters(l.shards)) == SumCounters(Contributions(l.workers))
    ensures SumCounters(l.shards).reconnects == Total(Reconnects, es) && ErrorsCovered(l.workers)
    ensures forall c :: KeptBy(l.workers, ErrorsOf(c)) == Total(ErrorsOf(c), es)
    ensures KeptBy(l.workers, SentErrors) == Total(SentErrors, es)
    ensures InterruptedOf(l.workers) == InterruptedIn(|l.workers|, steps)
    ensures Sum(RecordAll(EMPTY, AllSamples(AbsorbAll([], seq(|l.workers|, _ => r)), OfHandshake))) ==
      Total(Firsts, es) + Total(Reconnects, es)
  {
    hide Total, Run, Events, EventsOf, KeptBy, Ledger, SumCounters, Contributions, ErrorsCovered, InterruptedOf, InterruptedIn;
    hide Sum, RecordAll, AllSamples, AbsorbAll, AllZero;
    LiveAgreesWithTotals(shards, steps);
    WorkersAreLedgers(shards, steps);
    InterruptedAre(l.workers, |l.workers|, steps);
    assert l.workers[..|l.workers|] == l.workers;
    WorkersFirst(Start(shards), steps);
    SharedHandshakes(r, |l.workers|);
    OpensSplit(es);
  }

  /** The merge of a run whose workers share the recorder `r`. */
  method MergeRun(shards: seq<Counters>, steps: seq<Step>, r: Recorder) returns (t: MetricsTotals)
    requires shards != [] && AllZero(shards) && r.handshake == Run(Start(shards), steps).handshakes
    ensures TotalsOf(t, shards, steps)
  {
    hide RecordAll, AllSamples, AbsorbAll, Sum, SumCounters, Contributions, ErrorTotal, ErrorsCovered, Run, AllZero, Total, Events;
    hide KeptBy, InterruptedOf, InterruptedIn;
    var l := Run(Start(shards), steps);
    RunFacts(shards, steps, r, l, Events(0, steps));
    var rs := seq(|l.workers|, _ => r);
    t := MergeWorkers(l.workers, rs);
  }

  /** The report of a run, for every trace of calls by any number of workers that share the
      recorder `r`: the merged totals are the live snapshot in every field both keep, and error
      by error, and interruption by interruption, what the calls reported; the established slots
      are the first handshakes (as far as there were slots), and attempted slots are
      established, failed, interrupted or not started, the last two as far as slots are left. */
  method Report(shards: seq<Counters>, steps: seq<Step>, r: Recorder, attempted: nat, notStarted: nat)
    returns (t: MetricsTotals, s: Slots)
    requires shards != [] && AllZero(shards) && r.handshake == Run(Start(shards), steps).handshakes
    ensures TotalsOf(t, shards, steps)
    ensures s.established == (if Total(Firsts, Events(0, steps)) <= attempted then Total(Firsts, Events(0, steps)) else attempted)
    ensures s.interrupted <= t.interrupted && (s.interrupted == t.interrupted || s.failed + s.notStarted == 0)
    ensures s.notStarted <= notStarted && (s.notStarted == notStarted || s.failed == 0)
    ensures attempted == s.established + s.failed + s.interrupted + s.notStarted
  {
    hide *;
    t := MergeRun(shards, steps, r);
    HandshakesOf(t, shards, steps);
    s := WithNotStarted(Finish(Sum(t.handshake), t.reconnects, t.interrupted, attempted), notStarted);
    SlotsAre(Total(Firsts, Events(0, steps)), t.reconnects, t.interrupted, attempted, notStarted);
  }

  lemma {:induction false} HandshakesOf(t: MetricsTotals, shards: seq<Counters>, steps: seq<Step>)
    requires shards != [] && TotalsOf(t, shards, steps)
    ensures Sum(t.handshake) == Total(Firsts, Events(0, steps)) + t.reconnects
  {
  }

  /** The slots of a run with `firsts` first handshakes and `reconnects` others. */
  lemma {:induction false} SlotsAre(firsts: nat, reconnects: nat, interrupted: nat, attempted: nat, notStarted: nat)
    ensures var s := WithNotStarted(Finish(firsts + reconnects, reconnects, interrupted, attempted), notStarted);
      && s.established == (if firsts <= attempted then firsts else attempted)
      && s.interrupted <= interrupted && (s.interrupted == interrupted || s.failed + s.notStarted == 0)
      && s.notStarted <= notStarted && (s.notStarted == notStarted || s.failed == 0)
      && attempted == s.established + s.failed + s.interrupted + s.notStarted
  {
  }

  lemma {:induction false} OpensSplit(es: seq<Event>)
    ensures Total(Opens, es) == Total(Firsts, es) + Total(Reconnects, es)
  {
    if es != [] { OpensSplit(es[..|es| - 1]); }
  }
}
