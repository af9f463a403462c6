/** The loops that take records off a queue: the file writer, the forwarder of a distributed
    agent, and the coordinator's merged writer. */
module CaptureWriters {
  import opened Common
  import opened CaptureQueue

  /** The records before the first `Finish`. */
  function UntilFinish<R>(commands: seq<Command<R>>): seq<R> {
    if commands == [] || commands[0].Finish? then [] else [commands[0].record] + UntilFinish(commands[1..])
  }

  /** The writer thread: one line per record, up to the marker or to the end of the
      commands. `succeeds(k)` is whether the k-th write does. The lines are the first records,
      up to the first write that fails, and every other record before the marker is lost. */
  method WriteRecords<R>(headerSucceeds: bool, commands: seq<Command<R>>, succeeds: nat -> bool)
    returns (lines: seq<R>, lost: nat, failed: bool)
    ensures lines <= UntilFinish(commands)
    ensures |lines| + lost == |UntilFinish(commands)|
    ensures !headerSucceeds ==> lines == []
    ensures forall k :: 0 <= k < |lines| ==> succeeds(k)
    ensures headerSucceeds && lost > 0 ==> !succeeds(|lines|)
    ensures failed <==> !headerSucceeds || lost > 0
  {
    ghost var all := UntilFinish(commands);
    lines, lost, failed := [], 0, !headerSucceeds;
    var i := 0;
    while i < |commands| && !commands[i].Finish?
      invariant i <= |commands| && i <= |all| && all[i..] == UntilFinish(commands[i..])
      invariant |lines| + lost == i && lines == all[..|lines|]
      invariant !headerSucceeds ==> lines == []
      invariant forall k :: 0 <= k < |lines| ==> succeeds(k)
      invariant headerSucceeds && lost > 0 ==> !succeeds(|lines|)
      invariant failed <==> !headerSucceeds || lost > 0
    {
      assert commands[i..][1..] == commands[i + 1..];
      assert all[i] == all[i..][0] == commands[i].record;
      assert all[i + 1..] == all[i..][1..];
      if failed {
        lost := lost + 1;
      } else if succeeds(|lines|) {
        lines := lines + [commands[i].record];
      } else {
        lost, failed := lost + 1, true;
      }
      i := i + 1;
    }
  }

  // ----- forwarding -----

  const FORWARD_BATCH: nat := 1024

  /** What one poll of the queue finds. */
  datatype Found<+R> = Got(record: R) | Empty | Over

  /** The records found before the queue was over. */
  function UntilOver<R>(polls: seq<Found<R>>): seq<R> {
    if polls == [] || polls[0].Over? then []
    else (if polls[0].Got? then [polls[0].record] else []) + UntilOver(polls[1..])
  }

  /** A batch offered to the control channel, and whether it was taken. */
  datatype Offer<+R> = Offer(batch: seq<R>, taken: bool)

  function Offered<R>(offers: seq<Offer<R>>): seq<R> {
    if offers == [] then [] else offers[0].batch + Offered(offers[1..])
  }

  function Refused<R>(offers: seq<Offer<R>>): nat {
    if offers == [] then 0 else (if offers[0].taken then 0 else |offers[0].batch|) + Refused(offers[1..])
  }

  lemma {:induction false} OfferMore<R>(offers: seq<Offer<R>>, o: Offer<R>)
    ensures Offered(offers + [o]) == Offered(offers) + o.batch
    ensures Refused(offers + [o]) == Refused(offers) + (if o.taken then 0 else |o.batch|)
    decreases |offers|
  {
    if offers == [] {
      assert offers + [o] == [o];
      assert o.batch + [] == o.batch;
    } else {
      OfferMore(offers[1..], o);
      assert (offers + [o])[1..] == offers[1..] + [o] && (offers + [o])[0] == offers[0];
      assert offers[0].batch + (Offered(offers[1..]) + o.batch) == (offers[0].batch + Offered(offers[1..])) + o.batch;
    }
  }

  predicate BatchesFit<R>(offers: seq<Offer<R>>) {
    forall i :: 0 <= i < |offers| ==> 1 <= |offers[i].batch| <= 1024
  }

  /** The channel took exactly the batches it has room for. */
  ghost predicate TakenBy<R>(offers: seq<Offer<R>>, takes: nat -> bool) {
    forall i :: 0 <= i < |offers| ==> offers[i].taken == takes(i)
  }

  /** Hands over a batch, unless it is empty. */
  method Send<R>(offers: seq<Offer<R>>, batch: seq<R>, lost: nat, takes: nat -> bool)
    returns (offers': seq<Offer<R>>, lost': nat)
    requires BatchesFit(offers) && |batch| <= FORWARD_BATCH && lost == Refused(offers) && TakenBy(offers, takes)
    ensures BatchesFit(offers') && lost' == Refused(offers') && TakenBy(offers', takes)
    ensures Offered(offers') == Offered(offers) + batch
  {
    if batch == [] {
      assert Offered(offers) + batch == Offered(offers);
      return offers, lost;
    }
    var o := Offer(batch, takes(|offers|));
    OfferMore(offers, o);
    return offers + [o], if o.taken then lost else lost + |batch|;
  }

  /** The forwarding thread. `takes(k)` is whether the control channel takes the k-th batch.
      Every record found is in exactly one batch, in order, and `lost` counts exactly the
      records of the batches that were not taken. */
  method ForwardRecords<R>(polls: seq<Found<R>>, takes: nat -> bool) returns (offers: seq<Offer<R>>, lost: nat)
    ensures Offered(offers) == UntilOver(polls)
    ensures BatchesFit(offers) && lost == Refused(offers) && TakenBy(offers, takes)
  {
    var batch: seq<R> := [];
    offers, lost := [], 0;
    var i := 0;
    assert polls[0..] == polls && Offered(offers) + batch == [];
    while i < |polls| && !polls[i].Over?
      invariant i <= |polls|
      invariant UntilOver(polls) == Offered(offers) + batch + UntilOver(polls[i..])
      invariant BatchesFit(offers) && lost == Refused(offers) && TakenBy(offers, takes) && |batch| < FORWARD_BATCH
    {
      NextPoll(polls, i, Offered(offers) + batch);
      hide *;
      offers, batch, lost := TakePoll(polls[i], offers, batch, lost, takes);
      i := i + 1;
    }
    ghost var done := Offered(offers) + batch;
    assert done + [] == done;
    offers, lost := Send(offers, batch, lost, takes);
  }

  /** One poll: a record joins the batch, which goes out when it is full; so does what there is
      when no record was found. */
  method TakePoll<R>(poll: Found<R>, offers0: seq<Offer<R>>, batch0: seq<R>, lost0: nat, takes: nat -> bool)
    returns (offers: seq<Offer<R>>, batch: seq<R>, lost: nat)
    requires BatchesFit(offers0) && lost0 == Refused(offers0) && TakenBy(offers0, takes) && |batch0| < FORWARD_BATCH
    ensures BatchesFit(offers) && lost == Refused(offers) && TakenBy(offers, takes) && |batch| < FORWARD_BATCH
    ensures poll.Got? && |batch0| < 1023 ==> batch == batch0 + [poll.record] && offers == offers0
    ensures !poll.Got? || |batch0| == 1023 ==> batch == []
    ensures Offered(offers) + batch == if poll.Got? then Offered(offers0) + batch0 + [poll.record] else Offered(offers0) + batch0
  {
    hide Offered, Refused, BatchesFit, TakenBy;
    offers, batch, lost := offers0, batch0, lost0;
    if poll.Got? {
      Assoc(Offered(offers0), batch0, [poll.record]);
      batch := batch + [poll.record];
      if |batch| < FORWARD_BATCH {
        return;
      }
    }
    offers, lost := Send(offers, batch, lost, takes);
    batch := [];
    assert Offered(offers) + [] == Offered(offers);
  }

  /** A poll moves its record, if it found one, to those done. */
  lemma {:induction false} NextPoll<R>(polls: seq<Found<R>>, i: nat, done: seq<R>)
    requires i < |polls| && !polls[i].Over?
    ensures done + UntilOver(polls[i..])
         == (if polls[i].Got? then done + [polls[i].record] else done) + UntilOver(polls[i + 1..])
  {
    assert polls[i..][1..] == polls[i + 1..];
    var rest := UntilOver(polls[i + 1..]);
    if polls[i].Got? {
      Assoc(done, [polls[i].record], rest);
    } else {
      assert [] + rest == rest;
    }
  }

  // ----- the coordinator's file -----

  const U64_MAX: nat := 0xffff_ffff_ffff_ffff

  /** A record as it travels: its time and everything else about it. */
  datatype Wired<+R> = Wired(tUs: nat, record: R)

  datatype MergedBatch<+R> = MergedBatch(agent: nat, offsetUs: nat, records: seq<Wired<R>>)

  datatype MergedLine<+R> = MergedLine(tUs: nat, agent: nat, record: R)

  function LineOf<R>(b: MergedBatch<R>, w: Wired<R>): MergedLine<R> {
    MergedLine(Min(w.tUs + b.offsetUs, U64_MAX), b.agent, w.record)
  }

  /** A line is its record with the agent it came from, at its time on the coordinator's clock,
      which stops at the largest number of 64 bits. */
  lemma {:induction false} LineIs<R>(b: MergedBatch<R>, w: Wired<R>)
    ensures LineOf(b, w).agent == b.agent && LineOf(b, w).record == w.record
    ensures LineOf(b, w).tUs ==
      if w.tUs + b.offsetUs <= 18_446_744_073_709_551_615 then w.tUs + b.offsetUs else 18_446_744_073_709_551_615
  {
  }

  /** The lines of a batch, and of all batches in order of arrival. */
  function BatchLines<R>(b: MergedBatch<R>): (r: seq<MergedLine<R>>)
    ensures |r| == |b.records| && forall i :: 0 <= i < |r| ==> r[i] == LineOf(b, b.records[i])
  {
    seq(|b.records|, i requires 0 <= i < |b.records| => LineOf(b, b.records[i]))
  }

  function AllLines<R>(batches: seq<MergedBatch<R>>): seq<MergedLine<R>> {
    if batches == [] then [] else BatchLines(batches[0]) + AllLines(batches[1..])
  }

  /** What the merged writer has counted. */
  datatype Merged<+R> = Merged(lines: seq<MergedLine<R>>, lost: nat, overLimit: nat, failed: bool)

  /** The counts after the records `all` have been seen: the file holds the first ones, the
      limit covers written and lost records alike, and everything else is over the limit. */
  ghost predicate MergedOk<R>(m: Merged<R>, limit: nat, all: seq<MergedLine<R>>) {
    && m.lines <= all
    && |m.lines| + m.lost == Min(limit, |all|)
    && m.overLimit == |all| - Min(limit, |all|)
    && (!m.failed ==> m.lost == 0)
  }

  /** The lines are those up to the first write that fails; `succeeds(k)` is whether the k-th
      write does. */
  ghost predicate WrittenBy<R>(m: Merged<R>, headerSucceeds: bool, succeeds: nat -> bool) {
    && (!headerSucceeds ==> m.lines == [])
    && (forall k :: 0 <= k < |m.lines| ==> succeeds(k))
    && (headerSucceeds && m.failed ==> !succeeds(|m.lines|))
    && (m.failed <==> !headerSucceeds || m.lost > 0)
  }

  /** One record of a batch. */
  method MergeRecord<R>(m: Merged<R>, limit: nat, line: MergedLine<R>, header: bool, succeeds: nat -> bool, ghost all: seq<MergedLine<R>>)
    returns (m': Merged<R>)
    requires MergedOk(m, limit, all) && WrittenBy(m, header, succeeds)
    ensures MergedOk(m', limit, all + [line]) && WrittenBy(m', header, succeeds)
  {
    assert all <= all + [line];
    if |m.lines| + m.lost >= limit {
      return m.(overLimit := m.overLimit + 1);
    }
    if m.failed {
      return m.(lost := m.lost + 1);
    }
    assert m.lines == all;
    if succeeds(|m.lines|) {
      m' := m.(lines := m.lines + [line]);
    } else {
      m' := m.(lost := m.lost + 1, failed := true);
    }
  }

  /** The records of one batch, in order. */
  method MergeBatch<R>(m: Merged<R>, limit: nat, batch: MergedBatch<R>, header: bool, succeeds: nat -> bool, ghost all: seq<MergedLine<R>>)
    returns (m': Merged<R>)
    requires MergedOk(m, limit, all) && WrittenBy(m, header, succeeds)
    ensures MergedOk(m', limit, all + BatchLines(batch)) && WrittenBy(m', header, succeeds)
  {
    hide MergedOk, WrittenBy;
    ghost var lines := BatchLines(batch);
    m' := m;
    var i := 0;
    assert all + lines[..0] == all;
    while i < |batch.records|
      invariant i <= |batch.records| == |lines|
      invariant MergedOk(m', limit, all + lines[..i]) && WrittenBy(m', header, succeeds)
    {
      var line := LineOf(batch, batch.records[i]);
      m' := MergeRecord(m', limit, line, header, succeeds, all + lines[..i]);
      assert all + lines[..i + 1] == all + lines[..i] + [line];
      i := i + 1;
    }
    assert lines[..i] == lines;
  }

  /** The coordinator's writer. The file holds the first lines, up to the limit or to the first
      write that fails; from there on to the limit lines are lost, and the rest is over it. */
  method MergeBatches<R>(limit: nat, headerSucceeds: bool, batches: seq<MergedBatch<R>>, succeeds: nat -> bool)
    returns (m: Merged<R>)
    ensures MergedOk(m, limit, AllLines(batches)) && WrittenBy(m, headerSucceeds, succeeds)
    ensures |m.lines| + m.lost <= limit
    ensures |m.lines| + m.lost + m.overLimit == |AllLines(batches)|
  {
    m := Merged([], 0, 0, !headerSucceeds);
    ghost var done: seq<MergedLine<R>> := [];
    var b := 0;
    assert batches[0..] == batches;
    while b < |batches|
      invariant b <= |batches|
      invariant AllLines(batches) == done + AllLines(batches[b..])
      invariant MergedOk(m, limit, done) && WrittenBy(m, headerSucceeds, succeeds)
    {
      m := MergeBatch(m, limit, batches[b], headerSucceeds, succeeds, done);
      assert batches[b..][1..] == batches[b + 1..];
      Assoc(done, BatchLines(batches[b]), AllLines(batches[b + 1..]));
      done := done + BatchLines(batches[b]);
      b := b + 1;
    }
    assert done + [] == done;
  }
}
