/**
 * Capture files and their replay: the line written for a record
 * (`src/capture.rs`) and the mock server's script read from the lines
 * (`src/mock.rs`). A line is the record JSON carries; text is the bytes of
 * its UTF-8 form.
 */
module Replay {
  import opened Common
  import opened Base64

  // -------------------------------------------------------------------
  // What was recorded
  // -------------------------------------------------------------------

  datatype CloseFrame = CloseFrame(code: nat, reason: seq<byte>)

  datatype Event =
    | Open
    | Text(text: seq<byte>)
    | Binary(bytes: seq<byte>)
    | Close(frame: Option<CloseFrame>)

  datatype Dir = Sent | Received

  /** A recorded worker: slots are numbered per agent. */
  datatype Key = Key(agent: nat, worker: nat)

  datatype Record = Record(key: Key, time: nat, dir: Dir, event: Event)

  /** One line of a capture file. */
  datatype Line = Line(
    time: nat, key: Key, dir: string, kind: string,
    len: nat, code: Option<nat>, data: Option<seq<byte>>)

  function DirName(dir: Dir): string
  {
    match dir
    case Sent => "sent"
    case Received => "recv"
  }

  /** The line written for a record. */
  function LineOf(r: Record): Line
  {
    match r.event
    case Open => Line(r.time, r.key, DirName(r.dir), "open", 0, None, None)
    case Text(text) => Line(r.time, r.key, DirName(r.dir), "text", |text|, None, Some(text))
    case Binary(bytes) => Line(r.time, r.key, DirName(r.dir), "binary", |bytes|, None, Some(Encoded(bytes)))
    case Close(None) => Line(r.time, r.key, DirName(r.dir), "close", 0, None, None)
    case Close(Some(frame)) =>
      Line(r.time, r.key, DirName(r.dir), "close", 2 + |frame.reason|, Some(frame.code), Some(frame.reason))
  }

  /** What a line tells: its time and worker, "sent" or "recv", the kind of frame, the length of
      its payload on the wire (two bytes for a close code), the code, and the payload, as text or
      in base64. */
  lemma {:induction false} LineTells(r: Record)
    ensures var l := LineOf(r);
      && l.time == r.time && l.key == r.key && l.dir == (if r.dir.Sent? then "sent" else "recv")
      && (r.event.Open? ==> l.kind == "open" && l.len == 0 && l.code == None && l.data == None)
      && (r.event.Text? ==> l.kind == "text" && l.len == |r.event.text| && l.code == None && l.data == Some(r.event.text))
      && (r.event.Binary? ==>
           l.kind == "binary" && l.len == |r.event.bytes| && l.code == None && l.data.Some? && Decoded(l.data.value) == Some(r.event.bytes))
      && (r.event.Close? ==> l.kind == "close")
      && (r.event == Close(None) ==> l.len == 0 && l.code == None && l.data == None)
      && (r.event.Close? && r.event.frame.Some? ==>
           && l.len == 2 + |r.event.frame.value.reason|
           && l.code == Some(r.event.frame.value.code) && l.data == Some(r.event.frame.value.reason))
  {
    hide Encoded, Decoded;
    if r.event.Binary? { DecodeEncoded(r.event.bytes); }
  }

  function Lines(rs: seq<Record>): (lines: seq<Line>)
    ensures |lines| == |rs| && forall i :: 0 <= i < |rs| ==> lines[i] == LineOf(rs[i])
  {
    seq(|rs|, i requires 0 <= i < |rs| => LineOf(rs[i]))
  }

  // -------------------------------------------------------------------
  // Reading the lines
  // -------------------------------------------------------------------

  datatype Message = TextMessage(text: seq<byte>) | BinaryMessage(bytes: seq<byte>)

  /** A received message and the time it was recorded at. */
  datatype Stamped = Stamped(time: nat, message: Message)

  datatype Frame = Skip | Bad | Data(message: Message)

  /** What the reader makes of one line. */
  function FrameOf(line: Line): Frame
  {
    var data := if line.data.Some? then line.data.value else [];
    if line.dir != "recv" then Skip
    else if line.kind == "text" then Data(TextMessage(data))
    else if line.kind == "binary" then
      var bytes := Decoded(data);
      if bytes == None then Bad else Data(BinaryMessage(bytes.value))
    else Skip
  }

  /** Of any line, whoever wrote it: only received text and binary frames are replayed, and only
      a received binary frame whose payload is not base64 is unreadable. No payload counts as an
      empty one. */
  lemma {:induction false} FrameIs(line: Line)
    ensures var data := if line.data == None then [] else line.data.value;
      FrameOf(line) ==
        if line.dir == "recv" && line.kind == "text" then Data(TextMessage(data))
        else if line.dir == "recv" && line.kind == "binary" then
          (if Decoded(data) == None then Bad else Data(BinaryMessage(Decoded(data).value)))
        else Skip
  {
    hide Decoded;
  }

  /** What is known of one recorded worker: its first time, its received frames. */
  datatype Entry = Entry(key: Key, first: nat, frames: seq<Stamped>)

  predicate Less(a: Key, b: Key)
  {
    a.agent < b.agent || (a.agent == b.agent && a.worker < b.worker)
  }

  /** The ordered map of workers, as the list of its entries in key order. */
  ghost predicate Ordered(es: seq<Entry>)
  {
    forall i, j :: 0 <= i < j < |es| ==> Less(es[i].key, es[j].key)
  }

  /** Finds or makes the entry of a key, lowers its first time, appends frames. */
  function Upsert(es: seq<Entry>, key: Key, time: nat, add: seq<Stamped>): seq<Entry>
    decreases |es|
  {
    if es == [] || Less(key, es[0].key) then [Entry(key, time, add)] + es
    else if es[0].key == key then [Entry(key, Min(es[0].first, time), es[0].frames + add)] + es[1..]
    else [es[0]] + Upsert(es[1..], key, time, add)
  }

  function Lookup(es: seq<Entry>, key: Key): Option<Entry>
    decreases |es|
  {
    if es == [] then None
    else if es[0].key == key then Some(es[0])
    else Lookup(es[1..], key)
  }

  /** What the entry of `key` is after an upsert. */
  function Updated(was: Option<Entry>, key: Key, time: nat, add: seq<Stamped>): Entry
  {
    if was == None then Entry(key, time, add)
    else Entry(key, Min(was.value.first, time), was.value.frames + add)
  }

  lemma {:induction false} OrderedTail(es: seq<Entry>)
    requires Ordered(es) && es != []
    ensures Ordered(es[1..])
  {
  }

  /** An ordered list holds no key below its first. */
  lemma {:induction false} AbsentBelow(es: seq<Entry>, key: Key)
    requires Ordered(es) && (es != [] ==> Less(key, es[0].key))
    ensures Lookup(es, key) == None
    decreases |es|
  {
    if |es| > 1 {
      OrderedTail(es);
      assert Less(es[0].key, es[1].key);
      AbsentBelow(es[1..], key);
    }
  }

  lemma {:induction false} UpsertKeys(es: seq<Entry>, key: Key, time: nat, add: seq<Stamped>, low: Key)
    requires Less(low, key) && forall i :: 0 <= i < |es| ==> Less(low, es[i].key)
    ensures forall i :: 0 <= i < |Upsert(es, key, time, add)| ==> Less(low, Upsert(es, key, time, add)[i].key)
    decreases |es|
  {
    if es == [] || Less(key, es[0].key) || es[0].key == key {
    } else {
      UpsertKeys(es[1..], key, time, add, low);
    }
  }

  lemma {:induction false} UpsertOrdered(es: seq<Entry>, key: Key, time: nat, add: seq<Stamped>)
    requires Ordered(es)
    ensures Ordered(Upsert(es, key, time, add))
    decreases |es|
  {
    if es == [] || Less(key, es[0].key) || es[0].key == key {
    } else {
      OrderedTail(es);
      UpsertOrdered(es[1..], key, time, add);
      UpsertKeys(es[1..], key, time, add, es[0].key);
    }
  }

  /** An upsert changes the entry of its key and no other. */
  lemma {:induction false} UpsertLookup(es: seq<Entry>, key: Key, time: nat, add: seq<Stamped>, k: Key)
    requires Ordered(es)
    ensures Lookup(Upsert(es, key, time, add), k)
         == if k == key then Some(Updated(Lookup(es, key), key, time, add)) else Lookup(es, k)
    decreases |es|
  {
    if es == [] || Less(key, es[0].key) {
      AbsentBelow(es, key);
      assert ([Entry(key, time, add)] + es)[1..] == es;
    } else if es[0].key == key {
      var e := Entry(key, Min(es[0].first, time), es[0].frames + add);
      assert ([e] + es[1..])[1..] == es[1..];
    } else {
      OrderedTail(es);
      UpsertLookup(es[1..], key, time, add, k);
      assert ([es[0]] + Upsert(es[1..], key, time, add))[1..] == Upsert(es[1..], key, time, add);
    }
  }

  // -------------------------------------------------------------------
  // What the lines say of each worker
  // -------------------------------------------------------------------

  /** The frames one line adds to its worker. */
  function Adds(line: Line): seq<Stamped>
  {
    var frame := FrameOf(line);
    if frame.Data? then [Stamped(line.time, frame.message)] else []
  }

  /** The frames `key` received, in file order. */
  function FramesOf(lines: seq<Line>, key: Key): seq<Stamped>
  {
    if lines == [] then []
    else
      var n := |lines| - 1;
      FramesOf(lines[..n], key) + (if lines[n].key == key then Adds(lines[n]) else [])
  }

  ghost predicate Occurs(lines: seq<Line>, key: Key)
  {
    exists i :: 0 <= i < |lines| && lines[i].key == key
  }

  /** The earliest time of a record of `key`. */
  ghost predicate IsFirst(lines: seq<Line>, key: Key, first: nat)
  {
    && (exists i :: 0 <= i < |lines| && lines[i].key == key && lines[i].time == first)
    && (forall i :: 0 <= i < |lines| && lines[i].key == key ==> first <= lines[i].time)
  }

  /** The entries say of `key` what the lines do. */
  ghost predicate Knows(es: seq<Entry>, lines: seq<Line>, key: Key)
  {
    var e := Lookup(es, key);
    && (e.Some? <==> Occurs(lines, key))
    && (e == None ==> FramesOf(lines, key) == [])
    && (e.Some? ==> e.value.key == key && IsFirst(lines, key, e.value.first)
                    && e.value.frames == FramesOf(lines, key))
  }

  ghost predicate KnowsAll(es: seq<Entry>, lines: seq<Line>)
  {
    Ordered(es) && forall key :: Knows(es, lines, key)
  }

  lemma {:induction false} OccursMore(lines: seq<Line>, line: Line, key: Key)
    ensures Occurs(lines + [line], key) <==> Occurs(lines, key) || line.key == key
  {
    var more := lines + [line];
    if i: nat :| i < |lines| && lines[i].key == key { assert more[i].key == key; }
    if line.key == key { assert more[|lines|].key == key; }
  }

  lemma {:induction false} FirstMore(lines: seq<Line>, line: Line, key: Key, first: nat)
    requires IsFirst(lines, key, first)
    ensures IsFirst(lines + [line], key, if line.key == key then Min(first, line.time) else first)
  {
    var more := lines + [line];
    var i :| 0 <= i < |lines| && lines[i].key == key && lines[i].time == first;
    assert more[i] == lines[i] && more[|lines|] == line;
  }

  lemma {:induction false} FirstOnly(lines: seq<Line>, line: Line)
    requires !Occurs(lines, line.key)
    ensures IsFirst(lines + [line], line.key, line.time)
  {
    var more := lines + [line];
    assert more[|lines|] == line;
    assert forall i :: 0 <= i < |lines| ==> more[i] == lines[i];
  }

  lemma {:induction false} FramesMore(lines: seq<Line>, line: Line, key: Key)
    ensures FramesOf(lines + [line], key)
         == FramesOf(lines, key) + (if line.key == key then Adds(line) else [])
  {
    assert (lines + [line])[..|lines|] == lines;
  }

  lemma {:induction false} KnowsMore(es: seq<Entry>, lines: seq<Line>, line: Line, key: Key)
    requires Ordered(es) && Knows(es, lines, key)
    ensures Knows(Upsert(es, line.key, line.time, Adds(line)), lines + [line], key)
  {
    UpsertLookup(es, line.key, line.time, Adds(line), key);
    OccursMore(lines, line, key);
    FramesMore(lines, line, key);
    var was := Lookup(es, key);
    if was.Some? {
      FirstMore(lines, line, key, was.value.first);
    } else if line.key == key {
      FirstOnly(lines, line);
    }
    hide Occurs, FramesOf, IsFirst, Upsert, Lookup, Adds;
  }

  lemma {:induction false} KnowsAllMore(es: seq<Entry>, lines: seq<Line>, line: Line)
    requires KnowsAll(es, lines)
    ensures KnowsAll(Upsert(es, line.key, line.time, Adds(line)), lines + [line])
  {
    hide Knows, Adds;
    UpsertOrdered(es, line.key, line.time, Adds(line));
    forall key ensures Knows(Upsert(es, line.key, line.time, Adds(line)), lines + [line], key) {
      KnowsMore(es, lines, line, key);
    }
  }

  // -------------------------------------------------------------------
  // The stable sort by time
  // -------------------------------------------------------------------

  ghost predicate Sorted(s: seq<Stamped>)
  {
    forall i, j :: 0 <= i < j < |s| ==> s[i].time <= s[j].time
  }

  /** The frames of one time, in their order. */
  function AtTime(s: seq<Stamped>, time: nat): seq<Stamped>
  {
    if s == [] then []
    else (if s[0].time == time then [s[0]] else []) + AtTime(s[1..], time)
  }

  /** `t` is `s` by time, frames of one time keeping their order. */
  ghost predicate StableOrder(s: seq<Stamped>, t: seq<Stamped>)
  {
    Sorted(t) && |t| == |s| && forall time :: AtTime(s, time) == AtTime(t, time)
  }

  function Insert(x: Stamped, s: seq<Stamped>): seq<Stamped>
    decreases |s|
  {
    if s == [] || x.time <= s[0].time then [x] + s else [s[0]] + Insert(x, s[1..])
  }

  function SortByTime(s: seq<Stamped>): seq<Stamped>
  {
    if s == [] then [] else Insert(s[0], SortByTime(s[1..]))
  }

  lemma {:induction false} InsertSorted(x: Stamped, s: seq<Stamped>)
    requires Sorted(s)
    ensures Sorted(Insert(x, s)) && |Insert(x, s)| == |s| + 1
    ensures s != [] ==> Insert(x, s)[0].time == Min(x.time, s[0].time)
    decreases |s|
  {
    if s == [] || x.time <= s[0].time {
    } else {
      InsertSorted(x, s[1..]);
      var t := Insert(x, s[1..]);
      assert |s| == 1 ==> s[1..] == [] && t == [x];
      assert s[0].time <= t[0].time;
      assert forall j :: 0 < j < |t| ==> t[0].time <= t[j].time;
    }
  }

  lemma {:induction false} InsertAtTime(x: Stamped, s: seq<Stamped>, time: nat)
    ensures AtTime(Insert(x, s), time) == AtTime([x] + s, time)
    decreases |s|
  {
    assert ([x] + s)[1..] == s;
    if s == [] || x.time <= s[0].time {
    } else {
      var t := Insert(x, s[1..]);
      InsertAtTime(x, s[1..], time);
      assert ([s[0]] + t)[1..] == t && ([x] + s[1..])[1..] == s[1..];
    }
  }

  lemma {:induction false} SortIsStable(s: seq<Stamped>)
    ensures StableOrder(s, SortByTime(s))
  {
    if s != [] {
      var t := SortByTime(s[1..]);
      SortIsStable(s[1..]);
      InsertSorted(s[0], t);
      forall time ensures AtTime(s, time) == AtTime(Insert(s[0], t), time) {
        InsertAtTime(s[0], t, time);
        assert ([s[0]] + t)[1..] == t;
      }
    }
  }

  lemma {:induction false} NothingBefore(s: seq<Stamped>, time: nat)
    requires Sorted(s) && (s != [] ==> time < s[0].time)
    ensures AtTime(s, time) == []
  {
    if |s| > 1 { NothingBefore(s[1..], time); }
  }

  /** Sorted lists with the same frames at every time are the same list. */
  lemma {:induction false} SameOrder(t: seq<Stamped>, u: seq<Stamped>)
    requires Sorted(t) && Sorted(u) && forall time :: AtTime(t, time) == AtTime(u, time)
    ensures t == u
    decreases |t|
  {
    if t == [] {
      if u != [] { assert AtTime(u, u[0].time) != []; assert AtTime(t, u[0].time) == []; assert false; }
    } else {
      assert AtTime(t, t[0].time)[0] == t[0];
      SameFirst(t, u);
      forall time ensures AtTime(t[1..], time) == AtTime(u[1..], time) {
        assert AtTime(t, time) == AtTime(u, time);
        Behind(t, time);
        Behind(u, time);
      }
      SameOrder(t[1..], u[1..]);
      assert t == [t[0]] + t[1..] && u == [u[0]] + u[1..];
    }
  }

  lemma {:induction false} Behind(s: seq<Stamped>, time: nat)
    requires s != []
    ensures AtTime(s[1..], time)
         == if s[0].time == time then AtTime(s, time)[1..] else AtTime(s, time)
  {
  }

  lemma {:induction false} SameFirst(t: seq<Stamped>, u: seq<Stamped>)
    requires Sorted(t) && Sorted(u) && t != [] && forall time :: AtTime(t, time) == AtTime(u, time)
    ensures u != [] && u[0] == t[0]
  {
    assert AtTime(t, t[0].time)[0] == t[0];
    assert AtTime(u, t[0].time) == AtTime(t, t[0].time);
    if u == [] {
      assert false;
    } else {
      assert AtTime(u, u[0].time)[0] == u[0];
      assert AtTime(t, u[0].time) == AtTime(u, u[0].time);
      if u[0].time < t[0].time { NothingBefore(t, u[0].time); }
      if t[0].time < u[0].time { NothingBefore(u, t[0].time); }
    }
  }

  /** Any stable sort gives this one's result. */
  lemma {:induction false} StableOrderIsUnique(s: seq<Stamped>, t: seq<Stamped>)
    requires StableOrder(s, t)
    ensures t == SortByTime(s)
  {
    hide AtTime, SortByTime;
    SortIsStable(s);
    SameOrder(t, SortByTime(s));
  }

  // -------------------------------------------------------------------
  // The script
  // -------------------------------------------------------------------

  /** A message and the time since the worker's first record. */
  datatype ReplayFrame = ReplayFrame(offset: nat, message: Message)

  ghost predicate NoneBefore(first: nat, s: seq<Stamped>)
  {
    forall i :: 0 <= i < |s| ==> first <= s[i].time
  }

  /** `played` is `frames` in stable time order, each at its time since `first`. */
  ghost predicate ReplayOf(played: seq<ReplayFrame>, frames: seq<Stamped>, first: nat)
  {
    var t := SortByTime(frames);
    && |played| == |t| && NoneBefore(first, t)
    && forall i :: 0 <= i < |t| ==> played[i] == ReplayFrame(t[i].time - first, t[i].message)
  }

  lemma {:induction false} InsertKeepsBound(first: nat, x: Stamped, s: seq<Stamped>)
    requires first <= x.time && NoneBefore(first, s)
    ensures NoneBefore(first, Insert(x, s))
    decreases |s|
  {
    if s == [] || x.time <= s[0].time {
    } else {
      InsertKeepsBound(first, x, s[1..]);
    }
  }

  lemma {:induction false} SortKeepsBound(first: nat, s: seq<Stamped>)
    requires NoneBefore(first, s)
    ensures NoneBefore(first, SortByTime(s))
  {
    if s != [] {
      SortKeepsBound(first, s[1..]);
      InsertKeepsBound(first, s[0], SortByTime(s[1..]));
    }
  }

  /** The subtraction of the first time never goes below zero. */
  method Play(first: nat, frames: seq<Stamped>) returns (played: seq<ReplayFrame>)
    requires NoneBefore(first, frames)
    ensures ReplayOf(played, frames, first)
  {
    hide SortByTime;
    SortKeepsBound(first, frames);
    var t := SortByTime(frames);
    played := seq(|t|, i requires 0 <= i < |t| => ReplayFrame(t[i].time - first, t[i].message));
  }

  /** Offsets never go back, and are those of the recording. */
  lemma {:induction false} OffsetsNeverGoBack(played: seq<ReplayFrame>, frames: seq<Stamped>, first: nat)
    requires ReplayOf(played, frames, first)
    ensures |played| == |frames|
    ensures forall i, j :: 0 <= i < j < |played| ==> played[i].offset <= played[j].offset
  {
    SortIsStable(frames);
  }

  /** Frames recorded in time order are replayed in the order of the recording. */
  lemma {:induction false} InRecordedOrder(played: seq<ReplayFrame>, frames: seq<Stamped>, first: nat)
    requires ReplayOf(played, frames, first) && Sorted(frames)
    ensures |played| == |frames|
    ensures forall i :: 0 <= i < |frames| ==>
      frames[i].time >= first && played[i] == ReplayFrame(frames[i].time - first, frames[i].message)
  {
    StableOrderIsUnique(frames, frames);
  }

  datatype Outcome = Script(workers: seq<seq<ReplayFrame>>) | Empty | BadBase64(line: nat)

  /** The entries with frames to replay. */
  function Kept(es: seq<Entry>): seq<Entry>
  {
    if es == [] then []
    else
      var n := |es| - 1;
      Kept(es[..n]) + (if es[n].frames == [] then [] else [es[n]])
  }

  /** `kept` has, in key order, exactly the workers that received data, each with
   *  its first time and its frames. */
  ghost predicate IsScript(kept: seq<Entry>, lines: seq<Line>)
  {
    && Ordered(kept)
    && (forall i :: 0 <= i < |kept| ==>
          && kept[i].frames == FramesOf(lines, kept[i].key)
          && IsFirst(lines, kept[i].key, kept[i].first))
    && (forall key :: FramesOf(lines, key) != [] <==> exists i :: 0 <= i < |kept| && kept[i].key == key)
  }

  ghost predicate Plays(workers: seq<seq<ReplayFrame>>, kept: seq<Entry>)
  {
    && |workers| == |kept|
    && forall i :: 0 <= i < |kept| ==> ReplayOf(workers[i], kept[i].frames, kept[i].first)
  }

  lemma {:induction false} KeptHolds(es: seq<Entry>, e: Entry)
    ensures e in Kept(es) <==> e in es && e.frames != []
  {
    if es != [] {
      var n := |es| - 1;
      KeptHolds(es[..n], e);
      assert es == es[..n] + [es[n]];
    }
  }

  lemma {:induction false} KeptOrdered(es: seq<Entry>)
    requires Ordered(es)
    ensures Ordered(Kept(es))
  {
    if es != [] {
      var n := |es| - 1;
      KeptOrdered(es[..n]);
      var k := Kept(es[..n]);
      forall i | 0 <= i < |k| ensures Less(k[i].key, es[n].key) {
        KeptHolds(es[..n], k[i]);
        var j :| 0 <= j < n && es[..n][j] == k[i];
        assert Less(es[j].key, es[n].key);
      }
    }
  }

  lemma {:induction false} LookupHeld(es: seq<Entry>, i: nat)
    requires Ordered(es) && i < |es|
    ensures Lookup(es, es[i].key) == Some(es[i])
    decreases |es|
  {
    if i > 0 {
      assert Less(es[0].key, es[i].key);
      OrderedTail(es);
      LookupHeld(es[1..], i - 1);
    }
  }

  lemma {:induction false} LookupFinds(es: seq<Entry>, key: Key)
    ensures var e := Lookup(es, key); e.Some? ==> e.value in es && e.value.key == key
    decreases |es|
  {
    if es != [] && es[0].key != key {
      LookupFinds(es[1..], key);
      var e := Lookup(es[1..], key);
      if e.Some? { assert es == [es[0]] + es[1..]; }
    }
  }

  lemma {:induction false} KnownEntry(es: seq<Entry>, lines: seq<Line>, e: Entry)
    requires KnowsAll(es, lines) && e in es
    ensures e.frames == FramesOf(lines, e.key) && IsFirst(lines, e.key, e.first)
  {
    hide IsFirst, FramesOf, Lookup;
    var i :| 0 <= i < |es| && es[i] == e;
    LookupHeld(es, i);
    assert Knows(es, lines, e.key);
  }

  lemma {:induction false} KnownFrames(es: seq<Entry>, lines: seq<Line>, key: Key)
    requires KnowsAll(es, lines) && FramesOf(lines, key) != []
    ensures exists i :: 0 <= i < |Kept(es)| && Kept(es)[i].key == key
  {
    hide IsFirst, FramesOf, Lookup, Kept;
    assert Knows(es, lines, key);
    LookupFinds(es, key);
    var e := Lookup(es, key).value;
    KeptHolds(es, e);
    var i :| 0 <= i < |Kept(es)| && Kept(es)[i] == e;
    assert Kept(es)[i].key == key;
  }

  lemma {:induction false} KeptIsScript(es: seq<Entry>, lines: seq<Line>)
    requires KnowsAll(es, lines)
    ensures IsScript(Kept(es), lines)
  {
    hide IsFirst, FramesOf, Kept, KnowsAll;
    var kept := Kept(es);
    assert Ordered(kept) by { KnownOrdered(es, lines); KeptOrdered(es); }
    forall i | 0 <= i < |kept|
      ensures kept[i].frames == FramesOf(lines, kept[i].key) && kept[i].frames != []
      ensures IsFirst(lines, kept[i].key, kept[i].first)
    {
      KeptHolds(es, kept[i]);
      KnownEntry(es, lines, kept[i]);
    }
    forall key | FramesOf(lines, key) != []
      ensures exists i :: 0 <= i < |kept| && kept[i].key == key
    {
      KnownFrames(es, lines, key);
    }
  }

  lemma {:induction false} KnownOrdered(es: seq<Entry>, lines: seq<Line>)
    requires KnowsAll(es, lines)
    ensures Ordered(es)
  {
  }

  /** No frame is older than its worker's first record. */
  lemma {:induction false} FramesNotBeforeFirst(lines: seq<Line>, key: Key, first: nat)
    requires forall i :: 0 <= i < |lines| && lines[i].key == key ==> first <= lines[i].time
    ensures NoneBefore(first, FramesOf(lines, key))
  {
    if lines != [] {
      var n := |lines| - 1;
      FramesNotBeforeFirst(lines[..n], key, first);
    }
  }

  /** The script lists exactly the received frames, worker by worker. */
  ghost predicate IsReplay(workers: seq<seq<ReplayFrame>>, lines: seq<Line>)
  {
    exists kept :: IsScript(kept, lines) && Plays(workers, kept)
  }

  ghost predicate Readable(lines: seq<Line>)
  {
    forall i :: 0 <= i < |lines| ==> FrameOf(lines[i]) != Bad
  }

  /** The first loop of the reader: the workers, keyed and in order. */
  method ReadLines(lines: seq<Line>) returns (es: seq<Entry>, bad: Option<nat>)
    ensures bad == None ==> Readable(lines) && KnowsAll(es, lines)
    ensures bad.Some? ==> bad.value < |lines| && FrameOf(lines[bad.value]) == Bad
                          && Readable(lines[..bad.value])
  {
    hide FrameOf, KnowsAll;
    es := [];
    var i := 0;
    assert KnowsAll([], lines[..0]) by { KnowsNothing(); assert lines[..0] == []; }
    while i < |lines|
      invariant 0 <= i <= |lines|
      invariant Readable(lines[..i]) && KnowsAll(es, lines[..i])
    {
      var line := lines[i];
      KnowsAllMore(es, lines[..i], line);
      var frame := FrameOf(line);
      if frame == Bad {
        return es, Some(i);
      }
      es := Upsert(es, line.key, line.time, Adds(line));
      assert lines[..i + 1] == lines[..i] + [line];
      i := i + 1;
    }
    assert lines[..i] == lines;
    bad := None;
  }

  lemma {:induction false} KnowsNothing()
    ensures KnowsAll([], [])
  {
  }

  /** The second loop: every worker with frames gets its script. */
  method PlayAll(es: seq<Entry>, lines: seq<Line>) returns (workers: seq<seq<ReplayFrame>>)
    requires KnowsAll(es, lines)
    ensures Plays(workers, Kept(es))
  {
    hide KnowsAll, IsFirst, ReplayOf;
    workers := [];
    var i := 0;
    while i < |es|
      invariant 0 <= i <= |es|
      invariant Plays(workers, Kept(es[..i]))
    {
      var e := es[i];
      assert es[..i + 1][..i] == es[..i];
      if e.frames != [] {
        TimelyEntry(es, lines, e);
        var played := Play(e.first, e.frames);
        workers := workers + [played];
      }
      i := i + 1;
    }
    assert es[..i] == es;
  }

  lemma {:induction false} TimelyEntry(es: seq<Entry>, lines: seq<Line>, e: Entry)
    requires KnowsAll(es, lines) && e in es
    ensures NoneBefore(e.first, e.frames)
  {
    KnownEntry(es, lines, e);
    FramesNotBeforeFirst(lines, e.key, e.first);
  }

  /** The replay script of a capture file's lines. */
  method Parse(lines: seq<Line>) returns (r: Outcome)
    ensures r.BadBase64? ==> r.line < |lines| && FrameOf(lines[r.line]) == Bad && Readable(lines[..r.line])
    ensures !r.BadBase64? ==> Readable(lines)
    ensures r.Script? ==> r.workers != [] && IsReplay(r.workers, lines)
    ensures r.Empty? ==> IsReplay([], lines)
  {
    hide *;
    var es, bad := ReadLines(lines);
    if bad.Some? {
      return BadBase64(bad.value);
    }
    KeptIsScript(es, lines);
    var workers := PlayAll(es, lines);
    AReplay(workers, Kept(es), lines);
    if workers == [] {
      return Empty;
    }
    return Script(workers);
  }

  lemma {:induction false} AReplay(workers: seq<seq<ReplayFrame>>, kept: seq<Entry>, lines: seq<Line>)
    requires IsScript(kept, lines) && Plays(workers, kept)
    ensures IsReplay(workers, lines)
  {
  }

  // -------------------------------------------------------------------
  // Capture, then replay
  // -------------------------------------------------------------------

  /** The data a recorded worker received, in recording order. */
  function Payloads(rs: seq<Record>, key: Key): seq<Stamped>
  {
    if rs == [] then []
    else
      var n := |rs| - 1;
      var r := rs[n];
      Payloads(rs[..n], key)
      + (if r.key != key || r.dir != Received then []
         else if r.event.Text? then [Stamped(r.time, TextMessage(r.event.text))]
         else if r.event.Binary? then [Stamped(r.time, BinaryMessage(r.event.bytes))]
         else [])
  }

  lemma {:induction false} LineSurvives(r: Record)
    ensures FrameOf(LineOf(r)) != Bad && LineOf(r).key == r.key && LineOf(r).time == r.time
    ensures Adds(LineOf(r))
         == if r.dir != Received then []
            else if r.event.Text? then [Stamped(r.time, TextMessage(r.event.text))]
            else if r.event.Binary? then [Stamped(r.time, BinaryMessage(r.event.bytes))]
            else []
  {
    hide Encoded, Decoded;
    if r.event.Binary? { DecodeEncoded(r.event.bytes); }
    assert "sent"[0] != "recv"[0];
    assert "binary"[0] != "text"[0];
    assert "open"[0] != "text"[0] && "open"[0] != "binary"[0];
    assert "close"[0] != "text"[0] && "close"[0] != "binary"[0];
  }

  lemma {:induction false} PayloadsSurvive(rs: seq<Record>, key: Key)
    ensures FramesOf(Lines(rs), key) == Payloads(rs, key)
  {
    hide LineOf, Adds;
    if rs != [] {
      var n := |rs| - 1;
      PayloadsSurvive(rs[..n], key);
      LineSurvives(rs[n]);
      assert Lines(rs)[..n] == Lines(rs[..n]);
    }
  }

  /** The time of a worker's first record. */
  ghost predicate FirstRecord(rs: seq<Record>, key: Key, first: nat)
  {
    && (exists i :: 0 <= i < |rs| && rs[i].key == key && rs[i].time == first)
    && (forall i :: 0 <= i < |rs| && rs[i].key == key ==> first <= rs[i].time)
  }

  /** Worker `i` of the script replays what recorded worker `key` received. */
  ghost predicate ReplaysWorker(played: seq<ReplayFrame>, rs: seq<Record>, key: Key)
  {
    exists first :: FirstRecord(rs, key, first) && ReplayOf(played, Payloads(rs, key), first)
  }

  /** The script has one worker for every recorded worker that received data, in
   *  agent and worker order, and each replays what its recorded worker received. */
  ghost predicate ReplaysRecording(workers: seq<seq<ReplayFrame>>, rs: seq<Record>, keys: seq<Key>)
  {
    && |keys| == |workers|
    && (forall i, j :: 0 <= i < j < |keys| ==>
          keys[i].agent < keys[j].agent || (keys[i].agent == keys[j].agent && keys[i].worker < keys[j].worker))
    && (forall key :: Payloads(rs, key) != [] <==> key in keys)
    && (forall i :: 0 <= i < |keys| ==> ReplaysWorker(workers[i], rs, keys[i]))
  }

  lemma {:induction false} FirstSurvives(rs: seq<Record>, key: Key, first: nat)
    requires IsFirst(Lines(rs), key, first)
    ensures FirstRecord(rs, key, first)
  {
    hide LineOf;
    var lines := Lines(rs);
    forall i | 0 <= i < |rs| ensures lines[i].key == rs[i].key && lines[i].time == rs[i].time {
      LineSurvives(rs[i]);
    }
    var i :| 0 <= i < |lines| && lines[i].key == key && lines[i].time == first;
    assert rs[i].key == key;
  }

  lemma {:induction false} ScriptKey(kept: seq<Entry>, lines: seq<Line>, keys: seq<Key>, key: Key)
    requires IsScript(kept, lines)
    requires |keys| == |kept| && forall i :: 0 <= i < |kept| ==> keys[i] == kept[i].key
    ensures FramesOf(lines, key) != [] <==> key in keys
  {
    hide FramesOf, IsFirst, Ordered;
    if FramesOf(lines, key) != [] {
      var i :| 0 <= i < |kept| && kept[i].key == key;
      assert keys[i] == key;
    }
    if key in keys {
      var i :| 0 <= i < |keys| && keys[i] == key;
      assert kept[i].key == key;
    }
  }

  /** A script of a recording's lines replays the recording. */
  lemma {:induction false} ScriptReplays(rs: seq<Record>, workers: seq<seq<ReplayFrame>>)
    requires IsReplay(workers, Lines(rs))
    ensures exists keys :: ReplaysRecording(workers, rs, keys)
  {
    hide FramesOf, Payloads, IsFirst, FirstRecord, ReplayOf, LineOf;
    var lines := Lines(rs);
    var kept: seq<Entry> :| IsScript(kept, lines) && Plays(workers, kept);
    var keys := seq(|kept|, i requires 0 <= i < |kept| => kept[i].key);
    forall i | 0 <= i < |keys| ensures ReplaysWorker(workers[i], rs, keys[i]) {
      FirstSurvives(rs, keys[i], kept[i].first);
      PayloadsSurvive(rs, keys[i]);
    }
    forall key ensures Payloads(rs, key) != [] <==> key in keys {
      PayloadsSurvive(rs, key);
      ScriptKey(kept, lines, keys, key);
    }
    assert ReplaysRecording(workers, rs, keys);
  }

  /** Capture, then replay: the lines of any recording are readable, and the
   *  script is empty only if no worker received data. */
  method CaptureThenReplay(rs: seq<Record>) returns (r: Outcome)
    ensures r.Script? ==> r.workers != [] && exists keys :: ReplaysRecording(r.workers, rs, keys)
    ensures r.Empty? <==> forall key :: Payloads(rs, key) == []
    ensures !r.BadBase64?
  {
    hide *;
    r := Parse(Lines(rs));
    RecordingIsReadable(rs);
    if r.BadBase64? {
      NotReadable(Lines(rs), r.line);
    }
    var workers := if r.Script? then r.workers else [];
    ScriptReplays(rs, workers);
    EmptyScript(rs, workers);
  }

  lemma {:induction false} RecordingIsReadable(rs: seq<Record>)
    ensures Readable(Lines(rs))
  {
    hide FrameOf, LineOf;
    forall i | 0 <= i < |rs| ensures FrameOf(Lines(rs)[i]) != Bad {
      LineSurvives(rs[i]);
    }
  }

  lemma {:induction false} NotReadable(lines: seq<Line>, i: nat)
    requires i < |lines| && FrameOf(lines[i]) == Bad
    ensures !Readable(lines)
  {
  }

  lemma {:induction false} EmptyScript(rs: seq<Record>, workers: seq<seq<ReplayFrame>>)
    requires exists keys :: ReplaysRecording(workers, rs, keys)
    ensures workers == [] <==> forall key :: Payloads(rs, key) == []
  {
    hide Payloads, ReplaysWorker;
    var keys :| ReplaysRecording(workers, rs, keys);
    if workers != [] {
      assert keys[0] in keys;
      assert Payloads(rs, keys[0]) != [];
    } else {
      forall key ensures Payloads(rs, key) == [] {
        assert key !in keys;
      }
    }
  }
}
