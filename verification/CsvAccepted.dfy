/**
 * The converse of reading what was printed: every text whose quotes the reader accepts is the
 * printed form of some document. So the reader accepts exactly the printable texts.
 */
module CsvAccepted {
  import opened Common
  import opened Csv
  import opened CsvText

  /** What ends a record: the text, or a line break and the rest of the document. */
  datatype Ending = AtEnd | Break(crlf: bool, doc: Doc)

  /** What is left of a text inside a record: the field the reader is in, the fields after it on
   *  the line, and what ends the record. */
  datatype Rest = Rest(first: Field, more: seq<Field>, end: Ending)

  function PrintEnd(e: Ending): string
  {
    if e.AtEnd? then [] else Eol(e.crlf) + Print(e.doc)
  }

  function PrintMore(more: seq<Field>, e: Ending): string
  {
    if more == [] then PrintEnd(e) else [','] + (PrintField(more[0]) + PrintMore(more[1..], e))
  }

  /** The rest, as the reader sees it from a field not begun, from inside quotes, or from behind
   *  the first character outside them. */
  function PrintRest(st: State, r: Rest): string
  {
    if st.quoted then
      (if r.first.quoted.Some? then Doubled(r.first.quoted.value) else []) + (['\"'] + (r.first.tail + PrintMore(r.more, r.end)))
    else if st.started then r.first.tail + PrintMore(r.more, r.end)
    else PrintField(r.first) + PrintMore(r.more, r.end)
  }

  function LastOf(r: Rest): Field { if r.more == [] then r.first else r.more[|r.more| - 1] }

  ghost predicate RestOk(st: State, r: Rest)
  {
    && Bare(r.first.tail) && (forall i :: 0 <= i < |r.more| ==> Bare(r.more[i].tail))
    && (st.quoted ==> r.first.quoted.Some?)
    && (!st.quoted && st.started ==> r.first.quoted.None?)
    && (r.end.Break? ==> DocOk(r.end.doc) && (r.end.crlf || !EndsInCr(LastOf(r).tail)))
  }

  /** The states the reader can be in: a field that has characters has begun. */
  predicate Sane(st: State)
  {
    (st.quoted ==> st.started) && (st.field != [] ==> st.started)
  }

  /** The reader gets through, and is not left inside quotes. */
  predicate Accepted(st: State, s: string)
  {
    var r := Scan(st, s); r.Ok? && !r.value.quoted
  }

  /** A line break comes next. */
  predicate AtBreak(s: string)
  {
    s != [] && (s[0] == '\n' || (|s| > 1 && s[0] == '\r' && s[1] == '\n'))
  }

  /** Nothing of the record is left, or nothing of it has come yet. */
  predicate AtLineStart(st: State) { Fresh(st) && st.record == [] }

  // -------------------------------------------------------------------
  // One step of the reader, explained
  // -------------------------------------------------------------------

  lemma {:induction false} BreakPrinted(st: State, crlf: bool, doc: Doc)
    requires !st.quoted && DocOk(doc)
    ensures var r := Rest(Field(None, ""), [], Break(crlf, doc));
            RestOk(st, r) && PrintRest(st, r) == Eol(crlf) + Print(doc)
  {
    var rest := Eol(crlf) + Print(doc);
    assert [] + rest == rest;
    hide Print, DocOk;
  }

  /** One more character outside quotes. */
  lemma {:induction false} CharPrinted(st: State, c: char, next: State, r: Rest) returns (longer: Rest)
    requires !st.quoted && !next.quoted && next.started && RestOk(next, r)
    requires c != ',' && c != '\"' && c != '\n'
    requires c == '\r' ==> PrintRest(next, r) == [] || PrintRest(next, r)[0] != '\n'
    ensures RestOk(st, longer) && PrintRest(st, longer) == [c] + PrintRest(next, r)
  {
    longer := r.(first := Field(None, [c] + r.first.tail));
    hide PrintMore, Print, DocOk, EndsInCr;
    var tail := [c] + r.first.tail;
    NoBareReturn(c, next, r);
    assert Bare(tail) by { BareMore(c, r.first.tail); }
    Assoc([c], r.first.tail, PrintMore(r.more, r.end));
    hide Bare;
  }

  lemma {:induction false} BareMore(c: char, t: string)
    requires Bare(t) && c != ',' && c != '\"' && c != '\n'
    ensures Bare([c] + t)
  {
  }

  /** A return before a bare line feed would not have been a character of the field. */
  lemma {:induction false} NoBareReturn(c: char, next: State, r: Rest)
    requires !next.quoted && next.started && RestOk(next, r)
    requires c == '\r' ==> PrintRest(next, r) == [] || PrintRest(next, r)[0] != '\n'
    ensures r.end.Break? && !r.end.crlf ==>
      !EndsInCr(if r.more == [] then [c] + r.first.tail else r.more[|r.more| - 1].tail)
  {
    hide DocOk, Bare;
    if r.end.Break? && !r.end.crlf && r.more == [] {
      if r.first.tail == [] {
        var text := PrintMore(r.more, r.end);
        assert text == ['\n'] + Print(r.end.doc);
        assert r.first.tail + text == text;
      } else {
        var tail := [c] + r.first.tail;
        assert tail[|tail| - 1] == r.first.tail[|r.first.tail| - 1];
      }
    }
  }

  lemma {:induction false} CommaPrinted(st: State, next: State, r: Rest) returns (longer: Rest)
    requires !st.quoted && Fresh(next) && RestOk(next, r)
    ensures RestOk(st, longer) && PrintRest(st, longer) == [','] + PrintRest(next, r)
  {
    longer := Rest(Field(None, ""), [r.first] + r.more, r.end);
    assert longer.more[1..] == r.more && LastOf(longer) == LastOf(r);
    var text := PrintMore(longer.more, r.end);
    assert text == [','] + (PrintField(r.first) + PrintMore(r.more, r.end));
    assert [] + text == text;
    hide DocOk, PrintMore;
  }

  lemma {:induction false} QuotedPrinted(st: State, c: char, next: State, r: Rest) returns (longer: Rest)
    requires st.quoted && next.quoted && RestOk(next, r)
    ensures RestOk(st, longer) && PrintRest(st, longer) == Escaped(c) + PrintRest(next, r)
  {
    longer := r.(first := Field(Some([c] + r.first.quoted.value), r.first.tail));
    var q := [c] + r.first.quoted.value;
    assert q[1..] == r.first.quoted.value;
    var more := ['\"'] + (r.first.tail + PrintMore(r.more, r.end));
    Assoc(Escaped(c), Doubled(r.first.quoted.value), more);
    hide PrintMore, DocOk;
  }

  lemma {:induction false} ClosingPrinted(st: State, next: State, r: Rest) returns (longer: Rest)
    requires st.quoted && !next.quoted && next.started && RestOk(next, r)
    ensures RestOk(st, longer) && PrintRest(st, longer) == ['\"'] + PrintRest(next, r)
  {
    longer := r.(first := Field(Some(""), r.first.tail));
    var text := ['\"'] + (r.first.tail + PrintMore(r.more, r.end));
    assert [] + text == text;
    hide PrintMore, DocOk;
  }

  lemma {:induction false} OpeningPrinted(st: State, next: State, r: Rest)
    requires Fresh(st) && next.quoted && RestOk(next, r)
    ensures RestOk(st, r) && PrintRest(st, r) == ['\"'] + PrintRest(next, r)
  {
    var q, tail, more := Doubled(r.first.quoted.value), r.first.tail, PrintMore(r.more, r.end);
    assert (['\"'] + (q + (['\"'] + tail))) + more == ['\"'] + (q + (['\"'] + (tail + more)));
    hide PrintMore, DocOk, Doubled;
  }

  // -------------------------------------------------------------------
  // A record that has begun, as a line of the document
  // -------------------------------------------------------------------

  lemma {:induction false} FieldsPrinted(first: Field, more: seq<Field>, e: Ending)
    ensures PrintField(first) + PrintMore(more, e) == PrintFields([first] + more) + PrintEnd(e)
    decreases |more|
  {
    var fs := [first] + more;
    assert fs[1..] == more;
    if more != [] {
      FieldsPrinted(more[0], more[1..], e);
      assert [more[0]] + more[1..] == more;
      Assoc(PrintField(first), [','] + PrintFields(more), PrintEnd(e));
      Assoc([','], PrintFields(more), PrintEnd(e));
    }
  }

  /** The document that a rest, from the start of a line on, makes. */
  function DocOf(r: Rest): Doc
  {
    var fields := [r.first] + r.more;
    if r.end.AtEnd? then Doc([], [Line(fields, false, [])], false)
    else Doc([], [Line(fields, r.end.crlf, r.end.doc.lead)] + r.end.doc.lines, r.end.doc.closed || r.end.doc.lines == [])
  }

  lemma {:induction false} DocPrinted(st: State, r: Rest)
    requires AtLineStart(st) && RestOk(st, r)
    requires PrintRest(st, r) != [] && !AtBreak(PrintRest(st, r))
    ensures DocOk(DocOf(r)) && Print(DocOf(r)) == PrintRest(st, r)
  {
    FieldsPrinted(r.first, r.more, r.end);
    BlankRest(st, r);
    DocLines(st, r);
    var d := DocOf(r);
    var fields := [r.first] + r.more;
    assert PrintRest(st, r) == PrintFields(fields) + PrintEnd(r.end);
    hide PrintField, PrintMore, PrintRest, RestOk, DocOk;
    if r.end.AtEnd? {
      assert PrintFields(fields) + [] == PrintFields(fields);
    } else {
      var lines, closed := d.lines, d.closed;
      assert lines[1..] == r.end.doc.lines;
      LinesCons(lines, closed);
      SameTail(r.end.doc);
    }
    assert [] + PrintLines(d.lines, d.closed) == PrintLines(d.lines, d.closed);
  }

  /** Whether the last of no lines is closed makes no difference. */
  lemma {:induction false} SameTail(d: Doc)
    ensures PrintLines(d.lines, d.closed || d.lines == []) == PrintLines(d.lines, d.closed)
  {
  }

  /** A single bare empty field is no record: what is left then is nothing, or a line break. */
  lemma {:induction false} BlankRest(st: State, r: Rest)
    requires AtLineStart(st)
    ensures r.more == [] && r.first == Field(None, "") ==> PrintRest(st, r) == [] || AtBreak(PrintRest(st, r))
  {
    if r.more == [] && r.first == Field(None, "") {
      var text := PrintEnd(r.end);
      assert [] + text == text;
    }
  }

  lemma {:induction false} DocLines(st: State, r: Rest)
    requires AtLineStart(st) && RestOk(st, r) && !(r.more == [] && r.first == Field(None, ""))
    ensures DocOk(DocOf(r))
  {
    var fields := [r.first] + r.more;
    forall i | 0 <= i < |fields| ensures Bare(fields[i].tail) {
      if i > 0 { assert fields[i] == r.more[i - 1]; }
    }
    assert fields[|fields| - 1] == LastOf(r);
    var d := DocOf(r);
    assert LineOk(d.lines[0]);
    if r.end.Break? {
      var later := r.end.doc;
      forall i | 0 <= i < |d.lines|
        ensures LineOk(d.lines[i]) && (d.closed || i < |d.lines| - 1 ==> EolOk(d.lines[i]))
      {
        if i > 0 { assert d.lines[i] == later.lines[i - 1]; }
      }
    }
  }

  // -------------------------------------------------------------------
  // Every accepted text, explained
  // -------------------------------------------------------------------

  /** What one step of the reader does, and that the rest is still accepted. */
  lemma {:induction false} StepAccepted(st: State, s: string)
    requires Sane(st) && Accepted(st, s) && s != []
    ensures st.quoted && s[0] == '\"' && |s| > 1 && s[1] == '\"' ==>
      Sane(AfterQuoted(st, '\"')) && Accepted(AfterQuoted(st, '\"'), s[2..])
    ensures st.quoted && !(s[0] == '\"' && |s| > 1 && s[1] == '\"') ==>
      Sane(Inside(st, s[0])) && Accepted(Inside(st, s[0]), s[1..])
    ensures !st.quoted ==>
      && (s[0] == '\"' ==> !st.started)
      && Sane(Outside(st, s[0], s[1..])) && Accepted(Outside(st, s[0], s[1..]), s[1..])
  {
  }

  /** The end of a line, as one step: what comes after it is accepted from a new line on. */
  lemma {:induction false} BreakAccepted(st: State, s: string) returns (crlf: bool, after: string)
    requires Sane(st) && !st.quoted && Accepted(st, s) && AtBreak(s)
    ensures s == Eol(crlf) + after && |after| < |s| && Accepted(Ended(st), after) && Sane(Ended(st))
    ensures AtLineStart(Ended(st)) && (AtLineStart(st) ==> Ended(st) == st.(line := st.line + 1))
  {
    StepAccepted(st, s);
    if s[0] == '\n' {
      crlf, after := false, s[1..];
    } else {
      assert Outside(st, s[0], s[1..]) == st;
      StepAccepted(st, s[1..]);
      crlf, after := true, s[2..];
      assert s[1..][1..] == s[2..];
    }
    assert s == Eol(crlf) + after;
    hide Scan;
  }

  /** Inside a record, an accepted text is the rest of one and of the document. */
  lemma {:induction false} Explain(st: State, s: string) returns (r: Rest)
    requires Sane(st) && Accepted(st, s)
    requires AtLineStart(st) ==> s != [] && !AtBreak(s)
    ensures RestOk(st, r) && PrintRest(st, r) == s
    decreases |s|, 0
  {
    hide Scan, Accepted, RestOk, PrintRest, Inside, Outside, Print, DocOk;
    if s == [] {
      r := NothingLeft(st, s);
    } else if st.quoted {
      StepAccepted(st, s);
      var c := s[0];
      if c == '\"' && |s| > 1 && s[1] == '\"' {
        r := Explain(AfterQuoted(st, c), s[2..]);
        r := QuotedPrinted(st, c, AfterQuoted(st, c), r);
        assert s == ['\"', '\"'] + s[2..];
      } else {
        InsideIs(st, c);
        r := Explain(Inside(st, c), s[1..]);
        if c == '\"' {
          r := ClosingPrinted(st, Inside(st, c), r);
        } else {
          r := QuotedPrinted(st, c, Inside(st, c), r);
        }
        assert s == [c] + s[1..];
      }
    } else if AtBreak(s) {
      var crlf, after := BreakAccepted(st, s);
      var d := ExplainDoc(Ended(st), after);
      BreakPrinted(st, crlf, d);
      r := Rest(Field(None, ""), [], Break(crlf, d));
    } else {
      StepAccepted(st, s);
      var c := s[0];
      var next := Outside(st, c, s[1..]);
      OutsideIs(st, c, s[1..]);
      r := Explain(next, s[1..]);
      if c == '\"' {
        OpeningPrinted(st, next, r);
      } else if c == ',' {
        r := CommaPrinted(st, next, r);
      } else {
        r := CharPrinted(st, c, next, r);
      }
      assert s == [c] + s[1..];
    }
  }

  /** From the start of a line on, an accepted text is a document. */
  lemma {:induction false} ExplainDoc(st: State, s: string) returns (d: Doc)
    requires Sane(st) && AtLineStart(st) && Accepted(st, s)
    ensures DocOk(d) && Print(d) == s
    decreases |s|, 1
  {
    hide Scan, Accepted, RestOk, PrintRest, Print, DocOk;
    if s == [] {
      d := Doc([], [], true);
      EmptyDoc(d);
    } else if AtBreak(s) {
      var crlf, after := BreakAccepted(st, s);
      d := ExplainDoc(Ended(st), after);
      d := MoreBlank(crlf, d);
    } else {
      var r := Explain(st, s);
      DocPrinted(st, r);
      d := DocOf(r);
    }
  }

  lemma {:induction false} NothingLeft(st: State, s: string) returns (r: Rest)
    requires Sane(st) && Accepted(st, s) && s == []
    ensures RestOk(st, r) && PrintRest(st, r) == s
  {
    r := Rest(Field(None, ""), [], AtEnd);
  }

  lemma {:induction false} InsideIs(st: State, c: char)
    requires st.quoted && st.started
    ensures var next := Inside(st, c);
            next.started && (next.quoted <==> c != '\"') && !AtLineStart(next)
    ensures c != '\"' ==> Escaped(c) == [c]
  {
  }

  lemma {:induction false} OutsideIs(st: State, c: char, rest: string)
    requires Sane(st) && !st.quoted && c != '\n' && !(c == '\r' && rest != [] && rest[0] == '\n') && (c == '\"' ==> !st.started)
    ensures var next := Outside(st, c, rest);
      && !AtLineStart(next)
      && (c == '\"' ==> next.quoted && Fresh(st))
      && (c == ',' ==> Fresh(next))
      && (c != '\"' && c != ',' ==> !next.quoted && next.started)
  {
  }

  lemma {:induction false} EmptyDoc(d: Doc)
    requires d.lead == [] && d.lines == []
    ensures DocOk(d) && Print(d) == []
  {
  }

  lemma {:induction false} MoreBlank(crlf: bool, d: Doc) returns (e: Doc)
    requires DocOk(d)
    ensures DocOk(e) && Print(e) == Eol(crlf) + Print(d)
  {
    e := d.(lead := [crlf] + d.lead);
    assert e.lead[1..] == d.lead;
    Assoc(Eol(crlf), PrintBlanks(d.lead), PrintLines(d.lines, d.closed));
  }

  /** The reader gets through a text if and only if it is the printed form of a document. What it
   *  finds is then what was printed, and otherwise it is a quote that it reports. */
  lemma {:induction false} AcceptedIsPrinted(text: string)
    ensures Records(Start, text).Ok? <==> exists d :: DocOk(d) && Print(d) == text
    ensures Records(Start, text).Err? ==>
      Parsed(text).Err? && (Parsed(text).error.StrayQuote? || Parsed(text).error.UnclosedQuote?)
  {
    hide Print, DocOk;
    if Records(Start, text).Ok? {
      assert Accepted(Start, text) && Sane(Start) && AtLineStart(Start);
      hide Scan, Records, Accepted;
      var d := ExplainDoc(Start, text);
    } else {
      ScanCountsLines(Start, text);
      hide Scan;
      forall d | DocOk(d) && Print(d) == text ensures false {
        ReadsPrinted(d);
      }
    }
  }
}
