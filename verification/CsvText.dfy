/**
 * Which texts the CSV reader accepts, and what it finds in them: a printer of documents, with
 * every choice the format leaves; the reader finds exactly what was printed; and every text it
 * accepts is one that the printer can print.
 */
module CsvText {
  import opened Common
  import opened Csv

  // -------------------------------------------------------------------
  // The printer
  // -------------------------------------------------------------------

  /** A field: a part in quotes, if there is one, and a part without. */
  datatype Field = Field(quoted: Option<string>, tail: string)

  function Value(f: Field): string { if f.quoted.Some? then f.quoted.value + f.tail else f.tail }

  /** What may stand outside quotes. */
  predicate Bare(t: string) { forall i :: 0 <= i < |t| ==> t[i] != ',' && t[i] != '\"' && t[i] != '\n' }

  /** A character in quotes: a quote is written twice. */
  function Escaped(c: char): string { if c == '\"' then ['\"', '\"'] else [c] }

  function Doubled(f: string): string
  {
    if f == [] then [] else Escaped(f[0]) + Doubled(f[1..])
  }

  function PrintField(f: Field): string
  {
    if f.quoted.None? then f.tail else ['\"'] + (Doubled(f.quoted.value) + (['\"'] + f.tail))
  }

  function Eol(crlf: bool): string { if crlf then ['\r', '\n'] else ['\n'] }

  /** One record of a document: its fields, how its line ends, and the blank lines after it. */
  datatype Line = Line(fields: seq<Field>, crlf: bool, blanks: seq<bool>)

  /** A line has a field, and is not blank: a single empty value needs its quotes. */
  predicate LineOk(l: Line)
  {
    && |l.fields| > 0
    && (forall i :: 0 <= i < |l.fields| ==> Bare(l.fields[i].tail))
    && !(|l.fields| == 1 && l.fields[0] == Field(None, ""))
  }

  predicate EndsInCr(t: string) { t != [] && t[|t| - 1] == '\r' }

  /** A return that ends the last field would be taken for part of a bare line feed. */
  predicate EolOk(l: Line)
    requires |l.fields| > 0
  {
    l.crlf || !EndsInCr(l.fields[|l.fields| - 1].tail)
  }

  /** A document: blank lines, then records; when `closed` is false the last record has no line
   *  break after it. */
  datatype Doc = Doc(lead: seq<bool>, lines: seq<Line>, closed: bool)

  ghost predicate LinesOk(lines: seq<Line>, closed: bool)
  {
    forall i :: 0 <= i < |lines| ==> LineOk(lines[i]) && (closed || i < |lines| - 1 ==> EolOk(lines[i]))
  }

  ghost predicate DocOk(d: Doc) { LinesOk(d.lines, d.closed) }

  function PrintFields(fs: seq<Field>): string
  {
    if fs == [] then []
    else if |fs| == 1 then PrintField(fs[0])
    else PrintField(fs[0]) + ([','] + PrintFields(fs[1..]))
  }

  function PrintBlanks(blanks: seq<bool>): string
  {
    if blanks == [] then [] else Eol(blanks[0]) + PrintBlanks(blanks[1..])
  }

  function PrintLines(lines: seq<Line>, closed: bool): string
    decreases |lines|
  {
    if lines == [] then []
    else if |lines| == 1 && !closed then PrintFields(lines[0].fields)
    else
      PrintFields(lines[0].fields)
      + (Eol(lines[0].crlf) + (PrintBlanks(lines[0].blanks) + PrintLines(lines[1..], closed)))
  }

  function Print(d: Doc): string { PrintBlanks(d.lead) + PrintLines(d.lines, d.closed) }

  function NewlinesIn(fs: seq<Field>): nat
  {
    if fs == [] then 0
    else (if fs[0].quoted.Some? then Newlines(fs[0].quoted.value) else 0) + NewlinesIn(fs[1..])
  }

  function ValuesOf(fs: seq<Field>): (r: seq<string>)
    ensures |r| == |fs| && forall i :: 0 <= i < |fs| ==> r[i] == Value(fs[i])
  {
    seq(|fs|, i requires 0 <= i < |fs| => Value(fs[i]))
  }

  /** The records of a document whose first line is line `line`, each with the line it ends on. */
  function RowsOf(lines: seq<Line>, line: nat): seq<Row>
  {
    if lines == [] then []
    else
      var last := line + NewlinesIn(lines[0].fields);
      [Row(last, ValuesOf(lines[0].fields))] + RowsOf(lines[1..], last + 1 + |lines[0].blanks|)
  }

  // -------------------------------------------------------------------
  // The machine reads what the printer wrote
  // -------------------------------------------------------------------

  /** Between two fields. */
  predicate Fresh(st: State) { !st.quoted && !st.started && st.field == [] }

  lemma {:induction false} ScanChar(st: State, c: char, rest: string)
    requires !st.quoted && c != ',' && c != '\"' && c != '\n' && (c == '\r' ==> rest == [] || rest[0] != '\n')
    ensures Scan(st, [c] + rest) == Scan(st.(field := st.field + [c], started := true), rest)
  {
    assert ([c] + rest)[1..] == rest;
  }

  lemma {:induction false} ScanBare(st: State, t: string, rest: string)
    requires !st.quoted && Bare(t) && (EndsInCr(t) ==> rest == [] || rest[0] != '\n')
    ensures Scan(st, t + rest) == Scan(st.(field := st.field + t, started := st.started || t != []), rest)
    decreases |t|
  {
    hide Scan;
    if t == [] {
      assert t + rest == rest && st.field + t == st.field;
    } else {
      assert t + rest == [t[0]] + (t[1..] + rest);
      ScanChar(st, t[0], t[1..] + rest);
      ScanBare(st.(field := st.field + [t[0]], started := true), t[1..], rest);
      FieldMore(st.field, t);
    }
  }

  lemma {:induction false} FieldMore(field: string, f: string)
    requires f != []
    ensures field + [f[0]] + f[1..] == field + f
  {
  }

  /** The state after one character of a quoted field. */
  function AfterQuoted(st: State, c: char): State
  {
    st.(field := st.field + [c], line := st.line + (if c == '\n' then 1 else 0))
  }

  lemma {:induction false} ScanQuotedOne(st: State, c: char, rest: string)
    requires st.quoted
    ensures Scan(st, Escaped(c) + rest) == Scan(AfterQuoted(st, c), rest)
  {
    if c == '\"' {
      assert (['\"', '\"'] + rest)[2..] == rest;
    } else {
      assert ([c] + rest)[1..] == rest;
    }
  }

  lemma {:induction false} ScanClosing(st: State, rest: string)
    requires st.quoted && (rest == [] || rest[0] != '\"')
    ensures Scan(st, ['\"'] + rest) == Scan(st.(quoted := false), rest)
  {
    assert (['\"'] + rest)[1..] == rest;
  }

  lemma {:induction false} ScanQuoted(st: State, f: string, rest: string)
    requires st.quoted && (rest == [] || rest[0] != '\"')
    ensures Scan(st, Doubled(f) + (['\"'] + rest))
         == Scan(st.(field := st.field + f, quoted := false, line := st.line + Newlines(f)), rest)
    decreases |f|
  {
    hide Scan;
    var tail := ['\"'] + rest;
    if f == [] {
      ScanClosing(st, rest);
      assert Doubled(f) + tail == tail && st.field + f == st.field;
    } else {
      var first, more := Escaped(f[0]), Doubled(f[1..]) + tail;
      FieldMore(st.field, f);
      Assoc(first, Doubled(f[1..]), tail);
      ScanQuotedOne(st, f[0], more);
      ScanQuoted(AfterQuoted(st, f[0]), f[1..], rest);
    }
  }

  /** The state after a field, before what follows it. */
  function AfterField(st: State, f: Field): State
  {
    st.(field := Value(f), started := f.quoted.Some? || f.tail != [],
        line := st.line + (if f.quoted.Some? then Newlines(f.quoted.value) else 0))
  }

  lemma {:induction false} ScanOpening(st: State, rest: string)
    requires Fresh(st)
    ensures Scan(st, ['\"'] + rest) == Scan(st.(quoted := true, started := true), rest)
  {
    assert (['\"'] + rest)[1..] == rest;
  }

  /** A comma, a line end or the end of the text may follow a field. */
  predicate Follows(f: Field, rest: string)
  {
    && (rest == [] || rest[0] != '\"')
    && (EndsInCr(f.tail) ==> rest == [] || rest[0] != '\n')
  }

  lemma {:induction false} ScanField(st: State, f: Field, rest: string)
    requires Fresh(st) && Bare(f.tail) && Follows(f, rest)
    ensures Scan(st, PrintField(f) + rest) == Scan(AfterField(st, f), rest)
  {
    hide Scan, Doubled, Newlines;
    if f.quoted.None? {
      ScanBare(st, f.tail, rest);
      assert [] + f.tail == f.tail;
    } else {
      var q, more := f.quoted.value, f.tail + rest;
      assert PrintField(f) + rest == ['\"'] + (Doubled(q) + (['\"'] + more));
      ScanOpening(st, Doubled(q) + (['\"'] + more));
      assert more == [] || more[0] != '\"';
      ScanQuoted(st.(quoted := true, started := true), q, more);
      assert [] + q == q;
      ScanBare(st.(quoted := false, started := true, field := q, line := st.line + Newlines(q)), f.tail, rest);
    }
  }

  /** The state after the fields of one line, before its line break. */
  function AfterFields(st: State, fs: seq<Field>): State
    requires |fs| > 0
  {
    var n := |fs| - 1;
    st.(record := st.record + ValuesOf(fs)[..n], field := Value(fs[n]),
        started := fs[n].quoted.Some? || fs[n].tail != [], line := st.line + NewlinesIn(fs))
  }

  /** The state after a comma that ends a field. */
  function AfterComma(st: State): State
  {
    st.(record := st.record + [st.field], field := "", started := false)
  }

  lemma {:induction false} ScanComma(st: State, rest: string)
    requires !st.quoted
    ensures Scan(st, [','] + rest) == Scan(AfterComma(st), rest)
  {
    assert ([','] + rest)[1..] == rest;
  }

  lemma {:induction false} ScanFields(st: State, fs: seq<Field>, rest: string)
    requires |fs| > 0 && Fresh(st) && Follows(fs[|fs| - 1], rest)
    requires forall i :: 0 <= i < |fs| ==> Bare(fs[i].tail)
    ensures Scan(st, PrintFields(fs) + rest) == Scan(AfterFields(st, fs), rest)
    decreases |fs|
  {
    hide Scan, PrintField, Bare, AfterField, AfterFields, AfterComma;
    if |fs| == 1 {
      ScanField(st, fs[0], rest);
      OneField(st, fs);
    } else {
      var first, others := PrintField(fs[0]), PrintFields(fs[1..]);
      var more := others + rest;
      Assoc(first, [','] + others, rest);
      Assoc([','], others, rest);
      ScanField(st, fs[0], [','] + more);
      MoreFields(st, fs);
      ScanComma(AfterField(st, fs[0]), more);
      ScanFields(AfterComma(AfterField(st, fs[0])), fs[1..], rest);
    }
  }

  lemma {:induction false} OneField(st: State, fs: seq<Field>)
    requires |fs| == 1
    ensures AfterFields(st, fs) == AfterField(st, fs[0])
  {
    hide Newlines;
    assert st.record + ValuesOf(fs)[..0] == st.record && NewlinesIn(fs[1..]) == 0;
  }

  /** A field and a comma, then the other fields. */
  lemma {:induction false} MoreFields(st: State, fs: seq<Field>)
    requires 1 < |fs| && Fresh(st)
    ensures var next := AfterComma(AfterField(st, fs[0]));
      && Fresh(next) && !AfterField(st, fs[0]).quoted
      && AfterFields(next, fs[1..]) == AfterFields(st, fs)
  {
    hide Newlines, Value;
    assert ValuesOf(fs)[..|fs| - 1] == [Value(fs[0])] + ValuesOf(fs[1..])[..|fs| - 2];
    Assoc(st.record, [Value(fs[0])], ValuesOf(fs[1..])[..|fs| - 2]);
  }

  lemma {:induction false} ScanEol(st: State, crlf: bool, rest: string)
    requires !st.quoted
    ensures Scan(st, Eol(crlf) + rest) == Scan(Ended(st), rest)
  {
    var s := ['\n'] + rest;
    assert s[0] == '\n' && s[1..] == rest;
    assert Scan(st, s) == Scan(Ended(st), rest);
    if crlf {
      var t := Eol(crlf) + rest;
      assert t[0] == '\r' && t[1..] == s && t != [];
      assert Outside(st, '\r', s) == st;
    }
  }

  lemma {:induction false} ScanBlanks(st: State, blanks: seq<bool>, rest: string)
    requires Fresh(st) && st.record == []
    ensures Scan(st, PrintBlanks(blanks) + rest) == Scan(st.(line := st.line + |blanks|), rest)
    decreases |blanks|
  {
    hide Scan, Eol;
    if blanks == [] {
      assert PrintBlanks(blanks) + rest == rest;
    } else {
      var more := PrintBlanks(blanks[1..]) + rest;
      assert PrintBlanks(blanks) + rest == Eol(blanks[0]) + more;
      ScanEol(st, blanks[0], more);
      assert Ended(st) == st.(line := st.line + 1);
      ScanBlanks(st.(line := st.line + 1), blanks[1..], rest);
    }
  }

  /** A line's fields make a record: the state after the line break. */
  lemma {:induction false} EndedRecord(st: State, l: Line)
    requires LineOk(l) && Fresh(st) && st.record == []
    ensures var after := AfterFields(st, l.fields);
            var row := Row(st.line + NewlinesIn(l.fields), ValuesOf(l.fields));
            && !after.quoted
            && Ended(after) == st.(records := st.records + [row], line := row.line + 1)
            && Finish(after) == Ok(st.records + [row])
  {
    hide NewlinesIn, Bare;
    var n := |l.fields| - 1;
    var after := AfterFields(st, l.fields);
    AllValues(l.fields);
    assert after.record == ValuesOf(l.fields)[..n];
    assert Pending(after) by {
      if n > 0 { assert |after.record| == n; }
    }
    hide ValuesOf, Value;
  }

  lemma {:induction false} AllValues(fs: seq<Field>)
    requires fs != []
    ensures ValuesOf(fs)[..|fs| - 1] + [Value(fs[|fs| - 1])] == ValuesOf(fs)
  {
    hide Value;
  }

  lemma {:induction false} EolFollows(l: Line, rest: string)
    requires LineOk(l) && EolOk(l)
    ensures Follows(l.fields[|l.fields| - 1], Eol(l.crlf) + rest)
  {
  }

  lemma {:induction false} ScanLine(st: State, l: Line, rest: string)
    requires LineOk(l) && EolOk(l) && Fresh(st) && st.record == []
    ensures Scan(st, PrintFields(l.fields) + (Eol(l.crlf) + (PrintBlanks(l.blanks) + rest)))
         == Scan(st.(records := st.records + [Row(st.line + NewlinesIn(l.fields), ValuesOf(l.fields))],
                     line := st.line + NewlinesIn(l.fields) + 1 + |l.blanks|), rest)
  {
    hide Scan, PrintFields, PrintBlanks, AfterFields, Ended, Finish, Eol, Follows, EolOk;
    var more := PrintBlanks(l.blanks) + rest;
    EolFollows(l, more);
    ScanFields(st, l.fields, Eol(l.crlf) + more);
    EndedRecord(st, l);
    ScanEol(AfterFields(st, l.fields), l.crlf, more);
    ScanBlanks(Ended(AfterFields(st, l.fields)), l.blanks, rest);
  }

  /** What scanning and finishing give together. */
  function Records(st: State, s: string): Result<seq<Row>>
  {
    var scanned := Scan(st, s);
    if scanned.Err? then Err(scanned.error) else Finish(scanned.value)
  }

  lemma {:induction false} ScanLines(st: State, lines: seq<Line>, closed: bool)
    requires LinesOk(lines, closed) && Fresh(st) && st.record == []
    ensures Records(st, PrintLines(lines, closed)) == Ok(st.records + RowsOf(lines, st.line))
    decreases |lines|
  {
    hide *;
    if lines == [] {
      NoLines(st.line, closed);
      ScanNothing(st);
      assert st.records + [] == st.records;
    } else {
      var l := lines[0];
      LinesTail(lines, closed);
      RowsCons(lines, st.line);
      var row := Row(st.line + NewlinesIn(l.fields), ValuesOf(l.fields));
      var next := st.(records := st.records + [row], line := row.line + 1 + |l.blanks|);
      if |lines| == 1 && !closed {
        LastLine(lines);
        ScanLast(st, l);
        NoLines(next.line, closed);
        assert lines[1..] == [] && [row] + [] == [row];
      } else {
        var tail := PrintLines(lines[1..], closed);
        LinesCons(lines, closed);
        ScanLine(st, l, tail);
        SameRecords(st, next, PrintLines(lines, closed), tail);
        FreshNext(st, next);
        ScanLines(next, lines[1..], closed);
        Assoc(st.records, [row], RowsOf(lines[1..], next.line));
      }
    }
  }

  lemma {:induction false} NoLines(line: nat, closed: bool)
    ensures RowsOf([], line) == [] && PrintLines([], closed) == []
  {
  }

  lemma {:induction false} RowsCons(lines: seq<Line>, line: nat)
    requires lines != []
    ensures var last := line + NewlinesIn(lines[0].fields);
            RowsOf(lines, line) == [Row(last, ValuesOf(lines[0].fields))] + RowsOf(lines[1..], last + 1 + |lines[0].blanks|)
  {
  }

  lemma {:induction false} LastLine(lines: seq<Line>)
    requires |lines| == 1
    ensures PrintLines(lines, false) == PrintFields(lines[0].fields)
  {
  }

  lemma {:induction false} LinesCons(lines: seq<Line>, closed: bool)
    requires lines != [] && (|lines| > 1 || closed)
    ensures PrintLines(lines, closed) ==
      PrintFields(lines[0].fields) + (Eol(lines[0].crlf) + (PrintBlanks(lines[0].blanks) + PrintLines(lines[1..], closed)))
  {
  }

  lemma {:induction false} FreshNext(st: State, next: State)
    requires Fresh(st) && next == st.(records := next.records, line := next.line)
    ensures Fresh(next)
  {
  }

  lemma {:induction false} SameRecords(st: State, next: State, s: string, t: string)
    requires Scan(st, s) == Scan(next, t)
    ensures Records(st, s) == Records(next, t)
  {
    hide Scan, Finish;
  }

  lemma {:induction false} LinesTail(lines: seq<Line>, closed: bool)
    requires LinesOk(lines, closed) && lines != []
    ensures LineOk(lines[0]) && LinesOk(lines[1..], closed)
    ensures |lines| > 1 || closed ==> EolOk(lines[0])
  {
    forall i | 0 <= i < |lines| - 1
      ensures LineOk(lines[1..][i]) && (closed || i < |lines| - 2 ==> EolOk(lines[1..][i]))
    {
      assert lines[1..][i] == lines[i + 1];
    }
  }

  lemma {:induction false} ScanNothing(st: State)
    requires Fresh(st) && st.record == []
    ensures Records(st, []) == Ok(st.records)
  {
  }

  lemma {:induction false} ScanLast(st: State, l: Line)
    requires LineOk(l) && Fresh(st) && st.record == []
    ensures Records(st, PrintFields(l.fields))
         == Ok(st.records + [Row(st.line + NewlinesIn(l.fields), ValuesOf(l.fields))])
  {
    hide PrintFields, AfterFields, Finish;
    var printed := PrintFields(l.fields);
    assert printed + [] == printed;
    ScanFields(st, l.fields, []);
    EndedRecord(st, l);
  }

  /** However a list of records is printed, the reader finds exactly those records, each with the
   *  number of the line it ends on; what it returns is settled by the column and width checks
   *  alone. */
  lemma {:induction false} ReadsPrinted(d: Doc)
    requires DocOk(d)
    ensures Records(Start, Print(d)) == Ok(RowsOf(d.lines, 1 + |d.lead|))
    ensures Parsed(Print(d)) == Build(RowsOf(d.lines, 1 + |d.lead|))
  {
    hide Scan, PrintBlanks, PrintLines, RowsOf, Finish, Build;
    ScanBlanks(Start, d.lead, PrintLines(d.lines, d.closed));
    var st := Start.(line := 1 + |d.lead|);
    ScanLines(st, d.lines, d.closed);
    assert st.records + RowsOf(d.lines, st.line) == RowsOf(d.lines, st.line);
  }

  /** The round trip: a document is read back exactly, whatever its line ends, blank lines and
   *  quoting, if and only if its records form a table. */
  lemma {:induction false} RoundTrip(d: Doc)
    requires DocOk(d) && |d.lines| > 0
    ensures var r := Parsed(Print(d));
            var rows := seq(|d.lines| - 1, i requires 0 <= i < |d.lines| - 1 => ValuesOf(d.lines[i + 1].fields));
            && (r.Ok? <==> IsTable(ValuesOf(d.lines[0].fields), rows))
            && (r.Ok? ==> r.value == Table(ValuesOf(d.lines[0].fields), rows))
  {
    hide Parsed, Records, Print, LineOk, RowsOf, Build, IsTable, ValuesOf;
    ReadsPrinted(d);
    RowsOfValues(d.lines, 1 + |d.lead|);
    var records := RowsOf(d.lines, 1 + |d.lead|);
    var rows := seq(|d.lines| - 1, i requires 0 <= i < |d.lines| - 1 => ValuesOf(d.lines[i + 1].fields));
    BuildExact(records);
    assert forall i :: 0 <= i < |rows| ==> records[i + 1].values == rows[i];
    assert Values(records[1..]) == rows;
  }

  lemma {:induction false} RowsOfValues(lines: seq<Line>, line: nat)
    ensures var r := RowsOf(lines, line);
            |r| == |lines| && forall i :: 0 <= i < |r| ==> r[i].values == ValuesOf(lines[i].fields)
  {
    if lines != [] {
      RowsOfValues(lines[1..], line + NewlinesIn(lines[0].fields) + 1 + |lines[0].blanks|);
    }
  }
}
