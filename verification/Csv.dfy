/**
 * The CSV reader of `src/data.rs`: a character machine with one character of
 * lookahead, the column check and the width check.
 */
module Csv {
  datatype Result<+T> = Ok(value: T) | Err(error: Error)

  datatype Error =
    | StrayQuote(line: nat)
    | UnclosedQuote(line: nat)
    | NoHeader
    | NoName(column: nat)
    | Twice(name: string)
    | Width(line: nat, values: nat, columns: nat)

  /** A record and the line it ended on. */
  datatype Row = Row(line: nat, values: seq<string>)

  datatype Table = Table(columns: seq<string>, rows: seq<seq<string>>)

  // -------------------------------------------------------------------
  // The machine
  // -------------------------------------------------------------------

  /** The reader's variables between two characters. */
  datatype State = State(
    records: seq<Row>, record: seq<string>, field: string,
    quoted: bool, started: bool, line: nat)

  const Start := State([], [], "", false, false, 1)

  /** A line break inside a record exists, so the end of the line ends a record. */
  predicate Pending(st: State)
  {
    st.started || st.field != [] || st.record != []
  }

  /** The effect of a line break outside quotes. */
  function Ended(st: State): State
  {
    State(if Pending(st) then st.records + [Row(st.line, st.record + [st.field])] else st.records,
          if Pending(st) then [] else st.record, if Pending(st) then "" else st.field,
          st.quoted, false, st.line + 1)
  }

  /** One character inside quotes, a doubled quote aside. */
  function Inside(st: State, c: char): State
  {
    if c == '\"' then st.(quoted := false)
    else st.(field := st.field + [c], line := if c == '\n' then st.line + 1 else st.line)
  }

  /** One character outside quotes, a stray quote aside; `rest` is what follows it. */
  function Outside(st: State, c: char, rest: string): State
  {
    if c == '\"' then st.(quoted := true, started := true)
    else if c == ',' then st.(record := st.record + [st.field], field := "", started := false)
    else if c == '\r' && rest != [] && rest[0] == '\n' then st
    else if c == '\n' then Ended(st)
    else st.(field := st.field + [c], started := true)
  }

  /** The machine over the rest of a text. */
  function Scan(st: State, s: string): Result<State>
    decreases |s|
  {
    if s == [] then Ok(st)
    else if st.quoted && s[0] == '\"' && |s| > 1 && s[1] == '\"' then
      Scan(st.(field := st.field + ['\"']), s[2..])
    else if st.quoted then Scan(Inside(st, s[0]), s[1..])
    else if s[0] == '\"' && st.started then Err(StrayQuote(st.line))
    else Scan(Outside(st, s[0], s[1..]), s[1..])
  }

  /** The records, once the text has ended. */
  function Finish(st: State): Result<seq<Row>>
  {
    if st.quoted then Err(UnclosedQuote(st.line))
    else if Pending(st) then Ok(st.records + [Row(st.line, st.record + [st.field])])
    else Ok(st.records)
  }

  // -------------------------------------------------------------------
  // Columns and widths
  // -------------------------------------------------------------------

  /** Unicode's White_Space property, which `trim` removes. */
  predicate IsWhitespace(c: char)
  {
    var n := c as int;
    || 9 <= n <= 13 || n == 0x20 || n == 0x85 || n == 0xA0 || n == 0x1680
    || 0x2000 <= n <= 0x200A || n == 0x2028 || n == 0x2029 || n == 0x202F
    || n == 0x205F || n == 0x3000
  }

  /** The 25 characters of the property. */
  lemma {:induction false} WhitespaceIs(c: char)
    ensures IsWhitespace(c) <==> c as int in {
      0x09, 0x0A, 0x0B, 0x0C, 0x0D, 0x20, 0x85, 0xA0, 0x1680, 0x2000, 0x2001, 0x2002, 0x2003, 0x2004, 0x2005, 0x2006,
      0x2007, 0x2008, 0x2009, 0x200A, 0x2028, 0x2029, 0x202F, 0x205F, 0x3000}
  {
  }

  predicate Blank(s: string)
  {
    forall i :: 0 <= i < |s| ==> IsWhitespace(s[i])
  }

  /** Every column has a name, and no two have the same one. */
  ghost predicate ColumnsOk(columns: seq<string>)
  {
    && (forall i :: 0 <= i < |columns| ==> !Blank(columns[i]))
    && (forall i, j :: 0 <= i < j < |columns| ==> columns[i] != columns[j])
  }

  /** Column `k` is the first without a name, or with the name of an earlier one. */
  ghost predicate FirstBad(columns: seq<string>, k: nat, error: Error)
    requires k < |columns|
  {
    && ColumnsOk(columns[..k])
    && if Blank(columns[k]) then error == NoName(k + 1)
       else columns[k] in columns[..k] && error == Twice(columns[k])
  }

  /** The first column from `n` on without a name, or with the name of an earlier one. */
  function CheckColumns(columns: seq<string>, n: nat): (r: Result<()>)
    requires n <= |columns|
    requires ColumnsOk(columns[..n])
    ensures r.Ok? <==> ColumnsOk(columns)
    ensures r.Err? ==> exists k :: n <= k < |columns| && FirstBad(columns, k, r.error)
    decreases |columns| - n
  {
    if n == |columns| then
      assert columns[..n] == columns;
      Ok(())
    else if Blank(columns[n]) then
      assert FirstBad(columns, n, NoName(n + 1));
      Err(NoName(n + 1))
    else if columns[n] in columns[..n] then
      assert FirstBad(columns, n, Twice(columns[n]));
      assert exists i :: 0 <= i < n && columns[i] == columns[n];
      Err(Twice(columns[n]))
    else
      assert forall i :: 0 <= i < n ==> columns[i] == columns[..n][i];
      assert forall i :: 0 <= i < n + 1 ==> columns[..n + 1][i] == columns[i];
      CheckColumns(columns, n + 1)
  }

  /** Row `k` is the first whose number of values is not `width`. */
  ghost predicate FirstRagged(rows: seq<Row>, width: nat, k: nat, error: Error)
    requires k < |rows|
  {
    && (forall i :: 0 <= i < k ==> |rows[i].values| == width)
    && |rows[k].values| != width && error == Width(rows[k].line, |rows[k].values|, width)
  }

  /** Checks every row against the header's width; the error names the first row's line, the
   *  values it has and the columns there are. */
  function CheckWidths(rows: seq<Row>, width: nat): (r: Result<()>)
    ensures r.Ok? <==> forall i :: 0 <= i < |rows| ==> |rows[i].values| == width
    ensures r.Err? ==> exists k :: 0 <= k < |rows| && FirstRagged(rows, width, k, r.error)
  {
    if rows == [] then Ok(())
    else if |rows[0].values| != width then
      var error := Width(rows[0].line, |rows[0].values|, width);
      assert FirstRagged(rows, width, 0, error);
      Err(error)
    else
      var r := CheckWidths(rows[1..], width);
      assert forall i :: 0 <= i < |rows| - 1 ==> rows[1..][i] == rows[i + 1];
      if r.Ok? then
        assert forall i :: 1 <= i < |rows| ==> rows[i] == rows[1..][i - 1];
        r
      else
        RaggedLater(rows, width, r.error);
        r
  }

  lemma {:induction false} RaggedLater(rows: seq<Row>, width: nat, error: Error)
    requires rows != [] && |rows[0].values| == width
    requires exists k :: 0 <= k < |rows| - 1 && FirstRagged(rows[1..], width, k, error)
    ensures exists k :: 0 <= k < |rows| && FirstRagged(rows, width, k, error)
  {
    var k :| 0 <= k < |rows| - 1 && FirstRagged(rows[1..], width, k, error);
    assert FirstRagged(rows, width, k + 1, error);
  }

  function Values(rows: seq<Row>): (r: seq<seq<string>>)
    ensures |r| == |rows| && forall i :: 0 <= i < |rows| ==> r[i] == rows[i].values
  {
    seq(|rows|, i requires 0 <= i < |rows| => rows[i].values)
  }

  /** The header row, checked, and the other rows, checked against it. */
  function Build(records: seq<Row>): Result<Table>
  {
    if records == [] then Err(NoHeader)
    else
      var columns := records[0].values;
      assert ColumnsOk(columns[..0]);
      var named := CheckColumns(columns, 0);
      if named.Err? then Err(named.error)
      else
        var sized := CheckWidths(records[1..], |columns|);
        if sized.Err? then Err(sized.error)
        else Ok(Table(columns, Values(records[1..])))
  }

  function Parsed(text: string): Result<Table>
  {
    var scanned := Scan(Start, text);
    if scanned.Err? then Err(scanned.error)
    else
      var records := Finish(scanned.value);
      if records.Err? then Err(records.error) else Build(records.value)
  }

  /** The reader in one pass over the characters, with its variables updated in place. */
  method ParseCsv(text: string) returns (r: Result<Table>)
    ensures r == Parsed(text)
  {
    var records: seq<Row>, record: seq<string>, field: string := [], [], "";
    var quoted, started, line := false, false, 1;
    var i := 0;
    assert text[0..] == text;
    while i < |text|
      invariant 0 <= i <= |text|
      invariant Scan(State(records, record, field, quoted, started, line), text[i..]) == Scan(Start, text)
    {
      var c := text[i];
      ghost var s := text[i..];
      assert s[0] == c && s[1..] == text[i + 1..];
      assert i + 1 < |text| ==> s[1] == text[i + 1] && s[2..] == text[i + 2..];
      i := i + 1;
      if quoted {
        if c == '\"' && i < |text| && text[i] == '\"' {
          i := i + 1;
          field := field + ['\"'];
        } else if c == '\"' {
          quoted := false;
        } else if c == '\n' {
          line := line + 1;
          field := field + [c];
        } else {
          field := field + [c];
        }
        continue;
      }
      if c == '\"' && !started {
        quoted := true;
        started := true;
      } else if c == '\"' {
        return Err(StrayQuote(line));
      } else if c == ',' {
        record := record + [field];
        field := "";
        started := false;
      } else if c == '\r' && i < |text| && text[i] == '\n' {
      } else if c == '\n' {
        line := line + 1;
        if started || field != [] || record != [] {
          record := record + [field];
          field := "";
          records := records + [Row(line - 1, record)];
          record := [];
        }
        started := false;
      } else {
        field := field + [c];
        started := true;
      }
    }
    if quoted {
      return Err(UnclosedQuote(line));
    }
    if started || field != [] || record != [] {
      record := record + [field];
      records := records + [Row(line, record)];
    }
    r := Build(records);
  }

  /** The line breaks of a text. */
  function Newlines(s: string): nat
  {
    if s == [] then 0 else (if s[0] == '\n' then 1 else 0) + Newlines(s[1..])
  }

  // -------------------------------------------------------------------
  // What the reader returns
  // -------------------------------------------------------------------

  /** Named, distinct columns, and rows as wide as the header. */
  ghost predicate IsTable(columns: seq<string>, rows: seq<seq<string>>)
  {
    ColumnsOk(columns) && forall i :: 0 <= i < |rows| ==> |rows[i]| == |columns|
  }

  lemma {:induction false} BuildExact(records: seq<Row>)
    requires records != []
    ensures var r := Build(records);
            && (r.Ok? <==> IsTable(records[0].values, Values(records[1..])))
            && (r.Ok? ==> r.value == Table(records[0].values, Values(records[1..])))
  {
    var columns := records[0].values;
    assert ColumnsOk(columns[..0]);
    var rest := records[1..];
    assert forall i :: 0 <= i < |rest| ==> Values(rest)[i] == rest[i].values;
  }

  /** Whatever the text, what the reader returns is a table. */
  lemma {:induction false} ParsedIsTable(text: string)
    ensures var r := Parsed(text); r.Ok? ==> IsTable(r.value.columns, r.value.rows)
  {
    hide Scan, Finish, Build, IsTable;
    var scanned := Scan(Start, text);
    if scanned.Ok? {
      var records := Finish(scanned.value);
      if records.Ok? {
        if records.value == [] {
          assert Build(records.value).Err? by { BuildNothing(); }
        } else {
          BuildExact(records.value);
        }
      }
    }
  }

  lemma {:induction false} BuildNothing()
    ensures Build([]) == Err(NoHeader)
  {
  }

  // -------------------------------------------------------------------
  // Where the reader stops
  // -------------------------------------------------------------------

  /** The quote at position `p` is reported on its own line. */
  ghost predicate StrayAt(line: nat, s: string, p: nat, error: Error)
  {
    p < |s| && s[p] == '\"' && error == StrayQuote(line + Newlines(s[..p]))
  }

  /** The same quote, seen one character earlier. */
  lemma {:induction false} StrayEarlier(line: nat, s: string, p: nat, error: Error)
    requires s != [] && StrayAt(if s[0] == '\n' then line + 1 else line, s[1..], p, error)
    ensures StrayAt(line, s, p + 1, error)
  {
    assert s[..p + 1][1..] == s[1..][..p];
    assert s[..p + 1][0] == s[0];
  }

  /** Line numbers are physical: the machine's line counts every line break
   *  passed, in quotes or not, and a stray quote is reported on its own line. */
  lemma {:induction false} ScanCountsLines(st: State, s: string)
    ensures Scan(st, s).Ok? ==> Scan(st, s).value.line == st.line + Newlines(s)
    ensures Scan(st, s).Err? ==> Scan(st, s).error.StrayQuote?
    ensures Scan(st, s).Err? ==> exists p :: StrayAt(st.line, s, p, Scan(st, s).error)
    decreases |s|
  {
    if s == [] {
    } else if st.quoted && s[0] == '\"' && |s| > 1 && s[1] == '\"' {
      var next := st.(field := st.field + ['\"']);
      ScanCountsLines(next, s[2..]);
      hide StrayAt;
      assert s[1..][1..] == s[2..] && s[1..][0] == '\"';
      if Scan(next, s[2..]).Err? {
        var error := Scan(next, s[2..]).error;
        var p: nat :| StrayAt(st.line, s[2..], p, error);
        StrayEarlier(st.line, s[1..], p, error);
        StrayEarlier(st.line, s, p + 1, error);
      }
    } else if !st.quoted && s[0] == '\"' && st.started {
      assert StrayAt(st.line, s, 0, StrayQuote(st.line));
    } else {
      var next := if st.quoted then Inside(st, s[0]) else Outside(st, s[0], s[1..]);
      ScanCountsLines(next, s[1..]);
      hide StrayAt;
      if Scan(next, s[1..]).Err? {
        var error := Scan(next, s[1..]).error;
        var p: nat :| StrayAt(next.line, s[1..], p, error);
        StrayEarlier(st.line, s, p, error);
      }
    }
  }

  /** The reader's quoting errors point at the text: an unclosed quote is
   *  reported on the last line, a stray one on the line it stands on. */
  lemma {:induction false} QuoteErrorsOnTheirLine(text: string, line: nat)
    ensures Parsed(text) == Err(UnclosedQuote(line)) ==> line == 1 + Newlines(text)
    ensures Parsed(text) == Err(StrayQuote(line)) ==> exists p :: StrayAt(1, text, p, StrayQuote(line))
  {
    hide Scan, StrayAt, Newlines, Build;
    ScanCountsLines(Start, text);
    var scanned := Scan(Start, text);
    if scanned.Ok? && Finish(scanned.value).Ok? {
      BuildErrors(Finish(scanned.value).value);
    }
  }

  /** The checks after the scan never blame a quote. */
  lemma {:induction false} BuildErrors(records: seq<Row>)
    ensures var r := Build(records);
            r.Err? ==> !r.error.StrayQuote? && !r.error.UnclosedQuote?
  {
    if records != [] {
      WidthErrors(records[1..], |records[0].values|);
    }
  }

  lemma {:induction false} WidthErrors(rows: seq<Row>, width: nat)
    ensures var r := CheckWidths(rows, width); r.Err? ==> r.error.Width?
  {
    if rows != [] { WidthErrors(rows[1..], width); }
  }
}
