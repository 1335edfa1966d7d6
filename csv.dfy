/** The character-by-character CSV scanner that js/parser.js (`parseCSV`,
    `parseUnifiedCSV`) and app.js (`parseCSV`) each contain a copy of.
    `Run` states the scan of the remaining text one step at a time as a
    function; `Tokenize` is the loop itself and is proved to compute `Grid`.
    The properties of the scanner (trimmed cells, no empty rows, the quoting
    round trip for every row terminator) are lemmas about `Grid`. */
module Csv {
  import opened Text

  type Cells = seq<seq<string>>

  const Bom: char := '\U{FEFF}'

  /** The scanner's variables: finished rows, the row being built, the field
      being built, and whether the scan is inside a quoted field. */
  datatype Scan = Scan(rows: Cells, row: seq<string>, field: string, inQuote: bool)

  const Start := Scan([], [], [], false)

  /** `text.replace(/^﻿/, '')`: one leading byte-order mark is dropped. */
  function StripBom(t: string): (r: string)
    ensures |t| > 0 && t[0] == Bom ==> r == t[1..]
    ensures (|t| == 0 || t[0] != Bom) ==> r == t
  {
    if |t| > 0 && t[0] == Bom then t[1..] else t
  }

  /** The character after the current one is `c`. */
  predicate NextIs(s: string, c: char) {
    |s| > 1 && s[1] == c
  }

  /** One iteration of the scanning loop on the remaining text `s`: the new
      state and how many characters it consumed. */
  function Step(s: string, st: Scan): (r: (Scan, nat))
    requires |s| > 0
    ensures 1 <= r.1 <= |s|
  {
    var c := s[0];
    if c == '"' then
      if st.inQuote && NextIs(s, '"') then (st.(field := st.field + ['"']), 2)
      else (st.(inQuote := !st.inQuote), 1)
    else if c == ',' && !st.inQuote then
      (st.(row := st.row + [Trim(st.field)], field := []), 1)
    else if (c == '\r' || c == '\n') && !st.inQuote then
      (Scan(st.rows + [st.row + [Trim(st.field)]], [], [], false),
       if c == '\r' && NextIs(s, '\n') then 2 else 1)
    else
      (st.(field := st.field + [c]), 1)
  }

  /** The state after scanning all of `s` from state `st`. */
  function Run(s: string, st: Scan): Scan
    decreases |s|
  {
    if |s| == 0 then st
    else
      var (st', n) := Step(s, st);
      Run(s[n..], st')
  }

  /** The end of the scan: a pending field or row is still emitted. */
  function Finish(st: Scan): Cells {
    if st.field != [] || |st.row| > 0 then st.rows + [st.row + [Trim(st.field)]] else st.rows
  }

  /** The grid scanned from `t` as it stands (no byte-order-mark handling). */
  function Scanned(t: string): Cells {
    Finish(Run(t, Start))
  }

  /** The grid of cells the source's scanner produces from raw text. */
  function Grid(text: string): Cells {
    Scanned(StripBom(text))
  }

  // ------------------------------------------------------------ one step at a time

  lemma RunQuoteToggle(s: string, st: Scan)
    requires |s| > 0 && s[0] == '"' && !(st.inQuote && NextIs(s, '"'))
    ensures Run(s, st) == Run(s[1..], st.(inQuote := !st.inQuote))
  {
  }

  lemma RunDoubledQuote(s: string, st: Scan)
    requires |s| > 0 && s[0] == '"' && st.inQuote && NextIs(s, '"')
    ensures Run(s, st) == Run(s[2..], st.(field := st.field + ['"']))
  {
  }

  lemma RunComma(s: string, st: Scan)
    requires |s| > 0 && s[0] == ',' && !st.inQuote
    ensures Run(s, st) == Run(s[1..], st.(row := st.row + [Trim(st.field)], field := []))
  {
  }

  lemma RunLineEnd(s: string, st: Scan)
    requires |s| > 0 && (s[0] == '\r' || s[0] == '\n') && !st.inQuote
    ensures Run(s, st)
         == Run(s[if s[0] == '\r' && NextIs(s, '\n') then 2 else 1..],
                Scan(st.rows + [st.row + [Trim(st.field)]], [], [], false))
  {
  }

  lemma RunPlain(s: string, st: Scan)
    requires |s| > 0 && s[0] != '"'
    requires st.inQuote || (s[0] != ',' && s[0] != '\r' && s[0] != '\n')
    ensures Run(s, st) == Run(s[1..], st.(field := st.field + [s[0]]))
  {
  }

  /** The scanning loop of the three CSV parsers. */
  method Tokenize(text: string) returns (rows: Cells)
    ensures rows == Grid(text)
  {
    var t := StripBom(text);
    rows := [];
    var currentRow: seq<string> := [];
    var currentField: string := [];
    var inQuote := false;
    var i := 0;
    while i < |t|
      invariant 0 <= i <= |t|
      invariant Run(t[i..], Scan(rows, currentRow, currentField, inQuote)) == Run(t, Start)
      decreases |t| - i
    {
      ghost var st := Scan(rows, currentRow, currentField, inQuote);
      ghost var s := t[i..];
      var c := t[i];
      if c == '"' {
        if inQuote && i + 1 < |t| && t[i + 1] == '"' {
          RunDoubledQuote(s, st);
          assert s[2..] == t[i + 2..];
          currentField := currentField + ['"'];
          i := i + 1;
        } else {
          RunQuoteToggle(s, st);
          inQuote := !inQuote;
        }
      } else if c == ',' && !inQuote {
        RunComma(s, st);
        currentRow := currentRow + [Trim(currentField)];
        currentField := [];
      } else if (c == '\r' || c == '\n') && !inQuote {
        RunLineEnd(s, st);
        if c == '\r' && i + 1 < |t| && t[i + 1] == '\n' {
          assert s[2..] == t[i + 2..];
          i := i + 1;
        }
        currentRow := currentRow + [Trim(currentField)];
        rows := rows + [currentRow];
        currentRow := [];
        currentField := [];
      } else {
        RunPlain(s, st);
        currentField := currentField + [c];
      }
      i := i + 1;
    }
    if currentField != [] || |currentRow| > 0 {
      currentRow := currentRow + [Trim(currentField)];
      rows := rows + [currentRow];
    }
  }

  // ------------------------------------------------------------ properties

  /** Empty text gives no rows. */
  lemma EmptyText()
    ensures Grid([]) == []
  {
  }

  /** A leading byte-order mark is ignored. */
  lemma BomIgnored(t: string)
    ensures Grid([Bom] + t) == Scanned(t)
  {
    assert ([Bom] + t)[1..] == t;
  }

  ghost predicate CleanRow(r: seq<string>) {
    forall f | f in r :: Trimmed(f)
  }

  /** Every row has at least one cell and every cell is trimmed. */
  ghost predicate CleanGrid(g: Cells) {
    forall r | r in g :: |r| > 0 && CleanRow(r)
  }

  ghost predicate CleanScan(st: Scan) {
    CleanGrid(st.rows) && CleanRow(st.row)
  }

  lemma CleanRowAppend(r: seq<string>, f: string)
    requires CleanRow(r)
    ensures CleanRow(r + [Trim(f)])
  {
  }

  lemma CleanGridAppend(g: Cells, r: seq<string>)
    requires CleanGrid(g) && CleanRow(r) && |r| > 0
    ensures CleanGrid(g + [r])
  {
  }

  lemma StepClean(s: string, st: Scan)
    requires |s| > 0 && CleanScan(st)
    ensures CleanScan(Step(s, st).0)
  {
    var c := s[0];
    if c == '"' {
    } else if c == ',' && !st.inQuote {
      CleanRowAppend(st.row, st.field);
    } else if (c == '\r' || c == '\n') && !st.inQuote {
      CleanRowAppend(st.row, st.field);
      CleanGridAppend(st.rows, st.row + [Trim(st.field)]);
      assert CleanRow([]);
    }
  }

  lemma {:induction false} RunClean(s: string, st: Scan)
    requires CleanScan(st)
    ensures CleanScan(Run(s, st))
    decreases |s|
  {
    if |s| > 0 {
      StepClean(s, st);
      RunClean(s[Step(s, st).1..], Step(s, st).0);
    }
  }

  lemma FinishClean(st: Scan)
    requires CleanScan(st)
    ensures CleanGrid(Finish(st))
  {
    if st.field != [] || |st.row| > 0 {
      CleanRowAppend(st.row, st.field);
      CleanGridAppend(st.rows, st.row + [Trim(st.field)]);
    }
  }

  /** The scanner never produces an empty row, and it trims every cell. */
  lemma GridClean(text: string)
    ensures CleanGrid(Grid(text))
  {
    RunClean(StripBom(text), Start);
    FinishClean(Run(StripBom(text), Start));
  }

  // ---------------------------------------------------- the quoting round trip

  function EscapeChar(c: char): string {
    if c == '"' then "\"\"" else [c]
  }

  /** A cell's text with every '"' doubled. */
  function Escape(f: string): string {
    if |f| == 0 then [] else EscapeChar(f[0]) + Escape(f[1..])
  }

  /** A cell written with quoting. */
  function Quote(f: string): string {
    "\"" + Escape(f) + "\""
  }

  /** The quoted cells of one row separated by commas. */
  function EncodeRow(r: seq<string>): string
    requires |r| > 0
  {
    if |r| == 1 then Quote(r[0]) else Quote(r[0]) + "," + EncodeRow(r[1..])
  }

  predicate IsTerminator(eol: string) {
    eol == "\n" || eol == "\r" || eol == "\r\n"
  }

  /** A grid written out with every row ended by `eol`. */
  function Encode(g: Cells, eol: string): string
    requires forall r | r in g :: |r| > 0
  {
    if |g| == 0 then [] else EncodeRow(g[0]) + eol + Encode(g[1..], eol)
  }

  lemma {:induction false} EscapeScan(f: string, s: string, st: Scan)
    requires st.inQuote
    ensures Run(Escape(f) + s, st) == Run(s, st.(field := st.field + f))
    decreases |f|
  {
    if |f| == 0 {
      FieldAppend(st, f);
      assert Escape(f) + s == s;
    } else {
      EscapeStep(f, s, st);
      EscapeScan(f[1..], s, st.(field := st.field + [f[0]]));
      FieldAppend(st, f);
    }
  }

  /** Appending the characters of `f` to the field one by one. */
  lemma FieldAppend(st: Scan, f: string)
    ensures |f| == 0 ==> Escape(f) == [] && st.(field := st.field + f) == st
    ensures |f| > 0 ==> st.(field := st.field + [f[0]]).(field := st.field + [f[0]] + f[1..]) == st.(field := st.field + f)
  {
    assert |f| == 0 ==> st.field + f == st.field;
    assert |f| > 0 ==> st.field + [f[0]] + f[1..] == st.field + f;
  }

  /** Inside quotes, an escaped character is read back as itself. */
  lemma EscapeStep(f: string, s: string, st: Scan)
    requires st.inQuote && |f| > 0
    ensures Run(Escape(f) + s, st) == Run(Escape(f[1..]) + s, st.(field := st.field + [f[0]]))
  {
    var rest := Escape(f[1..]) + s;
    var x := Escape(f) + s;
    assert x == EscapeChar(f[0]) + rest;
    if f[0] == '"' {
      RunDoubledQuote(x, st);
      assert x[2..] == rest;
    } else {
      RunPlain(x, st);
      assert x[1..] == rest;
    }
  }

  /** A quoted cell followed by anything but a quote leaves the scan outside
      quotes with the cell's exact text as the pending field. */
  lemma QuotedCellScan(f: string, s: string, st: Scan)
    requires !st.inQuote && st.field == []
    requires s == [] || s[0] != '"'
    ensures Run(Quote(f) + s, st) == Run(s, st.(field := f))
  {
    var x := Quote(f) + s;
    var y := Escape(f) + ("\"" + s);
    assert x == "\"" + y;
    RunQuoteToggle(x, st);
    assert x[1..] == y;
    EscapeScan(f, "\"" + s, st.(inQuote := true));
    var st1 := st.(inQuote := true, field := f);
    assert st.(inQuote := true).(field := [] + f) == st1;
    RunQuoteToggle("\"" + s, st1);
    assert ("\"" + s)[1..] == s;
  }

  lemma CellCommaScan(f: string, s: string, rows: Cells, done: seq<string>)
    requires Trimmed(f)
    ensures Run(Quote(f) + ("," + s), Scan(rows, done, [], false))
         == Run(s, Scan(rows, done + [f], [], false))
  {
    var st := Scan(rows, done, [], false);
    QuotedCellScan(f, "," + s, st);
    RunComma("," + s, st.(field := f));
    assert ("," + s)[1..] == s;
    TrimNoop(f);
  }

  lemma CellEndScan(f: string, eol: string, s: string, rows: Cells, done: seq<string>)
    requires Trimmed(f) && IsTerminator(eol)
    requires eol == "\r" && s != [] ==> s[0] != '\n'
    ensures Run(Quote(f) + (eol + s), Scan(rows, done, [], false))
         == Run(s, Scan(rows + [done + [f]], [], [], false))
  {
    var st := Scan(rows, done, [], false);
    QuotedCellScan(f, eol + s, st);
    RunLineEnd(eol + s, st.(field := f));
    assert (eol + s)[|eol|..] == s;
    TrimNoop(f);
  }

  lemma {:induction false} RowScan(r: seq<string>, eol: string, s: string, rows: Cells, done: seq<string>)
    requires |r| > 0 && IsTerminator(eol) && CleanRow(r)
    requires eol == "\r" && s != [] ==> s[0] != '\n'
    ensures Run(EncodeRow(r) + eol + s, Scan(rows, done, [], false))
         == Run(s, Scan(rows + [done + r], [], [], false))
    decreases |r|
  {
    CleanRowParts(r);
    if |r| == 1 {
      LastCellScan(r, eol, s, rows, done);
    } else {
      RowStep(r, eol, s, rows, done);
      RowScan(r[1..], eol, s, rows, done + [r[0]]);
      MoveHead(done, r);
    }
  }

  lemma CleanRowParts(r: seq<string>)
    requires |r| > 0 && CleanRow(r)
    ensures Trimmed(r[0]) && CleanRow(r[1..])
  {
    assert r[0] in r;
    assert forall f | f in r[1..] :: f in r;
  }

  /** The first cell of a row of several is read back and the comma after it
      consumed. */
  lemma RowStep(r: seq<string>, eol: string, s: string, rows: Cells, done: seq<string>)
    requires |r| > 1 && Trimmed(r[0])
    ensures Run(EncodeRow(r) + eol + s, Scan(rows, done, [], false))
         == Run(EncodeRow(r[1..]) + eol + s, Scan(rows, done + [r[0]], [], false))
  {
    RowSplit(r, eol, s);
    CellCommaScan(r[0], EncodeRow(r[1..]) + eol + s, rows, done);
  }

  lemma RowSplit(r: seq<string>, eol: string, s: string)
    requires |r| > 1
    ensures EncodeRow(r) + eol + s == Quote(r[0]) + ("," + (EncodeRow(r[1..]) + eol + s))
  {
  }

  lemma LastCellScan(r: seq<string>, eol: string, s: string, rows: Cells, done: seq<string>)
    requires |r| == 1 && IsTerminator(eol) && Trimmed(r[0])
    requires eol == "\r" && s != [] ==> s[0] != '\n'
    ensures Run(EncodeRow(r) + eol + s, Scan(rows, done, [], false))
         == Run(s, Scan(rows + [done + r], [], [], false))
  {
    assert EncodeRow(r) + eol + s == Quote(r[0]) + (eol + s);
    CellEndScan(r[0], eol, s, rows, done);
    assert r == [r[0]];
  }

  lemma EncodeStart(g: Cells, eol: string)
    requires forall r | r in g :: |r| > 0
    ensures Encode(g, eol) == [] || Encode(g, eol)[0] == '"'
  {
    if |g| > 0 {
      assert g[0] in g;
      assert Encode(g, eol) == EncodeRow(g[0]) + (eol + Encode(g[1..], eol));
    }
  }

  lemma {:induction false} EncodeScan(g: Cells, eol: string, rows: Cells)
    requires IsTerminator(eol) && CleanGrid(g)
    ensures Run(Encode(g, eol), Scan(rows, [], [], false)) == Scan(rows + g, [], [], false)
    decreases |g|
  {
    if |g| == 0 {
      EncodeEmpty(g, eol, rows);
    } else {
      EncodeStep(g, eol, rows);
      CleanGridTail(g);
      EncodeScan(g[1..], eol, rows + [g[0]]);
      MoveHead(rows, g);
    }
  }

  lemma MoveHead<T>(a: seq<T>, b: seq<T>)
    requires |b| > 0
    ensures a + [b[0]] + b[1..] == a + b
  {
  }

  lemma EncodeEmpty(g: Cells, eol: string, rows: Cells)
    requires |g| == 0
    ensures Run(Encode(g, eol), Scan(rows, [], [], false)) == Scan(rows + g, [], [], false)
  {
    assert Encode(g, eol) == [] && rows + g == rows;
  }

  lemma CleanGridTail(g: Cells)
    requires CleanGrid(g) && |g| > 0
    ensures CleanGrid(g[1..])
  {
    assert forall r | r in g[1..] :: r in g;
  }

  /** The first written row is read back as one row. */
  lemma EncodeStep(g: Cells, eol: string, rows: Cells)
    requires IsTerminator(eol) && CleanGrid(g) && |g| > 0
    ensures Run(Encode(g, eol), Scan(rows, [], [], false))
         == Run(Encode(g[1..], eol), Scan(rows + [g[0]], [], [], false))
  {
    assert g[0] in g;
    assert forall r | r in g[1..] :: r in g;
    var tail := Encode(g[1..], eol);
    EncodeStart(g[1..], eol);
    assert Encode(g, eol) == EncodeRow(g[0]) + eol + tail;
    RowScan(g[0], eol, tail, rows, []);
    assert [] + g[0] == g[0];
  }

  /** Quoting round trip: a grid of trimmed cells written with doubled quotes and
      any of the three row terminators (LF, CR, CRLF) scans back to itself, so
      commas, line breaks and quotes inside a quoted cell are cell text, a
      doubled quote is one literal quote, CRLF is a single terminator and the
      final terminator adds no row. */
  lemma RoundTrip(g: Cells, eol: string)
    requires IsTerminator(eol) && CleanGrid(g)
    ensures Grid(Encode(g, eol)) == g
  {
    var t := Encode(g, eol);
    EncodeStart(g, eol);
    assert StripBom(t) == t;
    EncodeScan(g, eol, []);
    assert [] + g == g;
  }
}
