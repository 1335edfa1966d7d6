/** Turning the spreadsheet export into records: `parseCSV` (one table, the
    header row first) and `parseUnifiedCSV` (one sheet holding five tables side
    by side, told apart by a marker row) of js/parser.js. Both run the shared
    scanner `Csv.Tokenize`; the configured spreadsheet language and the keyword
    catalog are parameters. */
module Parser {
  import opened Collections
  import opened Text
  import opened Values
  import opened Csv
  import opened Keywords

  /** The four keyword lookups in use. */
  datatype Lookups = Lookups(columns: map<string, string>, types: map<string, string>,
                             values: map<string, string>, days: map<string, string>)

  const NoLookups := Lookups(map[], map[], map[], map[])

  /** How cell values are translated: not at all, or through `maps`; with
      `skipBlank` an empty cell is left alone. */
  datatype Translation = Untranslated | Translated(maps: Lookups, skipBlank: bool)

  /** The catalog as objects (what `parseCSV` consults). */
  function ForwardLookups(kw: CsvKeywords): Lookups {
    Lookups(Forward(kw.columns), Forward(kw.types), Forward(kw.values), Forward(kw.days))
  }

  /** The inverted catalog (what `parseUnifiedCSV` builds). */
  function InverseLookups(kw: CsvKeywords): Lookups {
    Lookups(Inverse(kw.columns), Inverse(kw.types), Inverse(kw.values), Inverse(kw.days))
  }

  /** `row[i] || ''`. */
  function Cell(row: seq<string>, i: nat): string {
    if i < |row| then row[i] else []
  }

  /** `n` cells of `row` from column `start` on, missing ones empty. */
  function Slice(row: seq<string>, start: nat, n: nat): (r: seq<string>)
    ensures |r| == n
    ensures forall i :: 0 <= i < n ==> r[i] == Cell(row, start + i)
  {
    seq(n, i requires 0 <= i < n => Cell(row, start + i))
  }

  function KeyRow(row: seq<string>): (r: seq<string>)
    ensures |r| == |row|
    ensures forall i :: 0 <= i < |row| ==> r[i] == Key(row[i])
  {
    seq(|row|, i requires 0 <= i < |row| => Key(row[i]))
  }

  /** `headers.map(h => m[h] || h)`. */
  function TranslateRow(hs: seq<string>, m: map<string, string>): (r: seq<string>)
    ensures |r| == |hs|
    ensures forall i :: 0 <= i < |hs| ==> r[i] == Translate(m, hs[i])
  {
    seq(|hs|, i requires 0 <= i < |hs| => Translate(m, hs[i]))
  }

  function Pick(o: Option<string>, d: string): string {
    if o.Some? then o.value else d
  }

  /** The value stored under header `h` for the cell text `v`: a boolean
      keyword is translated, then a content type under `type`, then a weekday
      under `day`, all looked up by the lowercased trimmed text. */
  function CellValue(h: string, v: string, tr: Translation): string {
    match tr
    case Untranslated => v
    case Translated(mp, skipBlank) =>
      if skipBlank && v == [] then v
      else
        var low := Key(v);
        var v1 := Pick(Lookup(mp.values, low), v);
        var v2 := if h == "type" then Pick(Lookup(mp.types, low), v1) else v1;
        if h == "day" then Pick(Lookup(mp.days, low), v2) else v2
  }

  function Pairs(hs: seq<string>, cells: seq<string>, tr: Translation): (r: seq<(string, string)>)
    requires |cells| == |hs|
    ensures |r| == |hs|
    ensures forall i :: 0 <= i < |hs| ==> r[i] == (hs[i], CellValue(hs[i], cells[i], tr))
  {
    seq(|hs|, i requires 0 <= i < |hs| => (hs[i], CellValue(hs[i], cells[i], tr)))
  }

  /** `headers.forEach((h, i) => rowObj[h] = value_i)`: a repeated header keeps
      its rightmost value. */
  function RecordOf(hs: seq<string>, cells: seq<string>, tr: Translation): Record
    requires |cells| == |hs|
  {
    LastWins(Pairs(hs, cells, tr))
  }

  /** A record has exactly the header names as keys. */
  lemma RecordKeys(hs: seq<string>, cells: seq<string>, tr: Translation)
    requires |cells| == |hs|
    ensures forall k :: k in RecordOf(hs, cells, tr) <==> k in hs
  {
    var p := Pairs(hs, cells, tr);
    forall k ensures k in RecordOf(hs, cells, tr) <==> k in hs {
      if k in RecordOf(hs, cells, tr) {
        var i :| 0 <= i < |p| && p[i].0 == k;
        assert hs[i] == k;
      }
      if k in hs {
        var i :| 0 <= i < |hs| && hs[i] == k;
        assert p[i].0 == k;
      }
    }
  }

  /** Untranslated, the value under the rightmost occurrence of a header is
      that column's cell. */
  lemma RecordValue(hs: seq<string>, cells: seq<string>, i: nat)
    requires |cells| == |hs| && i < |hs|
    requires forall j :: i < j < |hs| ==> hs[j] != hs[i]
    ensures hs[i] in RecordOf(hs, cells, Untranslated)
    ensures RecordOf(hs, cells, Untranslated)[hs[i]] == cells[i]
  {
    LastWinsValue(Pairs(hs, cells, Untranslated), i);
  }

  // ------------------------------------------------------------ parseCSV

  /** Rows after the header with more than one cell (`filter(row => row.length > 1)`). */
  function DataRows(rows: Cells): (r: Cells)
    ensures |r| <= |rows|
    ensures forall x | x in r :: x in rows && |x| > 1
  {
    if |rows| == 0 then []
    else DataRows(rows[..|rows| - 1]) + (if |rows[|rows| - 1]| > 1 then [rows[|rows| - 1]] else [])
  }

  /** A row after the header that `parseCSV` keeps. */
  predicate IsDataRow(row: seq<string>) {
    |row| > 1
  }

  /** `DataRows` is `filter(row => row.length > 1)`: every row with more than
      one cell is kept, nothing else is, and the input order is kept. */
  lemma {:induction false} DataRowsFilter(rows: Cells)
    ensures DataRows(rows) == Filter(rows, IsDataRow)
    ensures forall x :: x in DataRows(rows) <==> x in rows && |x| > 1
  {
    if |rows| > 0 {
      DataRowsFilter(rows[..|rows| - 1]);
    }
    forall x ensures x in DataRows(rows) <==> x in rows && |x| > 1 {
      FilterMembers(rows, IsDataRow, x);
    }
  }

  function CountDataRows(rows: Cells): nat {
    if |rows| == 0 then 0
    else CountDataRows(rows[..|rows| - 1]) + (if |rows[|rows| - 1]| > 1 then 1 else 0)
  }

  /** The header names: lowercased and trimmed, then (in Italian mode) looked
      up in the forward en→it column map. */
  function CsvHeaders(first: seq<string>, csvLang: string, kw: CsvKeywords): seq<string> {
    if csvLang == "it" then TranslateRow(KeyRow(first), Forward(kw.columns)) else KeyRow(first)
  }

  function CsvTranslation(csvLang: string, kw: CsvKeywords): Translation {
    if csvLang == "it" then Translated(ForwardLookups(kw), false) else Untranslated
  }

  /** The records `parseCSV` returns for the scanned grid. */
  function CsvRecords(rows: Cells, csvLang: string, kw: CsvKeywords): seq<Record> {
    if |rows| == 0 then []
    else
      var hs := CsvHeaders(rows[0], csvLang, kw);
      var data := DataRows(rows[1..]);
      seq(|data|, i requires 0 <= i < |data| =>
        RecordOf(hs, Slice(data[i], 0, |hs|), CsvTranslation(csvLang, kw)))
  }

  /** `parseCSV`: scan, then one record per later row with more than one cell. */
  method ParseCsv(text: string, csvLang: string, kw: CsvKeywords) returns (records: seq<Record>)
    ensures records == CsvRecords(Grid(text), csvLang, kw)
  {
    var rows := Tokenize(text);
    if |rows| == 0 {
      return [];
    }
    records := CsvRecords(rows, csvLang, kw);
  }

  lemma {:induction false} DataRowsCount(rows: Cells)
    ensures |DataRows(rows)| == CountDataRows(rows)
  {
    if |rows| > 0 {
      DataRowsCount(rows[..|rows| - 1]);
    }
  }

  /** `parseCSV` yields one record per later row with more than one cell, and
      every record has exactly the header names as keys. */
  lemma CsvRecordsShape(text: string, csvLang: string, kw: CsvKeywords)
    requires |Grid(text)| > 0
    ensures |CsvRecords(Grid(text), csvLang, kw)| == CountDataRows(Grid(text)[1..])
    ensures forall r | r in CsvRecords(Grid(text), csvLang, kw) ::
              forall k :: k in r <==> k in CsvHeaders(Grid(text)[0], csvLang, kw)
  {
    RecordsShape(Grid(text), csvLang, kw);
  }

  lemma RecordsShape(rows: Cells, csvLang: string, kw: CsvKeywords)
    requires |rows| > 0
    ensures |CsvRecords(rows, csvLang, kw)| == CountDataRows(rows[1..])
    ensures forall r | r in CsvRecords(rows, csvLang, kw) ::
              forall k :: k in r <==> k in CsvHeaders(rows[0], csvLang, kw)
  {
    var hs := CsvHeaders(rows[0], csvLang, kw);
    var data := DataRows(rows[1..]);
    var recs := CsvRecords(rows, csvLang, kw);
    DataRowsCount(rows[1..]);
    forall i | 0 <= i < |recs| ensures forall k :: k in recs[i] <==> k in hs {
      RecordKeys(hs, Slice(data[i], 0, |hs|), CsvTranslation(csvLang, kw));
    }
  }

  /** Outside Italian mode the headers are the lowercased trimmed first row, and
      the value under a header (its rightmost occurrence) is the row's cell in
      that column, or '' where the row is short. */
  lemma CsvRecordValue(rows: Cells, csvLang: string, kw: CsvKeywords, n: nat, i: nat)
    requires csvLang != "it" && |rows| > 0
    requires n < |DataRows(rows[1..])| && i < |rows[0]|
    requires forall j :: i < j < |rows[0]| ==> Key(rows[0][j]) != Key(rows[0][i])
    ensures CsvHeaders(rows[0], csvLang, kw)[i] == Key(rows[0][i])
    ensures Key(rows[0][i]) in CsvRecords(rows, csvLang, kw)[n]
    ensures CsvRecords(rows, csvLang, kw)[n][Key(rows[0][i])] == Cell(DataRows(rows[1..])[n], i)
  {
    var hs := CsvHeaders(rows[0], csvLang, kw);
    var row := DataRows(rows[1..])[n];
    RecordValue(hs, Slice(row, 0, |hs|), i);
  }

  /** In Italian mode `parseCSV` looks each header up in the forward en→it
      column map, so an English header is turned into its Italian spelling. */
  lemma CsvHeaderForward(first: seq<string>, kw: CsvKeywords, i: nat)
    requires i < |first|
    requires Key(first[i]) in Forward(kw.columns) && Forward(kw.columns)[Key(first[i])] != []
    ensures CsvHeaders(first, "it", kw)[i] == Forward(kw.columns)[Key(first[i])]
  {
  }

  // ------------------------------------------------------------ marker runs

  /** A table's column range, `endCol` inclusive. */
  datatype Range = Range(table: string, startCol: nat, endCol: nat)

  /** The last column of the run of equal markers that starts at `s`. */
  function RunEnd(m: seq<string>, s: nat): (e: nat)
    requires s < |m|
    ensures s <= e < |m|
    ensures forall c :: s <= c <= e ==> m[c] == m[s]
    ensures e + 1 == |m| || m[e + 1] != m[s]
    decreases |m| - s
  {
    if s + 1 < |m| && m[s + 1] == m[s] then RunEnd(m, s + 1) else s
  }

  /** The maximal runs of equal markers from column `s` on. */
  function RunsFrom(m: seq<string>, s: nat): seq<Range>
    requires s <= |m|
    decreases |m| - s
  {
    if s == |m| then []
    else
      var e := RunEnd(m, s);
      [Range(m[s], s, e)] + RunsFrom(m, e + 1)
  }

  function Runs(m: seq<string>): seq<Range> {
    RunsFrom(m, 0)
  }

  lemma {:induction false} RunEndAt(m: seq<string>, s: nat, e: nat)
    requires s <= e < |m|
    requires forall c :: s <= c <= e ==> m[c] == m[s]
    requires e + 1 == |m| || m[e + 1] != m[s]
    ensures RunEnd(m, s) == e
    decreases e - s
  {
    if s < e {
      RunEndAt(m, s + 1, e);
    }
  }

  /** The boundary scan's state before column `col`: the current table and
      where its run started, and the runs already closed, which followed by
      the runs from `startCol` on give all the runs. */
  ghost predicate ScanState(m: seq<string>, boundaries: seq<Range>, current: Option<string>, startCol: nat, col: nat) {
    startCol <= col <= |m|
    && (current.None? ==> col == 0 && startCol == 0 && boundaries == [])
    && (current.Some? ==> startCol < col && current.value == m[startCol]
                          && forall c :: startCol <= c < col ==> m[c] == m[startCol])
    && boundaries + RunsFrom(m, startCol) == RunsFrom(m, 0)
  }

  /** One column of the boundary scan: a new marker closes the current run
      and starts another. */
  method ScanColumn(m: seq<string>, boundaries: seq<Range>, current: Option<string>, startCol: nat, col: nat)
    returns (boundaries': seq<Range>, current': Option<string>, startCol': nat)
    requires col < |m| && ScanState(m, boundaries, current, startCol, col)
    ensures ScanState(m, boundaries', current', startCol', col + 1)
  {
    boundaries', current', startCol' := boundaries, current, startCol;
    var tableId := m[col];
    if current != Some(tableId) {
      if current.Some? {
        RunEndAt(m, startCol, col - 1);
        boundaries' := boundaries + [Range(current.value, startCol, col - 1)];
      }
      current' := Some(tableId);
      startCol' := col;
    }
  }

  /** The boundary scan of `parseUnifiedCSV`. */
  method TableRanges(markers: seq<string>) returns (boundaries: seq<Range>)
    ensures boundaries == Runs(markers)
  {
    boundaries := [];
    var current: Option<string> := None;
    var startCol := 0;
    var col := 0;
    while col < |markers|
      invariant ScanState(markers, boundaries, current, startCol, col)
    {
      boundaries, current, startCol := ScanColumn(markers, boundaries, current, startCol, col);
      col := col + 1;
    }
    if current.Some? {
      RunEndAt(markers, startCol, |markers| - 1);
      assert RunsFrom(markers, startCol) == [Range(current.value, startCol, |markers| - 1)];
      boundaries := boundaries + [Range(current.value, startCol, |markers| - 1)];
    }
  }

  /** The runs tile the columns from `s` to the end: each is a non-empty range of
      one marker value, each starts right after the previous one ends, and
      neighbouring runs carry different markers. */
  ghost predicate Tiling(m: seq<string>, s: nat, rs: seq<Range>) {
    (|rs| == 0 <==> s == |m|) &&
    (|rs| > 0 ==> rs[0].startCol == s && rs[|rs| - 1].endCol == |m| - 1) &&
    (forall k :: 0 <= k < |rs| ==>
      rs[k].startCol <= rs[k].endCol < |m| &&
      forall c :: rs[k].startCol <= c <= rs[k].endCol ==> m[c] == rs[k].table) &&
    (forall k :: 0 <= k < |rs| - 1 ==>
      rs[k + 1].startCol == rs[k].endCol + 1 && rs[k + 1].table != rs[k].table)
  }

  lemma TilingCons(m: seq<string>, s: nat, e: nat, rest: seq<Range>)
    requires s <= e < |m|
    requires forall c :: s <= c <= e ==> m[c] == m[s]
    requires e + 1 == |m| || m[e + 1] != m[s]
    requires Tiling(m, e + 1, rest)
    ensures Tiling(m, s, [Range(m[s], s, e)] + rest)
  {
    var rs := [Range(m[s], s, e)] + rest;
    assert forall k :: 0 < k < |rs| ==> rs[k] == rest[k - 1];
    assert |rest| > 0 ==> rs[1] == rest[0];
  }

  lemma {:induction false} RunsFromTiling(m: seq<string>, s: nat)
    requires s <= |m|
    ensures Tiling(m, s, RunsFrom(m, s))
    decreases |m| - s
  {
    if s < |m| {
      RunsFromTiling(m, RunEnd(m, s) + 1);
      TilingStep(m, s);
    }
  }

  lemma TilingStep(m: seq<string>, s: nat)
    requires s < |m| && Tiling(m, RunEnd(m, s) + 1, RunsFrom(m, RunEnd(m, s) + 1))
    ensures Tiling(m, s, RunsFrom(m, s))
  {
    var e := RunEnd(m, s);
    assert RunsFrom(m, s) == [Range(m[s], s, e)] + RunsFrom(m, e + 1);
    TilingCons(m, s, e, RunsFrom(m, e + 1));
  }

  /** Every column lies in exactly one run, and that run carries its marker. */
  lemma RunsCover(m: seq<string>, c: nat)
    requires c < |m|
    ensures exists k :: 0 <= k < |Runs(m)| && Runs(m)[k].startCol <= c <= Runs(m)[k].endCol
    ensures forall k :: 0 <= k < |Runs(m)| && Runs(m)[k].startCol <= c <= Runs(m)[k].endCol ==>
              Runs(m)[k].table == m[c]
    ensures forall k, l :: 0 <= k < l < |Runs(m)| ==> Runs(m)[k].endCol < Runs(m)[l].startCol
  {
    var rs := Runs(m);
    RunsFromTiling(m, 0);
    OrderedRuns(m, rs);
    CoveredColumn(m, rs, 0, c);
  }

  lemma OrderedRuns(m: seq<string>, rs: seq<Range>)
    requires Tiling(m, 0, rs)
    ensures forall k, l :: 0 <= k < l < |rs| ==> rs[k].endCol < rs[l].startCol
  {
    forall k, l | 0 <= k < l < |rs| ensures rs[k].endCol < rs[l].startCol {
      OrderedPair(m, rs, k, l);
    }
  }

  lemma {:induction false} OrderedPair(m: seq<string>, rs: seq<Range>, k: nat, l: nat)
    requires Tiling(m, 0, rs) && k < l < |rs|
    ensures rs[k].endCol < rs[l].startCol
    decreases l - k
  {
    if l > k + 1 {
      OrderedPair(m, rs, k, l - 1);
    }
  }

  lemma {:induction false} CoveredColumn(m: seq<string>, rs: seq<Range>, k: nat, c: nat)
    requires Tiling(m, 0, rs) && k < |rs| && rs[k].startCol <= c < |m|
    ensures exists j :: k <= j < |rs| && rs[j].startCol <= c <= rs[j].endCol
    decreases |rs| - k
  {
    if c > rs[k].endCol {
      CoveredColumn(m, rs, k + 1, c);
    }
  }

  // ------------------------------------------------------------ demultiplexing

  const TableNames: set<string> := {"bar", "kitchen", "timeslots", "content", "categories"}

  type Tables = map<string, seq<Record>>

  const EmptyTables: Tables := map n | n in TableNames :: []

  /** `headerRow.slice(start, end)`. */
  function HeaderSlice(hs: seq<string>, start: nat, end: nat): (r: seq<string>)
    ensures start <= |hs| && start <= end ==> r == hs[start..if end <= |hs| then end else |hs|]
    ensures (start > |hs| || start > end) ==> r == []
  {
    if start >= |hs| || start >= end then []
    else hs[start..if end <= |hs| then end else |hs|]
  }

  /** Some cell of the table's range is non-blank (`hasData`). */
  function AnyData(cells: seq<string>): bool {
    if |cells| == 0 then false
    else AnyData(cells[..|cells| - 1]) || Trim(cells[|cells| - 1]) != []
  }

  function TableHeaders(rg: Range, hs: seq<string>): seq<string> {
    HeaderSlice(hs, rg.startCol, rg.endCol + 1)
  }

  /** The record for one data row within a range, if the row is not blank there. */
  function RowRecord(rg: Range, hs: seq<string>, row: seq<string>, tr: Translation): seq<Record> {
    var th := TableHeaders(rg, hs);
    var cells := Slice(row, rg.startCol, |th|);
    if AnyData(cells) then [RecordOf(th, cells, tr)] else []
  }

  /** The records one range contributes, from the given data rows in order. */
  function TableRows(rg: Range, hs: seq<string>, data: Cells, tr: Translation): seq<Record> {
    if |data| == 0 then []
    else TableRows(rg, hs, data[..|data| - 1], tr) + RowRecord(rg, hs, data[|data| - 1], tr)
  }

  /** The five tables after every range has been processed in turn. */
  function Demux(rs: seq<Range>, hs: seq<string>, data: Cells, tr: Translation): (t: Tables)
    ensures t.Keys == TableNames
  {
    if |rs| == 0 then EmptyTables
    else
      var t := Demux(rs[..|rs| - 1], hs, data, tr);
      var rg := rs[|rs| - 1];
      if rg.table in t then t[rg.table := t[rg.table] + TableRows(rg, hs, data, tr)] else t
  }

  /** Reference definition of one table: the rows of every range carrying its
      name, range after range. */
  function Gather(rs: seq<Range>, name: string, hs: seq<string>, data: Cells, tr: Translation): seq<Record> {
    if |rs| == 0 then []
    else
      Gather(rs[..|rs| - 1], name, hs, data, tr) +
      (if rs[|rs| - 1].table == name then TableRows(rs[|rs| - 1], hs, data, tr) else [])
  }

  lemma {:induction false} DemuxGather(rs: seq<Range>, hs: seq<string>, data: Cells, tr: Translation, name: string)
    requires name in TableNames
    ensures Demux(rs, hs, data, tr)[name] == Gather(rs, name, hs, data, tr)
  {
    if |rs| > 0 {
      DemuxGather(rs[..|rs| - 1], hs, data, tr, name);
    }
  }

  /** The whole of `parseUnifiedCSV` as a function of its inputs. */
  function Unified(text: string, csvLang: string, kw: CsvKeywords): Tables {
    if text == [] then EmptyTables
    else
      var rows := Grid(text);
      if |rows| < 3 then EmptyTables
      else
        var italian := csvLang == "it";
        var inv := if italian then InverseLookups(kw) else NoLookups;
        var hs := if italian then TranslateRow(KeyRow(rows[1]), inv.columns) else KeyRow(rows[1]);
        Demux(Runs(KeyRow(rows[0])), hs, rows[2..], if italian then Translated(inv, true) else Untranslated)
  }

  lemma TableRowsSnoc(rg: Range, hs: seq<string>, data: Cells, tr: Translation, r: nat)
    requires r < |data|
    ensures TableRows(rg, hs, data[..r + 1], tr) == TableRows(rg, hs, data[..r], tr) + RowRecord(rg, hs, data[r], tr)
  {
    assert data[..r + 1][..r] == data[..r];
  }

  /** The inner loop's state after `r` data rows: their records appended. */
  ghost predicate RowsSoFar(out: seq<Record>, acc: seq<Record>, rg: Range, hs: seq<string>, data: Cells,
                            tr: Translation, r: nat) {
    r <= |data| && out == acc + TableRows(rg, hs, data[..r], tr)
  }

  /** One data row of the inner loop: its record, if any, is appended. */
  method CollectRow(out: seq<Record>, acc: seq<Record>, rg: Range, hs: seq<string>, data: Cells,
                    tr: Translation, r: nat) returns (out': seq<Record>)
    requires r < |data| && RowsSoFar(out, acc, rg, hs, data, tr, r)
    ensures RowsSoFar(out', acc, rg, hs, data, tr, r + 1)
  {
    TableRowsSnoc(rg, hs, data, tr, r);
    out' := out + RowRecord(rg, hs, data[r], tr);
  }

  /** The inner loop of `parseUnifiedCSV`: one range over every data row. */
  method CollectRows(rg: Range, hs: seq<string>, data: Cells, tr: Translation, acc: seq<Record>)
    returns (out: seq<Record>)
    ensures out == acc + TableRows(rg, hs, data, tr)
  {
    out := acc;
    var r := 0;
    while r < |data|
      invariant RowsSoFar(out, acc, rg, hs, data, tr, r)
    {
      out := CollectRow(out, acc, rg, hs, data, tr, r);
      r := r + 1;
    }
    assert data[..|data|] == data;
  }

  lemma DemuxSnoc(rs: seq<Range>, hs: seq<string>, data: Cells, tr: Translation, k: nat)
    requires k < |rs|
    ensures var t := Demux(rs[..k], hs, data, tr);
            Demux(rs[..k + 1], hs, data, tr)
              == if rs[k].table in t then t[rs[k].table := t[rs[k].table] + TableRows(rs[k], hs, data, tr)] else t
  {
    assert rs[..k + 1][..k] == rs[..k];
  }

  /** The outer loop of `parseUnifiedCSV`: every range in boundary order. */
  method Demultiplex(boundaries: seq<Range>, hs: seq<string>, data: Cells, tr: Translation)
    returns (result: Tables)
    ensures result == Demux(boundaries, hs, data, tr)
  {
    result := EmptyTables;
    var k := 0;
    while k < |boundaries|
      invariant 0 <= k <= |boundaries|
      invariant result == Demux(boundaries[..k], hs, data, tr)
    {
      var rg := boundaries[k];
      DemuxSnoc(boundaries, hs, data, tr, k);
      if rg.table in result {
        var rows := CollectRows(rg, hs, data, tr, result[rg.table]);
        result := result[rg.table := rows];
      }
      k := k + 1;
    }
    assert boundaries[..|boundaries|] == boundaries;
  }

  /** `parseUnifiedCSV`. */
  method ParseUnifiedCsv(text: string, csvLang: string, kw: CsvKeywords) returns (result: Tables)
    ensures result == Unified(text, csvLang, kw)
  {
    if text == [] {
      return EmptyTables;
    }
    var rows := Tokenize(text);
    if |rows| < 3 {
      return EmptyTables;
    }
    var markerRow := KeyRow(rows[0]);
    var headerRow := KeyRow(rows[1]);
    var boundaries := TableRanges(markerRow);
    var inv := NoLookups;
    if csvLang == "it" {
      var columns := BuildReverse(kw.columns);
      var types := BuildReverse(kw.types);
      var values := BuildReverse(kw.values);
      var days := BuildReverse(kw.days);
      inv := Lookups(columns, types, values, days);
      headerRow := TranslateRow(headerRow, inv.columns);
    }
    var tr := if csvLang == "it" then Translated(inv, true) else Untranslated;
    result := Demultiplex(boundaries, headerRow, rows[2..], tr);
  }

  // ------------------------------------------------------------ its properties

  /** Empty text, or text of fewer than three rows, gives five empty tables. */
  lemma UnifiedTooShort(text: string, csvLang: string, kw: CsvKeywords)
    requires text == [] || |Grid(text)| < 3
    ensures Unified(text, csvLang, kw).Keys == TableNames
    ensures forall n | n in TableNames :: Unified(text, csvLang, kw)[n] == []
  {
  }

  /** Each of the five tables is exactly the rows of the ranges whose marker is
      its name, so markers other than the five names contribute nothing. */
  lemma UnifiedTable(text: string, csvLang: string, kw: CsvKeywords, name: string)
    requires text != [] && |Grid(text)| >= 3 && name in TableNames
    ensures
      var rows := Grid(text);
      var italian := csvLang == "it";
      var inv := if italian then InverseLookups(kw) else NoLookups;
      var hs := if italian then TranslateRow(KeyRow(rows[1]), inv.columns) else KeyRow(rows[1]);
      var tr := if italian then Translated(inv, true) else Untranslated;
      Unified(text, csvLang, kw)[name] == Gather(Runs(KeyRow(rows[0])), name, hs, rows[2..], tr)
  {
    var rows := Grid(text);
    var italian := csvLang == "it";
    var inv := if italian then InverseLookups(kw) else NoLookups;
    var hs := if italian then TranslateRow(KeyRow(rows[1]), inv.columns) else KeyRow(rows[1]);
    var tr := if italian then Translated(inv, true) else Untranslated;
    DemuxGather(Runs(KeyRow(rows[0])), hs, rows[2..], tr, name);
  }

  function CountWithData(rg: Range, hs: seq<string>, data: Cells): nat {
    if |data| == 0 then 0
    else
      CountWithData(rg, hs, data[..|data| - 1]) +
      (if AnyData(Slice(data[|data| - 1], rg.startCol, |TableHeaders(rg, hs)|)) then 1 else 0)
  }

  /** A range yields one record per data row that is non-blank within the range
      (blank rows are dropped), each keyed by exactly the range's headers. */
  lemma {:induction false} TableRowsShape(rg: Range, hs: seq<string>, data: Cells, tr: Translation)
    ensures |TableRows(rg, hs, data, tr)| == CountWithData(rg, hs, data)
    ensures forall r | r in TableRows(rg, hs, data, tr) :: forall k :: k in r <==> k in TableHeaders(rg, hs)
  {
    if |data| > 0 {
      TableRowsShape(rg, hs, data[..|data| - 1], tr);
      var th := TableHeaders(rg, hs);
      RecordKeys(th, Slice(data[|data| - 1], rg.startCol, |th|), tr);
    }
  }

  /** Untranslated, a row that is non-blank within its range gives one record,
      whose value under a header of the range (rightmost occurrence) is the
      row's cell in the corresponding column. */
  lemma RowRecordValue(rg: Range, hs: seq<string>, row: seq<string>, i: nat)
    requires i < |TableHeaders(rg, hs)|
    requires forall j :: i < j < |TableHeaders(rg, hs)| ==> TableHeaders(rg, hs)[j] != TableHeaders(rg, hs)[i]
    requires AnyData(Slice(row, rg.startCol, |TableHeaders(rg, hs)|))
    ensures |RowRecord(rg, hs, row, Untranslated)| == 1
    ensures TableHeaders(rg, hs)[i] in RowRecord(rg, hs, row, Untranslated)[0]
    ensures RowRecord(rg, hs, row, Untranslated)[0][TableHeaders(rg, hs)[i]] == Cell(row, rg.startCol + i)
  {
    var th := TableHeaders(rg, hs);
    var cells := Slice(row, rg.startCol, |th|);
    assert cells[i] == Cell(row, rg.startCol + i);
    RecordValue(th, cells, i);
    RowRecordOf(rg, hs, row, th, cells);
  }

  lemma RowRecordOf(rg: Range, hs: seq<string>, row: seq<string>, th: seq<string>, cells: seq<string>)
    requires th == TableHeaders(rg, hs) && cells == Slice(row, rg.startCol, |th|) && AnyData(cells)
    ensures RowRecord(rg, hs, row, Untranslated) == [RecordOf(th, cells, Untranslated)]
  {
  }

  /** In Italian mode a cell holding the Italian spelling of a boolean keyword
      (in any case, with surrounding blanks) is stored as the English keyword,
      provided the catalog spells each keyword once and differently. */
  lemma ItalianValueTranslated(kw: CsvKeywords, h: string, v: string, j: nat)
    requires Injective(kw.values) && j < |kw.values|
    requires h != "type" && h != "day" && v != []
    requires Key(v) == kw.values[j].1 && kw.values[j].0 != []
    ensures CellValue(h, v, Translated(InverseLookups(kw), true)) == kw.values[j].0
  {
    InverseValue(kw.values, j);
  }
}
