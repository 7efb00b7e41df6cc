/**
 The row loop of `write_struct` in `scripts/fetch_language_identifiers.py`: cells that cannot be
 parsed are filled from the row above, and a line is assembled from both of its ends.
 */
module LanguageTable {
  import opened Options
  import opened NumberText
  import opened LanguageLine

  datatype Column = IntColumn | StrColumn

  /** The arguments of write_struct; parse is integer parsing in the given base, which is not modelled. */
  datatype Config = Config(base: int, parse: string -> Option<int>, inv: bool, typemap: seq<Column>)

  const COLUMNS := 32

  /** str() of an entry of the carried list. */
  function Shown(o: Option<string>): string {
    match o case Some(s) => s case None => "None"
  }

  function Quoted(s: string): string { "\"" + s + "\"" }

  /** The column is declared, and not as text. */
  predicate IsInt(c: Config, pos: nat) {
    pos < |c.typemap| && c.typemap[pos] != StrColumn
  }

  /** What a cell leaves in the carried list; None leaves the entry as it is. */
  function Recorded(c: Config, pos: nat, e: string): Option<string> {
    match c.parse(e)
    case Some(v) => Render(c.base, v)
    case None => if IsInt(c, pos) || e == "" || e == "None" then None else Some(e)
  }

  /** What a cell puts into the line, given the entry of its column. */
  function Emitted(c: Config, pos: nat, e: string, carried: Option<string>): Piece {
    match c.parse(e)
    case Some(v) => Number(Shown(Render(c.base, v)))
    case None =>
      if IsInt(c, pos) then Text(Shown(carried))
      else if e == "" then Text(Quoted(Shown(carried)))
      else Text(Quoted(e))
  }

  /** The cell is handled without an index error. */
  predicate CellFits(c: Config, pos: nat, e: string) {
    match c.parse(e)
    case Some(v) => HasFormat(c.base) ==> pos < COLUMNS
    case None =>
      && (c.typemap != [] ==> pos < |c.typemap|)
      && (IsInt(c, pos) || e != "None" ==> pos < COLUMNS)
  }

  // ---------- Fill-down ----------

  /** The row records something in the column. */
  predicate Records(c: Config, row: seq<string>, pos: nat) {
    pos < |row| && Recorded(c, pos, row[pos]).Some?
  }

  /** The latest row that records something in the column. */
  function LatestRow(c: Config, rows: seq<seq<string>>, pos: nat): (r: Option<nat>)
    ensures r.None? ==> forall i :: 0 <= i < |rows| ==> !Records(c, rows[i], pos)
    ensures r.Some? ==>
      && r.value < |rows| && Records(c, rows[r.value], pos)
      && forall i :: r.value < i < |rows| ==> !Records(c, rows[i], pos)
  {
    if rows == [] then None
    else
      var n := |rows| - 1;
      if Records(c, rows[n], pos) then Some(n) else LatestRow(c, rows[..n], pos)
  }

  /** The entry of a column after some rows: what the latest row that records anything recorded. */
  function Carried(c: Config, rows: seq<seq<string>>, pos: nat): Option<string> {
    match LatestRow(c, rows, pos)
    case None => None
    case Some(r) => Recorded(c, pos, rows[r][pos])
  }

  /** The pieces of a row, in the order of its cells, after the rows above it. */
  function Pieces(c: Config, rows: seq<seq<string>>, row: seq<string>, n: nat): (ps: seq<Piece>)
    requires n <= |row|
    ensures |ps| == n
    ensures forall i :: 0 <= i < n ==> ps[i] == Emitted(c, i, row[i], Carried(c, rows, i))
  {
    if n == 0 then []
    else Pieces(c, rows, row, n - 1) + [Emitted(c, n - 1, row[n - 1], Carried(c, rows, n - 1))]
  }

  /** Row k has the latest value of the column before row r. */
  ghost predicate LatestBefore(c: Config, rows: seq<seq<string>>, r: nat, k: nat, pos: nat) {
    && k < r <= |rows| && Records(c, rows[k], pos)
    && forall i :: k < i < r ==> !Records(c, rows[i], pos)
  }

  lemma LatestIs(c: Config, before: seq<seq<string>>, k: nat, pos: nat)
    requires k < |before| && Records(c, before[k], pos)
    requires forall i :: k < i < |before| ==> !Records(c, before[i], pos)
    ensures LatestRow(c, before, pos) == Some(k)
  {
    assert LatestRow(c, before, pos) != None;
  }

  lemma {:induction false} CarriedIsLatest(c: Config, rows: seq<seq<string>>, r: nat, k: nat, pos: nat)
    requires LatestBefore(c, rows, r, k, pos)
    ensures Carried(c, rows[..r], pos) == Recorded(c, pos, rows[k][pos])
  {
    var before := rows[..r];
    forall i | 0 <= i < r ensures before[i] == rows[i] { }
    LatestIs(c, before, k, pos);
  }

  /** The row has a number in the column. */
  predicate Parses(c: Config, row: seq<string>, pos: nat) {
    pos < |row| && c.parse(row[pos]).Some?
  }

  /** In a declared integer column a cell that cannot be parsed is written as the most recent number
      parsed above it. */
  lemma {:induction false} IntColumnFillsDown(c: Config, rows: seq<seq<string>>, r: nat, k: nat, pos: nat)
    requires IsInt(c, pos) && HasFormat(c.base)
    requires k < r < |rows| && pos < |rows[r]| && c.parse(rows[r][pos]).None?
    requires Parses(c, rows[k], pos) && forall i :: k < i < r ==> !Parses(c, rows[i], pos)
    ensures Pieces(c, rows[..r], rows[r], |rows[r]|)[pos]
         == Text(Render(c.base, c.parse(rows[k][pos]).value).value)
  {
    assert Records(c, rows[k], pos);
    forall i | k < i < r ensures !Records(c, rows[i], pos) {
      assert !Parses(c, rows[i], pos);
    }
    CarriedIsLatest(c, rows, r, k, pos);
  }

  lemma {:induction false} NothingCarried(c: Config, rows: seq<seq<string>>, r: nat, pos: nat)
    requires r <= |rows| && forall i :: 0 <= i < r ==> !Records(c, rows[i], pos)
    ensures Carried(c, rows[..r], pos) == None
  {
    forall i | 0 <= i < r ensures !Records(c, rows[..r][i], pos) {
      assert rows[..r][i] == rows[i];
    }
  }

  /** While no number has been parsed in the column, the word None is written. */
  lemma {:induction false} IntColumnStartsWithNone(c: Config, rows: seq<seq<string>>, r: nat, pos: nat)
    requires IsInt(c, pos)
    requires r < |rows| && pos < |rows[r]| && c.parse(rows[r][pos]).None?
    requires forall i :: 0 <= i < r ==> !Parses(c, rows[i], pos)
    ensures Pieces(c, rows[..r], rows[r], |rows[r]|)[pos] == Text("None")
  {
    forall i | 0 <= i < r ensures !Records(c, rows[i], pos) {
      assert !Parses(c, rows[i], pos);
    }
    NothingCarried(c, rows, r, pos);
  }

  /** The row has a text of its own in the column. */
  predicate HasText(c: Config, row: seq<string>, pos: nat) {
    pos < |row| && (c.parse(row[pos]).Some? || (row[pos] != "" && row[pos] != "None"))
  }

  /** Elsewhere an empty cell is written as the most recent text above it, in quotes; a number counts
      in the format it was printed in. */
  lemma {:induction false} TextColumnFillsDown(c: Config, rows: seq<seq<string>>, r: nat, k: nat, pos: nat)
    requires !IsInt(c, pos) && HasFormat(c.base)
    requires k < r < |rows| && pos < |rows[r]| && c.parse("").None? && rows[r][pos] == ""
    requires HasText(c, rows[k], pos) && forall i :: k < i < r ==> !HasText(c, rows[i], pos)
    ensures Pieces(c, rows[..r], rows[r], |rows[r]|)[pos] == Text("\"" + (
      if c.parse(rows[k][pos]).Some? then Render(c.base, c.parse(rows[k][pos]).value).value else rows[k][pos]) + "\"")
  {
    assert Records(c, rows[k], pos);
    forall i | k < i < r ensures !Records(c, rows[i], pos) {
      assert !HasText(c, rows[i], pos);
    }
    CarriedIsLatest(c, rows, r, k, pos);
  }

  /** While the column has had no text, an empty cell is written as the word None in quotes. */
  lemma {:induction false} TextColumnStartsWithNone(c: Config, rows: seq<seq<string>>, r: nat, pos: nat)
    requires !IsInt(c, pos)
    requires r < |rows| && pos < |rows[r]| && c.parse("").None? && rows[r][pos] == ""
    requires forall i :: 0 <= i < r ==> !HasText(c, rows[i], pos)
    ensures Pieces(c, rows[..r], rows[r], |rows[r]|)[pos] == Text("\"None\"")
  {
    forall i | 0 <= i < r ensures !Records(c, rows[i], pos) {
      assert !HasText(c, rows[i], pos);
    }
    NothingCarried(c, rows, r, pos);
  }

  /** A cell that parses is written as its number in the format of the base. */
  lemma NumberIsWritten(c: Config, rows: seq<seq<string>>, row: seq<string>, pos: nat, v: int)
    requires pos < |row| && c.parse(row[pos]) == Some(v)
    ensures Pieces(c, rows, row, |row|)[pos] == Number(if HasFormat(c.base) then Render(c.base, v).value else "None")
  {
  }

  /** In a text column a cell that does not parse and is not empty is written as it is, in quotes. */
  lemma TextIsWritten(c: Config, rows: seq<seq<string>>, row: seq<string>, pos: nat)
    requires pos < |row| && c.parse(row[pos]).None? && row[pos] != ""
    requires c.typemap == [] || (pos < |c.typemap| && c.typemap[pos] == StrColumn)
    ensures Pieces(c, rows, row, |row|)[pos] == Text("\"" + row[pos] + "\"")
  {
  }

  // ---------- The table ----------

  /** The text of one row. */
  function RowText(c: Config, rows: seq<seq<string>>, row: seq<string>): string {
    "\t{ " + Trimmed(LineOf(c.inv, Pieces(c, rows, row, |row|))) + "},\n"
  }

  function TableText(c: Config, rows: seq<seq<string>>): string
    decreases |rows|
  {
    if rows == [] then ""
    else
      var n := |rows| - 1;
      TableText(c, rows[..n]) + RowText(c, rows[..n], rows[n])
  }

  /** The characters of a row: its pieces in the order they are written, between brackets. */
  function RowWritten(c: Config, above: seq<seq<string>>, row: seq<string>): string {
    "\t{ " + Separated(Ordered(c.inv, Pieces(c, above, row, |row|))) + "},\n"
  }

  lemma RowIsWritten(c: Config, above: seq<seq<string>>, row: seq<string>)
    ensures RowText(c, above, row) == RowWritten(c, above, row)
  {
    LineIsSeparated(c.inv, Pieces(c, above, row, |row|));
  }

  /** The rows from r on, one after the other, each below the rows before it. */
  function RowsWritten(c: Config, rows: seq<seq<string>>, r: nat): string
    requires r <= |rows|
    decreases |rows| - r
  {
    if r == |rows| then "" else RowWritten(c, rows[..r], rows[r]) + RowsWritten(c, rows, r + 1)
  }

  /** The text of the table is that of its rows from first to last. */
  lemma {:induction false} TableIsWritten(c: Config, rows: seq<seq<string>>, r: nat)
    requires r <= |rows|
    ensures TableText(c, rows) == TableText(c, rows[..r]) + RowsWritten(c, rows, r)
    decreases |rows| - r
  {
    if r == |rows| {
      assert rows[..r] == rows;
    } else {
      TableIsWritten(c, rows, r + 1);
      TableSnoc(c, rows, r, TableText(c, rows[..r]));
      RowIsWritten(c, rows[..r], rows[r]);
      Associates(TableText(c, rows[..r]), RowText(c, rows[..r], rows[r]), RowsWritten(c, rows, r + 1));
    }
  }

  lemma Associates(a: string, b: string, d: string)
    ensures (a + b) + d == a + (b + d)
  {
  }

  /** Every cell is handled without an index error. */
  ghost predicate RowFits(c: Config, row: seq<string>) {
    CellsFit(c, row, |row|)
  }

  ghost predicate CellsFit(c: Config, row: seq<string>, n: nat)
    requires n <= |row|
  {
    forall pos :: 0 <= pos < n ==> CellFits(c, pos, row[pos])
  }

  /** In a table without declared columns only the word None may stand beyond the 32nd cell. */
  lemma UntypedRowFits(c: Config, row: seq<string>)
    requires c.typemap == [] && HasFormat(c.base)
    ensures RowFits(c, row) <==> forall pos :: 32 <= pos < |row| ==> c.parse(row[pos]).None? && row[pos] == "None"
  {
    if RowFits(c, row) {
      forall pos | 32 <= pos < |row| ensures c.parse(row[pos]).None? && row[pos] == "None" {
        assert CellFits(c, pos, row[pos]);
      }
    }
  }

  /** The cell is a number among the first 32. */
  predicate IsNumberCell(c: Config, row: seq<string>, pos: nat) {
    pos < |row| && pos < 32 && c.parse(row[pos]).Some?
  }

  /** In a table with at most 32 declared columns only such cells may stand beyond them. */
  lemma TypedRowFits(c: Config, row: seq<string>)
    requires 0 < |c.typemap| <= 32 && HasFormat(c.base)
    ensures RowFits(c, row) <==> forall pos :: |c.typemap| <= pos < |row| ==> IsNumberCell(c, row, pos)
  {
    forall pos | 0 <= pos < |row|
      ensures CellFits(c, pos, row[pos]) <==> pos < |c.typemap| || IsNumberCell(c, row, pos)
    {
    }
    if forall pos :: |c.typemap| <= pos < |row| ==> IsNumberCell(c, row, pos) {
      forall pos | 0 <= pos < |row| ensures CellFits(c, pos, row[pos]) {
        assert pos < |c.typemap| || IsNumberCell(c, row, pos);
      }
    }
  }

  lemma CellsFitSnoc(c: Config, row: seq<string>, n: nat)
    requires n < |row|
    ensures CellsFit(c, row, n + 1) <==> CellsFit(c, row, n) && CellFits(c, n, row[n])
  {
  }

  lemma RowFitsOnlyIf(c: Config, row: seq<string>, n: nat)
    requires n < |row| && RowFits(c, row)
    ensures CellFits(c, n, row[n])
  {
  }

  ghost predicate TableFits(c: Config, rows: seq<seq<string>>) {
    RowsFit(c, rows, |rows|)
  }

  ghost predicate RowsFit(c: Config, rows: seq<seq<string>>, n: nat)
    requires n <= |rows|
  {
    forall r :: 0 <= r < n ==> RowFits(c, rows[r])
  }

  lemma RowsFitSnoc(c: Config, rows: seq<seq<string>>, n: nat)
    requires n < |rows|
    ensures RowsFit(c, rows, n + 1) <==> RowsFit(c, rows, n) && RowFits(c, rows[n])
  {
  }

  lemma TableFitsOnlyIf(c: Config, rows: seq<seq<string>>, n: nat)
    requires n < |rows| && TableFits(c, rows)
    ensures RowFits(c, rows[n])
  {
  }

  /** The carried list is the column-wise history of the rows so far. */
  ghost predicate CarriesHistory(c: Config, rows: seq<seq<string>>, last: seq<Option<string>>) {
    |last| == COLUMNS && forall p :: 0 <= p < COLUMNS ==> last[p] == Carried(c, rows, p)
  }

  lemma CarriedSnoc(c: Config, rows: seq<seq<string>>, row: seq<string>, pos: nat)
    ensures Carried(c, rows + [row], pos) ==
      if Records(c, row, pos) then Recorded(c, pos, row[pos]) else Carried(c, rows, pos)
  {
    assert (rows + [row])[..|rows|] == rows;
  }

  /** One cell: the entry of its column and the piece it puts into the line. */
  method WriteCell(c: Config, last: array<Option<string>>, pos: nat, e: string) returns (piece: Option<Piece>)
    requires last.Length == COLUMNS
    modifies last
    ensures piece.Some? <==> CellFits(c, pos, e)
    ensures piece.Some? && pos < COLUMNS ==>
      && piece.value == Emitted(c, pos, e, old(last[pos]))
      && last[pos] == if Recorded(c, pos, e).Some? then Recorded(c, pos, e) else old(last[pos])
    ensures piece.Some? && pos >= COLUMNS ==> piece.value == Emitted(c, pos, e, None) && Recorded(c, pos, e).None?
    ensures forall p :: 0 <= p < COLUMNS && p != pos ==> last[p] == old(last[p])
  {
    var v := c.parse(e);
    if v.Some? {
      var h := Render(c.base, v.value);
      if h.Some? {
        if pos >= COLUMNS { return None; }
        last[pos] := h;
      }
      return Some(Number(Shown(h)));
    }
    if c.typemap != [] && pos >= |c.typemap| { return None; }
    if c.typemap != [] && c.typemap[pos] != StrColumn {
      if pos >= COLUMNS { return None; }
      return Some(Text(Shown(last[pos])));
    }
    if e == "" {
      if pos >= COLUMNS { return None; }
      return Some(Text(Quoted(Shown(last[pos]))));
    }
    if e != "None" {
      if pos >= COLUMNS { return None; }
      last[pos] := Some(e);
    }
    return Some(Text(Quoted(e)));
  }

  /** The carried list in the middle of a row: the cells so far have left what they record. */
  ghost predicate Midway(c: Config, row: seq<string>, n: nat, before: seq<Option<string>>,
                         last: seq<Option<string>>)
    requires n <= |row|
  {
    && |before| == COLUMNS && |last| == COLUMNS
    && forall p :: 0 <= p < COLUMNS ==>
      last[p] == if p < n && Records(c, row, p) then Recorded(c, p, row[p]) else before[p]
  }

  lemma {:induction false} RowDone(c: Config, rows: seq<seq<string>>, row: seq<string>,
                                  before: seq<Option<string>>, last: seq<Option<string>>)
    requires CarriesHistory(c, rows, before) && Midway(c, row, |row|, before, last)
    ensures CarriesHistory(c, rows + [row], last)
  {
    forall p | 0 <= p < COLUMNS ensures last[p] == Carried(c, rows + [row], p) {
      CarriedSnoc(c, rows, row, p);
    }
  }

  /** The line after the first n cells of a row. */
  ghost predicate LineSoFar(c: Config, rows: seq<seq<string>>, row: seq<string>, n: nat, line: string)
    requires n <= |row|
  {
    line == LineOf(c.inv, Pieces(c, rows, row, n))
  }

  lemma {:induction false} LineSnoc(c: Config, rows: seq<seq<string>>, row: seq<string>, n: nat, line: string, p: Piece)
    requires n < |row| && LineSoFar(c, rows, row, n, line)
    requires p == Emitted(c, n, row[n], Carried(c, rows, n))
    ensures LineSoFar(c, rows, row, n + 1, Extended(c.inv, line, p))
  {
    var ps := Pieces(c, rows, row, n + 1);
    assert ps[..n] == Pieces(c, rows, row, n);
    assert ps[n] == p;
  }

  /** The piece does not depend on the entry of a column the list does not have. */
  lemma EntryUnused(c: Config, pos: nat, e: string, carried: Option<string>)
    requires CellFits(c, pos, e) && pos >= COLUMNS
    ensures Emitted(c, pos, e, carried) == Emitted(c, pos, e, None)
  {
  }

  /** A cell in the middle of a row. */
  method WriteNext(c: Config, last: array<Option<string>>, ghost rows: seq<seq<string>>,
                   ghost before: seq<Option<string>>, row: seq<string>, pos: nat)
    returns (piece: Option<Piece>)
    requires pos < |row| && last.Length == COLUMNS
    requires CarriesHistory(c, rows, before) && Midway(c, row, pos, before, last[..])
    modifies last
    ensures piece.Some? <==> CellFits(c, pos, row[pos])
    ensures piece.Some? ==>
      && piece.value == Emitted(c, pos, row[pos], Carried(c, rows, pos))
      && Midway(c, row, pos + 1, before, last[..])
  {
    piece := WriteCell(c, last, pos, row[pos]);
    if piece.Some? && pos >= COLUMNS {
      EntryUnused(c, pos, row[pos], Carried(c, rows, pos));
    }
  }

  /** In the middle of a row: the line, the carried list, and every cell so far handled. */
  ghost predicate RowSoFar(c: Config, rows: seq<seq<string>>, row: seq<string>, n: nat, line: string,
                           before: seq<Option<string>>, last: seq<Option<string>>)
    requires n <= |row|
  {
    LineSoFar(c, rows, row, n, line) && CellsFit(c, row, n) && Midway(c, row, n, before, last)
  }

  /** One turn of the loop over the cells. */
  method WriteTurn(c: Config, last: array<Option<string>>, ghost rows: seq<seq<string>>,
                   ghost before: seq<Option<string>>, row: seq<string>, pos: nat, line: string)
    returns (more: Option<string>)
    requires pos < |row| && last.Length == COLUMNS
    requires CarriesHistory(c, rows, before) && RowSoFar(c, rows, row, pos, line, before, last[..])
    modifies last
    ensures more.None? ==> !RowFits(c, row)
    ensures more.Some? ==> RowSoFar(c, rows, row, pos + 1, more.value, before, last[..])
  {
    var piece := WriteNext(c, last, rows, before, row, pos);
    if piece.None? {
      if RowFits(c, row) { RowFitsOnlyIf(c, row, pos); }
      return None;
    }
    CellsFitSnoc(c, row, pos);
    LineSnoc(c, rows, row, pos, line, piece.value);
    more := Some(Extended(c.inv, line, piece.value));
  }

  /** The cells of a row; None where the program ends with an index error. */
  method WriteLine(c: Config, last: array<Option<string>>, ghost rows: seq<seq<string>>, row: seq<string>)
    returns (line: Option<string>)
    requires CarriesHistory(c, rows, last[..])
    modifies last
    ensures line.Some? <==> RowFits(c, row)
    ensures line.Some? ==>
      && LineSoFar(c, rows, row, |row|, line.value)
      && CarriesHistory(c, rows + [row], last[..])
  {
    line := Some("");
    ghost var before := last[..];
    for pos := 0 to |row|
      invariant line.Some? && RowSoFar(c, rows, row, pos, line.value, before, last[..])
    {
      line := WriteTurn(c, last, rows, before, row, pos, line.value);
      if line.None? { return; }
    }
    RowDone(c, rows, row, before, last[..]);
  }

  /** One row of the struct. */
  method WriteRow(c: Config, last: array<Option<string>>, ghost rows: seq<seq<string>>, row: seq<string>)
    returns (text: Option<string>)
    requires CarriesHistory(c, rows, last[..])
    modifies last
    ensures text.Some? <==> RowFits(c, row)
    ensures text.Some? ==> text.value == RowText(c, rows, row) && CarriesHistory(c, rows + [row], last[..])
  {
    var line := WriteLine(c, last, rows, row);
    if line.None? { return None; }
    text := Some("\t{ " + Trimmed(line.value) + "},\n");
  }

  /** The text of the first n rows of a table. */
  ghost predicate TextSoFar(c: Config, rows: seq<seq<string>>, n: nat, text: string)
    requires n <= |rows|
  {
    text == TableText(c, rows[..n])
  }

  lemma TableSnoc(c: Config, rows: seq<seq<string>>, n: nat, text: string)
    requires n < |rows| && TextSoFar(c, rows, n, text)
    ensures rows[..n + 1] == rows[..n] + [rows[n]]
    ensures TextSoFar(c, rows, n + 1, text + RowText(c, rows[..n], rows[n]))
  {
    assert rows[..n + 1][..n] == rows[..n];
  }

  /** The rows of a table: the text is that of the column-wise histories, or the program ends at a
      cell that does not fit. */
  method WriteStruct(c: Config, languages: seq<seq<string>>) returns (text: Option<string>)
    ensures text.Some? <==> TableFits(c, languages)
    ensures text.Some? ==> text.value == RowsWritten(c, languages, 0)
  {
    var last := new Option<string>[COLUMNS](_ => None);
    var out := "";
    for r := 0 to |languages|
      invariant RowsFit(c, languages, r)
      invariant CarriesHistory(c, languages[..r], last[..])
      invariant TextSoFar(c, languages, r, out)
    {
      var row := WriteRow(c, last, languages[..r], languages[r]);
      if row.None? {
        if TableFits(c, languages) { TableFitsOnlyIf(c, languages, r); }
        return None;
      }
      RowsFitSnoc(c, languages, r);
      TableSnoc(c, languages, r, out);
      out := out + row.value;
    }
    text := Some(out);
    assert languages[..|languages|] == languages;
    TableIsWritten(c, languages, 0);
  }
}
