/**
 * The Excel output of excel.py, with the worksheet replaced by a record
 * of what is written to it.
 *
 * A `TableSheet` keeps the write cursor (`row`, `col`) and the extent of
 * what has been written (`max_row`, `max_col`), which the table and the
 * conditional formats later span. Every sheet the source creates is a
 * `TableSheet`, so the cursor of `Sheet` and the header map of
 * `TableSheet` live in one class here. A cell value is a `Datum`, where
 * `Nothing` is Python's `None`; formats are named.
 */
module Excel {
  import opened Errors
  import opened Strs
  import Headers
  import Truncation
  import Utils
  import StatTables
  import StatRows

  /** `MAX_LENGTH_SHEET_NAME`, the longest sheet name Excel accepts. */
  const MaxLengthSheetName := 31

  /** The number of author colours of a `Book`. */
  const AuthorColourCount := 7

  datatype Datum = Nothing | Number(n: int) | Str(s: string)

  datatype Format = Default | Named(name: string) | AuthorColour(index: nat)

  /** A cell written to the worksheet. */
  datatype Cell = Cell(row: nat, col: nat, data: Datum, format: Format)

  /** The criterion of a conditional format on the ID column, `$A2`. */
  datatype Criterion = Equals(v: nat) | AtLeast(v: nat) | Parity(r: nat)

  /** A conditional format over rows 1 to `lastRow` and columns 0 to `lastCol`. */
  datatype Rule = Rule(lastRow: nat, lastCol: nat, criterion: Criterion, format: Format)

  /** The cells `worksheet.add_table` covers: rows and columns from 0 to these. */
  datatype Extent = Extent(lastRow: nat, lastCol: nat)

  function Max(a: nat, b: nat): nat
  {
    if a < b then b else a
  }

  // ------------------------------------------------------------ cells

  /** `[data for data in data_list if data is not None]`. */
  function Present(data: seq<Datum>): (r: seq<Datum>)
    ensures |r| <= |data|
    ensures forall d :: d in r <==> d in data && d != Nothing
  {
    if data == [] then []
    else (if data[0] == Nothing then [] else [data[0]]) + Present(data[1..])
  }

  /** Dropping `None` keeps the other items in order: it distributes over concatenation. */
  lemma {:induction false} PresentConcat(a: seq<Datum>, b: seq<Datum>)
    ensures Present(a + b) == Present(a) + Present(b)
  {
    if a == [] {
      assert a + b == b;
    } else {
      assert (a + b)[1..] == a[1..] + b;
      PresentConcat(a[1..], b);
    }
  }

  /** A row without `None` is written as it is. */
  lemma {:induction false} PresentKeepsAll(data: seq<Datum>)
    requires Nothing !in data
    ensures Present(data) == data
  {
    if data != [] {
      assert Nothing !in data[1..] by {
        forall d | d in data[1..] ensures d != Nothing { assert d in data; }
      }
      PresentKeepsAll(data[1..]);
    }
  }

  /** `worksheet.write_row(row, col, items, format)`: the items in consecutive columns from `col`. */
  function RowCells(row: nat, col: nat, items: seq<Datum>, format: Format): (cells: seq<Cell>)
    ensures |cells| == |items|
  {
    seq(|items|, k requires 0 <= k < |items| => Cell(row, col + k, items[k], format))
  }

  /** `chr(ord("A") + n)`, or `ValueError` when that is not a character. */
  function NumberToLetter(n: nat): (r: Result<char>)
    ensures n < 26 ==> r.Ok? && 'A' <= r.value <= 'Z'
  {
    var code := 'A' as int + n;
    if code < 0xD800 || 0xE000 <= code < 0x11_0000 then Ok(code as char) else Raise(ValueError)
  }

  /** Different columns before "Z" get different letters, and the letter gives back the column. */
  lemma NumberToLetterInjective(m: nat, n: nat)
    requires m < 26 && n < 26
    ensures NumberToLetter(m).value as int - 'A' as int == m
    ensures m != n ==> NumberToLetter(m) != NumberToLetter(n)
  {
  }

  // ----------------------------------------------------------- header

  /** `{head: col for col, head in enumerate(heads)}`: a later duplicate wins. */
  function Positions(heads: seq<string>): map<string, nat>
  {
    if heads == [] then map[]
    else Positions(heads[..|heads| - 1])[heads[|heads| - 1] := |heads| - 1]
  }

  predicate Distinct(heads: seq<string>)
  {
    forall i, j :: 0 <= i < j < |heads| ==> heads[i] != heads[j]
  }

  /**
   * Every header has a column, and only headers do; a header's column holds
   * that header and no later column does. For distinct headers the column
   * of the `i`-th is `i`.
   */
  lemma {:induction false} PositionsMeaning(heads: seq<string>)
    ensures forall h :: h in Positions(heads) <==> h in heads
    ensures forall h :: h in Positions(heads) ==>
      Positions(heads)[h] < |heads| && heads[Positions(heads)[h]] == h &&
      forall j :: Positions(heads)[h] < j < |heads| ==> heads[j] != h
    ensures Distinct(heads) ==> forall i :: 0 <= i < |heads| ==> Positions(heads)[heads[i]] == i
  {
    if heads != [] {
      var n := |heads| - 1;
      var front := heads[..n];
      PositionsMeaning(front);
      assert heads == front + [heads[n]];
      forall h | h in Positions(heads)
        ensures Positions(heads)[h] < |heads| && heads[Positions(heads)[h]] == h
        ensures forall j :: Positions(heads)[h] < j < |heads| ==> heads[j] != h
      {
        if h != heads[n] {
          assert Positions(heads)[h] == Positions(front)[h];
          assert forall j :: Positions(front)[h] < j < n ==> front[j] != h;
        }
      }
      if Distinct(heads) {
        assert Distinct(front);
        forall i | 0 <= i < |heads|
          ensures Positions(heads)[heads[i]] == i
        {
          if i < n {
            assert heads[i] == front[i] && heads[i] != heads[n];
          }
        }
      }
    }
  }

  /** `head_to_letter` on a header map: `KeyError` for a head without a column. */
  function HeadLetter(head2col: map<string, nat>, head: string): Result<char>
  {
    if head in head2col then NumberToLetter(head2col[head]) else Raise(KeyError)
  }

  /** After `create_header` on distinct headers, the `i`-th header's letter is the `i`-th letter; other heads raise. */
  lemma HeadLetterAfterHeader(heads: seq<string>, i: nat, other: string)
    requires Distinct(heads) && i < |heads| && i < 26 && other !in heads
    ensures HeadLetter(Positions(heads), heads[i]) == NumberToLetter(i)
    ensures HeadLetter(Positions(heads), heads[i]).Ok?
    ensures HeadLetter(Positions(heads), other) == Raise(KeyError)
  {
    PositionsMeaning(heads);
  }

  // ------------------------------------------------ conditional formats

  /** The formula text xlsxwriter gets. */
  function CriterionText(c: Criterion): string
  {
    match c
    case Equals(v) => "$A2=" + NatToString(v)
    case AtLeast(v) => "$A2>=" + NatToString(v)
    case Parity(r) => "MOD($A2,2)=" + NatToString(r)
  }

  /** Whether a row whose ID is `id` meets the criterion; Excel's MOD has the sign of the divisor. */
  predicate Holds(c: Criterion, id: int)
  {
    match c
    case Equals(v) => id == v
    case AtLeast(v) => id >= v
    case Parity(r) => id % 2 == r
  }

  /** Colour `i` of `k`: "$A2=i+1", except the last colour, "$A2>=k". */
  function AuthorCriterion(i: nat, k: nat): Criterion
  {
    if i < k - 1 then Equals(i + 1) else AtLeast(i + 1)
  }

  /** The rules `set_conditional_author_formats` adds for the first `n` of `k` colours. */
  function AuthorRules(n: nat, k: nat, lastRow: nat, lastCol: nat): (rules: seq<Rule>)
    ensures |rules| == n
  {
    if n == 0 then []
    else AuthorRules(n - 1, k, lastRow, lastCol) + [Rule(lastRow, lastCol, AuthorCriterion(n - 1, k), AuthorColour(n - 1))]
  }

  /**
   * With `k` colours, an author numbered 1 or more meets exactly one
   * colour's criterion: its own number's colour up to `k`, the last colour
   * from `k` on. Author number 0, for excluded authors, meets none.
   */
  lemma AuthorColourUnique(k: nat, id: int)
    requires k >= 1
    ensures forall i :: 0 <= i < k ==>
      (Holds(AuthorCriterion(i, k), id) <==> id >= 1 && i == (if id < k then id else k) - 1)
  {
  }

  /** The i-th author rule is colour i with its criterion. */
  lemma {:induction false} AuthorRulesAt(n: nat, k: nat, lastRow: nat, lastCol: nat, i: nat)
    requires i < n
    ensures AuthorRules(n, k, lastRow, lastCol)[i] == Rule(lastRow, lastCol, AuthorCriterion(i, k), AuthorColour(i))
  {
    if i < n - 1 {
      AuthorRulesAt(n - 1, k, lastRow, lastCol, i);
    }
  }

  /** `set_conditional_file_formats`: odd IDs white, even IDs light green. */
  function FileRules(lastRow: nat, lastCol: nat): (rules: seq<Rule>)
  {
    [Rule(lastRow, lastCol, Parity(1), Named("row_white")), Rule(lastRow, lastCol, Parity(0), Named("row_light_green"))]
  }

  /** Every ID meets exactly one of the two file rules, and consecutive IDs meet different ones. */
  lemma FileRulesAlternate(lastRow: nat, lastCol: nat, id: int)
    ensures var rules := FileRules(lastRow, lastCol);
      && (Holds(rules[0].criterion, id) <==> !Holds(rules[1].criterion, id))
      && (Holds(rules[0].criterion, id) <==> Holds(rules[1].criterion, id + 1))
  {
  }

  // ------------------------------------------------------- table rows

  /** The cells of the first `n` rows written from sheet row `r0` on, each from column 0. */
  function TableCells(rows: seq<seq<Datum>>, r0: nat, n: nat): seq<Cell>
    requires n <= |rows|
  {
    if n == 0 then []
    else TableCells(rows, r0, n - 1) + RowCells(r0 + n - 1, 0, Present(rows[n - 1]), Default)
  }

  /**
   * Data row `i` lands on sheet row `r0 + i`, its items without `None`
   * left-aligned from column 0, unformatted.
   */
  lemma {:induction false} TableCellsPlaced(rows: seq<seq<Datum>>, r0: nat, n: nat)
    requires n <= |rows|
    ensures forall c :: c in TableCells(rows, r0, n) ==>
      && r0 <= c.row < r0 + n
      && c.col < |Present(rows[c.row - r0])|
      && c.data == Present(rows[c.row - r0])[c.col]
      && c.format == Default
  {
    if n > 0 {
      TableCellsPlaced(rows, r0, n - 1);
      var last := RowCells(r0 + n - 1, 0, Present(rows[n - 1]), Default);
      forall c | c in last
        ensures c.row == r0 + n - 1 && c.col < |Present(rows[n - 1])| && c.data == Present(rows[n - 1])[c.col]
      {
        var k :| 0 <= k < |last| && last[k] == c;
      }
    }
  }

  /** The format of a blame row's code cell. */
  function CodeFormat(isComment: bool): Format
  {
    if isComment then Named("code_italic_format") else Named("code_format")
  }

  /** One blame row on sheet row `r`: the fields before the code, then the code cell in its format. */
  function BlameRowCells(r: nat, row: seq<Datum>, isComment: bool, codeCol: nat): seq<Cell>
    requires codeCol < |row|
  {
    var front := Present(row[..codeCol]);
    RowCells(r, 0, front, Default) + [Cell(r, |front|, row[codeCol], CodeFormat(isComment))]
  }

  /**
   * A blame row's code cell is the last cell, follows the other fields
   * directly, holds the code, and is italic iff the line is a comment;
   * no other cell of the row has a code format.
   */
  lemma BlameRowCodeCell(r: nat, row: seq<Datum>, isComment: bool, codeCol: nat)
    requires codeCol < |row|
    ensures var cells := BlameRowCells(r, row, isComment, codeCol);
      && |cells| == |Present(row[..codeCol])| + 1
      && cells[|cells| - 1] == Cell(r, |Present(row[..codeCol])|, row[codeCol], CodeFormat(isComment))
      && (cells[|cells| - 1].format == Named("code_italic_format") <==> isComment)
      && forall k :: 0 <= k < |cells| - 1 ==> cells[k].format == Default && cells[k].col == k
  {
  }

  /** The cells of the first `n` blame rows, row `i` on sheet row `r0 + 1 + i`. */
  function BlameCells(rows: seq<seq<Datum>>, isComments: seq<bool>, r0: nat, codeCol: nat, n: nat): seq<Cell>
    requires n <= |rows| && n <= |isComments|
    requires forall i :: 0 <= i < n ==> codeCol < |rows[i]|
  {
    if n == 0 then []
    else BlameCells(rows, isComments, r0, codeCol, n - 1) + BlameRowCells(r0 + n, rows[n - 1], isComments[n - 1], codeCol)
  }

  // ------------------------------------------------------------ sheets

  class TableSheet {
    var row: nat
    var col: nat
    var maxRow: nat
    var maxCol: nat
    /** The cells written through the cursor, in order. */
    var cells: seq<Cell>
    /** The header cells written over the table's header row. */
    var headerCells: seq<Cell>
    var rules: seq<Rule>
    var table: Option<Extent>
    const headerItems: seq<string>
    var head2col: map<string, nat>

    /** Every cell written through the cursor lies within the extent. */
    ghost predicate Covered()
      reads this
    {
      forall i :: 0 <= i < |cells| ==> cells[i].row <= maxRow && cells[i].col <= maxCol
    }

    constructor (headerItems: seq<string>)
      ensures this.headerItems == headerItems
      ensures row == 0 && col == 0 && maxRow == 0 && maxCol == 0
      ensures cells == [] && headerCells == [] && rules == [] && table == None && head2col == map[]
      ensures Covered()
    {
      this.headerItems := headerItems;
      row, col, maxRow, maxCol := 0, 0, 0, 0;
      cells, headerCells, rules, table, head2col := [], [], [], None, map[];
    }

    method SetPos(r: nat, c: nat)
      modifies this`row, this`col
      ensures row == r && col == c
    {
      row, col := r, c;
    }

    method IncRow()
      modifies this`row
      ensures row == old(row) + 1
    {
      row := row + 1;
    }

    method IncCol()
      modifies this`col
      ensures col == old(col) + 1
    {
      col := col + 1;
    }

    method ResetCol()
      modifies this`col
      ensures col == 0
    {
      col := 0;
    }

    /** `next_row`: the start of the next row. */
    method NextRow()
      modifies this`row, this`col
      ensures row == old(row) + 1 && col == 0
    {
      IncRow();
      ResetCol();
    }

    /** `update_max`: the extent grows to cover (r, c) and never shrinks. */
    method UpdateMax(r: nat, c: nat)
      modifies this`maxRow, this`maxCol
      ensures maxRow == Max(old(maxRow), r) && maxCol == Max(old(maxCol), c)
      ensures old(maxRow) <= maxRow && old(maxCol) <= maxCol
    {
      maxRow := Max(maxRow, r);
      maxCol := Max(maxCol, c);
    }

    /** `write`: one cell at the cursor, which then moves one column right. */
    method Write(data: Datum, format: Format)
      modifies this`cells, this`maxRow, this`maxCol, this`col
      ensures cells == old(cells) + [Cell(row, old(col), data, format)]
      ensures col == old(col) + 1
      ensures maxRow == Max(old(maxRow), row) && maxCol == Max(old(maxCol), old(col))
      ensures old(Covered()) ==> Covered()
    {
      cells := cells + [Cell(row, col, data, format)];
      UpdateMax(row, col);
      IncCol();
    }

    /** `write_number`. */
    method WriteNumber(n: int)
      modifies this`cells, this`maxRow, this`maxCol, this`col
      ensures cells == old(cells) + [Cell(row, old(col), Number(n), Default)]
      ensures col == old(col) + 1
      ensures maxRow == Max(old(maxRow), row) && maxCol == Max(old(maxCol), old(col))
      ensures old(Covered()) ==> Covered()
    {
      Write(Number(n), Default);
    }

    /** `write_string`. */
    method WriteString(s: string)
      modifies this`cells, this`maxRow, this`maxCol, this`col
      ensures cells == old(cells) + [Cell(row, old(col), Str(s), Default)]
      ensures col == old(col) + 1
      ensures maxRow == Max(old(maxRow), row) && maxCol == Max(old(maxCol), old(col))
      ensures old(Covered()) ==> Covered()
    {
      Write(Str(s), Default);
    }

    /**
     * `write_row`: the items that are not `None`, from the cursor on; the
     * cursor moves past them. Without such items nothing changes.
     */
    method WriteRow(data: seq<Datum>, format: Format)
      modifies this`cells, this`maxRow, this`maxCol, this`row, this`col
      ensures row == old(row)
      ensures cells == old(cells) + RowCells(row, old(col), Present(data), format)
      ensures col == old(col) + |Present(data)|
      ensures Present(data) == [] ==> maxRow == old(maxRow) && maxCol == old(maxCol)
      ensures Present(data) != [] ==>
        maxRow == Max(old(maxRow), row) && maxCol == Max(old(maxCol), old(col) + |Present(data)| - 1)
      ensures old(Covered()) ==> Covered()
    {
      var kept := Present(data);
      if kept != [] {
        cells := cells + RowCells(row, col, kept, format);
        var newCol := col + |kept| - 1;
        UpdateMax(row, newCol);
        SetPos(row, newCol + 1);
      }
    }

    /** `create_header`: every header's column, a later duplicate winning; the table's column list. */
    method CreateHeader() returns (header: seq<string>)
      modifies this`head2col
      ensures header == headerItems
      ensures head2col == old(head2col) + Positions(headerItems)
    {
      header := headerItems;
      for c := 0 to |headerItems|
        invariant head2col == old(head2col) + Positions(headerItems[..c])
      {
        assert headerItems[..c + 1][..c] == headerItems[..c];
        head2col := head2col[headerItems[c] := c];
      }
      assert headerItems[..|headerItems|] == headerItems;
    }

    /** `head_to_letter`. */
    function HeadToLetter(head: string): Result<char>
      reads this
    {
      HeadLetter(head2col, head)
    }

    /** `add_table`: the table spans row 0 to the extent, so it holds every written cell. */
    method AddTable()
      modifies this`table
      ensures table == Some(Extent(maxRow, maxCol))
      ensures Covered() ==> forall c :: c in cells ==> c.row <= table.value.lastRow && c.col <= table.value.lastCol
    {
      table := Some(Extent(maxRow, maxCol));
    }

    /** `set_conditional_author_formats` with `k` colours. */
    method SetConditionalAuthorFormats(k: nat)
      modifies this`rules
      ensures rules == old(rules) + AuthorRules(k, k, maxRow, maxCol)
    {
      for i := 0 to k
        invariant rules == old(rules) + AuthorRules(i, k, maxRow, maxCol)
      {
        rules := rules + [Rule(maxRow, maxCol, AuthorCriterion(i, k), AuthorColour(i))];
      }
    }

    /** `set_conditional_file_formats`. */
    method SetConditionalFileFormats()
      modifies this`rules
      ensures rules == old(rules) + FileRules(maxRow, maxCol)
    {
      rules := rules + FileRules(maxRow, maxCol);
    }

    /** The rows of a statistics sheet: the header row is left to the table, each data row goes on its own row. */
    method WriteTableRows(rows: seq<seq<Datum>>)
      modifies this`cells, this`maxRow, this`maxCol, this`row, this`col
      ensures cells == old(cells) + TableCells(rows, old(row) + 1, |rows|)
      ensures row == old(row) + 1 + |rows| && col == 0
      ensures old(Covered()) ==> Covered()
    {
      NextRow();
      for i := 0 to |rows|
        invariant cells == old(cells) + TableCells(rows, old(row) + 1, i)
        invariant row == old(row) + 1 + i && col == 0
        invariant old(Covered()) ==> Covered()
      {
        WriteTableRow(rows[i]);
      }
    }

    /** One pass of the rows loop: the row's items, then the start of the next row. */
    method WriteTableRow(data: seq<Datum>)
      modifies this`cells, this`maxRow, this`maxCol, this`row, this`col
      ensures cells == old(cells) + RowCells(old(row), 0, Present(data), Default)
      requires col == 0
      ensures row == old(row) + 1 && col == 0
      ensures old(Covered()) ==> Covered()
    {
      WriteRow(data, Default);
      NextRow();
    }

    /**
     * The rows of a blame sheet: each on the next row, the fields before the
     * code column first, then the code cell, italic for a comment line.
     */
    method WriteBlameRows(rows: seq<seq<Datum>>, isComments: seq<bool>, codeCol: nat)
      requires forall i :: 0 <= i < |rows| && i < |isComments| ==> codeCol < |rows[i]|
      modifies this`cells, this`maxRow, this`maxCol, this`row, this`col
      ensures var n := if |rows| < |isComments| then |rows| else |isComments|;
        cells == old(cells) + BlameCells(rows, isComments, old(row), codeCol, n) && row == old(row) + n
      ensures old(Covered()) ==> Covered()
    {
      var n := if |rows| < |isComments| then |rows| else |isComments|;
      for i := 0 to n
        invariant cells == old(cells) + BlameCells(rows, isComments, old(row), codeCol, i)
        invariant row == old(row) + i
        invariant old(Covered()) ==> Covered()
      {
        WriteBlameRow(rows[i], isComments[i], codeCol);
      }
    }

    /** The end of `BlameSheet.__init__`: the table, the clear "SHA" and "Code" header cells, the author colours. */
    method FinishBlameSheet(shaCol: nat, codeCol: nat)
      modifies this`table, this`headerCells, this`rules
      ensures table == Some(Extent(maxRow, maxCol))
      ensures headerCells == old(headerCells) + [Cell(0, shaCol, Str("SHA"), Named("clear")), Cell(0, codeCol, Str("Code"), Named("clear"))]
      ensures rules == old(rules) + AuthorRules(AuthorColourCount, AuthorColourCount, maxRow, maxCol)
    {
      AddTable();
      headerCells := headerCells + [Cell(0, shaCol, Str("SHA"), Named("clear")), Cell(0, codeCol, Str("Code"), Named("clear"))];
      SetConditionalAuthorFormats(AuthorColourCount);
    }

    /** One pass of the blame loop: the next row, the fields before the code, the code cell. */
    method WriteBlameRow(data: seq<Datum>, isComment: bool, codeCol: nat)
      requires codeCol < |data|
      modifies this`cells, this`maxRow, this`maxCol, this`row, this`col
      ensures cells == old(cells) + BlameRowCells(old(row) + 1, data, isComment, codeCol)
      ensures row == old(row) + 1
      ensures old(Covered()) ==> Covered()
    {
      NextRow();
      WriteRow(data[..codeCol], Default);
      Write(data[codeCol], CodeFormat(isComment));
    }
  }

  /**
   * The statistics sheets' constructors: header, rows, table, and the
   * author colours (authors and authors-files sheets) or the alternating
   * file colours (files-authors and files sheets).
   */
  method NewStatSheet(headerItems: seq<string>, rows: seq<seq<Datum>>, byAuthor: bool) returns (sheet: TableSheet)
    ensures fresh(sheet)
    ensures sheet.headerItems == headerItems && sheet.head2col == Positions(headerItems)
    ensures sheet.cells == TableCells(rows, 1, |rows|)
    ensures sheet.table == Some(Extent(sheet.maxRow, sheet.maxCol))
    ensures sheet.Covered()
    ensures sheet.rules == if byAuthor then AuthorRules(AuthorColourCount, AuthorColourCount, sheet.maxRow, sheet.maxCol)
                           else FileRules(sheet.maxRow, sheet.maxCol)
  {
    sheet := new TableSheet(headerItems);
    var header := sheet.CreateHeader();
    sheet.WriteTableRows(rows);
    sheet.AddTable();
    if byAuthor {
      sheet.SetConditionalAuthorFormats(AuthorColourCount);
    } else {
      sheet.SetConditionalFileFormats();
    }
  }

  /**
   * `BlameSheet.__init__` for the header of `header_blames`: the rows, the
   * table, "SHA" and "Code" rewritten in the header row in the clear
   * format, and the author colours.
   */
  method NewBlameSheet(rows: seq<seq<Datum>>, isComments: seq<bool>) returns (sheet: TableSheet)
    requires forall i :: 0 <= i < |rows| && i < |isComments| ==> 7 < |rows[i]|
    ensures fresh(sheet)
    ensures sheet.cells == BlameCells(rows, isComments, 0, 7, if |rows| < |isComments| then |rows| else |isComments|)
    ensures sheet.headerCells == [Cell(0, 4, Str("SHA"), Named("clear")), Cell(0, 7, Str("Code"), Named("clear"))]
    ensures sheet.table == Some(Extent(sheet.maxRow, sheet.maxCol))
    ensures sheet.Covered()
    ensures sheet.rules == AuthorRules(AuthorColourCount, AuthorColourCount, sheet.maxRow, sheet.maxCol)
  {
    var heads := Headers.Titles(Headers.HeaderBlames());
    sheet := new TableSheet(heads);
    var header := sheet.CreateHeader();
    BlameHeaderColumns();
    var shaCol, codeCol := sheet.head2col["SHA"], sheet.head2col["Code"];
    sheet.WriteBlameRows(rows, isComments, codeCol);
    sheet.FinishBlameSheet(shaCol, codeCol);
  }

  /** In the blame header, "SHA" is column 4 and "Code" column 7. */
  lemma BlameHeaderColumns()
    ensures var p := Positions(Headers.Titles(Headers.HeaderBlames()));
      "SHA" in p && p["SHA"] == 4 && "Code" in p && p["Code"] == 7
  {
    BlameTitles();
    var heads := BlameHeads;
    PositionsMeaning(heads);
    var p := Positions(heads);
    assert heads[4] == "SHA" && heads[7] == "Code";
    assert heads[5] != "SHA" && heads[6] != "SHA";
  }

  const BlameHeads: seq<string> := ["ID", "Author", "Date", "Message", "SHA", "Commit number", "Line", "Code"]

  /** The titles of `header_blames`. */
  lemma BlameTitles()
    ensures Headers.Titles(Headers.HeaderBlames()) == BlameHeads
  {
    var h := Headers.HeaderBlames();
    var t := Headers.Titles(h);
    assert |t| == 8;
    forall i | 0 <= i < 8 ensures t[i] == BlameHeads[i] {
    }
  }

  // ------------------------------------------------------------- book

  /** A blame sheet's name: the truncated relative file name with "/" turned into ">". */
  function SheetName(truncated: string): (name: string)
  {
    ReplaceAll(truncated, "/", ">")
  }

  /** Replacing one character by another keeps the length and leaves no "/" behind. */
  lemma {:induction false} SheetNameMeaning(truncated: string)
    ensures |SheetName(truncated)| == |truncated|
    ensures '/' !in SheetName(truncated)
    ensures '/' !in truncated ==> SheetName(truncated) == truncated
    decreases |truncated|
  {
    if |truncated| >= 1 {
      SheetNameMeaning(truncated[1..]);
      assert truncated[..1] == [truncated[0]];
      if truncated[0] == '/' {
        assert SheetName(truncated) == ">" + SheetName(truncated[1..]);
      } else {
        assert SheetName(truncated) == [truncated[0]] + SheetName(truncated[1..]);
        if '/' !in truncated {
          assert '/' !in truncated[1..] by {
            forall c | c in truncated[1..] ensures c != '/' { assert c in truncated; }
          }
        }
      }
    }
  }

  /**
   * `add_blame_sheets` with `add_blame_sheet`: one sheet per blamed file,
   * named after its truncated relative name. The guard of
   * `add_blame_sheet` tests the (rows, is_comments) pair, which is never
   * empty, so a file without rows still gets a sheet. The names go through
   * the corrected `Truncation.String2Truncated`, without the source's
   * exact-length assertion (`Truncation.SharedTailsBreakExactLength`).
   */
  method BlameSheetNames(fstrs: seq<string>, subfolder: string) returns (r: Result<seq<string>>)
    ensures r.Ok? <==> Truncation.LabelsFitIn(Truncation.FinalLabels(Utils.RelativeNames(fstrs, subfolder), MaxLengthSheetName), MaxLengthSheetName)
    ensures r.Ok? ==> |r.value| == |fstrs|
    ensures r.Ok? ==> forall i :: 0 <= i < |fstrs| ==>
      |r.value[i]| <= MaxLengthSheetName && '/' !in r.value[i]
  {
    var rels := Utils.RelativeNames(fstrs, subfolder);
    var truncated := Truncation.String2Truncated(rels, MaxLengthSheetName);
    if truncated.Raise? {
      return Raise(truncated.error);
    }
    var names := NameSheets(rels, truncated.value);
    r := Ok(names);
  }

  /** The loop of `add_blame_sheets`: each file's sheet is named after its truncated relative name. */
  method NameSheets(rels: seq<string>, truncated: map<string, string>) returns (names: seq<string>)
    requires forall s :: s in rels ==> s in truncated
    requires forall s :: s in truncated ==> |truncated[s]| <= MaxLengthSheetName
    ensures |names| == |rels|
    ensures forall i :: 0 <= i < |rels| ==> names[i] == SheetName(truncated[rels[i]])
    ensures forall i :: 0 <= i < |rels| ==> |names[i]| <= MaxLengthSheetName && '/' !in names[i]
  {
    names := [];
    for i := 0 to |rels|
      invariant |names| == i
      invariant forall j :: 0 <= j < i ==> names[j] == SheetName(truncated[rels[j]])
      invariant forall j :: 0 <= j < i ==> |names[j]| <= MaxLengthSheetName && '/' !in names[j]
    {
      SheetNameMeaning(truncated[rels[i]]);
      names := names + [SheetName(truncated[rels[i]])];
    }
  }

  /**
   * The sheets of a `Book`, in the order they are added: the four
   * statistics sheets, then a sheet per blamed file unless blame is skipped.
   */
  method BookSheetNames(blameSkip: bool, fstrs: seq<string>, subfolder: string) returns (r: Result<seq<string>>)
    ensures r.Ok? ==> |r.value| >= 4 && r.value[..4] == ["Authors", "Authors-Files", "Files-Authors", "Files"]
    ensures blameSkip ==> r == Ok(["Authors", "Authors-Files", "Files-Authors", "Files"])
    ensures !blameSkip && r.Ok? ==> |r.value| == 4 + |fstrs|
    ensures !blameSkip ==> (r.Ok? <==>
      Truncation.LabelsFitIn(Truncation.FinalLabels(Utils.RelativeNames(fstrs, subfolder), MaxLengthSheetName), MaxLengthSheetName))
  {
    var stats := ["Authors", "Authors-Files", "Files-Authors", "Files"];
    if blameSkip {
      return Ok(stats);
    }
    var blames := BlameSheetNames(fstrs, subfolder);
    if blames.Raise? {
      return Raise(blames.error);
    }
    r := Ok(stats + blames.value);
  }

  // ------------------------------------------------- statistics rows

  /** What a repository contributes to the statistics sheets. */
  datatype RepoStats = RepoStats(
    authors: seq<string>,
    author2pstat: StatTables.Dict<StatTables.Stat>,
    author2fstr2fstat: StatTables.Table,
    fstr2author2fstat: StatTables.Table,
    fstr2fstat: StatTables.Dict<StatTables.Stat>,
    starFstrs: seq<string>,
    authorsStr: string -> string,
    emailsStr: string -> string,
    relName: string -> string)

  datatype StatSheet = AuthorsSheet | AuthorsFilesSheet | FilesAuthorsSheet | FilesSheet

  /**
   * The rows `Book` hands each statistics sheet, as written:
   * `add_files_authors_sheet` asks the authors table for its rows.
   */
  function BookRowsAsWritten(sheet: StatSheet, repo: RepoStats): seq<StatRows.Row>
  {
    match sheet
    case AuthorsSheet => StatRows.AuthorsRows(repo.authors, repo.author2pstat, repo.authorsStr, repo.emailsStr, false)
    case AuthorsFilesSheet =>
      StatRows.AuthorsFilesRows(repo.authors, |repo.authors|, repo.author2fstr2fstat, repo.fstr2fstat,
                                repo.authorsStr, repo.relName, false)
    case FilesAuthorsSheet => StatRows.AuthorsRows(repo.authors, repo.author2pstat, repo.authorsStr, repo.emailsStr, false)
    case FilesSheet => StatRows.FilesRows(repo.starFstrs, repo.fstr2fstat, repo.relName)
  }

  /** The rows each statistics sheet is meant to show: the files-authors sheet gets the files-authors table. */
  function BookRows(sheet: StatSheet, repo: RepoStats): seq<StatRows.Row>
  {
    match sheet
    case FilesAuthorsSheet => StatRows.FilesAuthorsRows(repo.fstr2author2fstat, repo.fstr2fstat, repo.relName, false)
    case _ => BookRowsAsWritten(sheet, repo)
  }

  /**
   * As written, the "Files-Authors" sheet repeats the authors sheet: its
   * "File" column holds the authors' names, one row per author.
   */
  lemma FilesAuthorsSheetShowsAuthors(repo: RepoStats, deletions: bool)
    ensures Headers.Titles(Headers.StatHeaderFilesAuthors(false, deletions))[1] == "File"
    ensures BookRowsAsWritten(FilesAuthorsSheet, repo) == BookRowsAsWritten(AuthorsSheet, repo)
    ensures |BookRowsAsWritten(FilesAuthorsSheet, repo)| == |repo.authors|
    ensures forall i :: 0 <= i < |repo.authors| ==>
      StatRows.NameOf(BookRowsAsWritten(FilesAuthorsSheet, repo)[i]) == repo.authorsStr(repo.authors[i])
  {
  }

  /** One author with one file: the sheet's only row names the author where the file belongs. */
  lemma FilesAuthorsSheetExample()
    ensures var repo := ExampleRepo();
      && StatRows.NameOf(BookRowsAsWritten(FilesAuthorsSheet, repo)[0]) == "Alice"
      && StatRows.NameOf(BookRows(FilesAuthorsSheet, repo)[0]) == "main.py"
  {
    var repo := ExampleRepo();
    var t := repo.fstr2author2fstat;
    assert StatRows.TableFiles(t, repo.fstr2fstat) == ["main.py"];
    var column := StatRows.Inner(t, "main.py");
    assert StatRows.FileAuthors(column) == ["Alice"];
    StatRows.FileBlockTagged(0, "main.py", column, ["Alice"], 1, repo.relName, false);
    assert StatRows.FileRows(0, "main.py", column, repo.relName, false) ==
      StatRows.FileBlock(0, "main.py", column, ["Alice"], 1, repo.relName, false);
  }

  function ExampleRepo(): RepoStats
  {
    var stat := StatTables.Stat(1, 0, 0, 1, {});
    var column := StatTables.Dict(["Alice"], map["Alice" := stat]);
    RepoStats(
      ["Alice"], StatTables.Dict(["Alice"], map["Alice" := stat]),
      StatTables.Dict(["Alice"], map["Alice" := StatTables.Dict(["main.py"], map["main.py" := stat])]),
      StatTables.Dict(["main.py"], map["main.py" := column]),
      StatTables.Dict(["main.py"], map["main.py" := stat]),
      ["main.py"], a => a, a => a + "@example.com", f => f)
  }

  /**
   * As intended, every row of the "Files-Authors" sheet carries the name of
   * the file it belongs to, the files in `TableFiles` order.
   */
  lemma FilesAuthorsSheetShowsFiles(repo: RepoStats)
    ensures StatRows.Grouped(BookRows(FilesAuthorsSheet, repo), StatRows.TableFiles(repo.fstr2author2fstat, repo.fstr2fstat),
                             |repo.fstr2author2fstat.keys|, repo.relName)
  {
    StatRows.FilesAuthorsGrouped(repo.fstr2author2fstat, repo.fstr2fstat, repo.relName, false);
  }
}
