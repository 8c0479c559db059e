/**
 * The tables of the html report (repo_html.py, with the older html.py where
 * it differs): the header row and its buttons, the row colours, the
 * files-authors table that names each file once, the blame tables, the
 * blame tabs of the files, and the document around them.
 *
 * A row arrives as its id and the text of each of its cells (`str(data)`
 * of every column, the id's first). A table is a value: the rows of the
 * source's soup, in order, with their classes and texts.
 */
module HtmlRender {
  import opened Errors
  import opened Strs
  import opened Headers
  import HtmlText
  import HtmlIds
  import Utils
  import Seqs
  import Truncation

  const MaxLengthTabName := 160

  const BgAuthorColors: seq<string> := [
    "bg-white", "bg-author-light-green", "bg-author-light-blue", "bg-author-light-red",
    "bg-author-light-yellow", "bg-author-light-orange", "bg-author-light-purple",
    "bg-author-light-grey", "bg-row-light-green"]

  const BgRowColors: seq<string> := ["bg-row-light-green", "bg-white"]

  /** `HEADER_CLASS_DICT`, keyed by column; the columns it has no entry for give `None`. */
  function HeaderClass(c: Column): Option<string>
  {
    match c
    case ID => Some("id_col")
    case Author => Some("author-col")
    case Empty => Some("empty-col")
    case Email => Some("email-col")
    case File => Some("file-col")
    case PctLines => Some("p-lines-col number-col")
    case PctInsertions => Some("p-insertions-col number-col")
    case PctScaledLines => Some("ps-lines-col number-col")
    case PctScaledInsertions => Some("ps-insertions-col number-col")
    case Lines => Some("lines-col number-col")
    case Insertions => Some("insertions-col number-col")
    case Stability => Some("stability-col number-col")
    case Commits => Some("commits-col number-col")
    case Deletions => Some("deletions-col number-col")
    case AgeYMD => Some("age-col number-col")
    case Date => Some("date-col")
    case Message => Some("message-col")
    case SHA => Some("sha-col number-col")
    case CommitNumber => Some("commit-number-col number-col")
    case Line => Some("line-col number-col")
    case Code => Some("code-col")
    case Blank => None
    case AgeShort => None
  }

  /** Every column of the header has a class, so rendering it raises no `KeyError`. */
  predicate Classed(h: Header)
  {
    forall i :: 0 <= i < |h| ==> HeaderClass(h[i]).Some?
  }

  /** The headers of the html tables all have classes. */
  lemma ReportHeadersClassed(scaled: bool, deletions: bool)
    ensures Classed(RepoHeaderAuthors(true, scaled, deletions))
    ensures Classed(RepoHeaderAuthorsFiles(true, deletions))
    ensures Classed(RepoHeaderFilesAuthors(true, deletions))
    ensures Classed(RepoHeaderFiles(deletions))
    ensures Classed(HeaderBlames())
  {
    var front, back := RepoFront(deletions), RepoBack();
    assert Classed(front) && Classed(back);
    ClassedConcat(front, back);
    var stat := RepoHeaderStat(deletions);
    var scaledCols: Header := [PctScaledLines, PctScaledInsertions];
    assert Classed(scaledCols);
    ClassedConcat(front, scaledCols);
    ClassedConcat(front + scaledCols, back);
    var prefix := Prefix(true, Author, Email);
    assert Classed(prefix);
    ClassedConcat(prefix, stat);
    ClassedConcat(prefix, front + scaledCols + back);
    assert prefix + front + scaledCols + back == prefix + (front + scaledCols + back);
    assert Classed(Prefix(true, Author, File)) && Classed(Prefix(true, File, Author));
    ClassedConcat(Prefix(true, Author, File), stat);
    ClassedConcat(Prefix(true, File, Author), stat);
    var files: Header := [ID, File];
    assert Classed(files);
    ClassedConcat(files, stat);
    BlameHeaderClassed();
  }

  lemma BlameHeaderClassed()
    ensures Classed(HeaderBlames())
  {
    var front: Header := [ID, Author, Date, Message];
    var back: Header := [SHA, CommitNumber, Line, Code];
    assert Classed(front) && Classed(back);
    ClassedConcat(front, back);
    assert HeaderBlames() == front + back;
  }

  lemma ClassedConcat(a: Header, b: Header)
    requires Classed(a) && Classed(b)
    ensures Classed(a + b)
  {
    forall i | 0 <= i < |a + b| ensures HeaderClass((a + b)[i]).Some? {
      if i >= |a| {
        assert (a + b)[i] == b[i - |a|];
      }
    }
  }

  // ------------------------------------------------------------ colours

  /** `BG_AUTHOR_COLORS[nr % len(BG_AUTHOR_COLORS)]`. */
  function AuthorColor(nr: int): (c: string)
    ensures c in BgAuthorColors
  {
    BgAuthorColors[nr % |BgAuthorColors|]
  }

  /** The author colours are nine different classes, so two numbers share a colour iff they agree modulo nine. */
  lemma AuthorColorsCycle(a: int, b: int)
    ensures AuthorColor(a) == AuthorColor(b) <==> a % 9 == b % 9
  {
    var i, j := a % 9, b % 9;
    if i != j {
      AuthorColorsDistinct(i, j);
    }
  }

  lemma AuthorColorsDistinct(i: nat, j: nat)
    requires i < 9 && j < 9 && i != j
    ensures BgAuthorColors[i] != BgAuthorColors[j]
  {
    var ci, cj := BgAuthorColors[i], BgAuthorColors[j];
    if |ci| == |cj| {
      assert ci[|ci| - 1] != cj[|cj| - 1] || ci[16] != cj[16];
    }
  }

  /** `bg_colors[int(row[0]) % len(bg_colors)]`: the class of a row from its id. */
  function RowColor(id: int, colors: seq<string>): (c: string)
    requires |colors| > 0
    ensures c in colors
  {
    colors[id % |colors|]
  }

  /** File rows alternate between light green (even ids) and white (odd ids). */
  lemma FileRowsAlternate(id: int)
    ensures RowColor(id, BgRowColors) == (if id % 2 == 0 then "bg-row-light-green" else "bg-white")
    ensures RowColor(id + 1, BgRowColors) != RowColor(id, BgRowColors)
  {
    assert (id + 1) % 2 == 1 - id % 2;
  }

  // --------------------------------------------------------- the header

  /** The `blame_exclusions` option. */
  datatype Exclusions = Hide | Show | Remove

  /** A button of the Code header: its class, whether it starts pressed, and its text. */
  datatype Button = Button(cls: string, pressed: bool, text: string)

  /** A header cell: its class, its text and its buttons. */
  datatype Th = Th(cls: string, text: string, buttons: seq<Button>)

  const ExclusionsButton := Button("blame-exclusions-button", false, "Hide blame exclusions")
  const EmptyLinesButton := Button("blame-empty-lines-button", false, "Hide empty lines")
  const ColorsButton := Button("hide-colors-button", false, "Hide colors")

  /**
   * `_add_header_row` for one column (repo_html.py): the Code column gets
   * the exclusions and empty-lines buttons only for hide and show, and
   * always the hide-colours button, last.
   */
  function HeaderCell(c: Column, exclusions: Exclusions): (th: Th)
    requires HeaderClass(c).Some?
    ensures th.cls == HeaderClass(c).value
    ensures th.text == if c == Empty then "" else Title(c)
    ensures c != Code ==> th.buttons == []
    ensures c == Code ==> |th.buttons| > 0 && th.buttons[|th.buttons| - 1] == ColorsButton
    ensures c == Code ==> (ExclusionsButton in th.buttons <==> exclusions != Remove)
    ensures forall b :: b in th.buttons ==> !b.pressed
  {
    var buttons :=
      if c != Code then []
      else (if exclusions != Remove then [ExclusionsButton, EmptyLinesButton] else []) + [ColorsButton];
    Th(HeaderClass(c).value, if c == Empty then "" else Title(c), buttons)
  }

  /**
   * `TableSoup._add_header` for one column (html.py): the Code column
   * always gets all three buttons; the exclusions button starts pressed iff
   * exclusions are hidden, the empty-lines button iff empty lines are not shown.
   */
  function PressedHeaderCell(c: Column, hideExclusions: bool, emptyLines: bool): (th: Th)
    requires HeaderClass(c).Some?
    ensures c == Code ==> (|th.buttons| == 3
      && th.buttons[0].pressed == hideExclusions && th.buttons[1].pressed == !emptyLines && !th.buttons[2].pressed)
  {
    var buttons :=
      if c != Code then []
      else [Button(ExclusionsButton.cls, hideExclusions, ExclusionsButton.text),
            Button(EmptyLinesButton.cls, !emptyLines, EmptyLinesButton.text),
            ColorsButton];
    Th(HeaderClass(c).value, if c == Empty then "" else Title(c), buttons)
  }

  /**
   * The two versions of the header differ only in the Code column's
   * buttons: with exclusions shown or hidden they are the same buttons,
   * pressed or not.
   */
  lemma HeaderVersions(c: Column, exclusions: Exclusions, hideExclusions: bool, emptyLines: bool)
    requires HeaderClass(c).Some?
    ensures var a, b := HeaderCell(c, exclusions), PressedHeaderCell(c, hideExclusions, emptyLines);
      && a.cls == b.cls && a.text == b.text
      && (c != Code ==> a == b)
      && (c == Code && exclusions != Remove ==>
            |a.buttons| == |b.buttons| && forall i :: 0 <= i < |a.buttons| ==> a.buttons[i].cls == b.buttons[i].cls && a.buttons[i].text == b.buttons[i].text)
  {
  }

  /** The header cells of a table, one per column. */
  function HeaderCells(h: Header, exclusions: Exclusions): (ths: seq<Th>)
    requires Classed(h)
    ensures |ths| == |h| && forall i :: 0 <= i < |h| ==> ths[i] == HeaderCell(h[i], exclusions)
  {
    seq(|h|, i requires 0 <= i < |h| => HeaderCell(h[i], exclusions))
  }

  /** Of the header cells of a table, exactly the Code column's carry buttons. */
  lemma ButtonsOnlyOnCode(h: Header, exclusions: Exclusions)
    requires Classed(h)
    ensures forall i :: 0 <= i < |h| ==> (HeaderCells(h, exclusions)[i].buttons != [] <==> h[i] == Code)
  {
  }

  /** `_add_header_row`: the header cells of `header`, in order. */
  method AddHeaderRow(header: Header, exclusions: Exclusions) returns (ths: seq<Th>)
    requires Classed(header)
    ensures ths == HeaderCells(header, exclusions)
  {
    ths := [];
    for i := 0 to |header|
      invariant |ths| == i && forall q :: 0 <= q < i ==> ths[q] == HeaderCell(header[q], exclusions)
    {
      ghost var before := ths;
      ths := ths + [HeaderCell(header[i], exclusions)];
      assert forall q :: 0 <= q < i ==> ths[q] == before[q];
    }
  }

  // ------------------------------------------------------------- tables

  /** A row as it arrives: its id, and the text of each of its cells. */
  datatype Row = Row(id: int, texts: seq<string>)

  datatype Td = Td(cls: string, text: string)
  datatype Tr = Tr(cls: string, cells: seq<Td>)
  datatype Table = Table(id: Option<string>, head: seq<Th>, body: seq<Tr>)

  /**
   * html.py's `TableSoup`: a table with a header, set by `_add_header`, and
   * the `tbody` the row loops append to. `hideExclusions` and `emptyLines`
   * are the class settings `blame_hide_exclusions` and `empty_lines`.
   */
  class TableSoup {
    var thead: Option<seq<Th>>
    var tbody: seq<Tr>
    const hideExclusions: bool
    const emptyLines: bool

    /** A new soup holds an empty `<table></table>` and a detached, empty `tbody`. */
    constructor(hideExclusions: bool, emptyLines: bool)
      ensures thead == None && tbody == []
      ensures this.hideExclusions == hideExclusions && this.emptyLines == emptyLines
    {
      thead := None;
      tbody := [];
      this.hideExclusions := hideExclusions;
      this.emptyLines := emptyLines;
    }

    /** The table the soup holds once its header is set. */
    function Contents(): (t: Table)
      reads this
      ensures t.id == None && t.body == tbody
    {
      Table(None, if thead.Some? then thead.value else [], tbody)
    }

    /**
     * `_add_header`: `table.clear()` detaches the old header and the body,
     * then a header row with one cell per column and the same `tbody` are
     * appended. The header is replaced, and the body keeps the rows it had:
     * on the fresh soup of each `get_table` that is none.
     */
    method AddHeader(h: Header)
      requires Classed(h)
      modifies this
      ensures thead.Some? && |thead.value| == |h|
      ensures forall i :: 0 <= i < |h| ==> thead.value[i] == PressedHeaderCell(h[i], hideExclusions, emptyLines)
      ensures tbody == old(tbody)
    {
      thead := None;
      var cells: seq<Th> := [];
      for i := 0 to |h|
        invariant |cells| == i && forall j :: 0 <= j < i ==> cells[j] == PressedHeaderCell(h[j], hideExclusions, emptyLines)
      {
        cells := cells + [PressedHeaderCell(h[i], hideExclusions, emptyLines)];
      }
      thead := Some(cells);
    }

    /** `self.tbody.append(tr)`: the row goes after the others, and the header stays. */
    method AppendRow(tr: Tr)
      modifies this
      ensures tbody == old(tbody) + [tr] && thead == old(thead)
    {
      tbody := tbody + [tr];
    }
  }

  /** The header step of every `get_table` of html.py: on a new soup the table then holds only the header. */
  method NewHeaderedTable(h: Header, hideExclusions: bool, emptyLines: bool) returns (soup: TableSoup)
    requires Classed(h)
    ensures fresh(soup)
    ensures soup.Contents().body == [] && |soup.Contents().head| == |h|
    ensures forall i :: 0 <= i < |h| ==> soup.Contents().head[i] == PressedHeaderCell(h[i], hideExclusions, emptyLines)
  {
    soup := new TableSoup(hideExclusions, emptyLines);
    soup.AddHeader(h);
  }

  /** Every row has at most one cell per column: a longer row would be an `IndexError`. */
  predicate Fits(rows: seq<Row>, h: Header)
  {
    forall p :: 0 <= p < |rows| ==> |rows[p].texts| <= |h|
  }

  /**
   * A row of `_get_colored_rows_table_soup`: the row's colour from its id,
   * each cell with its column's class, and the "Empty" column blank.
   */
  function ColoredRow(row: Row, h: Header, colors: seq<string>): (tr: Tr)
    requires |colors| > 0 && Classed(h) && |row.texts| <= |h|
    ensures tr.cls == RowColor(row.id, colors) && |tr.cells| == |row.texts|
    ensures forall i :: 0 <= i < |row.texts| ==>
      tr.cells[i].cls == HeaderClass(h[i]).value && tr.cells[i].text == (if h[i] == Empty then "" else row.texts[i])
  {
    Tr(RowColor(row.id, colors),
       seq(|row.texts|, i requires 0 <= i < |row.texts| =>
         Td(HeaderClass(h[i]).value, if h[i] == Empty then "" else row.texts[i])))
  }

  /**
   * `_get_colored_rows_table_soup` (also `StatTableSoup._add_colored_rows_table`
   * of html.py): the header, then one row per row, in order.
   */
  method ColoredRowsTable(rows: seq<Row>, h: Header, colors: seq<string>, exclusions: Exclusions) returns (t: Table)
    requires |colors| > 0 && Classed(h) && Fits(rows, h)
    ensures t.id == None && t.head == HeaderCells(h, exclusions) && |t.body| == |rows|
    ensures forall p :: 0 <= p < |rows| ==> t.body[p] == ColoredRow(rows[p], h, colors)
  {
    var head := AddHeaderRow(h, exclusions);
    var body: seq<Tr> := [];
    for p := 0 to |rows|
      invariant |body| == p && forall q :: 0 <= q < p ==> body[q] == ColoredRow(rows[q], h, colors)
    {
      body := body + [ColoredRow(rows[p], h, colors)];
    }
    t := Table(None, head, body);
  }

  // --------------------------------------------------- files and authors

  /** `header.index(c)`, or `None` for a column the header lacks (a `ValueError`). */
  function IndexOf(h: Header, c: Column): (r: Option<nat>)
    ensures r.Some? ==> r.value < |h| && h[r.value] == c && forall i :: 0 <= i < r.value ==> h[i] != c
    ensures r.None? ==> c !in h
  {
    if h == [] then None
    else if h[0] == c then Some(0)
    else match IndexOf(h[1..], c)
      case Some(i) => Some(i + 1)
      case None => None
  }

  /** The columns the files-authors table treats apart. */
  datatype Cols = Cols(id: nat, file: nat, author: nat)

  /** The scan's state between rows: whether the next file cell shows its name, and the id of the last row. */
  datatype Scan = Scan(firstFile: bool, rowId: int)

  /** Whether the row's file cell shows the name: a new id starts a new file. */
  function ShowsFile(st: Scan, row: Row): bool
  {
    if row.id != st.rowId then true else st.firstFile
  }

  /** The state after a row: a row with a file cell has used up the name. */
  function ScanRow(st: Scan, row: Row, cols: Cols): (next: Scan)
    ensures next.rowId == row.id
    ensures cols.file < |row.texts| ==> !next.firstFile
  {
    var first := ShowsFile(st, row);
    Scan(if cols.file < |row.texts| then false else first, row.id)
  }

  /** The state before row `n`. */
  function ScanBefore(rows: seq<Row>, n: nat, cols: Cols): Scan
    requires n <= |rows|
  {
    if n == 0 then Scan(true, 0) else ScanRow(ScanBefore(rows, n - 1, cols), rows[n - 1], cols)
  }

  /** Whether row `p` shows its file's name. */
  function FileShownAt(rows: seq<Row>, p: nat, cols: Cols): bool
    requires p < |rows|
  {
    ShowsFile(ScanBefore(rows, p, cols), rows[p])
  }

  /**
   * Each file is named once: when every row has a file cell, a row shows the
   * name iff it is the first row or its id differs from the row before.
   */
  lemma FileNamedOnce(rows: seq<Row>, p: nat, cols: Cols)
    requires p < |rows| && forall q :: 0 <= q < |rows| ==> cols.file < |rows[q].texts|
    ensures FileShownAt(rows, p, cols) <==> p == 0 || rows[p].id != rows[p - 1].id
  {
  }

  /** A cell of the files-authors table. */
  function FilesAuthorsCell(h: Header, i: nat, text: string, cols: Cols, showFile: bool, color: string): (td: Td)
    requires i < |h| && HeaderClass(h[i]).Some?
  {
    var cls := HeaderClass(h[i]).value;
    if i == cols.id then Td(cls, text)
    else if i == cols.file && showFile then Td(cls, text)
    else if i == cols.file || h[i] == Empty then Td(cls, "")
    else Td(cls + " " + color, text)
  }

  /**
   * A row of `get_files_authors_soup`: coloured by its id's parity, the
   * file name only where the scan says so, the "Empty" column blank, and
   * the author's colour on every other cell.
   */
  function FilesAuthorsRow(row: Row, h: Header, cols: Cols, showFile: bool, author2nr: map<string, int>): (tr: Tr)
    requires Classed(h) && |row.texts| <= |h| && cols.author < |row.texts| && row.texts[cols.author] in author2nr
    ensures tr.cls == RowColor(row.id, BgRowColors) && |tr.cells| == |row.texts|
  {
    var color := AuthorColor(author2nr[row.texts[cols.author]]);
    Tr(RowColor(row.id, BgRowColors),
       seq(|row.texts|, i requires 0 <= i < |row.texts| => FilesAuthorsCell(h, i, row.texts[i], cols, showFile, color)))
  }

  /** The rows the files-authors table can show: each holds its id and author cells, fits the header, and its author has a number. */
  predicate AuthorRows(rows: seq<Row>, h: Header, cols: Cols, author2nr: map<string, int>)
  {
    forall p :: 0 <= p < |rows| ==>
      cols.id < |rows[p].texts| && |rows[p].texts| <= |h| && cols.author < |rows[p].texts| && rows[p].texts[cols.author] in author2nr
  }

  /**
   * The exception a row stops `get_files_authors_soup` with, in the order
   * the loop meets them: `row[ID_COL]` or `row[AUTHOR_COL]` past the row's end
   * is an `IndexError`; an author without a number is a `KeyError` at the
   * first coloured cell, which is the author's cell or one before it; a cell
   * past the header's end is an `IndexError` at `header_row[i_col]`.
   */
  function RowFault(row: Row, h: Header, cols: Cols, author2nr: map<string, int>): (e: Option<Exception>)
    ensures e.None? <==> cols.id < |row.texts| && |row.texts| <= |h| && cols.author < |row.texts| && row.texts[cols.author] in author2nr
    ensures e.Some? ==> e.value in {IndexError, KeyError}
  {
    if cols.id >= |row.texts| || cols.author >= |row.texts| then Some(IndexError)
    else if row.texts[cols.author] !in author2nr then Some(KeyError)
    else if |row.texts| > |h| then Some(IndexError)
    else None
  }

  /** The index of the first row the loop stops at, if any. */
  function FirstFault(rows: seq<Row>, h: Header, cols: Cols, author2nr: map<string, int>): (k: Option<nat>)
    ensures k.Some? ==> k.value < |rows| && RowFault(rows[k.value], h, cols, author2nr).Some?
    ensures k.Some? ==> forall q :: 0 <= q < k.value ==> RowFault(rows[q], h, cols, author2nr).None?
    ensures k.None? <==> AuthorRows(rows, h, cols, author2nr)
  {
    if rows == [] then None
    else if RowFault(rows[0], h, cols, author2nr).Some? then Some(0)
    else match FirstFault(rows[1..], h, cols, author2nr)
      case Some(k) => Some(k + 1)
      case None =>
        assert forall p :: 1 <= p < |rows| ==> rows[p] == rows[1..][p - 1];
        None
  }

  /**
   * `get_files_authors_soup`: the columns are found by name ("ID", "File",
   * "Author"; a missing one is a `ValueError`), then the rows are scanned in
   * order, each showing its file name as the scan decides. The first row the
   * loop cannot render ends the call with that row's exception.
   */
  method FilesAuthorsTable(rows: seq<Row>, h: Header, author2nr: map<string, int>, exclusions: Exclusions)
    returns (r: Result<Table>)
    requires Classed(h)
    ensures ID !in h || File !in h || Author !in h ==> r == Raise(ValueError)
    ensures ID in h && File in h && Author in h ==>
      var cols := Cols(IndexOf(h, ID).value, IndexOf(h, File).value, IndexOf(h, Author).value);
      var k := FirstFault(rows, h, cols, author2nr);
      && (k.Some? ==> r == Raise(RowFault(rows[k.value], h, cols, author2nr).value))
      && (k.None? ==>
            && r.Ok? && r.value.head == HeaderCells(h, exclusions) && |r.value.body| == |rows|
            && forall p :: 0 <= p < |rows| ==>
                 r.value.body[p] == FilesAuthorsRow(rows[p], h, cols, FileShownAt(rows, p, cols), author2nr))
  {
    var idCol, fileCol, authorCol := IndexOf(h, ID), IndexOf(h, File), IndexOf(h, Author);
    if idCol.None? || fileCol.None? || authorCol.None? {
      return Raise(ValueError);
    }
    var cols := Cols(idCol.value, fileCol.value, authorCol.value);
    var head := AddHeaderRow(h, exclusions);
    var k := FirstFault(rows, h, cols, author2nr);
    if k.Some? {
      return Raise(RowFault(rows[k.value], h, cols, author2nr).value);
    }
    var body := ScanFilesAuthors(rows, h, cols, author2nr);
    forall p | 0 <= p < |rows|
      ensures body[p] == FilesAuthorsRow(rows[p], h, cols, FileShownAt(rows, p, cols), author2nr)
    {
      FilesAuthorsRowAt(rows, |rows|, h, cols, author2nr, p);
    }
    r := Ok(Table(None, head, body));
  }

  /** The rows of the files-authors table for the first `n` rows. */
  function FilesAuthorsRows(rows: seq<Row>, n: nat, h: Header, cols: Cols, author2nr: map<string, int>): (body: seq<Tr>)
    requires n <= |rows| && Classed(h) && AuthorRows(rows, h, cols, author2nr)
    ensures |body| == n
  {
    if n == 0 then []
    else FilesAuthorsRows(rows, n - 1, h, cols, author2nr) + [FilesAuthorsRow(rows[n - 1], h, cols, FileShownAt(rows, n - 1, cols), author2nr)]
  }

  /** Row `p` of the table is the row built from `rows[p]`, showing its file name as the scan decides. */
  lemma {:induction false} FilesAuthorsRowAt(rows: seq<Row>, n: nat, h: Header, cols: Cols, author2nr: map<string, int>, p: nat)
    requires n <= |rows| && Classed(h) && AuthorRows(rows, h, cols, author2nr) && p < n
    ensures FilesAuthorsRows(rows, n, h, cols, author2nr)[p] == FilesAuthorsRow(rows[p], h, cols, FileShownAt(rows, p, cols), author2nr)
  {
    if p < n - 1 {
      FilesAuthorsRowAt(rows, n - 1, h, cols, author2nr, p);
    }
  }

  /** The loop of `get_files_authors_soup` over the rows, with its `first_file` and `row_id`. */
  method ScanFilesAuthors(rows: seq<Row>, h: Header, cols: Cols, author2nr: map<string, int>) returns (body: seq<Tr>)
    requires Classed(h) && AuthorRows(rows, h, cols, author2nr)
    ensures body == FilesAuthorsRows(rows, |rows|, h, cols, author2nr)
  {
    var firstFile, rowId := true, 0;
    body := [];
    for p := 0 to |rows|
      invariant Scan(firstFile, rowId) == ScanBefore(rows, p, cols)
      invariant body == FilesAuthorsRows(rows, p, h, cols, author2nr)
    {
      var row := rows[p];
      if row.id != rowId {
        firstFile := true;
        rowId := row.id;
      }
      var showFile := firstFile;
      assert showFile == FileShownAt(rows, p, cols);
      if cols.file < |row.texts| {
        firstFile := false;
      }
      body := body + [FilesAuthorsRow(row, h, cols, showFile, author2nr)];
    }
  }

  /** In the html header of the files-authors table the id, file and author are columns 0, 1 and 3. */
  lemma FilesAuthorsColumns(deletions: bool)
    ensures var h := RepoHeaderFilesAuthors(true, deletions);
      IndexOf(h, ID) == Some(0) && IndexOf(h, File) == Some(1) && IndexOf(h, Author) == Some(3)
  {
    var h := RepoHeaderFilesAuthors(true, deletions);
    assert h[..4] == [ID, File, Empty, Author];
  }

  /**
   * `FilesAuthorsTableSoup.get_table` of html.py takes an author's colour
   * from the author's place in the included authors; an author who is not
   * there is a `ValueError`.
   */
  function IncludedAuthorColor(author: string, authorsIncluded: seq<string>): (r: Result<string>)
    ensures r.Ok? <==> author in authorsIncluded
    ensures r.Ok? ==> exists i :: 0 <= i < |authorsIncluded| && authorsIncluded[i] == author && r.value == AuthorColor(i)
  {
    if author !in authorsIncluded then Raise(ValueError)
    else
      var i := Seqs.IndexOf(authorsIncluded, author);
      Ok(AuthorColor(i))
  }

  // -------------------------------------------------------- blame tables

  /**
   * A cell of a blame row: every column but Code with its class and text;
   * the Code cell escaped (see `HtmlText.EscapeCode`) and classed
   * "comment-col" for a comment line.
   */
  function BlameCell(c: Column, text: string, isComment: bool): (td: Td)
    requires HeaderClass(c).Some?
    ensures c != Code ==> td == Td(HeaderClass(c).value, text)
    ensures c == Code ==> td.cls == (if isComment then "comment-col" else "code-col")
    ensures c == Code ==> forall i :: 0 <= i < |td.text| ==> td.text[i] !in {' ', '<', '>', '"'}
  {
    HtmlText.EscapeCodeClean(text);
    var codeClass := if isComment then "comment-col" else HeaderClass(Code).value;
    if c != Code then Td(HeaderClass(c).value, text) else Td(codeClass, HtmlText.EscapeCode(text))
  }

  /** A blame row: the author colour of its id, and a cell per column of `header_blames`. */
  function BlameRow(row: Row, isComment: bool): (tr: Tr)
    requires |row.texts| <= |HeaderBlames()|
    ensures tr.cls == AuthorColor(row.id) && |tr.cells| == |row.texts|
  {
    var h := HeaderBlames();
    Tr(AuthorColor(row.id),
       seq(|row.texts|, i requires 0 <= i < |row.texts| => BlameCell(h[i], row.texts[i], isComment)))
  }

  /** The code of a full blame row is in its last cell, which a browser shows as the line itself when it has no "&". */
  lemma BlameCodeShown(row: Row, isComment: bool)
    requires |row.texts| == 8
    ensures var td := BlameRow(row, isComment).cells[7];
      td.text == HtmlText.EscapeCode(row.texts[7])
      && ('&' !in row.texts[7] ==> HtmlText.Decode(HtmlText.Unescape(HtmlText.Serialize(td.text))) == HtmlText.Visible(row.texts[7]))
  {
    HeaderBlamesShape();
    if '&' !in row.texts[7] {
      HtmlText.ShownCodeWithoutAmpersand(row.texts[7]);
    }
  }

  /**
   * `_get_blame_table_from_rows`: one row per pair of a row and its comment
   * flag (`zip` stops at the shorter list); with dynamic blame history the
   * table carries the id the server reads back.
   */
  method BlameTable(rows: seq<Row>, isComments: seq<bool>, dynamic: bool, fileNr: nat, shaNr: nat, exclusions: Exclusions)
    returns (t: Table)
    requires Fits(rows, HeaderBlames())
    ensures t == BlameTableOf(rows, isComments, dynamic, fileNr, shaNr, exclusions)
  {
    BlameHeaderClassed();
    var head := AddHeaderRow(HeaderBlames(), exclusions);
    var n := if |rows| < |isComments| then |rows| else |isComments|;
    var body: seq<Tr> := [];
    for p := 0 to n
      invariant |body| == p && forall q :: 0 <= q < p ==> body[q] == BlameRow(rows[q], isComments[q])
    {
      ghost var before := body;
      body := body + [BlameRow(rows[p], isComments[p])];
      assert forall q :: 0 <= q < p ==> body[q] == before[q];
    }
    t := Table(if dynamic then Some(HtmlIds.TableId(fileNr, shaNr)) else None, head, body);
  }

  /** The blame table of `_get_blame_table_from_rows`, as a value. */
  function BlameTableOf(rows: seq<Row>, isComments: seq<bool>, dynamic: bool, fileNr: nat, shaNr: nat, exclusions: Exclusions)
    : (t: Table)
    requires Fits(rows, HeaderBlames())
    ensures t.id == if dynamic then Some(HtmlIds.TableId(fileNr, shaNr)) else None
    ensures Classed(HeaderBlames()) && t.head == HeaderCells(HeaderBlames(), exclusions)
    ensures |t.body| == if |rows| < |isComments| then |rows| else |isComments|
    ensures forall p :: 0 <= p < |t.body| ==> t.body[p] == BlameRow(rows[p], isComments[p])
  {
    BlameHeaderClassed();
    var n := if |rows| < |isComments| then |rows| else |isComments|;
    Table(if dynamic then Some(HtmlIds.TableId(fileNr, shaNr)) else None,
          HeaderCells(HeaderBlames(), exclusions),
          seq(n, p requires 0 <= p < n => BlameRow(rows[p], isComments[p])))
  }

  /** `get_blame_table_soup`: no table for a file without rows. */
  method BlameTableSoup(rows: seq<Row>, isComments: seq<bool>, exclusions: Exclusions) returns (t: Option<Table>)
    requires Fits(rows, HeaderBlames())
    ensures t.None? <==> rows == []
    ensures t.Some? ==> t.value.id == None && |t.value.body| == if |rows| < |isComments| then |rows| else |isComments|
    ensures t.Some? ==> t.value == BlameTableOf(rows, isComments, false, 0, 0, exclusions)
  {
    if rows == [] {
      return None;
    }
    var table := BlameTable(rows, isComments, false, 0, 0, exclusions);
    t := Some(table);
  }

  // ----------------------------------------------------------- blame tabs

  /** The `blame_history` option. */
  datatype History = NoHistory | Static | Dynamic

  /**
   * What the report knows of a file: the numbers of its commits (`None`
   * when the file has no entry in `fstr2shas`), which of them give blame
   * rows, and whether its blame at the head commit gives rows.
   */
  datatype Blames = Blames(shaNrs: string -> Option<seq<nat>>, hasRows: (string, nat) -> bool, hasHeadRows: string -> bool)

  /** The numbers of the commits of a file with blame rows: one static table each. */
  function StaticNrs(f: string, b: Blames): (nrs: seq<nat>)
  {
    match b.shaNrs(f)
    case None => []
    case Some(all) => Seqs.Filter(all, nr => b.hasRows(f, nr))
  }

  /** Whether a file gets a tab. */
  predicate Kept(f: string, history: History, b: Blames)
  {
    match history
    case Static => StaticNrs(f, b) != []
    case Dynamic => true
    case NoHistory => b.hasHeadRows(f)
  }

  /** The files that get a tab, in order. */
  function KeptFiles(fstrs: seq<string>, history: History, b: Blames): (kept: seq<string>)
    ensures forall f :: f in kept ==> f in fstrs && Kept(f, history, b)
    ensures forall f :: f in fstrs && Kept(f, history, b) ==> f in kept
    ensures |kept| <= |fstrs|
  {
    if fstrs == [] then []
    else
      var rest := KeptFiles(fstrs[..|fstrs| - 1], history, b);
      var f := fstrs[|fstrs| - 1];
      assert forall g :: g in fstrs ==> g in fstrs[..|fstrs| - 1] || g == f;
      if Kept(f, history, b) then rest + [f] else rest
  }

  /** The ids of the static tables of a file, numbered `index`. */
  function StaticIds(f: string, index: nat, b: Blames): (ids: seq<string>)
    ensures |ids| == |StaticNrs(f, b)|
  {
    var nrs := StaticNrs(f, b);
    seq(|nrs|, i requires 0 <= i < |nrs| => HtmlIds.TableId(index, nrs[i]))
  }

  /**
   * The radio buttons of a tab numbered `index`: one per commit of the
   * file, in order (a file without an entry is a `KeyError`, here none).
   */
  function RadioIds(f: string, index: nat, b: Blames): (ids: seq<string>)
  {
    match b.shaNrs(f)
    case None => []
    case Some(nrs) => seq(|nrs|, i requires 0 <= i < |nrs| => HtmlIds.ButtonId(index, nrs[i]))
  }

  /**
   * The static table ids of the file at position `j` of `fstrs` as the
   * first loop of `add_blame_tables_soup` numbers them: by the file's
   * position among all files, kept or not.
   */
  function StaticIdsAsWritten(fstrs: seq<string>, j: nat, b: Blames): seq<string>
    requires j < |fstrs|
  {
    StaticIds(fstrs[j], j, b)
  }

  /**
   * With static history, a file after one without tables gets table ids
   * whose numbers are one more than those of its radio buttons, which the
   * second loop numbers among the kept files only: no button names any of its tables.
   */
  lemma StaticIdsMissRadios()
    ensures var b := OneCommitBlames();
      var fstrs := ["a.py", "b.py"];
      && KeptFiles(fstrs, Static, b) == ["b.py"]
      && StaticIdsAsWritten(fstrs, 1, b) == [HtmlIds.TableId(1, 7)]
      && RadioIds("b.py", 0, b) == [HtmlIds.ButtonId(0, 7)]
      && "button-" + HtmlIds.TableId(1, 7) !in RadioIds("b.py", 0, b)
  {
    var b := OneCommitBlames();
    OneCommitKept();
    assert RadioIds("b.py", 0, b) == [HtmlIds.ButtonId(0, 7)];
    ButtonIdsDiffer(1, 0, 7);
  }

  /** Two files with one commit, numbered 7, of which only b.py has blame rows. */
  function OneCommitBlames(): Blames
  {
    Blames(f => Some([7]), (f, nr) => f == "b.py", f => true)
  }

  lemma OneCommitKept()
    ensures StaticNrs("a.py", OneCommitBlames()) == []
    ensures StaticNrs("b.py", OneCommitBlames()) == [7]
    ensures KeptFiles(["a.py", "b.py"], Static, OneCommitBlames()) == ["b.py"]
  {
    var b := OneCommitBlames();
    assert [7][1..] == [];
    assert StaticNrs("a.py", b) == Seqs.Filter<nat>([7], (nr: nat) => b.hasRows("a.py", nr)) == [];
    assert StaticNrs("b.py", b) == Seqs.Filter<nat>([7], (nr: nat) => b.hasRows("b.py", nr)) == [7];
    assert ["a.py", "b.py"][..1] == ["a.py"];
    assert ["a.py"][..0] == [];
    assert KeptFiles(["a.py"], Static, b) == [];
  }

  /** A table id names the button of the same numbers only. */
  lemma ButtonIdsDiffer(i: nat, j: nat, nr: nat)
    requires i != j
    ensures "button-" + HtmlIds.TableId(i, nr) != HtmlIds.ButtonId(j, nr)
  {
    var x := "button-" + HtmlIds.TableId(i, nr);
    var y := HtmlIds.ButtonId(j, nr);
    assert x[7..] == HtmlIds.TableId(i, nr);
    assert y[7..] == HtmlIds.TableId(j, nr);
    HtmlIds.TableIdRoundTrip(i, nr);
    HtmlIds.TableIdRoundTrip(j, nr);
  }

  /** A blame tab: the nav button, the pane id, the radio buttons, and the ids of the tables in the pane. */
  datatype Tab = Tab(nav: HtmlIds.NavTab, paneId: string, radios: seq<string>, tableIds: seq<string>)

  /**
   * The tab of the kept file numbered `k`, labelled with its truncated
   * relative name. Its static tables are numbered like its radio buttons.
   */
  function BlameTab(f: string, k: nat, name: string, history: History, b: Blames): (t: Tab)
    ensures t.nav.target == "#" + t.paneId && t.nav.text == name
  {
    var radios := if history != NoHistory then RadioIds(f, k, b) else [];
    var ids := if history == Static then StaticIds(f, k, b) else [];
    Tab(HtmlIds.NewNavTab(name), HtmlIds.TabPaneId(name), radios, ids)
  }

  /** In a tab with static history, every table has the radio button that selects it. */
  lemma BlameTabRadios(f: string, k: nat, name: string, b: Blames)
    ensures var t := BlameTab(f, k, name, Static, b);
      forall i :: 0 <= i < |t.tableIds| ==> "button-" + t.tableIds[i] in t.radios
  {
    StaticIdsHaveRadios(f, k, b);
  }

  /** Every static table of a file has a radio button with its id when both use the same number. */
  lemma StaticIdsHaveRadios(f: string, k: nat, b: Blames)
    ensures forall i :: 0 <= i < |StaticIds(f, k, b)| ==> "button-" + StaticIds(f, k, b)[i] in RadioIds(f, k, b)
  {
    forall i | 0 <= i < |StaticIds(f, k, b)| ensures "button-" + StaticIds(f, k, b)[i] in RadioIds(f, k, b) {
      var all := b.shaNrs(f).value;
      var nr := StaticNrs(f, b)[i];
      assert nr in StaticNrs(f, b);
      var j :| 0 <= j < |all| && all[j] == nr;
      assert RadioIds(f, k, b)[j] == HtmlIds.ButtonId(k, nr);
    }
  }

  /**
   * `add_blame_tables_soup`: the files that get a tab, their relative names
   * truncated to 160 characters, and a tab per kept file, in order. The
   * names go through the corrected `Truncation.String2Truncated`, which
   * keeps the `<= 160` assertion but not the exact-length one: with ten or
   * more long names sharing their last 158 characters the source raises
   * `AssertionError` where this model returns the tabs
   * (`Truncation.SharedTailsBreakExactLength`).
   */
  method AddBlameTables(fstrs: seq<string>, subfolder: string, history: History, b: Blames) returns (r: Result<seq<Tab>>)
    ensures var kept := KeptFiles(fstrs, history, b);
      r.Ok? <==> Truncation.LabelsFitIn(Truncation.FinalLabels(Utils.RelativeNames(kept, subfolder), MaxLengthTabName), MaxLengthTabName)
    ensures MaxLengthTabName >= 3 + NumDigits(|KeptFiles(fstrs, history, b)|) ==> r.Ok?
    ensures r.Ok? ==> var kept := KeptFiles(fstrs, history, b);
      var rels := Utils.RelativeNames(kept, subfolder);
      && |r.value| == |kept|
      && forall k :: 0 <= k < |kept| ==>
           && r.value[k] == BlameTab(kept[k], k, r.value[k].nav.text, history, b)
           && TabName(rels[k], r.value[k].nav.text)
  {
    var kept := KeepFiles(fstrs, history, b);
    var rels := Utils.RelativeNames(kept, subfolder);
    var truncated := Truncation.String2Truncated(rels, MaxLengthTabName);
    if truncated.Raise? {
      return Raise(truncated.error);
    }
    forall k | 0 <= k < |rels| ensures rels[k] in truncated.value && TabName(rels[k], truncated.value[rels[k]]) {
      assert rels[k] in rels;
    }
    var tabs := MakeTabs(kept, rels, truncated.value, history, b);
    r := Ok(tabs);
  }

  /** The label of a tab for a relative name: the name itself when it fits in 160 characters, else a shortening of it that fits. */
  ghost predicate TabName(rel: string, name: string)
  {
    && |name| <= MaxLengthTabName
    && (|rel| <= MaxLengthTabName ==> name == rel)
    && (|rel| > MaxLengthTabName ==> Truncation.IsShortening(name, rel))
  }

  /** The first loop of `add_blame_tables_soup`: the files that get a tab. */
  method KeepFiles(fstrs: seq<string>, history: History, b: Blames) returns (kept: seq<string>)
    ensures kept == KeptFiles(fstrs, history, b)
  {
    kept := [];
    for j := 0 to |fstrs|
      invariant kept == KeptFiles(fstrs[..j], history, b)
    {
      assert fstrs[..j + 1][..j] == fstrs[..j];
      if Kept(fstrs[j], history, b) {
        kept := kept + [fstrs[j]];
      }
    }
    assert fstrs[..|fstrs|] == fstrs;
  }

  /** The second loop of `add_blame_tables_soup`: a tab per kept file, numbered in order. */
  method MakeTabs(kept: seq<string>, rels: seq<string>, truncated: map<string, string>, history: History, b: Blames)
    returns (tabs: seq<Tab>)
    requires |rels| == |kept| && forall k :: 0 <= k < |rels| ==> rels[k] in truncated && TabName(rels[k], truncated[rels[k]])
    ensures |tabs| == |kept|
    ensures forall k :: 0 <= k < |kept| ==>
      tabs[k] == BlameTab(kept[k], k, tabs[k].nav.text, history, b) && TabName(rels[k], tabs[k].nav.text)
  {
    tabs := [];
    for k := 0 to |kept|
      invariant |tabs| == k
      invariant forall q :: 0 <= q < k ==> tabs[q] == BlameTab(kept[q], q, truncated[rels[q]], history, b)
    {
      var tab := BlameTab(kept[k], k, truncated[rels[k]], history, b);
      ghost var before := tabs;
      tabs := tabs + [tab];
      assert forall q :: 0 <= q < k ==> tabs[q] == before[q];
    }
    forall k | 0 <= k < |kept|
      ensures tabs[k] == BlameTab(kept[k], k, tabs[k].nav.text, history, b) && TabName(rels[k], tabs[k].nav.text)
    {
      var name := truncated[rels[k]];
      assert tabs[k] == BlameTab(kept[k], k, name, history, b);
      assert tabs[k].nav.text == name;
    }
  }

  // ------------------------------------------------------------ document

  /** The scripts of the document: with a browser id the dynamic set, which adds browser-id.js and shutdown.js. */
  function JsFiles(browserId: string): (files: seq<string>)
    ensures "globals.js" in files && "update-table-on-button-click.js" in files
    ensures "shutdown.js" in files <==> browserId != ""
    ensures "browser-id.js" in files <==> browserId != ""
    ensures browserId != "" ==> files[0] == "browser-id.js"
  {
    if browserId != "" then
      ["browser-id.js", "globals.js", "tab-radio-button-activation.js", "shutdown.js",
       "truncate-tab-names.js", "update-table-on-button-click.js"]
    else
      ["globals.js", "tab-radio-button-activation.js", "truncate-tab-names.js", "update-table-on-button-click.js"]
  }

  /**
   * The code of one script as it goes into the document: globals.js gets
   * the exclusions flag, browser-id.js the browser id; `readFile` stands for
   * reading the file.
   */
  function ScriptCode(file: string, readFile: string -> string, hideBlames: bool, browserId: string): string
  {
    var flag := if hideBlames then "true" else "false";
    if file == "globals.js" then ReplaceAll(readFile(file), "\"<%= blame_exclusions_hide %>\"", flag)
    else if file == "browser-id.js" then ReplaceAll(readFile(file), "<%= browser_id %>", browserId)
    else readFile(file)
  }

  function ScriptTag(code: string): string
  {
    "\n<script>\n" + code + "</script>\n"
  }

  /** The script tags of the given files, in order. */
  function Scripts(files: seq<string>, readFile: string -> string, hideBlames: bool, browserId: string): string
  {
    HtmlText.Concat(seq(|files|, i requires 0 <= i < |files| => ScriptTag(ScriptCode(files[i], readFile, hideBlames, browserId))))
  }

  /** The loop of `create_html_document` that builds the script tags. */
  method BuildScripts(files: seq<string>, readFile: string -> string, hideBlames: bool, browserId: string) returns (js: string)
    ensures js == Scripts(files, readFile, hideBlames, browserId)
  {
    js := "";
    for i := 0 to |files|
      invariant js == Scripts(files[..i], readFile, hideBlames, browserId)
    {
      var tags := seq(i + 1, q requires 0 <= q < i + 1 => ScriptTag(ScriptCode(files[..i + 1][q], readFile, hideBlames, browserId)));
      assert tags == seq(i, q requires 0 <= q < i => ScriptTag(ScriptCode(files[..i][q], readFile, hideBlames, browserId))) + [tags[i]];
      HtmlText.ConcatAppend(seq(i, q requires 0 <= q < i => ScriptTag(ScriptCode(files[..i][q], readFile, hideBlames, browserId))), [tags[i]]);
      assert HtmlText.Concat([tags[i]]) == tags[i] + HtmlText.Concat([]);
      js := js + ScriptTag(ScriptCode(files[i], readFile, hideBlames, browserId));
    }
    assert files[..|files|] == files;
  }

  /** `create_html_document`: the style sheet before every "</head>", the scripts before every "</body>". */
  function HtmlDocument(html: string, css: string, scripts: string): string
  {
    ReplaceAll(ReplaceAll(html, "</head>", "<style>" + css + "</style></head>"), "</body>", scripts + "</body>")
  }

  /** `pat` occurs in `s` at `k` and nowhere else. */
  predicate OnlyAt(s: string, pat: string, k: nat)
  {
    StartsAt(s, k, pat) && forall j :: 0 <= j <= |s| && StartsAt(s, j, pat) ==> j == k
  }

  lemma {:induction false} ReplaceNone(s: string, pat: string, rep: string)
    requires |pat| > 0 && forall j :: 0 <= j <= |s| ==> !StartsAt(s, j, pat)
    ensures ReplaceAll(s, pat, rep) == s
    decreases |s|
  {
    if |s| >= |pat| {
      assert !StartsAt(s, 0, pat);
      assert s[..|pat|] == s[0..|pat|];
      forall j | 0 <= j <= |s[1..]| ensures !StartsAt(s[1..], j, pat) {
        assert !StartsAt(s, j + 1, pat);
        if j + |pat| <= |s[1..]| {
          assert s[1..][j..j + |pat|] == s[j + 1..j + 1 + |pat|];
        }
      }
      ReplaceNone(s[1..], pat, rep);
      assert s == [s[0]] + s[1..];
    }
  }

  /** A pattern that occurs once is replaced there and nowhere else. */
  lemma {:induction false} ReplaceOnce(a: string, pat: string, b: string, rep: string)
    requires |pat| > 0 && OnlyAt(a + pat + b, pat, |a|)
    ensures ReplaceAll(a + pat + b, pat, rep) == a + rep + b
    decreases |a|
  {
    if a == [] {
      ReplaceAtStart(pat, b, rep);
    } else {
      var s := a + pat + b;
      OnlyAtTail(a, pat, b);
      calc {
        ReplaceAll(s, pat, rep);
        { assert s[..|pat|] == s[0..|pat|]; assert s[1..] == a[1..] + pat + b; }
        [a[0]] + ReplaceAll(a[1..] + pat + b, pat, rep);
        { ReplaceOnce(a[1..], pat, b, rep); }
        [a[0]] + (a[1..] + rep + b);
        { assert a == [a[0]] + a[1..]; }
        a + rep + b;
      }
    }
  }

  /** The pattern at the start, and nowhere after it. */
  lemma ReplaceAtStart(pat: string, b: string, rep: string)
    requires |pat| > 0 && OnlyAt([] + pat + b, pat, 0)
    ensures ReplaceAll([] + pat + b, pat, rep) == [] + rep + b
  {
    var s := [] + pat + b;
    assert s[..|pat|] == pat && s[|pat|..] == b;
    forall j | 0 <= j <= |b| ensures !StartsAt(b, j, pat) {
      if StartsAt(b, j, pat) {
        assert s[|pat| + j..|pat| + j + |pat|] == b[j..j + |pat|];
        assert StartsAt(s, |pat| + j, pat);
      }
    }
    ReplaceNone(b, pat, rep);
    assert [] + rep + b == rep + b;
  }

  /** Dropping a first character before the only occurrence keeps it the only one. */
  lemma OnlyAtTail(a: string, pat: string, b: string)
    requires |pat| > 0 && a != [] && OnlyAt(a + pat + b, pat, |a|)
    ensures !StartsAt(a + pat + b, 0, pat)
    ensures OnlyAt(a[1..] + pat + b, pat, |a| - 1)
  {
    var s := a + pat + b;
    var t := a[1..] + pat + b;
    assert s[1..] == t;
    forall j | 0 <= j <= |t| && StartsAt(t, j, pat) ensures j == |a| - 1 {
      assert t[j..j + |pat|] == s[j + 1..j + 1 + |pat|];
      assert StartsAt(s, j + 1, pat);
    }
    assert t[|a| - 1..|a| - 1 + |pat|] == pat;
  }

  /** Two patterns that each occur once, the first before the second, are each replaced in place. */
  lemma ReplaceTwo(a: string, b: string, c: string, p1: string, r1: string, p2: string, r2: string)
    requires |p1| > 0 && |p2| > 0
    requires OnlyAt(a + p1 + (b + p2 + c), p1, |a|)
    requires OnlyAt((a + r1 + b) + p2 + c, p2, |a + r1 + b|)
    ensures ReplaceAll(ReplaceAll(a + p1 + (b + p2 + c), p1, r1), p2, r2) == (a + r1 + b) + r2 + c
  {
    calc {
      ReplaceAll(ReplaceAll(a + p1 + (b + p2 + c), p1, r1), p2, r2);
      { ReplaceOnce(a, p1, b + p2 + c, r1); }
      ReplaceAll(a + r1 + (b + p2 + c), p2, r2);
      { assert a + r1 + (b + p2 + c) == (a + r1 + b) + p2 + c; }
      ReplaceAll((a + r1 + b) + p2 + c, p2, r2);
      { ReplaceOnce(a + r1 + b, p2, c, r2); }
      (a + r1 + b) + r2 + c;
    }
  }

  /**
   * For a template with one "</head>" before one "</body>" (and no "</body>"
   * brought in by the style sheet), the style sheet ends the head and the
   * scripts end the body, and the rest of the template is kept.
   */
  lemma DocumentLayout(a: string, b: string, c: string, css: string, scripts: string)
    requires OnlyAt(a + "</head>" + (b + "</body>" + c), "</head>", |a|)
    requires OnlyAt((a + ("<style>" + css + "</style></head>") + b) + "</body>" + c, "</body>",
                    |a + ("<style>" + css + "</style></head>") + b|)
    ensures HtmlDocument(a + "</head>" + (b + "</body>" + c), css, scripts)
         == (a + ("<style>" + css + "</style></head>") + b) + (scripts + "</body>") + c
  {
    ReplaceTwo(a, b, c, "</head>", "<style>" + css + "</style></head>", "</body>", scripts + "</body>");
  }
}
