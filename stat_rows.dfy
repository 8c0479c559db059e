/**
 * The `get_rows` methods of stat_rows.py: the rows of the authors,
 * authors-files, files-authors and files tables.
 *
 * A row starts with its id and a name, has an "Empty" column when it is
 * meant for html, then a second name, then the values of a stat. The
 * values themselves include percentages, which are floating point and not
 * part of this model: a row ends in the stat it shows. How a person's
 * names and e-mail addresses are joined, and how a file name is made
 * relative to the subfolder, come from classes that are not part of this
 * model; they are parameters.
 */
module StatRows {
  import opened StatTables
  import CommitWalk

  /** A cell of a row: the id, a text, or the values of a stat. */
  datatype Cell = Id(n: int) | Text(s: string) | Values(stat: Stat)

  type Row = seq<Cell>

  /** `[id_val, name] + (["", detail] if html else [detail])`, then the stat's values. */
  function StatRow(id: int, name: string, detail: string, html: bool, stat: Stat): Row
  {
    [Id(id), Text(name)] + (if html then [Text(""), Text(detail)] else [Text(detail)]) + [Values(stat)]
  }

  /**
   * A row has its id first, its name second, its detail just before the
   * stat, which comes last, and, for html, an empty column in between.
   */
  lemma StatRowCells(id: int, name: string, detail: string, html: bool, stat: Stat)
    ensures var r := StatRow(id, name, detail, html, stat);
      && |r| == (if html then 5 else 4)
      && IdOf(r) == id && NameOf(r) == name
      && r[|r| - 2] == Text(detail) && r[|r| - 1] == Values(stat)
      && (html ==> r[2] == Text(""))
  {
  }

  /** The id of a row, or -1 for a row that does not start with one. */
  function IdOf(r: Row): int
  {
    if |r| > 0 && r[0].Id? then r[0].n else -1
  }

  /** The name in the second cell of a row, or "" for a row without one. */
  function NameOf(r: Row): string
  {
    if |r| > 1 && r[1].Text? then r[1].s else ""
  }

  /**
   * The rows come in blocks: each row's id is the index in `keys` of the key
   * it belongs to, below `n`, its name is that key's nameOf, and the ids never
   * go down, so the rows of one key share its id and come together.
   */
  ghost predicate Grouped(rows: seq<Row>, keys: seq<string>, n: nat, nameOf: string -> string)
  {
    && (forall p :: 0 <= p < |rows| ==> 0 <= IdOf(rows[p]) < n <= |keys| && NameOf(rows[p]) == nameOf(keys[IdOf(rows[p])]))
    && (forall p :: 0 < p < |rows| ==> IdOf(rows[p - 1]) <= IdOf(rows[p]))
  }

  /** A block of rows that all have id `n` and the nameOf of `keys[n]` extends grouped rows. */
  lemma GroupedAppend(rows: seq<Row>, block: seq<Row>, keys: seq<string>, n: nat, nameOf: string -> string)
    requires n < |keys| && Grouped(rows, keys, n, nameOf)
    requires forall r :: r in block ==> IdOf(r) == n && NameOf(r) == nameOf(keys[n])
    ensures Grouped(rows + block, keys, n + 1, nameOf)
  {
    var all := rows + block;
    forall p | 0 <= p < |all|
      ensures 0 <= IdOf(all[p]) < n + 1 && NameOf(all[p]) == nameOf(keys[IdOf(all[p])])
    {
      if p >= |rows| {
        assert all[p] == block[p - |rows|];
      } else {
        assert all[p] == rows[p];
      }
    }
    forall p | 0 < p < |all|
      ensures IdOf(all[p - 1]) <= IdOf(all[p])
    {
      if p >= |rows| {
        assert all[p] == block[p - |rows|];
        if p - 1 >= |rows| { assert all[p - 1] == block[p - 1 - |rows|]; }
        else { assert all[p - 1] == rows[p - 1]; }
      } else {
        assert all[p] == rows[p] && all[p - 1] == rows[p - 1];
      }
    }
  }

  // ---------------------------------------------------------- authors

  /**
   * `AuthorsTableRows.get_rows`: one row per included author, in order,
   * with ids 0, 1, ..., the author's names and e-mail addresses, and its
   * `author2pstat` stat.
   */
  method GetAuthorsRows(authors: seq<string>, author2pstat: Dict<Stat>,
                        authorsStr: string -> string, emailsStr: string -> string, html: bool)
    returns (rows: seq<Row>)
    requires forall a :: a in authors ==> a in author2pstat.at
    ensures |rows| == |authors|
    ensures forall i :: 0 <= i < |rows| ==>
      rows[i] == StatRow(i, authorsStr(authors[i]), emailsStr(authors[i]), html, author2pstat.at[authors[i]])
    ensures rows == AuthorsRows(authors, author2pstat, authorsStr, emailsStr, html)
  {
    rows := [];
    var idVal := 0;
    for k := 0 to |authors|
      invariant |rows| == k && idVal == k
      invariant forall i :: 0 <= i < k ==>
        rows[i] == StatRow(i, authorsStr(authors[i]), emailsStr(authors[i]), html, author2pstat.at[authors[i]])
    {
      var author := authors[k];
      rows := rows + [StatRow(idVal, authorsStr(author), emailsStr(author), html, author2pstat.at[author])];
      idVal := idVal + 1;
    }
  }

  /** The rows of the authors table, reading an author without a stat as an empty stat. */
  function AuthorsRows(authors: seq<string>, author2pstat: Dict<Stat>,
                       authorsStr: string -> string, emailsStr: string -> string, html: bool): seq<Row>
  {
    seq(|authors|, i requires 0 <= i < |authors| =>
      StatRow(i, authorsStr(authors[i]), emailsStr(authors[i]), html, Get(author2pstat, authors[i])))
  }

  /** `t[k]`, read for a key the table lists; a missing key reads as an empty dict. */
  function Inner(t: Table, k: string): Dict<Stat>
  {
    if k in t.at then t.at[k] else Dict([], map[])
  }

  // ---------------------------------------------------- authors-files

  /** An author's files, most lines in the whole repository first. */
  function AuthorFiles(row: Dict<Stat>, fstr2fstat: Dict<Stat>): seq<string>
  {
    CommitWalk.SortBy(row.keys, FewerLines(fstr2fstat))
  }

  /** The rows of author `a` with id `id` for the first `j` of the files `fs` of its row. */
  function AuthorBlock(id: int, a: string, row: Dict<Stat>, fs: seq<string>, j: nat,
                       authorsStr: string -> string, relName: string -> string, html: bool): seq<Row>
    requires j <= |fs|
  {
    if j == 0 then []
    else
      AuthorBlock(id, a, row, fs, j - 1, authorsStr, relName, html) +
      [StatRow(id, authorsStr(a), relName(fs[j - 1]), html, Get(row, fs[j - 1]))]
  }

  /** Author `i`'s rows: one per file of its row, in `AuthorFiles` order. */
  function AuthorRows(i: int, a: string, row: Dict<Stat>, fstr2fstat: Dict<Stat>,
                      authorsStr: string -> string, relName: string -> string, html: bool): seq<Row>
  {
    var fs := AuthorFiles(row, fstr2fstat);
    AuthorBlock(i, a, row, fs, |fs|, authorsStr, relName, html)
  }

  /** The rows of the first `n` authors of the authors-files table, the `i`-th with id `i`. */
  function AuthorsFilesRows(authors: seq<string>, n: nat, author2fstr2fstat: Table, fstr2fstat: Dict<Stat>,
                            authorsStr: string -> string, relName: string -> string, html: bool): seq<Row>
    requires n <= |authors|
  {
    if n == 0 then []
    else
      AuthorsFilesRows(authors, n - 1, author2fstr2fstat, fstr2fstat, authorsStr, relName, html) +
      AuthorRows(n - 1, authors[n - 1], Inner(author2fstr2fstat, authors[n - 1]), fstr2fstat, authorsStr, relName, html)
  }

  /** The inner loop of `AuthorsFilesTableRows.get_rows`: author `a`'s rows for the files `fs` appended to `rows`. */
  method AddAuthorRows(rows: seq<Row>, id: int, a: string, row: Dict<Stat>, fs: seq<string>,
                       authorsStr: string -> string, relName: string -> string, html: bool)
    returns (rows': seq<Row>)
    ensures rows' == rows + AuthorBlock(id, a, row, fs, |fs|, authorsStr, relName, html)
  {
    rows' := rows;
    for j := 0 to |fs|
      invariant rows' == rows + AuthorBlock(id, a, row, fs, j, authorsStr, relName, html)
    {
      rows' := rows' + [StatRow(id, authorsStr(a), relName(fs[j]), html, Get(row, fs[j]))];
    }
  }

  /** `AuthorsFilesTableRows.get_rows`. */
  method GetAuthorsFilesRows(authors: seq<string>, author2fstr2fstat: Table, fstr2fstat: Dict<Stat>,
                             authorsStr: string -> string, relName: string -> string, html: bool)
    returns (rows: seq<Row>)
    requires forall a :: a in authors ==> a in author2fstr2fstat.at
    ensures rows == AuthorsFilesRows(authors, |authors|, author2fstr2fstat, fstr2fstat, authorsStr, relName, html)
  {
    rows := [];
    var idVal := 0;
    for k := 0 to |authors|
      invariant idVal == k
      invariant rows == AuthorsFilesRows(authors, k, author2fstr2fstat, fstr2fstat, authorsStr, relName, html)
    {
      var author := authors[k];
      var row := author2fstr2fstat.at[author];
      var fstrs := AuthorFiles(row, fstr2fstat);
      rows := AddAuthorRows(rows, idVal, author, row, fstrs, authorsStr, relName, html);
      idVal := idVal + 1;
    }
  }

  /** Every row of a block has the block's id and the author's names. */
  lemma {:induction false} AuthorBlockTagged(id: int, a: string, row: Dict<Stat>, fs: seq<string>, j: nat,
                                            authorsStr: string -> string, relName: string -> string, html: bool)
    requires j <= |fs|
    ensures forall r :: r in AuthorBlock(id, a, row, fs, j, authorsStr, relName, html) ==>
      IdOf(r) == id && NameOf(r) == authorsStr(a)
  {
    if j > 0 {
      AuthorBlockTagged(id, a, row, fs, j - 1, authorsStr, relName, html);
    }
  }

  /**
   * Author `i`'s rows all have id `i` and the author's names, and their files
   * are the author's files, each once, most lines first.
   */
  lemma AuthorRowsMeaning(i: int, a: string, row: Dict<Stat>, fstr2fstat: Dict<Stat>,
                          authorsStr: string -> string, relName: string -> string, html: bool)
    ensures forall r :: r in AuthorRows(i, a, row, fstr2fstat, authorsStr, relName, html) ==>
      IdOf(r) == i && NameOf(r) == authorsStr(a)
    ensures |AuthorRows(i, a, row, fstr2fstat, authorsStr, relName, html)| == |row.keys|
    ensures multiset(AuthorFiles(row, fstr2fstat)) == multiset(row.keys)
    ensures CommitWalk.Ordered(AuthorFiles(row, fstr2fstat), FewerLines(fstr2fstat))
  {
    var fs := AuthorFiles(row, fstr2fstat);
    AuthorBlockTagged(i, a, row, fs, |fs|, authorsStr, relName, html);
    AuthorBlockLength(i, a, row, fs, |fs|, authorsStr, relName, html);
    CommitWalk.SortByMeaning(row.keys, FewerLines(fstr2fstat));
  }

  /** A block has one row per file. */
  lemma {:induction false} AuthorBlockLength(id: int, a: string, row: Dict<Stat>, fs: seq<string>, j: nat,
                                            authorsStr: string -> string, relName: string -> string, html: bool)
    requires j <= |fs|
    ensures |AuthorBlock(id, a, row, fs, j, authorsStr, relName, html)| == j
  {
    if j > 0 {
      AuthorBlockLength(id, a, row, fs, j - 1, authorsStr, relName, html);
    }
  }

  /** One more author's rows keep the rows grouped. */
  lemma AuthorsFilesStep(authors: seq<string>, n: nat, author2fstr2fstat: Table, fstr2fstat: Dict<Stat>,
                         authorsStr: string -> string, relName: string -> string, html: bool)
    requires 0 < n <= |authors|
    requires Grouped(AuthorsFilesRows(authors, n - 1, author2fstr2fstat, fstr2fstat, authorsStr, relName, html),
                     authors, n - 1, authorsStr)
    ensures Grouped(AuthorsFilesRows(authors, n, author2fstr2fstat, fstr2fstat, authorsStr, relName, html),
                    authors, n, authorsStr)
  {
    var a := authors[n - 1];
    var fs := AuthorFiles(Inner(author2fstr2fstat, a), fstr2fstat);
    AuthorBlockTagged(n - 1, a, Inner(author2fstr2fstat, a), fs, |fs|, authorsStr, relName, html);
    GroupedAppend(AuthorsFilesRows(authors, n - 1, author2fstr2fstat, fstr2fstat, authorsStr, relName, html),
                  AuthorRows(n - 1, a, Inner(author2fstr2fstat, a), fstr2fstat, authorsStr, relName, html),
                  authors, n - 1, authorsStr);
  }

  /**
   * The rows of the authors-files table: each belongs to the author whose
   * index is its id and carries that author's names, and the ids never
   * go down, so all rows of one author share its id and come together.
   */
  lemma {:induction false} AuthorsFilesGrouped(authors: seq<string>, n: nat, author2fstr2fstat: Table, fstr2fstat: Dict<Stat>,
                                              authorsStr: string -> string, relName: string -> string, html: bool)
    requires n <= |authors|
    ensures Grouped(AuthorsFilesRows(authors, n, author2fstr2fstat, fstr2fstat, authorsStr, relName, html),
                    authors, n, authorsStr)
  {
    if n > 0 {
      AuthorsFilesGrouped(authors, n - 1, author2fstr2fstat, fstr2fstat, authorsStr, relName, html);
      AuthorsFilesStep(authors, n, author2fstr2fstat, fstr2fstat, authorsStr, relName, html);
    }
  }

  // ---------------------------------------------------- files-authors

  /** The files of the files-authors table, most lines first. */
  function TableFiles(fstr2author2fstat: Table, fstr2fstat: Dict<Stat>): seq<string>
  {
    CommitWalk.SortBy(fstr2author2fstat.keys, FewerLines(fstr2fstat))
  }

  /** The authors of one file's column, most lines in that file first. */
  function FileAuthors(column: Dict<Stat>): seq<string>
  {
    CommitWalk.SortBy(column.keys, FewerLines(column))
  }

  /** The rows of file `f` with id `id` for the first `j` of the authors `order` of its column. */
  function FileBlock(id: int, f: string, column: Dict<Stat>, order: seq<string>, j: nat,
                     relName: string -> string, html: bool): seq<Row>
    requires j <= |order|
  {
    if j == 0 then []
    else FileBlock(id, f, column, order, j - 1, relName, html) + [StatRow(id, relName(f), order[j - 1], html, Get(column, order[j - 1]))]
  }

  /** File `i`'s rows: one per author of its column, in `FileAuthors` order. */
  function FileRows(i: int, f: string, column: Dict<Stat>, relName: string -> string, html: bool): seq<Row>
  {
    var order := FileAuthors(column);
    FileBlock(i, f, column, order, |order|, relName, html)
  }

  /** The rows of the first `n` files of `files`, the `i`-th with id `i`. */
  function FilesAuthorsBlocks(files: seq<string>, n: nat, fstr2author2fstat: Table, relName: string -> string, html: bool)
    : seq<Row>
    requires n <= |files|
  {
    if n == 0 then []
    else
      FilesAuthorsBlocks(files, n - 1, fstr2author2fstat, relName, html) +
      FileRows(n - 1, files[n - 1], Inner(fstr2author2fstat, files[n - 1]), relName, html)
  }

  /** `FilesAuthorsTableRows.get_rows`, over the files in `TableFiles` order. */
  function FilesAuthorsRows(fstr2author2fstat: Table, fstr2fstat: Dict<Stat>, relName: string -> string, html: bool)
    : seq<Row>
  {
    var files := TableFiles(fstr2author2fstat, fstr2fstat);
    FilesAuthorsBlocks(files, |files|, fstr2author2fstat, relName, html)
  }

  /**
   * The inner loop of `FilesAuthorsTableRows.get_rows`: file `f`'s rows,
   * its authors sorted most lines first, appended to `rows`.
   */
  method AddFileRows(rows: seq<Row>, id: int, f: string, column: Dict<Stat>, relName: string -> string, html: bool)
    returns (rows': seq<Row>)
    ensures rows' == rows + FileRows(id, f, column, relName, html)
  {
    var order := FileAuthors(column);
    rows' := rows;
    for j := 0 to |order|
      invariant rows' == rows + FileBlock(id, f, column, order, j, relName, html)
    {
      rows' := rows' + [StatRow(id, relName(f), order[j], html, Get(column, order[j]))];
    }
  }

  /** The outer loop of `FilesAuthorsTableRows.get_rows`: the rows of `files`, the `i`-th with id `i`. */
  method FilesBlocks(files: seq<string>, fstr2author2fstat: Table, relName: string -> string, html: bool)
    returns (rows: seq<Row>)
    ensures rows == FilesAuthorsBlocks(files, |files|, fstr2author2fstat, relName, html)
  {
    rows := [];
    for k := 0 to |files|
      invariant rows == FilesAuthorsBlocks(files, k, fstr2author2fstat, relName, html)
    {
      rows := AddFileRows(rows, k, files[k], Inner(fstr2author2fstat, files[k]), relName, html);
    }
  }

  /** `FilesAuthorsTableRows.get_rows`. */
  method GetFilesAuthorsRows(fstr2author2fstat: Table, fstr2fstat: Dict<Stat>, relName: string -> string, html: bool)
    returns (rows: seq<Row>)
    ensures rows == FilesAuthorsRows(fstr2author2fstat, fstr2fstat, relName, html)
  {
    var fstrs := TableFiles(fstr2author2fstat, fstr2fstat);
    rows := FilesBlocks(fstrs, fstr2author2fstat, relName, html);
  }

  /** Every row of a block has the block's id and the file's name. */
  lemma {:induction false} FileBlockTagged(id: int, f: string, column: Dict<Stat>, order: seq<string>, j: nat,
                                          relName: string -> string, html: bool)
    requires j <= |order|
    ensures forall r :: r in FileBlock(id, f, column, order, j, relName, html) ==> IdOf(r) == id && NameOf(r) == relName(f)
  {
    if j > 0 {
      FileBlockTagged(id, f, column, order, j - 1, relName, html);
    }
  }

  /**
   * File `i`'s rows all have id `i` and the file's name, and their authors
   * are the file's authors, each once, most lines in the file first.
   */
  lemma FileRowsMeaning(i: int, f: string, column: Dict<Stat>, relName: string -> string, html: bool)
    ensures forall r :: r in FileRows(i, f, column, relName, html) ==> IdOf(r) == i && NameOf(r) == relName(f)
    ensures multiset(FileAuthors(column)) == multiset(column.keys)
    ensures CommitWalk.Ordered(FileAuthors(column), FewerLines(column))
  {
    var order := FileAuthors(column);
    FileBlockTagged(i, f, column, order, |order|, relName, html);
    CommitWalk.SortByMeaning(column.keys, FewerLines(column));
  }

  /**
   * The rows of the files-authors table: each belongs to the file whose
   * index in `TableFiles` is its id and carries that file's name, and the
   * ids never go down; the files are the table's keys, each once, most
   * lines first.
   */
  lemma FilesAuthorsGrouped(fstr2author2fstat: Table, fstr2fstat: Dict<Stat>, relName: string -> string, html: bool)
    ensures Grouped(FilesAuthorsRows(fstr2author2fstat, fstr2fstat, relName, html),
                    TableFiles(fstr2author2fstat, fstr2fstat), |fstr2author2fstat.keys|, relName)
    ensures multiset(TableFiles(fstr2author2fstat, fstr2fstat)) == multiset(fstr2author2fstat.keys)
    ensures CommitWalk.Ordered(TableFiles(fstr2author2fstat, fstr2fstat), FewerLines(fstr2fstat))
  {
    var files := TableFiles(fstr2author2fstat, fstr2fstat);
    FilesAuthorsBlocksGrouped(files, |files|, fstr2author2fstat, relName, html);
    CommitWalk.SortByMeaning(fstr2author2fstat.keys, FewerLines(fstr2fstat));
  }

  /** One more file's rows keep the rows grouped. */
  lemma FilesAuthorsBlocksStep(files: seq<string>, n: nat, fstr2author2fstat: Table, relName: string -> string, html: bool)
    requires 0 < n <= |files|
    requires Grouped(FilesAuthorsBlocks(files, n - 1, fstr2author2fstat, relName, html), files, n - 1, relName)
    ensures Grouped(FilesAuthorsBlocks(files, n, fstr2author2fstat, relName, html), files, n, relName)
  {
    var f := files[n - 1];
    var order := FileAuthors(Inner(fstr2author2fstat, f));
    FileBlockTagged(n - 1, f, Inner(fstr2author2fstat, f), order, |order|, relName, html);
    GroupedAppend(FilesAuthorsBlocks(files, n - 1, fstr2author2fstat, relName, html),
                  FileRows(n - 1, f, Inner(fstr2author2fstat, f), relName, html), files, n - 1, relName);
  }

  /** The first `n` files' rows are grouped by file. */
  lemma {:induction false} FilesAuthorsBlocksGrouped(files: seq<string>, n: nat, fstr2author2fstat: Table,
                                                    relName: string -> string, html: bool)
    requires n <= |files|
    ensures Grouped(FilesAuthorsBlocks(files, n, fstr2author2fstat, relName, html), files, n, relName)
  {
    if n > 0 {
      FilesAuthorsBlocksGrouped(files, n - 1, fstr2author2fstat, relName, html);
      FilesAuthorsBlocksStep(files, n, fstr2author2fstat, relName, html);
    }
  }

  // ------------------------------------------------------------ files

  /** `FilesTableRows.get_rows`: one row per entry of `star_fstrs`, with ids 0, 1, .... */
  method GetFilesRows(starFstrs: seq<string>, fstr2fstat: Dict<Stat>, relName: string -> string)
    returns (rows: seq<Row>)
    requires forall f :: f in starFstrs ==> f in fstr2fstat.at
    ensures |rows| == |starFstrs|
    ensures forall i :: 0 <= i < |rows| ==>
      rows[i] == [Id(i), Text(relName(starFstrs[i])), Values(fstr2fstat.at[starFstrs[i]])]
    ensures rows == FilesRows(starFstrs, fstr2fstat, relName)
  {
    rows := [];
    var idVal := 0;
    for k := 0 to |starFstrs|
      invariant |rows| == k && idVal == k
      invariant forall i :: 0 <= i < k ==>
        rows[i] == [Id(i), Text(relName(starFstrs[i])), Values(fstr2fstat.at[starFstrs[i]])]
    {
      var fstr := starFstrs[k];
      rows := rows + [[Id(idVal), Text(relName(fstr)), Values(fstr2fstat.at[fstr])]];
      idVal := idVal + 1;
    }
  }

  /** The rows of the files table, reading a file without a stat as an empty stat. */
  function FilesRows(starFstrs: seq<string>, fstr2fstat: Dict<Stat>, relName: string -> string): seq<Row>
  {
    seq(|starFstrs|, i requires 0 <= i < |starFstrs| =>
      [Id(i), Text(relName(starFstrs[i])), Values(Get(fstr2fstat, starFstrs[i]))])
  }
}
