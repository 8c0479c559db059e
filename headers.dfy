/**
 * Column headers of the report tables.
 *
 * Three families exist side by side: the module-level builders of `outbase.py`,
 * the `html`-aware builders of `stat_rows.py`, and the class methods of
 * `RepoRows`. The module flags `deletions` and `scaled_percentages` become
 * parameters. A column is a value of `Column`; `Title` gives the text the
 * source writes for it.
 */
module Headers {
  datatype Column =
    | ID | Author | Email | File | Empty | Blank
    | PctLines | PctInsertions | PctScaledLines | PctScaledInsertions
    | Lines | Insertions | Deletions | Stability | Commits | AgeYMD | AgeShort
    | Date | Message | SHA | CommitNumber | Line | Code

  type Header = seq<Column>

  function Title(c: Column): string
  {
    match c
    case ID => "ID"
    case Author => "Author"
    case Email => "Email"
    case File => "File"
    case Empty => "Empty"
    case Blank => ""
    case PctLines => "% Lines"
    case PctInsertions => "% Insertions"
    case PctScaledLines => "% Scaled Lines"
    case PctScaledInsertions => "% Scaled Insertions"
    case Lines => "Lines"
    case Insertions => "Insertions"
    case Deletions => "Deletions"
    case Stability => "Stability"
    case Commits => "Commits"
    case AgeYMD => "Age Y:M:D"
    case AgeShort => "Age"
    case Date => "Date"
    case Message => "Message"
    case SHA => "SHA"
    case CommitNumber => "Commit number"
    case Line => "Line"
    case Code => "Code"
  }

  /** The titles of a header, as the source's list of strings. */
  function Titles(h: Header): (r: seq<string>)
  {
    seq(|h|, i requires 0 <= i < |h| => Title(h[i]))
  }

  /** Insert `col` at position `k`. */
  function InsertAt(h: Header, k: nat, col: Column): (r: Header)
    requires k <= |h|
  {
    h[..k] + [col] + h[k..]
  }

  lemma InsertAtConcat(p: Header, q: Header, k: nat, col: Column)
    requires k <= |p|
    ensures InsertAt(p + q, k, col) == InsertAt(p, k, col) + q
  {
    assert (p + q)[..k] == p[..k];
    assert (p + q)[k..] == p[k..] + q;
  }

  /**
   * The leading columns of the person/file tables: the id, the row's subject,
   * then "Empty" in html before the second subject.
   */
  function Prefix(html: bool, first: Column, second: Column): (h: Header)
  {
    [ID, first] + (if html then [Empty, second] else [second])
  }

  lemma PrefixInsertsEmpty(p: Header, first: Column, second: Column)
    ensures Prefix(true, first, second) + p == InsertAt(Prefix(false, first, second) + p, 2, Empty)
  {
    InsertAtConcat(Prefix(false, first, second), p, 2, Empty);
  }

  // ---------------------------------------------------------------- outbase.py

  function OutbaseHeaderStat(deletions: bool): (h: Header)
  {
    [PctLines, PctInsertions, Lines, Insertions, Stability, Commits]
      + (if deletions then [Deletions, AgeYMD] else [AgeYMD])
  }

  /**
   * `header_authors` of outbase.py as written: with scaled percentages and
   * deletions both on, the deletions column is titled "".
   */
  function OutbaseHeaderAuthors(scaled: bool, deletions: bool): (h: Header)
  {
    var prefix := [ID, Author, Email];
    if scaled then
      prefix
        + [PctLines, PctInsertions, PctScaledLines, PctScaledInsertions,
           Lines, Insertions, Stability, Commits]
        + (if deletions then [Blank, AgeShort] else [AgeShort])
    else prefix + OutbaseHeaderStat(deletions)
  }

  function OutbaseHeaderAuthorsFiles(deletions: bool): (h: Header)
  {
    [ID, Author, File] + OutbaseHeaderStat(deletions)
  }

  function OutbaseHeaderFilesAuthors(deletions: bool): (h: Header)
  {
    [ID, File, Author] + OutbaseHeaderStat(deletions)
  }

  /** `header_files`, the same in outbase.py and stat_rows.py. */
  function HeaderFiles(deletions: bool): (h: Header)
  {
    [ID, File] + OutbaseHeaderStat(deletions)
  }

  /** `header_blames`: the eight columns of a blame row, the code last. */
  function HeaderBlames(): (h: Header)
  {
    [ID, Author, Date, Message, SHA, CommitNumber, Line, Code]
  }

  /** A blame row's fields line up with `header_blames`: eight columns, the SHA fifth, the line number and code last. */
  lemma HeaderBlamesShape()
    ensures |HeaderBlames()| == 8
    ensures HeaderBlames()[4] == SHA && HeaderBlames()[6] == Line && HeaderBlames()[7] == Code
    ensures Titles(HeaderBlames())[7] == "Code"
  {
  }

  /** "Deletions" appears iff the flag is set, except that outbase.py's scaled authors header titles it "". */
  lemma OutbaseColumns(scaled: bool, deletions: bool)
    ensures Deletions in OutbaseHeaderStat(deletions) <==> deletions
    ensures Empty !in OutbaseHeaderStat(deletions)
    ensures OutbaseHeaderStat(deletions)[|OutbaseHeaderStat(deletions)| - 1] == AgeYMD
    ensures Deletions in OutbaseHeaderAuthors(scaled, deletions) <==> deletions && !scaled
    ensures Blank in OutbaseHeaderAuthors(scaled, deletions) <==> deletions && scaled
  {
  }

  // -------------------------------------------------------------- stat_rows.py

  /** `header_authors(html)` of stat_rows.py: "Empty" goes before "Email" in html. */
  function StatHeaderAuthors(html: bool, scaled: bool, deletions: bool): (h: Header)
  {
    var prefix := Prefix(html, Author, Email);
    if scaled then
      prefix
        + [PctLines, PctInsertions, PctScaledLines, PctScaledInsertions,
           Lines, Insertions, Stability, Commits]
        + (if deletions then [Deletions, AgeShort] else [AgeShort])
    else prefix + OutbaseHeaderStat(deletions)
  }

  function StatHeaderAuthorsFiles(html: bool, deletions: bool): (h: Header)
  {
    Prefix(html, Author, File) + OutbaseHeaderStat(deletions)
  }

  function StatHeaderFilesAuthors(html: bool, deletions: bool): (h: Header)
  {
    Prefix(html, File, Author) + OutbaseHeaderStat(deletions)
  }

  /** In html the three person/file headers are the plain ones with "Empty" at column 2. */
  lemma StatHtmlInsertsEmpty(scaled: bool, deletions: bool)
    ensures StatHeaderAuthors(true, scaled, deletions) == InsertAt(StatHeaderAuthors(false, scaled, deletions), 2, Empty)
    ensures StatHeaderAuthorsFiles(true, deletions) == InsertAt(StatHeaderAuthorsFiles(false, deletions), 2, Empty)
    ensures StatHeaderFilesAuthors(true, deletions) == InsertAt(StatHeaderFilesAuthors(false, deletions), 2, Empty)
  {
    PrefixInsertsEmpty(StatHeaderAuthors(false, scaled, deletions)[3..], Author, Email);
    PrefixInsertsEmpty(OutbaseHeaderStat(deletions), Author, File);
    PrefixInsertsEmpty(OutbaseHeaderStat(deletions), File, Author);
  }

  /** "Empty" appears iff html, "Deletions" iff deletions, the scaled columns iff scaled. */
  lemma StatColumns(html: bool, scaled: bool, deletions: bool)
    ensures Empty in StatHeaderAuthors(html, scaled, deletions) <==> html
    ensures Deletions in StatHeaderAuthors(html, scaled, deletions) <==> deletions
    ensures PctScaledLines in StatHeaderAuthors(html, scaled, deletions) <==> scaled
  {
    if scaled {
      assert StatHeaderAuthors(html, scaled, deletions)[|Prefix(html, Author, Email)| + 2] == PctScaledLines;
    }
  }

  lemma StatPairColumns(html: bool, deletions: bool)
    ensures Empty in StatHeaderAuthorsFiles(html, deletions) <==> html
    ensures Empty in StatHeaderFilesAuthors(html, deletions) <==> html
  {
  }

  /** Without html, stat_rows.py and outbase.py build the same headers. */
  lemma StatAgreesWithOutbase(scaled: bool, deletions: bool)
    ensures StatHeaderAuthorsFiles(false, deletions) == OutbaseHeaderAuthorsFiles(deletions)
    ensures StatHeaderFilesAuthors(false, deletions) == OutbaseHeaderFilesAuthors(deletions)
    ensures !(scaled && deletions) ==> StatHeaderAuthors(false, scaled, deletions) == OutbaseHeaderAuthors(scaled, deletions)
  {
  }

  /**
   * The outbase.py authors header differs from stat_rows.py's exactly when both
   * flags are on: the deletions column then has an empty title.
   */
  lemma OutbaseBlankDeletionsTitle()
    ensures var h := OutbaseHeaderAuthors(true, true);
      Titles(h)[|h| - 2] == "" && Deletions !in h
    ensures var h := StatHeaderAuthors(false, true, true);
      Titles(h)[|h| - 2] == "Deletions"
    ensures OutbaseHeaderAuthors(true, true) != StatHeaderAuthors(false, true, true)
  {
  }

  // ---------------------------------------------------------------- repo_rows.py

  function RepoHeaderStat(deletions: bool): (h: Header)
  {
    RepoFront(deletions) + RepoBack()
  }

  /** The counts and percentages that open the RepoRows statistics columns. */
  function RepoFront(deletions: bool): (h: Header)
  {
    [Lines, Insertions] + (if deletions then [Deletions] else []) + [PctLines, PctInsertions]
  }

  function RepoBack(): (h: Header)
  {
    [Stability, Commits, AgeYMD]
  }

  function RepoHeaderAuthors(html: bool, scaled: bool, deletions: bool): (h: Header)
  {
    var prefix := Prefix(html, Author, Email);
    if scaled then
      prefix + RepoFront(deletions) + [PctScaledLines, PctScaledInsertions] + RepoBack()
    else prefix + RepoHeaderStat(deletions)
  }

  function RepoHeaderAuthorsFiles(html: bool, deletions: bool): (h: Header)
  {
    Prefix(html, Author, File) + RepoHeaderStat(deletions)
  }

  function RepoHeaderFilesAuthors(html: bool, deletions: bool): (h: Header)
  {
    Prefix(html, File, Author) + RepoHeaderStat(deletions)
  }

  function RepoHeaderFiles(deletions: bool): (h: Header)
  {
    [ID, File] + RepoHeaderStat(deletions)
  }

  /** "Empty" appears iff html, "Deletions" iff deletions, the scaled columns iff scaled. */
  lemma RepoColumns(html: bool, scaled: bool, deletions: bool)
    ensures Deletions in RepoHeaderStat(deletions) <==> deletions
    ensures RepoHeaderStat(deletions)[|RepoHeaderStat(deletions)| - 1] == AgeYMD
    ensures Empty in RepoHeaderAuthors(html, scaled, deletions) <==> html
    ensures Deletions in RepoHeaderAuthors(html, scaled, deletions) <==> deletions
    ensures PctScaledLines in RepoHeaderAuthors(html, scaled, deletions) <==> scaled
    ensures Empty in RepoHeaderAuthorsFiles(html, deletions) <==> html
    ensures Empty in RepoHeaderFilesAuthors(html, deletions) <==> html
  {
  }

  /**
   * Scaled percentages put "% Scaled Lines" and "% Scaled Insertions" right
   * after "% Insertions", and leave every other column where the plain header
   * has it.
   */
  lemma RepoScaledInsertsTwoColumns(html: bool, deletions: bool)
    ensures var plain := RepoHeaderAuthors(html, false, deletions);
      var k := (if html then 4 else 3) + (if deletions then 5 else 4);
      k <= |plain| && plain[k - 1] == PctInsertions &&
      RepoHeaderAuthors(html, true, deletions) == plain[..k] + [PctScaledLines, PctScaledInsertions] + plain[k..]
  {
    var front := Prefix(html, Author, Email) + RepoFront(deletions);
    var plain := RepoHeaderAuthors(html, false, deletions);
    assert plain == front + RepoBack();
    assert plain[..|front|] == front && plain[|front|..] == RepoBack();
  }

  /** In html the RepoRows headers are the plain ones with "Empty" at column 2. */
  lemma RepoHtmlInsertsEmpty(scaled: bool, deletions: bool)
    ensures RepoHeaderAuthors(true, scaled, deletions) == InsertAt(RepoHeaderAuthors(false, scaled, deletions), 2, Empty)
    ensures RepoHeaderAuthorsFiles(true, deletions) == InsertAt(RepoHeaderAuthorsFiles(false, deletions), 2, Empty)
    ensures RepoHeaderFilesAuthors(true, deletions) == InsertAt(RepoHeaderFilesAuthors(false, deletions), 2, Empty)
  {
    var rest := if scaled then RepoFront(deletions) + [PctScaledLines, PctScaledInsertions] + RepoBack() else RepoHeaderStat(deletions);
    assert RepoHeaderAuthors(true, scaled, deletions) == Prefix(true, Author, Email) + rest;
    assert RepoHeaderAuthors(false, scaled, deletions) == Prefix(false, Author, Email) + rest;
    PrefixInsertsEmpty(rest, Author, Email);
    PrefixInsertsEmpty(RepoHeaderStat(deletions), Author, File);
    PrefixInsertsEmpty(RepoHeaderStat(deletions), File, Author);
  }
}
