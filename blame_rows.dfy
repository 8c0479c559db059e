/**
 * Blame rows: the table behind each file's blame tab.
 *
 * Every code line of every blame hunk of a file is either omitted or turned
 * into one eight-field row (the columns of `header_blames`). The line number
 * advances for every line, omitted or not. The generators in
 * `blame_rows.py`, `shared_blame.py`, `blame.py` and `repo_blame_rows.py`
 * share this loop and differ only in when a line is omitted and when its
 * author id is replaced by 0; `Variant` names the three rules.
 */
module BlameRows {
  import opened Errors
  import opened Strs
  import Seqs

  /** One blame hunk: a commit's consecutive lines of a file. The date is already formatted as YYYY-MM-DD. */
  datatype Blame = Blame(
    author: string, date: string, message: string, sha: string, commitNr: nat,
    lines: seq<string>, isComments: seq<bool>)

  /** A blame table row, in `header_blames` order. */
  datatype Row = Row(
    id: nat, author: string, date: string, message: string, sha: string,
    commitNr: nat, lineNr: nat, code: string)

  /** The rows of one file and, per row, whether its line is a comment. */
  datatype Rows = Rows(rows: seq<Row>, isComments: seq<bool>)

  /** When a line is omitted and when its id is zeroed. */
  datatype Variant =
    | HideExclusions(hideExclusions: bool, html: bool)  // blame_rows.py and shared_blame.py
    | OmitExclusions(omit: bool)              // blame.py
    | RemoveExclusions(remove: bool)          // repo_blame_rows.py, blame_exclusions == REMOVE

  /** The `comments` and `empty_lines` settings. */
  datatype Options = Options(comments: bool, emptyLines: bool)

  /** The persons database as the generators use it. */
  datatype Persons = Persons(authorOf: string -> string, included: set<string>, excluded: set<string>)

  /** What a generator reads besides the blames. */
  datatype Context = Context(
    variant: Variant, options: Options, authorOf: string -> string,
    excludedAuthors: set<string>, author2nr: map<string, nat>)

  /** One code line together with the fields of its hunk; the author is canonical. */
  datatype Item = Item(
    author: string, date: string, message: string, sha: string, commitNr: nat,
    code: string, isComment: bool)

  // ------------------------------------------------------------ line rules

  /** `line.strip() == ""`. */
  predicate IsBlank(line: string)
  {
    forall i :: 0 <= i < |line| ==> IsSpace(line[i])
  }

  predicate Omitted(v: Variant, excludeComment: bool, excludeEmpty: bool, excludeAuthor: bool)
  {
    match v
    case HideExclusions(hideExclusions, html) => hideExclusions && !html && (excludeComment || excludeEmpty || excludeAuthor)
    case OmitExclusions(omit) => omit && (excludeComment || excludeEmpty || excludeAuthor)
    case RemoveExclusions(remove) => remove && (excludeComment || excludeEmpty || excludeAuthor)
  }

  predicate ZeroId(v: Variant, excludeComment: bool, excludeEmpty: bool, excludeAuthor: bool)
  {
    match v
    case HideExclusions(_, _) => excludeComment || excludeAuthor
    case OmitExclusions(_) => excludeComment || excludeEmpty || excludeAuthor
    case RemoveExclusions(_) => excludeComment || excludeEmpty
  }

  predicate ExcludeComment(ctx: Context, it: Item) { it.isComment && !ctx.options.comments }
  predicate ExcludeEmpty(ctx: Context, it: Item) { IsBlank(it.code) && !ctx.options.emptyLines }
  predicate ExcludeAuthor(ctx: Context, it: Item) { it.author in ctx.excludedAuthors }

  predicate ItemOmitted(ctx: Context, it: Item)
  {
    Omitted(ctx.variant, ExcludeComment(ctx, it), ExcludeEmpty(ctx, it), ExcludeAuthor(ctx, it))
  }

  predicate ItemZeroId(ctx: Context, it: Item)
  {
    ZeroId(ctx.variant, ExcludeComment(ctx, it), ExcludeEmpty(ctx, it), ExcludeAuthor(ctx, it))
  }

  /** The row for this line would look its author up in `author2nr`, and the author is not there. */
  predicate Missing(ctx: Context, it: Item)
  {
    !ItemOmitted(ctx, it) && !ItemZeroId(ctx, it) && it.author !in ctx.author2nr
  }

  /** `sha[:7]`. */
  function ShortSha(sha: string): (s: string)
    ensures |s| <= 7 && s <= sha
  {
    if |sha| <= 7 then sha else sha[..7]
  }

  function MakeRow(ctx: Context, it: Item, lineNr: nat): Row
    requires !Missing(ctx, it) && !ItemOmitted(ctx, it)
  {
    Row((if ItemZeroId(ctx, it) then 0 else ctx.author2nr[it.author]),
        it.author, it.date, it.message, ShortSha(it.sha), it.commitNr, lineNr, it.code)
  }

  // ---------------------------------------------------- the lines, in order

  function Min(a: nat, b: nat): nat { if a <= b then a else b }

  /** `zip(b.lines, b.is_comment_lines)`: as many items as the shorter list. */
  function BlameItems(authorOf: string -> string, b: Blame): (items: seq<Item>)
    ensures |items| == Min(|b.lines|, |b.isComments|)
  {
    seq(Min(|b.lines|, |b.isComments|), k requires 0 <= k < Min(|b.lines|, |b.isComments|) =>
      Item(authorOf(b.author), b.date, b.message, b.sha, b.commitNr, b.lines[k], b.isComments[k]))
  }

  /** The lines of one hunk, for `FlatMap`. */
  function HunkItems(authorOf: string -> string): Blame -> seq<Item>
  {
    b => BlameItems(authorOf, b)
  }

  /** All lines of all hunks, in order. */
  function Flatten(authorOf: string -> string, blames: seq<Blame>): seq<Item>
  {
    Seqs.FlatMap(HunkItems(authorOf), blames)
  }

  // ---------------------------------------------------------- the rows

  predicate NoMissing(ctx: Context, items: seq<Item>)
  {
    forall k :: 0 <= k < |items| ==> !Missing(ctx, items[k])
  }

  /** The rows the loop has produced after `items`; row `lineNr` belongs to `items[lineNr - 1]`. */
  function RowsOf(ctx: Context, items: seq<Item>): (r: Rows)
    requires NoMissing(ctx, items)
    ensures |r.rows| == |r.isComments|
  {
    if |items| == 0 then Rows([], [])
    else
      var prev := RowsOf(ctx, items[..|items| - 1]);
      var it := items[|items| - 1];
      if ItemOmitted(ctx, it) then prev
      else Rows(prev.rows + [MakeRow(ctx, it, |items|)], prev.isComments + [it.isComment])
  }

  /**
   * The result of a generator: a KeyError if some line needs the number of an
   * author that `author2nr` lacks, otherwise the rows.
   */
  function GeneratedRows(ctx: Context, blames: seq<Blame>): Result<Rows>
  {
    var items := Flatten(ctx.authorOf, blames);
    if NoMissing(ctx, items) then Ok(RowsOf(ctx, items)) else Raise(KeyError)
  }

  /** The rows of a longer list of lines begin with the rows of a shorter one. */
  lemma RowsOfSnoc(ctx: Context, items: seq<Item>)
    requires |items| > 0 && NoMissing(ctx, items)
    ensures NoMissing(ctx, items[..|items| - 1])
    ensures var prev := RowsOf(ctx, items[..|items| - 1]);
      var r := RowsOf(ctx, items);
      |prev.rows| <= |r.rows| <= |prev.rows| + 1
      && r.rows[..|prev.rows|] == prev.rows && r.isComments[..|prev.rows|] == prev.isComments
      && (|r.rows| == |prev.rows| + 1 <==> !ItemOmitted(ctx, items[|items| - 1]))
  {
    var p := items[..|items| - 1];
    assert forall k :: 0 <= k < |p| ==> p[k] == items[k];
  }

  /** The row and comment flag belong to the line the row's number names, and that line was not omitted. */
  predicate RowMatches(ctx: Context, items: seq<Item>, row: Row, isComment: bool)
    requires NoMissing(ctx, items)
  {
    1 <= row.lineNr <= |items|
    && !ItemOmitted(ctx, items[row.lineNr - 1])
    && row == MakeRow(ctx, items[row.lineNr - 1], row.lineNr)
    && isComment == items[row.lineNr - 1].isComment
  }

  /** Each row is the row of the line its number names; that line was not omitted. */
  lemma {:induction false} RowsMatchLines(ctx: Context, items: seq<Item>)
    requires NoMissing(ctx, items)
    ensures forall j :: 0 <= j < |RowsOf(ctx, items).rows| ==>
      RowMatches(ctx, items, RowsOf(ctx, items).rows[j], RowsOf(ctx, items).isComments[j])
  {
    if |items| > 0 {
      var p := items[..|items| - 1];
      RowsOfSnoc(ctx, items);
      RowsMatchLines(ctx, p);
      var r := RowsOf(ctx, items);
      var rp := RowsOf(ctx, p);
      forall j | 0 <= j < |rp.rows|
        ensures RowMatches(ctx, items, r.rows[j], r.isComments[j])
      {
        assert r.rows[j] == rp.rows[j] && r.isComments[j] == rp.isComments[j];
        assert RowMatches(ctx, p, rp.rows[j], rp.isComments[j]);
        assert p[rp.rows[j].lineNr - 1] == items[rp.rows[j].lineNr - 1];
      }
    }
  }

  /** Line numbers strictly increase down the table. */
  lemma {:induction false} RowsIncreasing(ctx: Context, items: seq<Item>)
    requires NoMissing(ctx, items)
    ensures var r := RowsOf(ctx, items);
      forall i, j :: 0 <= i < j < |r.rows| ==> r.rows[i].lineNr < r.rows[j].lineNr
  {
    if |items| > 0 {
      var p := items[..|items| - 1];
      RowsOfSnoc(ctx, items);
      RowsIncreasing(ctx, p);
      RowsMatchLines(ctx, p);
      var r := RowsOf(ctx, items);
      var rp := RowsOf(ctx, p);
      forall i, j | 0 <= i < j < |r.rows| ensures r.rows[i].lineNr < r.rows[j].lineNr {
        assert r.rows[i] == rp.rows[i];
        if j < |rp.rows| {
          assert r.rows[j] == rp.rows[j];
        }
      }
    }
  }

  /** Every line that is not omitted has its row. */
  lemma {:induction false} RowsComplete(ctx: Context, items: seq<Item>, k: nat)
    requires NoMissing(ctx, items) && k < |items| && !ItemOmitted(ctx, items[k])
    ensures exists j :: 0 <= j < |RowsOf(ctx, items).rows| && RowsOf(ctx, items).rows[j].lineNr == k + 1
  {
    var p := items[..|items| - 1];
    RowsOfSnoc(ctx, items);
    var r := RowsOf(ctx, items);
    if k == |items| - 1 {
      assert r.rows[|r.rows| - 1].lineNr == k + 1;
    } else {
      assert p[k] == items[k];
      RowsComplete(ctx, p, k);
      var j :| 0 <= j < |RowsOf(ctx, p).rows| && RowsOf(ctx, p).rows[j].lineNr == k + 1;
      assert r.rows[j] == RowsOf(ctx, p).rows[j];
    }
  }

  /** With `html` the hide-exclusions generators keep every line: row j is line j + 1. */
  lemma {:induction false} HtmlKeepsEveryLine(ctx: Context, items: seq<Item>)
    requires ctx.variant.HideExclusions? && ctx.variant.html
    requires NoMissing(ctx, items)
    ensures |RowsOf(ctx, items).rows| == |items|
    ensures forall j :: 0 <= j < |items| ==> RowsOf(ctx, items).rows[j].lineNr == j + 1
  {
    if |items| > 0 {
      RowsOfSnoc(ctx, items);
      HtmlKeepsEveryLine(ctx, items[..|items| - 1]);
      var r := RowsOf(ctx, items);
      var rp := RowsOf(ctx, items[..|items| - 1]);
      forall j | 0 <= j < |items| ensures r.rows[j].lineNr == j + 1 {
        if j < |rp.rows| {
          assert r.rows[j] == rp.rows[j];
        }
      }
    }
  }

  /** A generator raises exactly when a kept, non-zeroed line's author has no number. */
  lemma RaisesIffAuthorUnnumbered(ctx: Context, blames: seq<Blame>)
    ensures GeneratedRows(ctx, blames).Raise? <==>
      exists k :: 0 <= k < |Flatten(ctx.authorOf, blames)| && Missing(ctx, Flatten(ctx.authorOf, blames)[k])
    ensures GeneratedRows(ctx, blames).Raise? ==> GeneratedRows(ctx, blames).error == KeyError
  {
  }

  /** The row id: 0 for the zeroed exclusions of the variant, otherwise the author's number. */
  lemma RowIds(ctx: Context, items: seq<Item>, j: nat)
    requires NoMissing(ctx, items) && j < |RowsOf(ctx, items).rows|
    ensures var row := RowsOf(ctx, items).rows[j];
      1 <= row.lineNr <= |items|
      && var it := items[row.lineNr - 1];
      !ItemOmitted(ctx, it)
      && row.id == (if ItemZeroId(ctx, it) then 0 else ctx.author2nr[it.author])
      && row.author == it.author && row.code == it.code && |row.sha| <= 7
  {
    RowsMatchLines(ctx, items);
  }

  /** One more line: it raises iff it is missing, otherwise it adds its row unless omitted. */
  lemma RowsOfStep(ctx: Context, cur: seq<Item>, it: Item)
    requires NoMissing(ctx, cur)
    ensures NoMissing(ctx, cur + [it]) <==> !Missing(ctx, it)
    ensures !Missing(ctx, it) ==>
      RowsOf(ctx, cur + [it]) ==
        if ItemOmitted(ctx, it) then RowsOf(ctx, cur)
        else Rows(RowsOf(ctx, cur).rows + [MakeRow(ctx, it, |cur| + 1)], RowsOf(ctx, cur).isComments + [it.isComment])
  {
    assert (cur + [it])[..|cur|] == cur;
    assert (cur + [it])[|cur|] == it;
  }

  /** The body of the inner loop: the row of one line, if it is kept. */
  method AddLine(ctx: Context, ghost cur: seq<Item>, it: Item, acc: Rows, lineNr: nat) returns (r: Result<Rows>)
    requires NoMissing(ctx, cur) && acc == RowsOf(ctx, cur) && lineNr == |cur| + 1
    ensures r.Ok? <==> NoMissing(ctx, cur + [it])
    ensures r.Ok? ==> r.value == RowsOf(ctx, cur + [it])
    ensures r.Raise? ==> r.error == KeyError
  {
    var excludeComment := it.isComment && !ctx.options.comments;
    var excludeEmpty := IsBlank(it.code) && !ctx.options.emptyLines;
    var excludeAuthor := it.author in ctx.excludedAuthors;
    RowsOfStep(ctx, cur, it);
    if Omitted(ctx.variant, excludeComment, excludeEmpty, excludeAuthor) {
      return Ok(acc);
    }
    var id: nat;
    if ZeroId(ctx.variant, excludeComment, excludeEmpty, excludeAuthor) {
      id := 0;
    } else if it.author in ctx.author2nr {
      id := ctx.author2nr[it.author];
    } else {
      return Raise(KeyError);
    }
    var row := Row(id, it.author, it.date, it.message, ShortSha(it.sha), it.commitNr, lineNr, it.code);
    return Ok(Rows(acc.rows + [row], acc.isComments + [it.isComment]));
  }

  /** Rows of one hunk: the inner `zip` loop, appending to the rows built so far. */
  method AddHunk(ctx: Context, b: Blame, ghost done: seq<Item>, acc: Rows, lineNr: nat)
    returns (r: Result<Rows>, next: nat)
    requires NoMissing(ctx, done) && acc == RowsOf(ctx, done) && lineNr == |done| + 1
    ensures var all := done + BlameItems(ctx.authorOf, b);
      (r.Ok? <==> NoMissing(ctx, all))
      && (r.Ok? ==> r.value == RowsOf(ctx, all) && next == |all| + 1)
      && (r.Raise? ==> r.error == KeyError)
  {
    var author := ctx.authorOf(b.author);
    ghost var items := BlameItems(ctx.authorOf, b);
    ghost var cur := done;
    var rows := acc;
    next := lineNr;
    for li := 0 to Min(|b.lines|, |b.isComments|)
      invariant cur == done + items[..li]
      invariant NoMissing(ctx, cur)
      invariant rows == RowsOf(ctx, cur)
      invariant next == |cur| + 1
    {
      var it := Item(author, b.date, b.message, b.sha, b.commitNr, b.lines[li], b.isComments[li]);
      assert it == items[li];
      Seqs.AppendSlice(done, items, li);
      var step := AddLine(ctx, cur, it, rows, next);
      if step.Raise? {
        assert (done + items)[..|cur| + 1] == cur + [it];
        NoMissingPrefix(ctx, done + items, |cur| + 1);
        return step, next;
      }
      rows := step.value;
      next := next + 1;
      cur := cur + [it];
    }
    assert items[..|items|] == items;
    r := Ok(rows);
  }

  /** A list with no missing line has no missing line in any prefix. */
  lemma NoMissingPrefix(ctx: Context, items: seq<Item>, i: nat)
    requires i <= |items| && !NoMissing(ctx, items[..i])
    ensures !NoMissing(ctx, items)
  {
    var k :| 0 <= k < i && Missing(ctx, items[..i][k]);
    assert items[k] == items[..i][k];
  }

  /** The generator: the loop over the hunks, with a running line number. */
  method GetRows(ctx: Context, blames: seq<Blame>) returns (r: Result<Rows>)
    ensures r == GeneratedRows(ctx, blames)
  {
    var acc := Rows([], []);
    var lineNr := 1;
    for bi := 0 to |blames|
      invariant NoMissing(ctx, Flatten(ctx.authorOf, blames[..bi]))
      invariant acc == RowsOf(ctx, Flatten(ctx.authorOf, blames[..bi]))
      invariant lineNr == |Flatten(ctx.authorOf, blames[..bi])| + 1
    {
      Seqs.FlatMapSnoc(HunkItems(ctx.authorOf), blames, bi);
      var step;
      step, lineNr := AddHunk(ctx, blames[bi], Flatten(ctx.authorOf, blames[..bi]), acc, lineNr);
      if step.Raise? {
        MissingSpreads(ctx, blames, bi + 1);
        return step;
      }
      acc := step.value;
    }
    assert blames[..|blames|] == blames;
    return Ok(acc);
  }

  /** A line without a number in some leading hunks is a line without a number in the file. */
  lemma MissingSpreads(ctx: Context, blames: seq<Blame>, i: nat)
    requires i <= |blames| && !NoMissing(ctx, Flatten(ctx.authorOf, blames[..i]))
    ensures !NoMissing(ctx, Flatten(ctx.authorOf, blames))
  {
    Seqs.FlatMapPrefix(HunkItems(ctx.authorOf), blames, i);
    var all := Flatten(ctx.authorOf, blames);
    var pre := Flatten(ctx.authorOf, blames[..i]);
    assert all[..|pre|] == pre;
    NoMissingPrefix(ctx, all, |pre|);
  }

  // ------------------------------------------------------ author numbering

  function CountIncluded(authors: seq<string>, included: set<string>): (n: nat)
    ensures n <= |authors|
  {
    if |authors| == 0 then 0
    else CountIncluded(authors[..|authors| - 1], included) + (if authors[|authors| - 1] in included then 1 else 0)
  }

  /** `author2nr` as the loop over `blame_authors` leaves it. */
  function AuthorNumbers(authors: seq<string>, included: set<string>): map<string, nat>
  {
    if |authors| == 0 then map[]
    else
      var prev := authors[..|authors| - 1];
      var a := authors[|authors| - 1];
      AuthorNumbers(prev, included)[a := if a in included then CountIncluded(prev, included) + 1 else 0]
  }

  /** Numbers the authors: included ones 1, 2, 3, ... in list order, all others 0. */
  method NumberAuthors(authors: seq<string>, included: set<string>) returns (author2nr: map<string, nat>)
    ensures author2nr == AuthorNumbers(authors, included)
  {
    author2nr := map[];
    var authorNr := 1;
    for i := 0 to |authors|
      invariant author2nr == AuthorNumbers(authors[..i], included)
      invariant authorNr == CountIncluded(authors[..i], included) + 1
    {
      assert authors[..i + 1][..i] == authors[..i];
      if authors[i] in included {
        author2nr := author2nr[authors[i] := authorNr];
        authorNr := authorNr + 1;
      } else {
        author2nr := author2nr[authors[i] := 0];
      }
    }
    assert authors[..|authors|] == authors;
  }

  /** The keys are exactly the listed authors. */
  lemma {:induction false} AuthorNumbersKeys(authors: seq<string>, included: set<string>)
    ensures forall a :: a in AuthorNumbers(authors, included) <==> a in authors
  {
    if |authors| > 0 {
      AuthorNumbersKeys(authors[..|authors| - 1], included);
      assert authors == authors[..|authors| - 1] + [authors[|authors| - 1]];
    }
  }

  /**
   * In a list without repeats the i-th author gets 1 + the number of included
   * authors before it when included, and 0 otherwise.
   */
  lemma {:induction false} AuthorNumberAt(authors: seq<string>, included: set<string>, i: nat)
    requires i < |authors|
    requires forall p, q :: 0 <= p < q < |authors| ==> authors[p] != authors[q]
    ensures authors[i] in AuthorNumbers(authors, included)
    ensures AuthorNumbers(authors, included)[authors[i]] ==
      if authors[i] in included then CountIncluded(authors[..i], included) + 1 else 0
  {
    var n := |authors| - 1;
    if i < n {
      AuthorNumberAt(authors[..n], included, i);
      assert authors[..n][..i] == authors[..i];
    } else {
      assert authors[..n] == authors[..i];
    }
  }

  /** Included authors get numbers between 1 and the number of included entries; nobody else gets more than 0. */
  lemma {:induction false} AuthorNumbersRange(authors: seq<string>, included: set<string>)
    ensures forall a :: a in AuthorNumbers(authors, included) ==>
      AuthorNumbers(authors, included)[a] <= CountIncluded(authors, included)
      && (AuthorNumbers(authors, included)[a] == 0 <==> a !in included)
  {
    if |authors| > 0 {
      AuthorNumbersRange(authors[..|authors| - 1], included);
    }
  }

  // -------------------------------------------------- the four generators

  /** The context of the hide-exclusions generators, with `author2nr` built from `blame_authors`. */
  function HideContext(options: Options, persons: Persons, blameAuthors: seq<string>, hideExclusions: bool, html: bool): Context
  {
    Context(HideExclusions(hideExclusions, html), options, persons.authorOf, persons.excluded,
            AuthorNumbers(blameAuthors, persons.included))
  }

  /** `BlameBaseRows.get_blame_rows` and `BlameRows._get_blame_rows` after the file lookup. */
  method GetBlameRows(options: Options, persons: Persons, blameAuthors: seq<string>, hideExclusions: bool, html: bool, blames: seq<Blame>)
    returns (r: Result<Rows>)
    ensures r == GeneratedRows(HideContext(options, persons, blameAuthors, hideExclusions, html), blames)
  {
    var author2nr := NumberAuthors(blameAuthors, persons.included);
    r := GetRows(Context(HideExclusions(hideExclusions, html), options, persons.authorOf, persons.excluded, author2nr), blames);
  }

  /** `BlameTables._out_blames_fstr`: every exclusion zeroes the id; `blame_omit_exclusions` drops the line. */
  method OutBlamesFile(options: Options, persons: Persons, blameAuthors: seq<string>, omit: bool, blames: seq<Blame>)
    returns (r: Result<Rows>)
    ensures r == GeneratedRows(Context(OmitExclusions(omit), options, persons.authorOf, persons.excluded,
                                       AuthorNumbers(blameAuthors, persons.included)), blames)
  {
    var author2nr := NumberAuthors(blameAuthors, persons.included);
    r := GetRows(Context(OmitExclusions(omit), options, persons.authorOf, persons.excluded, author2nr), blames);
  }

  /**
   * `RepoBlameRows._get_blame_rows`: the excluded authors are `args.ex_authors`,
   * excluded authors keep their number, and REMOVE drops every excluded line.
   */
  method RepoGetBlameRows(options: Options, authorOf: string -> string, exAuthors: set<string>,
                          author2nr: map<string, nat>, remove: bool, blames: seq<Blame>)
    returns (r: Result<Rows>)
    ensures r == GeneratedRows(Context(RemoveExclusions(remove), options, authorOf, exAuthors, author2nr), blames)
  {
    r := GetRows(Context(RemoveExclusions(remove), options, authorOf, exAuthors, author2nr), blames);
  }

  // ------------------------------------- `_get_blame_rows` of repo_blame_rows.py as written

  /** The first line that is not omitted, if there is one. */
  function FirstKept(ctx: Context, items: seq<Item>): (k: Option<nat>)
    ensures k.None? <==> forall j :: 0 <= j < |items| ==> ItemOmitted(ctx, items[j])
    ensures k.Some? ==> k.value < |items| && !ItemOmitted(ctx, items[k.value])
    ensures k.Some? ==> forall j :: 0 <= j < k.value ==> ItemOmitted(ctx, items[j])
  {
    if |items| == 0 then None
    else if !ItemOmitted(ctx, items[0]) then Some(0)
    else match FirstKept(ctx, items[1..])
      case None => None
      case Some(k) => Some(k + 1)
  }

  /**
   * `RepoBlameRows._get_blame_rows` as written. Each row reads `b.sha[:7]`,
   * but a `Blame` of repo_blame.py has only `sha_short`, so the first line
   * that is not omitted ends the loop: with a KeyError when its id looks up
   * a missing author (the id is evaluated before the sha), otherwise with an
   * AttributeError. Only a file whose every line is omitted gets through.
   */
  function RepoGetBlameRowsAsWritten(options: Options, authorOf: string -> string, exAuthors: set<string>,
                                     author2nr: map<string, nat>, remove: bool, blames: seq<Blame>): (r: Result<Rows>)
    ensures var ctx := Context(RemoveExclusions(remove), options, authorOf, exAuthors, author2nr);
      var items := Flatten(authorOf, blames);
      r.Ok? <==> forall j :: 0 <= j < |items| ==> ItemOmitted(ctx, items[j])
    ensures r.Ok? ==> r.value == Rows([], [])
    ensures r.Raise? ==> r.error == KeyError || r.error == AttributeError
  {
    var ctx := Context(RemoveExclusions(remove), options, authorOf, exAuthors, author2nr);
    var items := Flatten(authorOf, blames);
    match FirstKept(ctx, items)
    case None => Ok(Rows([], []))
    case Some(k) => if Missing(ctx, items[k]) then Raise(KeyError) else Raise(AttributeError)
  }

  /**
   * As written, the generator never returns a row: wherever the corrected
   * one returns rows, it raises AttributeError, and where it returns normally
   * the corrected one has no row either.
   */
  lemma AsWrittenNeverRows(options: Options, authorOf: string -> string, exAuthors: set<string>,
                           author2nr: map<string, nat>, remove: bool, blames: seq<Blame>)
    ensures var g := GeneratedRows(Context(RemoveExclusions(remove), options, authorOf, exAuthors, author2nr), blames);
      g.Ok? && |g.value.rows| > 0 ==>
        RepoGetBlameRowsAsWritten(options, authorOf, exAuthors, author2nr, remove, blames) == Raise(AttributeError)
    ensures RepoGetBlameRowsAsWritten(options, authorOf, exAuthors, author2nr, remove, blames).Ok? ==>
      GeneratedRows(Context(RemoveExclusions(remove), options, authorOf, exAuthors, author2nr), blames) == Ok(Rows([], []))
  {
    var ctx := Context(RemoveExclusions(remove), options, authorOf, exAuthors, author2nr);
    var items := Flatten(authorOf, blames);
    if NoMissing(ctx, items) {
      RowsMatchLines(ctx, items);
      var rs := RowsOf(ctx, items);
      if |rs.rows| > 0 {
        assert !ItemOmitted(ctx, items[rs.rows[0].lineNr - 1]);
      }
    }
  }

  /**
   * One kept line of a known author: the corrected generator gives its row,
   * the code as written raises AttributeError.
   */
  lemma AsWrittenRaisesOnOneLine()
    ensures var blames := [Blame("a", "2024-01-01", "m", "0123456789", 1, ["x"], [false])];
      var options := Options(true, true);
      var id := (s: string) => s;
      RepoGetBlameRowsAsWritten(options, id, {}, map["a" := 1], false, blames) == Raise(AttributeError)
      && GeneratedRows(Context(RemoveExclusions(false), options, id, {}, map["a" := 1]), blames)
         == Ok(Rows([Row(1, "a", "2024-01-01", "m", "0123456", 1, 1, "x")], [false]))
  {
    var blames := [Blame("a", "2024-01-01", "m", "0123456789", 1, ["x"], [false])];
    var id := (s: string) => s;
    var ctx := Context(RemoveExclusions(false), Options(true, true), id, {}, map["a" := 1]);
    var it := Item("a", "2024-01-01", "m", "0123456789", 1, "x", false);
    assert BlameItems(id, blames[0]) == [it];
    assert blames[..0] == [];
    assert Flatten(id, blames) == [it];
    assert !ItemOmitted(ctx, it) && !Missing(ctx, it);
    assert [it][..0] == [];
    assert ShortSha("0123456789") == "0123456";
    assert RowsOf(ctx, [it]) == Rows([MakeRow(ctx, it, 1)], [false]);
  }

  /** `self.fstr2blames[fstr]`. */
  function Lookup<V>(m: map<string, V>, key: string): (r: Result<V>)
    ensures r.Ok? <==> key in m
    ensures r.Ok? ==> r.value == m[key]
    ensures r.Raise? ==> r.error == KeyError
  {
    if key in m then Ok(m[key]) else Raise(KeyError)
  }

  /** Rows of one file: the lookup, then the generator; a missing file is a KeyError. */
  function FileRows(ctx: Context, fstr2blames: map<string, seq<Blame>>, fstr: string): Result<Rows>
  {
    if fstr in fstr2blames then GeneratedRows(ctx, fstr2blames[fstr]) else Raise(KeyError)
  }

  /** `get_fstr_blame_rows` and the other lookup wrappers: the rows of the looked-up blames. */
  method GetFileBlameRows(ctx: Context, fstr2blames: map<string, seq<Blame>>, fstr: string) returns (r: Result<Rows>)
    ensures fstr !in fstr2blames ==> r == Raise(KeyError)
    ensures fstr in fstr2blames ==> r == GeneratedRows(ctx, fstr2blames[fstr])
  {
    var blames := Lookup(fstr2blames, fstr);
    if blames.Raise? {
      return Raise(blames.error);
    }
    r := GetRows(ctx, blames.value);
  }

  // ------------------------------------------------ rows of several files

  /** A dict that remembers its insertion order. */
  datatype FileTable = FileTable(order: seq<string>, rows: map<string, Rows>)

  /** `get_fstr2blame_rows` / `out_blames` over the files `fstrs` taken in order. */
  function TableOf(ctx: Context, fstr2blames: map<string, seq<Blame>>, fstrs: seq<string>): Result<FileTable>
  {
    if |fstrs| == 0 then Ok(FileTable([], map[]))
    else
      var prev := TableOf(ctx, fstr2blames, fstrs[..|fstrs| - 1]);
      var f := fstrs[|fstrs| - 1];
      if prev.Raise? then prev
      else
        var fr := FileRows(ctx, fstr2blames, f);
        if fr.Raise? then Raise(fr.error)
        else if |fr.value.rows| == 0 then prev
        else Ok(FileTable((if f in prev.value.rows then prev.value.order else prev.value.order + [f]),
                          prev.value.rows[f := fr.value]))
  }

  method GetFileTable(ctx: Context, fstr2blames: map<string, seq<Blame>>, fstrs: seq<string>) returns (r: Result<FileTable>)
    ensures r == TableOf(ctx, fstr2blames, fstrs)
  {
    var order: seq<string> := [];
    var table: map<string, Rows> := map[];
    for i := 0 to |fstrs|
      invariant TableOf(ctx, fstr2blames, fstrs[..i]) == Ok(FileTable(order, table))
    {
      assert fstrs[..i + 1][..i] == fstrs[..i];
      var fr := GetFileBlameRows(ctx, fstr2blames, fstrs[i]);
      if fr.Raise? {
        TableStaysRaised(ctx, fstr2blames, fstrs, i + 1);
        return Raise(fr.error);
      }
      if |fr.value.rows| > 0 {
        if fstrs[i] !in table {
          order := order + [fstrs[i]];
        }
        table := table[fstrs[i] := fr.value];
      }
    }
    assert fstrs[..|fstrs|] == fstrs;
    return Ok(FileTable(order, table));
  }

  lemma {:induction false} TableStaysRaised(ctx: Context, fstr2blames: map<string, seq<Blame>>, fstrs: seq<string>, i: nat)
    requires i <= |fstrs| && TableOf(ctx, fstr2blames, fstrs[..i]).Raise?
    ensures TableOf(ctx, fstr2blames, fstrs) == TableOf(ctx, fstr2blames, fstrs[..i])
    decreases |fstrs|
  {
    if i < |fstrs| {
      var n := |fstrs| - 1;
      assert fstrs[..n][..i] == fstrs[..i];
      TableStaysRaised(ctx, fstr2blames, fstrs[..n], i);
      assert TableOf(ctx, fstr2blames, fstrs[..n]).Raise?;
    } else {
      assert fstrs[..i] == fstrs;
    }
  }

  /** A file is in the table iff it is listed and has at least one row, and it maps to its rows. */
  lemma {:induction false} TableKeepsFilesWithRows(ctx: Context, fstr2blames: map<string, seq<Blame>>, fstrs: seq<string>)
    requires TableOf(ctx, fstr2blames, fstrs).Ok?
    ensures var t := TableOf(ctx, fstr2blames, fstrs).value;
      (forall f :: f in t.rows <==> f in fstrs && FileRows(ctx, fstr2blames, f).Ok? && |FileRows(ctx, fstr2blames, f).value.rows| > 0)
      && (forall f :: f in t.rows ==> FileRows(ctx, fstr2blames, f) == Ok(t.rows[f]))
  {
    if |fstrs| > 0 {
      var n := |fstrs| - 1;
      TableKeepsFilesWithRows(ctx, fstr2blames, fstrs[..n]);
      assert fstrs == fstrs[..n] + [fstrs[n]];
      forall f | f in fstrs[..n] ensures FileRows(ctx, fstr2blames, f).Ok? {
        OkTableHasOkFiles(ctx, fstr2blames, fstrs[..n], f);
      }
    }
  }

  /** The order lists exactly the files of the table, each once. */
  lemma {:induction false} TableOrderListsFiles(ctx: Context, fstr2blames: map<string, seq<Blame>>, fstrs: seq<string>)
    requires TableOf(ctx, fstr2blames, fstrs).Ok?
    ensures var t := TableOf(ctx, fstr2blames, fstrs).value;
      (forall f :: f in t.order <==> f in t.rows)
      && (forall p, q :: 0 <= p < q < |t.order| ==> t.order[p] != t.order[q])
  {
    if |fstrs| > 0 {
      TableOrderListsFiles(ctx, fstr2blames, fstrs[..|fstrs| - 1]);
    }
  }

  lemma {:induction false} OkTableHasOkFiles(ctx: Context, fstr2blames: map<string, seq<Blame>>, fstrs: seq<string>, f: string)
    requires TableOf(ctx, fstr2blames, fstrs).Ok? && f in fstrs
    ensures FileRows(ctx, fstr2blames, f).Ok?
  {
    var n := |fstrs| - 1;
    if f != fstrs[n] {
      assert fstrs == fstrs[..n] + [fstrs[n]];
      OkTableHasOkFiles(ctx, fstr2blames, fstrs[..n], f);
    }
  }

  // ------------------------------------------------- MultiRootBlameRows

  /** `MultiRootBlameRows`: its author list starts empty and is never filled. */
  class MultiRootBlameRows {
    var fstrs: seq<string>
    var persons: Persons
    var fstr2blames: map<string, seq<Blame>>
    var sortedFstrs: Option<seq<string>>
    var blameAuthors: seq<string>

    constructor (fstrs: seq<string>, persons: Persons, fstr2blames: map<string, seq<Blame>>)
      ensures this.fstrs == fstrs && this.persons == persons && this.fstr2blames == fstr2blames
      ensures sortedFstrs == None && blameAuthors == []
    {
      this.fstrs := fstrs;
      this.persons := persons;
      this.fstr2blames := fstr2blames;
      sortedFstrs := None;
      blameAuthors := [];
    }

    method SetSortedFstrs(sorted: seq<string>)
      modifies this
      ensures sortedFstrs == Some(sorted)
      ensures fstrs == old(fstrs) && persons == old(persons) && fstr2blames == old(fstr2blames)
      ensures blameAuthors == old(blameAuthors)
    {
      sortedFstrs := Some(sorted);
    }

    /** Reading `sorted_fstrs` before it is set raises AttributeError. */
    method GetFstr2BlameRows(options: Options, hideExclusions: bool, html: bool) returns (r: Result<FileTable>)
      ensures sortedFstrs.None? ==> r == Raise(AttributeError)
      ensures sortedFstrs.Some? ==>
        r == TableOf(HideContext(options, persons, blameAuthors, hideExclusions, html), fstr2blames, sortedFstrs.value)
    {
      if sortedFstrs.None? {
        return Raise(AttributeError);
      }
      var author2nr := NumberAuthors(blameAuthors, persons.included);
      var ctx := Context(HideExclusions(hideExclusions, html), options, persons.authorOf, persons.excluded, author2nr);
      r := GetFileTable(ctx, fstr2blames, sortedFstrs.value);
    }
  }

  /**
   * With the empty author list of `MultiRootBlameRows`, any kept line whose id is
   * not zeroed raises KeyError: for example one line of code by an author who
   * is not excluded.
   */
  lemma EmptyAuthorListRaises(options: Options, persons: Persons, hideExclusions: bool, html: bool, b: Blame)
    requires |b.lines| > 0 && |b.isComments| > 0
    requires !b.isComments[0] && !IsBlank(b.lines[0])
    requires persons.authorOf(b.author) !in persons.excluded
    ensures GeneratedRows(HideContext(options, persons, [], hideExclusions, html), [b]) == Raise(KeyError)
  {
    var ctx := HideContext(options, persons, [], hideExclusions, html);
    Seqs.FlatMapSnoc(HunkItems(ctx.authorOf), [b], 0);
    assert [b][..1] == [b] && [b][..0] == [];
    var items := Flatten(ctx.authorOf, [b]);
    assert items[0] == BlameItems(ctx.authorOf, b)[0];
    assert Missing(ctx, items[0]);
  }

  /** With every hunk's author in `blame_authors`, as `BlameRows` and `BlameTables` have it, no line raises. */
  lemma KnownAuthorsNeverRaise(options: Options, persons: Persons, blameAuthors: seq<string>, hideExclusions: bool, html: bool, blames: seq<Blame>)
    requires forall b :: b in blames ==> persons.authorOf(b.author) in blameAuthors
    ensures GeneratedRows(HideContext(options, persons, blameAuthors, hideExclusions, html), blames).Ok?
  {
    var ctx := HideContext(options, persons, blameAuthors, hideExclusions, html);
    AuthorNumbersKeys(blameAuthors, persons.included);
    FlattenAuthors(ctx.authorOf, blames);
  }

  lemma FlattenAuthors(authorOf: string -> string, blames: seq<Blame>)
    ensures forall it :: it in Flatten(authorOf, blames) ==> exists b :: b in blames && it.author == authorOf(b.author)
  {
    forall it | it in Flatten(authorOf, blames)
      ensures exists b :: b in blames && it.author == authorOf(b.author)
    {
      Seqs.FlatMapFrom(HunkItems(authorOf), blames, it);
      var b :| b in blames && it in BlameItems(authorOf, b);
    }
  }
}
