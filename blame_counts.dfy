/**
 * Blame line counts: after the blames are read, every hunk's line count is
 * added to the statistics of its author (`run` in blame.py,
 * `update_author2fstr2fstat` in blame_reader.py and repo_blame.py), and the
 * authors are ranked by their total count (`_blame_authors` / `blame_authors`).
 *
 * The statistics table `target` maps author -> file -> line count, with "*"
 * standing for all authors and for all files. Only the `line_count` of a
 * `FileStat` is touched here, so a file stat is its line count.
 */
module BlameCounts {
  import opened Errors
  import opened BlameRows

  /** What `persons_db.get_person` tells about a blame author. */
  datatype Person = Person(author: string, filterMatched: bool)

  /** The settings the counting reads. */
  datatype Config = Config(personOf: string -> Person, comments: bool, emptyLines: bool)

  /** author -> file -> line count. */
  type Target = map<string, map<string, int>>

  /** One hunk of one file, in the order the loops visit them. */
  datatype Entry = Entry(fstr: string, blame: Blame)

  /** The running state: the statistics, and `author2line_count` with its insertion order. */
  datatype Tally = Tally(target: Target, order: seq<string>, counts: map<string, int>)

  // ------------------------------------------------------ one hunk's count

  /** `is_comment_lines.count(True)`. */
  function CountTrue(bs: seq<bool>): nat
  {
    if |bs| == 0 then 0 else CountTrue(bs[..|bs| - 1]) + (if bs[|bs| - 1] then 1 else 0)
  }

  /** The number of lines with `not line.strip()`. */
  function CountBlank(lines: seq<string>): nat
  {
    if |lines| == 0 then 0 else CountBlank(lines[..|lines| - 1]) + (if IsBlank(lines[|lines| - 1]) then 1 else 0)
  }

  /** All lines, less the comment lines unless comments count, less the blank lines unless empty lines count. */
  function LineCount(b: Blame, comments: bool, emptyLines: bool): int
  {
    |b.lines| - (if comments then 0 else CountTrue(b.isComments)) - (if emptyLines then 0 else CountBlank(b.lines))
  }

  lemma {:induction false} CountBlankBound(lines: seq<string>)
    ensures CountBlank(lines) <= |lines|
    ensures CountBlank(lines) == |lines| <==> forall k :: 0 <= k < |lines| ==> IsBlank(lines[k])
  {
    if |lines| > 0 {
      var n := |lines| - 1;
      CountBlankBound(lines[..n]);
      if CountBlank(lines) == |lines| {
        forall k | 0 <= k < |lines| ensures IsBlank(lines[k]) {
          if k < n {
            assert lines[..n][k] == lines[k];
          }
        }
      }
      if forall k :: 0 <= k < |lines| ==> IsBlank(lines[k]) {
        assert forall k :: 0 <= k < n ==> IsBlank(lines[..n][k]);
      }
    }
  }

  /**
   * A hunk counts all its lines when comments and empty lines both count;
   * otherwise it never counts more. When comments count, the count is never
   * negative, and it is zero exactly when every line is blank and blank lines
   * do not count.
   */
  lemma LineCountMeaning(b: Blame, comments: bool, emptyLines: bool)
    ensures LineCount(b, comments, emptyLines) <= |b.lines|
    ensures comments && emptyLines ==> LineCount(b, comments, emptyLines) == |b.lines|
    ensures comments ==> LineCount(b, comments, emptyLines) >= 0
    ensures comments && !emptyLines ==>
      (LineCount(b, comments, emptyLines) == 0 <==> forall k :: 0 <= k < |b.lines| ==> IsBlank(b.lines[k]))
  {
    CountBlankBound(b.lines);
  }

  // ------------------------------------------------------------ one step

  /** `target[a][f]`, reading a missing entry as 0. */
  function Cell(m: map<string, int>, f: string): int
  {
    if f in m then m[f] else 0
  }

  /** The body of the inner loop for one hunk. */
  function AddBlame(t: Tally, e: Entry, cfg: Config): Result<Tally>
  {
    var p := cfg.personOf(e.blame.author);
    var lc := LineCount(e.blame, cfg.comments, cfg.emptyLines);
    var order := if p.author in t.counts then t.order else t.order + [p.author];
    var counts := t.counts[p.author := Cell(t.counts, p.author) + lc];
    if p.filterMatched then Ok(Tally(t.target, order, counts))
    else if p.author !in t.target then Raise(KeyError)
    else
      var inner := t.target[p.author];
      var inner1 := if e.fstr in inner then inner else inner[e.fstr := 0];
      var inner2 := inner1[e.fstr := inner1[e.fstr] + lc];
      if "*" !in inner2 then Raise(KeyError)
      else
        var target1 := t.target[p.author := inner2["*" := inner2["*"] + lc]];
        if "*" !in target1 || "*" !in target1["*"] then Raise(KeyError)
        else Ok(Tally(target1["*" := target1["*"]["*" := target1["*"]["*"] + lc]], order, counts))
  }

  /** The body of the loops, as a value the loops are written against. */
  type Step = (Tally, Entry) -> Result<Tally>

  function Counter(cfg: Config): Step
  {
    (t, e) => AddBlame(t, e, cfg)
  }

  /** The hunks visited so far, from the state before the first; the first failure stops the loops. */
  function Fold(init: Tally, es: seq<Entry>, step: Step): Result<Tally>
  {
    if |es| == 0 then Ok(init)
    else
      var prev := Fold(init, es[..|es| - 1], step);
      if prev.Raise? then prev else step(prev.value, es[|es| - 1])
  }

  function FileEntries(fstr: string, blames: seq<Blame>): (es: seq<Entry>)
    ensures |es| == |blames|
  {
    seq(|blames|, k requires 0 <= k < |blames| => Entry(fstr, blames[k]))
  }

  /** The hunks of the files in order; a file without blames is a KeyError. */
  function Entries(fstrs: seq<string>, fstr2blames: map<string, seq<Blame>>): Result<seq<Entry>>
  {
    if |fstrs| == 0 then Ok([])
    else
      var prev := Entries(fstrs[..|fstrs| - 1], fstr2blames);
      var f := fstrs[|fstrs| - 1];
      if prev.Raise? then prev
      else if f !in fstr2blames then Raise(KeyError)
      else Ok(prev.value + FileEntries(f, fstr2blames[f]))
  }

  /** The outcome of the whole update: every failure on the way is a KeyError. */
  function Counted(init: Tally, fstrs: seq<string>, fstr2blames: map<string, seq<Blame>>, cfg: Config): Result<Tally>
  {
    match Entries(fstrs, fstr2blames)
    case Raise(_) => Raise(KeyError)
    case Ok(es) => Fold(init, es, Counter(cfg))
  }

  // -------------------------------------------------------- the loops

  lemma {:induction false} FoldRaisesKeyError(init: Tally, es: seq<Entry>, cfg: Config)
    ensures Fold(init, es, Counter(cfg)).Raise? ==> Fold(init, es, Counter(cfg)).error == KeyError
  {
    if |es| > 0 {
      FoldRaisesKeyError(init, es[..|es| - 1], cfg);
    }
  }

  lemma {:induction false} FoldStaysRaised(init: Tally, es: seq<Entry>, i: nat, step: Step)
    requires i <= |es| && Fold(init, es[..i], step).Raise?
    ensures Fold(init, es, step).Raise?
    decreases |es| - i
  {
    if i < |es| {
      assert es[..i + 1][..i] == es[..i];
      FoldStaysRaised(init, es, i + 1, step);
    } else {
      assert es[..i] == es;
    }
  }

  lemma {:induction false} EntriesPrefix(fstrs: seq<string>, fstr2blames: map<string, seq<Blame>>, i: nat)
    requires i <= |fstrs| && Entries(fstrs, fstr2blames).Ok?
    ensures Entries(fstrs[..i], fstr2blames).Ok?
    ensures |Entries(fstrs[..i], fstr2blames).value| <= |Entries(fstrs, fstr2blames).value|
    ensures Entries(fstrs, fstr2blames).value[..|Entries(fstrs[..i], fstr2blames).value|] == Entries(fstrs[..i], fstr2blames).value
    decreases |fstrs| - i
  {
    if i == |fstrs| {
      assert fstrs[..i] == fstrs;
    } else {
      assert fstrs[..i + 1][..i] == fstrs[..i];
      EntriesPrefix(fstrs, fstr2blames, i + 1);
      var next := Entries(fstrs[..i + 1], fstr2blames).value;
      var pre := Entries(fstrs[..i], fstr2blames).value;
      assert next[..|pre|] == pre;
    }
  }

  lemma {:induction false} EntriesStayRaised(fstrs: seq<string>, fstr2blames: map<string, seq<Blame>>, i: nat)
    requires i <= |fstrs| && Entries(fstrs[..i], fstr2blames).Raise?
    ensures Entries(fstrs, fstr2blames).Raise?
    decreases |fstrs| - i
  {
    if i < |fstrs| {
      assert fstrs[..i + 1][..i] == fstrs[..i];
      EntriesStayRaised(fstrs, fstr2blames, i + 1);
    } else {
      assert fstrs[..i] == fstrs;
    }
  }

  /** A failure while the first `i` files are counted is the outcome of the whole update. */
  lemma CountedRaises(init: Tally, fstrs: seq<string>, fstr2blames: map<string, seq<Blame>>, cfg: Config,
                      i: nat, done: seq<Entry>)
    requires i <= |fstrs| && Entries(fstrs[..i], fstr2blames) == Ok(done)
    requires Fold(init, done, Counter(cfg)).Raise?
    ensures Counted(init, fstrs, fstr2blames, cfg) == Raise(KeyError)
  {
    var all := Entries(fstrs, fstr2blames);
    if all.Ok? {
      EntriesPrefix(fstrs, fstr2blames, i);
      assert all.value[..|done|] == done;
      FoldStaysRaised(init, all.value, |done|, Counter(cfg));
      FoldRaisesKeyError(init, all.value, cfg);
    }
  }

  lemma FoldSnoc(init: Tally, es: seq<Entry>, e: Entry, step: Step)
    ensures Fold(init, es + [e], step) == if Fold(init, es, step).Raise? then Fold(init, es, step) else step(Fold(init, es, step).value, e)
  {
    assert (es + [e])[..|es|] == es;
  }

  /** One hunk of the inner loop, against the fold of the hunks before it. */
  method AddEntry(cur: Tally, e: Entry, step: Step, ghost init: Tally, ghost seen: seq<Entry>)
    returns (next: Result<Tally>)
    requires Fold(init, seen, step) == Ok(cur)
    ensures next == Fold(init, seen + [e], step)
  {
    FoldSnoc(init, seen, e, step);
    next := step(cur, e);
  }

  /** A failure on a prefix of the hunks is the KeyError of the whole fold. */
  lemma FoldPrefixRaised(init: Tally, es: seq<Entry>, prefix: seq<Entry>, step: Step)
    requires |prefix| <= |es| && es[..|prefix|] == prefix && Fold(init, prefix, step).Raise?
    ensures Fold(init, es, step) == Fold(init, prefix, step)
    decreases |es| - |prefix|
  {
    if |prefix| < |es| {
      var next := es[..|prefix| + 1];
      assert next[..|prefix|] == prefix;
      FoldPrefixRaised(init, es, next, step);
    } else {
      assert es == prefix;
    }
  }

  lemma PrefixSnoc(s: seq<Entry>, k: nat)
    requires k < |s|
    ensures s[..k + 1] == s[..k] + [s[k]]
  {
  }

  /** The hunks of one file: the inner loop. */
  method AddFile(t: Tally, fstr: string, blames: seq<Blame>, step: Step, ghost init: Tally, ghost done: seq<Entry>)
    returns (r: Result<Tally>)
    requires Fold(init, done, step) == Ok(t)
    ensures r == Fold(init, done + FileEntries(fstr, blames), step)
  {
    ghost var all := done + FileEntries(fstr, blames);
    ghost var seen := done;
    var cur := t;
    for j := 0 to |blames|
      invariant |seen| == |done| + j && seen == all[..|done| + j]
      invariant Fold(init, seen, step) == Ok(cur)
    {
      var e := Entry(fstr, blames[j]);
      assert all[|done| + j] == e;
      PrefixSnoc(all, |done| + j);
      var next := AddEntry(cur, e, step, init, seen);
      seen := seen + [e];
      if next.Raise? {
        FoldPrefixRaised(init, all, seen, step);
        return next;
      }
      cur := next.value;
    }
    assert seen == all;
    return Ok(cur);
  }

  /** The two loops over the files and their hunks. */
  method CountLines(target: Target, fstrs: seq<string>, fstr2blames: map<string, seq<Blame>>, cfg: Config)
    returns (r: Result<Tally>)
    ensures r == Counted(Tally(target, [], map[]), fstrs, fstr2blames, cfg)
  {
    var t := Tally(target, [], map[]);
    ghost var init := t;
    for i := 0 to |fstrs|
      invariant Entries(fstrs[..i], fstr2blames).Ok?
      invariant Fold(init, Entries(fstrs[..i], fstr2blames).value, Counter(cfg)) == Ok(t)
    {
      assert fstrs[..i + 1][..i] == fstrs[..i];
      ghost var done := Entries(fstrs[..i], fstr2blames).value;
      if fstrs[i] !in fstr2blames {
        EntriesStayRaised(fstrs, fstr2blames, i + 1);
        return Raise(KeyError);
      }
      var next := AddFile(t, fstrs[i], fstr2blames[fstrs[i]], Counter(cfg), init, done);
      if next.Raise? {
        CountedRaises(init, fstrs, fstr2blames, cfg, i + 1, done + FileEntries(fstrs[i], fstr2blames[fstrs[i]]));
        return Raise(KeyError);
      }
      t := next.value;
    }
    assert fstrs[..|fstrs|] == fstrs;
    return Ok(t);
  }

  // ------------------------------------------------------------ the sums

  /** Which hunks a total adds up. */
  datatype Sel =
    | ByAuthor(a: string)              // author2line_count[a]: every hunk of the author
    | Global                           // target["*"]["*"]: every hunk of a person not filter-matched
    | ByCell(a: string, f: string)     // target[a][f]; f == "*" is all files of a

  predicate Selected(e: Entry, cfg: Config, sel: Sel)
  {
    var p := cfg.personOf(e.blame.author);
    match sel
    case ByAuthor(a) => p.author == a
    case Global => !p.filterMatched
    case ByCell(a, f) => !p.filterMatched && p.author == a && (f == "*" || e.fstr == f)
  }

  function Sum(es: seq<Entry>, cfg: Config, sel: Sel): int
  {
    if |es| == 0 then 0
    else
      var e := es[|es| - 1];
      Sum(es[..|es| - 1], cfg, sel) + (if Selected(e, cfg, sel) then LineCount(e.blame, cfg.comments, cfg.emptyLines) else 0)
  }

  /** No hunk is in a file called "*" and no counted author is called "*". */
  predicate NoStar(es: seq<Entry>, cfg: Config)
  {
    forall k :: 0 <= k < |es| ==>
      es[k].fstr != "*" && (!cfg.personOf(es[k].blame.author).filterMatched ==> cfg.personOf(es[k].blame.author).author != "*")
  }

  /** What one hunk does to the table: only the three cells of its author and file grow. */
  lemma AddBlameEffect(t: Tally, e: Entry, cfg: Config)
    requires AddBlame(t, e, cfg).Ok?
    requires e.fstr != "*"
    requires !cfg.personOf(e.blame.author).filterMatched ==> cfg.personOf(e.blame.author).author != "*"
    ensures var t' := AddBlame(t, e, cfg).value;
      var lc := LineCount(e.blame, cfg.comments, cfg.emptyLines);
      t'.target.Keys == t.target.Keys
      && (forall a | a in t.target && a != "*" :: forall f ::
            Cell(t'.target[a], f) == Cell(t.target[a], f) + (if Selected(e, cfg, ByCell(a, f)) then lc else 0))
      && ("*" in t.target ==> Cell(t'.target["*"], "*") == Cell(t.target["*"], "*") + (if Selected(e, cfg, Global) then lc else 0))
  {
  }

  /** What one hunk does to the author counts: only its author's count grows. */
  lemma AddBlameCountCell(t: Tally, e: Entry, cfg: Config)
    requires AddBlame(t, e, cfg).Ok?
    ensures var t' := AddBlame(t, e, cfg).value;
      forall a :: Cell(t'.counts, a) == Cell(t.counts, a)
        + (if Selected(e, cfg, ByAuthor(a)) then LineCount(e.blame, cfg.comments, cfg.emptyLines) else 0)
  {
  }

  /**
   * The update adds each hunk's count to `author2line_count[author]` and, for
   * persons not filter-matched, to the author's cell for the file, the
   * author's "*" cell and the "*"/"*" cell; nothing else changes.
   */
  lemma {:induction false} FoldTotals(init: Tally, es: seq<Entry>, cfg: Config)
    requires Fold(init, es, Counter(cfg)).Ok? && NoStar(es, cfg)
    ensures var t := Fold(init, es, Counter(cfg)).value;
      t.target.Keys == init.target.Keys
      && (forall a | a in init.target && a != "*" :: forall f ::
            Cell(t.target[a], f) == Cell(init.target[a], f) + Sum(es, cfg, ByCell(a, f)))
      && ("*" in init.target ==> Cell(t.target["*"], "*") == Cell(init.target["*"], "*") + Sum(es, cfg, Global))
      && (forall a :: Cell(t.counts, a) == Cell(init.counts, a) + Sum(es, cfg, ByAuthor(a)))
  {
    if |es| > 0 {
      var n := |es| - 1;
      assert NoStar(es[..n], cfg) by {
        forall k | 0 <= k < n ensures es[..n][k] == es[k] { }
      }
      FoldTotals(init, es[..n], cfg);
      var prev := Fold(init, es[..n], Counter(cfg)).value;
      AddBlameEffect(prev, es[n], cfg);
      AddBlameCountCell(prev, es[n], cfg);
    }
  }

  lemma AddBlameCounts(t: Tally, e: Entry, cfg: Config)
    requires AddBlame(t, e, cfg).Ok?
    ensures var t' := AddBlame(t, e, cfg).value;
      var a := cfg.personOf(e.blame.author).author;
      (forall x :: x in t'.counts <==> x in t.counts || x == a)
      && t'.order == (if a in t.counts then t.order else t.order + [a])
  {
  }

  /** `author2line_count`'s order lists its keys, each once. */
  lemma {:induction false} FoldOrder(es: seq<Entry>, cfg: Config, target: Target)
    requires Fold(Tally(target, [], map[]), es, Counter(cfg)).Ok?
    ensures var t := Fold(Tally(target, [], map[]), es, Counter(cfg)).value;
      (forall a :: a in t.order <==> a in t.counts)
      && (forall p, q :: 0 <= p < q < |t.order| ==> t.order[p] != t.order[q])
  {
    if |es| > 0 {
      FoldOrder(es[..|es| - 1], cfg, target);
      AddBlameCounts(Fold(Tally(target, [], map[]), es[..|es| - 1], Counter(cfg)).value, es[|es| - 1], cfg);
    }
  }

  /** Some hunk of `es` is attributed to the person `a`. */
  predicate HasAuthor(es: seq<Entry>, cfg: Config, a: string)
  {
    exists k :: 0 <= k < |es| && cfg.personOf(es[k].blame.author).author == a
  }

  lemma HasAuthorSnoc(es: seq<Entry>, cfg: Config, a: string)
    requires |es| > 0
    ensures HasAuthor(es, cfg, a) <==>
      HasAuthor(es[..|es| - 1], cfg, a) || cfg.personOf(es[|es| - 1].blame.author).author == a
  {
    var n := |es| - 1;
    if HasAuthor(es[..n], cfg, a) {
      var k :| 0 <= k < n && cfg.personOf(es[..n][k].blame.author).author == a;
      assert es[k] == es[..n][k];
    }
    if HasAuthor(es, cfg, a) {
      var k :| 0 <= k < |es| && cfg.personOf(es[k].blame.author).author == a;
      if k < n {
        assert es[..n][k] == es[k];
      }
    }
  }

  /** `author2line_count` has exactly the authors of the hunks, filter-matched or not. */
  lemma {:induction false} FoldAuthors(es: seq<Entry>, cfg: Config, target: Target)
    requires Fold(Tally(target, [], map[]), es, Counter(cfg)).Ok?
    ensures var t := Fold(Tally(target, [], map[]), es, Counter(cfg)).value;
      forall a :: a in t.counts <==> HasAuthor(es, cfg, a)
  {
    if |es| > 0 {
      var n := |es| - 1;
      FoldAuthors(es[..n], cfg, target);
      AddBlameCounts(Fold(Tally(target, [], map[]), es[..n], Counter(cfg)).value, es[n], cfg);
      forall a {
        HasAuthorSnoc(es, cfg, a);
      }
    }
  }

  /** The table's authors never change, so a counted author missing from it is a KeyError. */
  lemma {:induction false} UnknownAuthorRaises(init: Tally, es: seq<Entry>, cfg: Config, k: nat)
    requires k < |es| && !cfg.personOf(es[k].blame.author).filterMatched
    requires cfg.personOf(es[k].blame.author).author !in init.target
    ensures Fold(init, es, Counter(cfg)).Raise?
  {
    var n := |es| - 1;
    var prev := Fold(init, es[..n], Counter(cfg));
    if k < n {
      assert es[..n][k] == es[k];
      UnknownAuthorRaises(init, es[..n], cfg, k);
    } else if prev.Ok? {
      KeysKept(init, es[..n], cfg);
      AddBlameUnknown(prev.value, es[n], cfg);
    }
  }

  lemma AddBlameUnknown(t: Tally, e: Entry, cfg: Config)
    requires !cfg.personOf(e.blame.author).filterMatched && cfg.personOf(e.blame.author).author !in t.target
    ensures AddBlame(t, e, cfg).Raise?
  {
  }

  lemma {:induction false} KeysKept(init: Tally, es: seq<Entry>, cfg: Config)
    requires Fold(init, es, Counter(cfg)).Ok?
    ensures Fold(init, es, Counter(cfg)).value.target.Keys == init.target.Keys
  {
    if |es| > 0 {
      KeysKept(init, es[..|es| - 1], cfg);
    }
  }

  /** With "*" rows and every counted author present, each with a "*" column, the update cannot fail. */
  lemma {:induction false} KnownAuthorsCount(init: Tally, es: seq<Entry>, cfg: Config)
    requires "*" in init.target && "*" in init.target["*"]
    requires forall a :: a in init.target ==> "*" in init.target[a]
    requires forall k :: 0 <= k < |es| && !cfg.personOf(es[k].blame.author).filterMatched ==>
      cfg.personOf(es[k].blame.author).author in init.target
    ensures Fold(init, es, Counter(cfg)).Ok?
    ensures var t := Fold(init, es, Counter(cfg)).value;
      t.target.Keys == init.target.Keys && forall a :: a in t.target ==> "*" in t.target[a]
  {
    if |es| > 0 {
      var n := |es| - 1;
      forall k | 0 <= k < n && !cfg.personOf(es[..n][k].blame.author).filterMatched
        ensures cfg.personOf(es[..n][k].blame.author).author in init.target
      {
        assert es[..n][k] == es[k];
      }
      KnownAuthorsCount(init, es[..n], cfg);
      AddBlameKnown(Fold(init, es[..n], Counter(cfg)).value, es[n], cfg);
    }
  }

  lemma AddBlameKnown(t: Tally, e: Entry, cfg: Config)
    requires "*" in t.target && "*" in t.target["*"]
    requires forall a :: a in t.target ==> "*" in t.target[a]
    requires !cfg.personOf(e.blame.author).filterMatched ==> cfg.personOf(e.blame.author).author in t.target
    ensures AddBlame(t, e, cfg).Ok?
    ensures var t' := AddBlame(t, e, cfg).value;
      t'.target.Keys == t.target.Keys && forall a :: a in t'.target ==> "*" in t'.target[a]
  {
  }

  // --------------------------------------------------- ranking the authors

  function CountOf(counts: map<string, int>, a: string): int
  {
    if a in counts then counts[a] else 0
  }

  predicate Descending(s: seq<string>, counts: map<string, int>)
  {
    forall i, j :: 0 <= i < j < |s| ==> CountOf(counts, s[i]) >= CountOf(counts, s[j])
  }

  /** Puts `x` after every author with at least its count, so equal counts keep their order. */
  function InsertDesc(x: string, s: seq<string>, counts: map<string, int>): seq<string>
  {
    if |s| == 0 then [x]
    else if CountOf(counts, s[0]) >= CountOf(counts, x) then [s[0]] + InsertDesc(x, s[1..], counts)
    else [x] + s
  }

  /** `sorted(authors, key=lambda x: author2line_count[x], reverse=True)`. */
  function SortDesc(authors: seq<string>, counts: map<string, int>): seq<string>
  {
    if |authors| == 0 then []
    else InsertDesc(authors[|authors| - 1], SortDesc(authors[..|authors| - 1], counts), counts)
  }

  lemma {:induction false} InsertDescPerm(x: string, s: seq<string>, counts: map<string, int>)
    ensures multiset(InsertDesc(x, s, counts)) == multiset(s) + multiset{x}
  {
    if |s| > 0 && CountOf(counts, s[0]) >= CountOf(counts, x) {
      InsertDescPerm(x, s[1..], counts);
      assert s == [s[0]] + s[1..];
    }
  }

  lemma {:induction false} InsertDescElems(x: string, s: seq<string>, counts: map<string, int>)
    ensures |InsertDesc(x, s, counts)| == |s| + 1
    ensures forall y :: y in InsertDesc(x, s, counts) <==> y == x || y in s
  {
    if |s| > 0 && CountOf(counts, s[0]) >= CountOf(counts, x) {
      InsertDescElems(x, s[1..], counts);
      assert s == [s[0]] + s[1..];
    }
  }

  /** Every author before `x`'s place has at least its count, every one after it at most. */
  lemma {:induction false} InsertDescSorted(x: string, s: seq<string>, counts: map<string, int>)
    requires Descending(s, counts)
    ensures Descending(InsertDesc(x, s, counts), counts)
  {
    if |s| > 0 && CountOf(counts, s[0]) >= CountOf(counts, x) {
      var tail := s[1..];
      assert Descending(tail, counts) by {
        forall i, j | 0 <= i < j < |tail| ensures CountOf(counts, tail[i]) >= CountOf(counts, tail[j]) {
          assert tail[i] == s[i + 1] && tail[j] == s[j + 1];
        }
      }
      InsertDescSorted(x, tail, counts);
      InsertDescElems(x, tail, counts);
      var rest := InsertDesc(x, tail, counts);
      forall y | y in rest ensures CountOf(counts, s[0]) >= CountOf(counts, y) {
        if y != x {
          var k :| 0 <= k < |tail| && tail[k] == y;
          assert s[k + 1] == y;
        }
      }
      HeadThenDescending(s[0], rest, counts);
    } else if |s| > 0 {
      HeadThenDescending(x, s, counts);
    }
  }

  lemma HeadThenDescending(h: string, rest: seq<string>, counts: map<string, int>)
    requires Descending(rest, counts)
    requires forall y :: y in rest ==> CountOf(counts, h) >= CountOf(counts, y)
    ensures Descending([h] + rest, counts)
  {
    var r := [h] + rest;
    forall i, j | 0 <= i < j < |r| ensures CountOf(counts, r[i]) >= CountOf(counts, r[j]) {
      assert r[j] == rest[j - 1];
      if i > 0 {
        assert r[i] == rest[i - 1];
      }
    }
  }

  /** The ranking lists the same authors, by descending count. */
  lemma {:induction false} SortDescMeaning(authors: seq<string>, counts: map<string, int>)
    ensures multiset(SortDesc(authors, counts)) == multiset(authors)
    ensures Descending(SortDesc(authors, counts), counts)
  {
    if |authors| > 0 {
      var n := |authors| - 1;
      SortDescMeaning(authors[..n], counts);
      InsertDescPerm(authors[n], SortDesc(authors[..n], counts), counts);
      InsertDescSorted(authors[n], SortDesc(authors[..n], counts), counts);
      assert authors == authors[..n] + [authors[n]];
    }
  }

  // ------------------------------------------------------- the reader

  /**
   * The part of `BlameReader` (blame_reader.py), `BlameTables` (blame.py) and
   * `RepoBlame` (repo_blame.py) that the counting uses.
   */
  class BlameReader {
    var fstrs: seq<string>
    var fstr2blames: map<string, seq<Blame>>
    var blameAuthors: seq<string>

    constructor (fstrs: seq<string>, fstr2blames: map<string, seq<Blame>>)
      ensures this.fstrs == fstrs && this.fstr2blames == fstr2blames && blameAuthors == []
    {
      this.fstrs := fstrs;
      this.fstr2blames := fstr2blames;
      blameAuthors := [];
    }

    /**
     * `update_author2fstr2fstat`: adds the line counts to `target` and ranks
     * the authors; on a KeyError the authors are left as they were.
     */
    method UpdateAuthor2Fstr2Fstat(target: Target, cfg: Config) returns (r: Result<Target>)
      modifies this
      ensures fstrs == old(fstrs) && fstr2blames == old(fstr2blames)
      ensures var c := Counted(Tally(target, [], map[]), fstrs, fstr2blames, cfg);
        (r.Ok? <==> c.Ok?)
        && (r.Ok? ==> r.value == c.value.target && blameAuthors == SortDesc(c.value.order, c.value.counts))
        && (r.Raise? ==> r.error == KeyError && blameAuthors == old(blameAuthors))
    {
      var t := CountLines(target, fstrs, fstr2blames, cfg);
      if t.Raise? {
        return Raise(KeyError);
      }
      blameAuthors := SortDesc(t.value.order, t.value.counts);
      return Ok(t.value.target);
    }
  }
}
