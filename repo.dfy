/**
 * `GIRepo` (repo.py): the tables a blame run without history leaves on the
 * repository object, the commit and author numbering `_set_shared_data`
 * derives from them, and `total_len` over lists of repositories.
 *
 * Reading the git repository (`repo_reader.run`, `blame_reader.run`,
 * `iter_commits`) is outside the model: its results are parameters.
 */
module Repo {
  import opened Errors
  import Seqs
  import BlameOptions
  import CommitGroups
  import CommitWalk
  import opened StatTables

  /** `list(author2fstr2fstat.keys()) == ["*"]` before any commit is added: no author besides "*". */
  predicate OnlyStarAuthor(included: seq<string>)
  {
    forall a :: a in included ==> a == "*"
  }

  /** No author other than "*" has a file other than "*". */
  ghost predicate OnlyStarFiles(t: Table)
  {
    forall a, f :: a in t.at && a != "*" && f in t.at[a].at ==> f == "*"
  }

  /** `blame_reader.update_author2fstr2fstat` keeps every row and its "*" file, each key listed once. */
  ghost predicate KeepsShape(update: Table -> Table)
  {
    forall t {:trigger update(t)} :: Nested(t) && Starred(t) ==> Nested(update(t)) && Starred(update(t))
  }

  /** The table `get_author2fstr2fstat` builds. */
  function Gathered(fstrs: seq<string>, fstr2groups: map<string, seq<CommitGroups.Group>>,
                    authorOf: string -> string, included: seq<string>): (r: Table)
    requires GroupsKnown(fstrs, fstr2groups, authorOf, included)
    ensures Nested(r) && Starred(r)
    ensures r.keys == ["*"] <==> OnlyStarAuthor(included)
  {
    assert fstrs[..|fstrs|] == fstrs;
    VisitsKnown(fstrs, fstr2groups, authorOf, included, |fstrs|);
    BuiltNested(included, Visits(fstrs, fstr2groups), authorOf);
    NoAuthorsNoTable(included, Visits(fstrs, fstr2groups), authorOf);
    Built(InitTable(included), Visits(fstrs, fstr2groups), authorOf)
  }

  /** The gathered table after the blame line counts are added. */
  function Blamed(fstrs: seq<string>, fstr2groups: map<string, seq<CommitGroups.Group>>,
                  authorOf: string -> string, included: seq<string>, update: Table -> Table): (r: Table)
    requires GroupsKnown(fstrs, fstr2groups, authorOf, included) && KeepsShape(update)
    ensures Nested(r) && Starred(r)
  {
    update(Gathered(fstrs, fstr2groups, authorOf, included))
  }

  /** `get_fstr2fstat` and the sorted `star_fstrs` and `fstrs`, all from `src`. */
  ghost predicate FileTablesOf(src: Table, fstr2fstat: Dict<Stat>, starFstrs: seq<string>, fstrs: seq<string>)
  {
    Nested(src) && Starred(src) &&
    fstr2fstat == FileSums(src, src.keys) && starFstrs == StarFstrs(fstr2fstat) && fstrs == DropStar(starFstrs)
  }

  /** `get_fstr2author2fstat` and `get_author2pstat`, both from `src`. */
  ghost predicate PersonTablesOf(src: Table, fstr2author2fstat: Table, author2pstat: Dict<Stat>)
  {
    Nested(src) && Starred(src) &&
    fstr2author2fstat == Transposed(src, src.keys) && author2pstat == PersonSums(src, src.keys)
  }

  // ------------------------------------------------------ commit numbers

  /** `nr2sha` of commits listed newest first: number `top - k` is the `k`-th commit. */
  function ShaOfNumber(shas: seq<string>, top: int): map<int, string>
  {
    if |shas| == 0 then map[]
    else ShaOfNumber(shas[..|shas| - 1], top)[top - (|shas| - 1) := shas[|shas| - 1]]
  }

  /** Numbers `top`, `top - 1`, ..., `top - |shas| + 1` name the commits in list order. */
  lemma {:induction false} ShaOfNumberAt(shas: seq<string>, top: int)
    ensures forall k :: k in ShaOfNumber(shas, top) <==> top - |shas| < k <= top
    ensures forall k :: 0 <= k < |shas| ==> ShaOfNumber(shas, top)[top - k] == shas[k]
  {
    if |shas| > 0 {
      var n := |shas| - 1;
      ShaOfNumberAt(shas[..n], top);
      assert shas == shas[..n] + [shas[n]];
    }
  }

  /**
   * With distinct commits, `sha2nr` numbers them `len(commits)` down to 1,
   * newest first, and `nr2sha` is its inverse.
   */
  lemma ShaNumbersInverse(shas: seq<string>)
    requires BlameOptions.Distinct(shas)
    ensures forall s :: s in BlameOptions.NumberDown(shas, |shas|) <==> s in shas
    ensures forall k :: k in ShaOfNumber(shas, |shas|) <==> 1 <= k <= |shas|
    ensures |shas| > 0 ==> BlameOptions.NumberDown(shas, |shas|)[shas[0]] == |shas|
    ensures forall s :: s in shas ==>
      1 <= BlameOptions.NumberDown(shas, |shas|)[s] <= |shas| &&
      ShaOfNumber(shas, |shas|)[BlameOptions.NumberDown(shas, |shas|)[s]] == s
    ensures forall k :: 1 <= k <= |shas| ==>
      ShaOfNumber(shas, |shas|)[k] in shas &&
      BlameOptions.NumberDown(shas, |shas|)[ShaOfNumber(shas, |shas|)[k]] == k
  {
    BlameOptions.NumberDownAt(shas, |shas|);
    ShaOfNumberAt(shas, |shas|);
    var sha2nr, nr2sha := BlameOptions.NumberDown(shas, |shas|), ShaOfNumber(shas, |shas|);
    forall s | s in shas
      ensures 1 <= sha2nr[s] <= |shas| && nr2sha[sha2nr[s]] == s
    {
      var k :| 0 <= k < |shas| && shas[k] == s;
      assert sha2nr[shas[k]] == |shas| - k;
    }
    forall k | 1 <= k <= |shas|
      ensures nr2sha[k] in shas && sha2nr[nr2sha[k]] == k
    {
      assert nr2sha[|shas| - (|shas| - k)] == shas[|shas| - k];
    }
  }

  /** `d[k] = f(k)` for each `k` of `keys` in turn (`sha2author`, `fstr2shas`). */
  function Tabulated<V>(keys: seq<string>, f: string -> V): map<string, V>
  {
    if |keys| == 0 then map[]
    else Tabulated(keys[..|keys| - 1], f)[keys[|keys| - 1] := f(keys[|keys| - 1])]
  }

  /** Every key, and nothing else, is mapped to its value. */
  lemma {:induction false} TabulatedAt<V>(keys: seq<string>, f: string -> V)
    ensures forall k :: k in Tabulated(keys, f) <==> k in keys
    ensures forall k :: k in Tabulated(keys, f) ==> Tabulated(keys, f)[k] == f(k)
  {
    if |keys| > 0 {
      TabulatedAt(keys[..|keys| - 1], f);
      assert keys == keys[..|keys| - 1] + [keys[|keys| - 1]];
    }
  }

  /** The first loop of `_set_shared_data`, over the commits newest first. */
  method NumberCommits(newestFirst: seq<string>, authorOfSha: string -> string)
    returns (sha2author: map<string, string>, sha2nr: map<string, int>, nr2sha: map<int, string>)
    ensures sha2author == Tabulated(newestFirst, authorOfSha)
    ensures sha2nr == BlameOptions.NumberDown(newestFirst, |newestFirst|)
    ensures nr2sha == ShaOfNumber(newestFirst, |newestFirst|)
  {
    sha2author, sha2nr, nr2sha := map[], map[], map[];
    var commitNr := |newestFirst|;
    for k := 0 to |newestFirst|
      invariant commitNr == |newestFirst| - k
      invariant sha2author == Tabulated(newestFirst[..k], authorOfSha)
      invariant sha2nr == BlameOptions.NumberDown(newestFirst[..k], |newestFirst|)
      invariant nr2sha == ShaOfNumber(newestFirst[..k], |newestFirst|)
    {
      assert newestFirst[..k + 1][..k] == newestFirst[..k];
      var sha := newestFirst[k];
      sha2author := sha2author[sha := authorOfSha(sha)];
      sha2nr := sha2nr[sha := commitNr];
      nr2sha := nr2sha[commitNr := sha];
      commitNr := commitNr - 1;
    }
    assert newestFirst[..|newestFirst|] == newestFirst;
  }

  // ------------------------------------------------------ author numbers

  /** `for i, author in enumerate(authors): d[author] = i`; a repeated author keeps its last index. */
  function Enumerated(authors: seq<string>): map<string, int>
  {
    if |authors| == 0 then map[]
    else Enumerated(authors[..|authors| - 1])[authors[|authors| - 1] := |authors| - 1]
  }

  /** `for author in excluded: d[author] = 0`. */
  function Zeroed(m: map<string, int>, excluded: seq<string>): map<string, int>
  {
    if |excluded| == 0 then m
    else Zeroed(m, excluded[..|excluded| - 1])[excluded[|excluded| - 1] := 0]
  }

  /** `authors_included` sorted by `author2pstat` line count, most lines first, keeping ties in order. */
  function MostLinesFirst(included: seq<string>, author2pstat: Dict<Stat>): seq<string>
  {
    CommitWalk.SortBy(included, FewerLines(author2pstat))
  }

  /** `author_star2nr`: the index of each author in `sorted`, and 0 for each excluded author. */
  function StarNumbers(sorted: seq<string>, excluded: seq<string>): map<string, int>
  {
    Zeroed(Enumerated(sorted), excluded)
  }

  /** `author2nr`: `author_star2nr` without "*". */
  function WithoutStar(m: map<string, int>): map<string, int>
  {
    m - {"*"}
  }

  /** Every author of the list has an index, and a listed-once author has its position. */
  lemma {:induction false} EnumeratedAt(authors: seq<string>)
    ensures forall a :: a in Enumerated(authors) <==> a in authors
    ensures BlameOptions.Distinct(authors) ==>
      forall i :: 0 <= i < |authors| ==> Enumerated(authors)[authors[i]] == i
  {
    if |authors| > 0 {
      var n := |authors| - 1;
      EnumeratedAt(authors[..n]);
      assert authors == authors[..n] + [authors[n]];
      if BlameOptions.Distinct(authors) {
        assert BlameOptions.Distinct(authors[..n]);
      }
    }
  }

  /** Excluded authors get 0 and every other author keeps its number. */
  lemma {:induction false} ZeroedAt(m: map<string, int>, excluded: seq<string>)
    ensures forall a :: a in Zeroed(m, excluded) <==> a in m || a in excluded
    ensures forall a :: a in excluded ==> Zeroed(m, excluded)[a] == 0
    ensures forall a :: a in m && a !in excluded ==> Zeroed(m, excluded)[a] == m[a]
  {
    if |excluded| > 0 {
      var n := |excluded| - 1;
      ZeroedAt(m, excluded[..n]);
      assert excluded == excluded[..n] + [excluded[n]];
    }
  }

  /**
   * `author_star2nr` holds the sorted included authors and the excluded
   * ones; an excluded author has 0 and any other its place in `sorted`.
   */
  lemma StarNumbersMeaning(sorted: seq<string>, excluded: seq<string>)
    requires BlameOptions.Distinct(sorted)
    ensures forall a :: a in StarNumbers(sorted, excluded) <==> a in sorted || a in excluded
    ensures forall a :: a in excluded ==> StarNumbers(sorted, excluded)[a] == 0
    ensures forall i :: 0 <= i < |sorted| && sorted[i] !in excluded ==> StarNumbers(sorted, excluded)[sorted[i]] == i
  {
    EnumeratedAt(sorted);
    ZeroedAt(Enumerated(sorted), excluded);
  }

  /** An author listed nowhere after position `i` has index `i`. */
  lemma {:induction false} EnumeratedOnce(authors: seq<string>, i: nat)
    requires i < |authors| && authors[i] !in authors[i + 1..]
    ensures authors[i] in Enumerated(authors) && Enumerated(authors)[authors[i]] == i
  {
    var n := |authors| - 1;
    if i < n {
      assert authors[n] in authors[i + 1..];
      assert authors[..n][i + 1..] == authors[i + 1..n];
      assert authors[i + 1..] == authors[i + 1..n] + [authors[n]];
      EnumeratedOnce(authors[..n], i);
    }
  }

  /**
   * When "*" is listed once, first among the included authors, and has at
   * least as many lines as any of them, sorting keeps it first, so "*" gets
   * number 0.
   */
  lemma StarGetsZero(included: seq<string>, excluded: seq<string>, author2pstat: Dict<Stat>)
    requires |included| > 0 && included[0] == "*" && "*" !in included[1..]
    requires forall a :: a in included ==> FewerLines(author2pstat)("*") <= FewerLines(author2pstat)(a)
    ensures "*" in StarNumbers(CommitWalk.SortBy(included, FewerLines(author2pstat)), excluded)
    ensures StarNumbers(CommitWalk.SortBy(included, FewerLines(author2pstat)), excluded)["*"] == 0
  {
    var sorted := CommitWalk.SortBy(included, FewerLines(author2pstat));
    var rest := CommitWalk.SortBy(included[1..], FewerLines(author2pstat));
    SortByKeepsFirst(included, FewerLines(author2pstat));
    assert sorted[1..] == rest;
    EnumeratedOnce(sorted, 0);
    ZeroedAt(Enumerated(sorted), excluded);
  }

  /** `sha2author_nr`: each commit's author number, or KeyError for the first commit whose author has none. */
  function AuthorNumbers(shas: seq<string>, authorOfSha: string -> string, author2nr: map<string, int>)
    : Result<map<string, int>>
  {
    if |shas| == 0 then Ok(map[])
    else
      match AuthorNumbers(shas[..|shas| - 1], authorOfSha, author2nr)
      case Raise(e) => Raise(e)
      case Ok(m) =>
        var sha := shas[|shas| - 1];
        if authorOfSha(sha) in author2nr then Ok(m[sha := author2nr[authorOfSha(sha)]])
        else Raise(KeyError)
  }

  /** `sha2author_nr` exists exactly when every commit's author is numbered, and then gives that number. */
  lemma {:induction false} AuthorNumbersMeaning(shas: seq<string>, authorOfSha: string -> string, author2nr: map<string, int>)
    ensures AuthorNumbers(shas, authorOfSha, author2nr).Ok? <==> forall s :: s in shas ==> authorOfSha(s) in author2nr
    ensures AuthorNumbers(shas, authorOfSha, author2nr).Raise? ==> AuthorNumbers(shas, authorOfSha, author2nr).error == KeyError
    ensures AuthorNumbers(shas, authorOfSha, author2nr).Ok? ==>
      AuthorNumbers(shas, authorOfSha, author2nr).value == map s | s in shas :: author2nr[authorOfSha(s)]
  {
    if |shas| > 0 {
      var n := |shas| - 1;
      AuthorNumbersMeaning(shas[..n], authorOfSha, author2nr);
      assert shas == shas[..n] + [shas[n]];
    }
  }

  /**
   * No KeyError: when every commit's author is an included or excluded
   * author other than "*", every commit gets its author's number.
   */
  lemma NoKeyError(shas: seq<string>, authorOfSha: string -> string, sorted: seq<string>, excluded: seq<string>)
    requires forall s :: s in shas ==> authorOfSha(s) != "*" && (authorOfSha(s) in sorted || authorOfSha(s) in excluded)
    ensures AuthorNumbers(shas, authorOfSha, WithoutStar(StarNumbers(sorted, excluded))).Ok?
  {
    EnumeratedAt(sorted);
    ZeroedAt(Enumerated(sorted), excluded);
    AuthorNumbersMeaning(shas, authorOfSha, WithoutStar(StarNumbers(sorted, excluded)));
  }

  /** The enumerate loop and the excluded loop of `_set_shared_data`. */
  method NumberAuthors(sorted: seq<string>, excluded: seq<string>) returns (authorStar2nr: map<string, int>)
    ensures authorStar2nr == StarNumbers(sorted, excluded)
  {
    authorStar2nr := map[];
    for i := 0 to |sorted|
      invariant authorStar2nr == Enumerated(sorted[..i])
    {
      assert sorted[..i + 1][..i] == sorted[..i];
      authorStar2nr := authorStar2nr[sorted[i] := i];
    }
    assert sorted[..|sorted|] == sorted;
    for j := 0 to |excluded|
      invariant authorStar2nr == Zeroed(Enumerated(sorted), excluded[..j])
    {
      assert excluded[..j + 1][..j] == excluded[..j];
      authorStar2nr := authorStar2nr[excluded[j] := 0];
    }
    assert excluded[..|excluded|] == excluded;
  }

  /** The last loop of `_set_shared_data`; a missing author stops it with KeyError. */
  method NumberCommitAuthors(newestFirst: seq<string>, authorOfSha: string -> string, author2nr: map<string, int>)
    returns (r: Result<map<string, int>>)
    ensures r == AuthorNumbers(newestFirst, authorOfSha, author2nr)
  {
    var sha2authorNr := map[];
    for k := 0 to |newestFirst|
      invariant AuthorNumbers(newestFirst[..k], authorOfSha, author2nr) == Ok(sha2authorNr)
    {
      assert newestFirst[..k + 1][..k] == newestFirst[..k];
      var sha := newestFirst[k];
      if authorOfSha(sha) !in author2nr {
        AuthorNumbersPrefix(newestFirst, authorOfSha, author2nr, k + 1);
        return Raise(KeyError);
      }
      sha2authorNr := sha2authorNr[sha := author2nr[authorOfSha(sha)]];
    }
    assert newestFirst[..|newestFirst|] == newestFirst;
    r := Ok(sha2authorNr);
  }

  /** Once a prefix raises, the whole list raises the same error. */
  lemma {:induction false} AuthorNumbersPrefix(shas: seq<string>, authorOfSha: string -> string,
                                               author2nr: map<string, int>, i: nat)
    requires i <= |shas| && AuthorNumbers(shas[..i], authorOfSha, author2nr) == Raise(KeyError)
    ensures AuthorNumbers(shas, authorOfSha, author2nr) == Raise(KeyError)
  {
    if i < |shas| {
      var n := |shas| - 1;
      assert shas[..n][..i] == shas[..i];
      AuthorNumbersPrefix(shas[..n], authorOfSha, author2nr, i);
    } else {
      assert shas[..i] == shas;
    }
  }

  /** The loop of `_set_shared_data` over the files: each file's commits, newest first. */
  method FileShas(files: seq<string>, shasOf: string -> seq<string>) returns (fstr2shas: map<string, seq<string>>)
    ensures fstr2shas == Tabulated(files, shasOf)
  {
    fstr2shas := map[];
    for i := 0 to |files|
      invariant fstr2shas == Tabulated(files[..i], shasOf)
    {
      assert files[..i + 1][..i] == files[..i];
      fstr2shas := fstr2shas[files[i] := shasOf(files[i])];
    }
    assert files[..|files|] == files;
  }

  // ------------------------------------------------------------ the repo

  /** The statistics fields of `GIRepo`. */
  class GIRepo {
    var author2fstr2fstat: Table
    var fstr2fstat: Dict<Stat>
    var fstr2author2fstat: Table
    var author2pstat: Dict<Stat>
    var fstrs: seq<string>
    var starFstrs: seq<string>
    var authorsIncluded: seq<string>
    var fstr2shas: map<string, seq<string>>
    var author2nr: map<string, int>
    var authorStar2nr: map<string, int>
    var sha2nr: map<string, int>
    var nr2sha: map<int, string>
    var sha2author: map<string, string>
    var sha2authorNr: map<string, int>

    /** The tables start empty; the fields Python only declares start empty as well. */
    constructor ()
      ensures author2fstr2fstat == Dict([], map[]) && fstr2fstat == Dict([], map[])
      ensures fstr2author2fstat == Dict([], map[]) && author2pstat == Dict([], map[])
      ensures fstrs == [] && starFstrs == [] && authorsIncluded == []
      ensures fstr2shas == map[] && author2nr == map[] && authorStar2nr == map[]
      ensures sha2nr == map[] && nr2sha == map[] && sha2author == map[] && sha2authorNr == map[]
    {
      author2fstr2fstat, fstr2fstat := Dict([], map[]), Dict([], map[]);
      fstr2author2fstat, author2pstat := Dict([], map[]), Dict([], map[]);
      fstrs, starFstrs, authorsIncluded := [], [], [];
      fstr2shas, author2nr, authorStar2nr := map[], map[], map[];
      sha2nr, nr2sha, sha2author, sha2authorNr := map[], map[], map[], map[];
    }

    /**
     * `_run_blame_no_history` after the readers have run: `readerFstrs`
     * and `fstr2groups` are the repo reader's files and commit groups,
     * `authorOf` maps a group's author to its canonical author, `included`
     * lists the included authors, and `update` is
     * `blame_reader.update_author2fstr2fstat`. It raises KeyError, changing
     * nothing, when `get_author2fstr2fstat` meets a file without groups or
     * an author that is neither "*" nor included; otherwise it fails when
     * "*" is the only author, or, after the blame counts, the only file.
     */
    method RunBlameNoHistory(readerFstrs: seq<string>, fstr2groups: map<string, seq<CommitGroups.Group>>,
                             authorOf: string -> string, included: seq<string>, update: Table -> Table)
      returns (r: Result<bool>)
      modifies this`author2fstr2fstat, this`fstr2fstat, this`starFstrs, this`fstrs
      modifies this`fstr2author2fstat, this`author2pstat
      requires KeepsShape(update)
      ensures r.Ok? <==> GroupsKnown(readerFstrs, fstr2groups, authorOf, included)
      ensures r.Raise? ==> r.error == KeyError && author2fstr2fstat == old(author2fstr2fstat)
      ensures r.Raise? || OnlyStarAuthor(included) ==>
        fstr2fstat == old(fstr2fstat) && starFstrs == old(starFstrs) && fstrs == old(fstrs)
      ensures r.Ok? && OnlyStarAuthor(included) ==>
        author2fstr2fstat == Gathered(readerFstrs, fstr2groups, authorOf, included)
      ensures r.Ok? && !OnlyStarAuthor(included) ==>
        author2fstr2fstat == Blamed(readerFstrs, fstr2groups, authorOf, included, update)
      ensures r.Ok? ==> (!r.value <==> OnlyStarAuthor(included) || OnlyStarFiles(author2fstr2fstat))
      ensures r.Ok? && !OnlyStarAuthor(included) ==> FileTablesOf(author2fstr2fstat, fstr2fstat, starFstrs, fstrs)
      ensures r == Ok(true) ==> PersonTablesOf(author2fstr2fstat, fstr2author2fstat, author2pstat)
      ensures r != Ok(true) ==> fstr2author2fstat == old(fstr2author2fstat) && author2pstat == old(author2pstat)
    {
      var onlyStar := SetAuthorTable(readerFstrs, fstr2groups, authorOf, included);
      if onlyStar.Raise? {
        return Raise(onlyStar.error);
      }
      if onlyStar.value {
        r := Ok(false);
      } else {
        var ok := SummarizeBlame(update(author2fstr2fstat));
        r := Ok(ok);
      }
    }

    /**
     * The part of `_run_blame_no_history` after the blame counts are in:
     * the update of the counts, the file tables, and, unless "*" is the only
     * file, the person tables.
     */
    method SummarizeBlame(table: Table) returns (ok: bool)
      modifies this`author2fstr2fstat, this`fstr2fstat, this`starFstrs, this`fstrs
      modifies this`fstr2author2fstat, this`author2pstat
      requires Nested(table) && Starred(table)
      ensures author2fstr2fstat == table
      ensures FileTablesOf(table, fstr2fstat, starFstrs, fstrs)
      ensures !ok <==> OnlyStarFiles(table)
      ensures ok ==> PersonTablesOf(table, fstr2author2fstat, author2pstat)
      ensures !ok ==> fstr2author2fstat == old(fstr2author2fstat) && author2pstat == old(author2pstat)
    {
      var noFiles := SetFileTables(table);
      if noFiles {
        ok := false;
      } else {
        SetPersonTables(table);
        ok := true;
      }
    }

    /**
     * `get_author2fstr2fstat`; the table holds only "*" exactly when "*" is
     * the only author. On KeyError the field is not assigned.
     */
    method SetAuthorTable(readerFstrs: seq<string>, fstr2groups: map<string, seq<CommitGroups.Group>>,
                          authorOf: string -> string, included: seq<string>)
      returns (onlyStar: Result<bool>)
      modifies this`author2fstr2fstat
      ensures onlyStar.Ok? <==> GroupsKnown(readerFstrs, fstr2groups, authorOf, included)
      ensures onlyStar.Raise? ==> onlyStar.error == KeyError && author2fstr2fstat == old(author2fstr2fstat)
      ensures onlyStar.Ok? ==> author2fstr2fstat == Gathered(readerFstrs, fstr2groups, authorOf, included)
      ensures onlyStar.Ok? ==> (onlyStar.value <==> OnlyStarAuthor(included))
    {
      var table := GetAuthor2Fstr2Fstat(readerFstrs, fstr2groups, authorOf, included);
      if table.Raise? {
        return Raise(table.error);
      }
      author2fstr2fstat := table.value;
      assert author2fstr2fstat == Gathered(readerFstrs, fstr2groups, authorOf, included);
      onlyStar := Ok(author2fstr2fstat.keys == ["*"]);
    }

    /**
     * The updated blame counts and the file tables of `_run_blame_no_history`;
     * only "*" is left exactly when no author has another file.
     */
    method SetFileTables(src: Table) returns (noFiles: bool)
      modifies this`author2fstr2fstat, this`fstr2fstat, this`starFstrs, this`fstrs
      requires Nested(src) && Starred(src)
      ensures author2fstr2fstat == src
      ensures FileTablesOf(src, fstr2fstat, starFstrs, fstrs)
      ensures noFiles <==> OnlyStarFiles(src)
    {
      var sums := GetFstr2Fstat(src);
      var sorted := StarFstrs(sums);
      var files := if |sorted| > 0 && sorted[0] == "*" then sorted[1..] else sorted;
      OnlyStarFile(src);
      author2fstr2fstat, fstr2fstat, starFstrs, fstrs := src, sums, sorted, files;
      noFiles := sums.keys == ["*"];
    }

    /** The per-file and per-person tables of `_run_blame_no_history`. */
    method SetPersonTables(src: Table)
      modifies this`fstr2author2fstat, this`author2pstat
      requires Nested(src) && Starred(src)
      ensures PersonTablesOf(src, fstr2author2fstat, author2pstat)
    {
      var transposed := GetFstr2Author2Fstat(src);
      var pstats := GetAuthor2Pstat(src);
      fstr2author2fstat, author2pstat := transposed, pstats;
    }

    /** The commit numbering and the file loop of `_set_shared_data`. */
    method SetCommitData(newestFirst: seq<string>, authorOfSha: string -> string, shasOf: string -> seq<string>)
      modifies this`sha2author, this`sha2nr, this`nr2sha, this`fstr2shas
      ensures sha2author == Tabulated(newestFirst, authorOfSha)
      ensures sha2nr == BlameOptions.NumberDown(newestFirst, |newestFirst|)
      ensures nr2sha == ShaOfNumber(newestFirst, |newestFirst|)
      ensures fstr2shas == Tabulated(old(fstrs), shasOf)
    {
      var f2s := FileShas(fstrs, shasOf);
      sha2author, sha2nr, nr2sha := NumberCommits(newestFirst, authorOfSha);
      fstr2shas := f2s;
    }

    /** The author numbering of `_set_shared_data` and its last loop, which raises KeyError for a commit whose author has no number. */
    method SetAuthorData(newestFirst: seq<string>, authorOfSha: string -> string, included: seq<string>, excluded: seq<string>)
      returns (r: Result<()>)
      modifies this`authorsIncluded, this`authorStar2nr, this`author2nr, this`sha2authorNr
      ensures authorsIncluded == MostLinesFirst(included, old(author2pstat))
      ensures authorStar2nr == StarNumbers(authorsIncluded, excluded)
      ensures author2nr == WithoutStar(authorStar2nr)
      ensures r.Ok? <==> AuthorNumbers(newestFirst, authorOfSha, author2nr).Ok?
      ensures r.Raise? ==> r.error == KeyError
      ensures r.Ok? ==> sha2authorNr == AuthorNumbers(newestFirst, authorOfSha, author2nr).value
    {
      var sorted := MostLinesFirst(included, author2pstat);
      var starNrs := NumberAuthors(sorted, excluded);
      var nrs := WithoutStar(starNrs);
      var numbers := NumberCommitAuthors(newestFirst, authorOfSha, nrs);
      authorsIncluded, authorStar2nr, author2nr := sorted, starNrs, nrs;
      if numbers.Ok? {
        sha2authorNr := numbers.value;
        r := Ok(());
      } else {
        r := Raise(KeyError);
      }
    }

    /**
     * `_set_shared_data`: `newestFirst` is `iter_commits()`, `authorOfSha`
     * gives a commit's canonical author, `shasOf` the commits of a file,
     * and `included`/`excluded` are the persons database's author lists.
     * A commit whose author has no number raises KeyError.
     */
    method SetSharedData(newestFirst: seq<string>, authorOfSha: string -> string, shasOf: string -> seq<string>,
                         included: seq<string>, excluded: seq<string>)
      returns (r: Result<()>)
      modifies this`sha2author, this`sha2nr, this`nr2sha, this`fstr2shas
      modifies this`authorsIncluded, this`authorStar2nr, this`author2nr, this`sha2authorNr
      ensures sha2author == Tabulated(newestFirst, authorOfSha)
      ensures sha2nr == BlameOptions.NumberDown(newestFirst, |newestFirst|)
      ensures nr2sha == ShaOfNumber(newestFirst, |newestFirst|)
      ensures fstr2shas == Tabulated(old(fstrs), shasOf)
      ensures authorsIncluded == MostLinesFirst(included, old(author2pstat))
      ensures authorStar2nr == StarNumbers(authorsIncluded, excluded)
      ensures author2nr == WithoutStar(authorStar2nr)
      ensures r.Ok? <==> AuthorNumbers(newestFirst, authorOfSha, author2nr).Ok?
      ensures r.Raise? ==> r.error == KeyError
      ensures r.Ok? ==> sha2authorNr == AuthorNumbers(newestFirst, authorOfSha, author2nr).value
    {
      SetCommitData(newestFirst, authorOfSha, shasOf);
      r := SetAuthorData(newestFirst, authorOfSha, included, excluded);
    }
  }

  // ----------------------------------------------------------- total_len

  /** `total_len`: the number of repositories over all the lists. */
  function TotalLen<T>(repoLists: seq<seq<T>>): nat
  {
    if |repoLists| == 0 then 0 else TotalLen(repoLists[..|repoLists| - 1]) + |repoLists[|repoLists| - 1]|
  }

  /** `total_len` counts every repository of the joined lists once. */
  lemma {:induction false} TotalLenJoined<T>(repoLists: seq<seq<T>>)
    ensures TotalLen(repoLists) == |Seqs.FlatMap((l: seq<T>) => l, repoLists)|
  {
    if |repoLists| > 0 {
      TotalLenJoined(repoLists[..|repoLists| - 1]);
    }
  }

  /** `len_repos == 0`, the "no repositories found" case, exactly when every list is empty. */
  lemma {:induction false} TotalLenZero<T>(repoLists: seq<seq<T>>)
    ensures TotalLen(repoLists) == 0 <==> forall i :: 0 <= i < |repoLists| ==> repoLists[i] == []
  {
    if |repoLists| > 0 {
      var n := |repoLists| - 1;
      TotalLenZero(repoLists[..n]);
      assert forall i :: 0 <= i < n ==> repoLists[..n][i] == repoLists[i];
    }
  }
}
