/**
 * How the blame readers call git: the options of `git blame` (blame.py and
 * blame_reader.py), the pygit2 flags and start commit (repo_blame.py), and
 * the numbering of all commits that every blame line refers to.
 */
module BlameOptions {
  import opened Errors

  // ------------------------------------------------- git blame options

  /** One `git blame` option: -M, -C, --since=, -w, --ignore-rev=, --ignore-revs-file=. */
  datatype BlameOpt = Move | Copy | Since(date: string) | IgnoreSpace | IgnoreRev(rev: string) | IgnoreRevsFile(path: string)

  /** `copy_move_int2opts[copy_move]`; a level outside 0..4 is not a key. */
  function CopyMoveOpts(copyMove: int): Result<seq<BlameOpt>>
  {
    match copyMove
    case 0 => Ok([])
    case 1 => Ok([Move])
    case 2 => Ok([Copy])
    case 3 => Ok([Copy, Copy])
    case 4 => Ok([Copy, Copy, Copy])
    case _ => Raise(KeyError)
  }

  /** One `--ignore-rev` per excluded short SHA, in order. */
  function IgnoreRevs(revs: seq<string>): (opts: seq<BlameOpt>)
    ensures |opts| == |revs|
  {
    if |revs| == 0 then [] else IgnoreRevs(revs[..|revs| - 1]) + [IgnoreRev(revs[|revs| - 1])]
  }

  function SinceOpts(since: string): seq<BlameOpt> { if since != "" then [Since(since)] else [] }
  function SpaceOpts(whitespace: bool): seq<BlameOpt> { if !whitespace then [IgnoreSpace] else [] }
  function FileOpts(ignoreRevsFile: Option<string>): seq<BlameOpt>
  {
    if ignoreRevsFile.Some? then [IgnoreRevsFile(ignoreRevsFile.value)] else []
  }

  /** The options `_get_git_blames_for` passes to git. `ignoreRevsFile` is the ignore file when it exists. */
  function BlameOpts(copyMove: int, since: string, whitespace: bool, exShaShorts: seq<string>,
                     ignoreRevsFile: Option<string>): Result<seq<BlameOpt>>
  {
    match CopyMoveOpts(copyMove)
    case Raise(e) => Raise(e)
    case Ok(base) =>
      Ok(base + SinceOpts(since) + SpaceOpts(whitespace) + IgnoreRevs(exShaShorts) + FileOpts(ignoreRevsFile))
  }

  /** `_get_git_blames_for` up to the git call: the list is built by appending. */
  method GetBlameOpts(copyMove: int, since: string, whitespace: bool, exShaShorts: seq<string>,
                      ignoreRevsFile: Option<string>) returns (r: Result<seq<BlameOpt>>)
    ensures r == BlameOpts(copyMove, since, whitespace, exShaShorts, ignoreRevsFile)
  {
    var base := CopyMoveOpts(copyMove);
    if base.Raise? {
      return Raise(base.error);
    }
    var opts := base.value;
    if since != "" {
      opts := opts + [Since(since)];
    } else {
      assert opts + [] == opts;
    }
    assert opts == base.value + SinceOpts(since);
    if !whitespace {
      opts := opts + [IgnoreSpace];
    } else {
      assert opts + [] == opts;
    }
    ghost var front := opts;
    assert front == base.value + SinceOpts(since) + SpaceOpts(whitespace);
    for i := 0 to |exShaShorts|
      invariant opts == front + IgnoreRevs(exShaShorts[..i])
    {
      assert exShaShorts[..i + 1][..i] == exShaShorts[..i];
      opts := opts + [IgnoreRev(exShaShorts[i])];
    }
    assert exShaShorts[..|exShaShorts|] == exShaShorts;
    if ignoreRevsFile.Some? {
      opts := opts + [IgnoreRevsFile(ignoreRevsFile.value)];
    } else {
      assert opts + [] == opts;
    }
    return Ok(opts);
  }

  lemma {:induction false} IgnoreRevsMeaning(revs: seq<string>)
    ensures forall o :: o in IgnoreRevs(revs) ==> o.IgnoreRev?
    ensures forall rev :: IgnoreRev(rev) in IgnoreRevs(revs) <==> rev in revs
  {
    if |revs| > 0 {
      var n := |revs| - 1;
      IgnoreRevsMeaning(revs[..n]);
      assert revs == revs[..n] + [revs[n]];
    }
  }

  lemma CopyMoveOnly(copyMove: int)
    requires CopyMoveOpts(copyMove).Ok?
    ensures forall o :: o in CopyMoveOpts(copyMove).value ==> o == Move || o == Copy
  {
  }

  /**
   * The options git receives: the copy/move level must be 0..4 (otherwise a
   * KeyError); `-w` is there iff whitespace is ignored; `--since` iff a date is
   * set; an `--ignore-rev` for exactly the excluded revisions, after the
   * copy/move options.
   */
  lemma BlameOptsMeaning(copyMove: int, since: string, whitespace: bool, exShaShorts: seq<string>,
                         ignoreRevsFile: Option<string>)
    ensures BlameOpts(copyMove, since, whitespace, exShaShorts, ignoreRevsFile).Ok? <==> 0 <= copyMove <= 4
    ensures BlameOpts(copyMove, since, whitespace, exShaShorts, ignoreRevsFile).Raise? ==>
      BlameOpts(copyMove, since, whitespace, exShaShorts, ignoreRevsFile).error == KeyError
    ensures var r := BlameOpts(copyMove, since, whitespace, exShaShorts, ignoreRevsFile);
      r.Ok? ==>
        r.value[..|CopyMoveOpts(copyMove).value|] == CopyMoveOpts(copyMove).value
        && (IgnoreSpace in r.value <==> !whitespace)
        && (Since(since) in r.value <==> since != "")
        && (forall rev :: IgnoreRev(rev) in r.value <==> rev in exShaShorts)
  {
    var r := BlameOpts(copyMove, since, whitespace, exShaShorts, ignoreRevsFile);
    if r.Ok? {
      var base := CopyMoveOpts(copyMove).value;
      var s := SinceOpts(since);
      var w := SpaceOpts(whitespace);
      var f := FileOpts(ignoreRevsFile);
      var revs := IgnoreRevs(exShaShorts);
      assert r.value == base + s + w + revs + f;
      IgnoreRevsMeaning(exShaShorts);
      CopyMoveOnly(copyMove);
      assert IgnoreSpace in w <==> !whitespace;
      assert Since(since) in s <==> since != "";
      OptsParts(base, s, w, revs, f, since);
    }
  }

  /** Where each kind of option comes from in the concatenated list. */
  lemma OptsParts(base: seq<BlameOpt>, s: seq<BlameOpt>, w: seq<BlameOpt>, revs: seq<BlameOpt>, f: seq<BlameOpt>, since: string)
    requires forall o :: o in base ==> o == Move || o == Copy
    requires forall o :: o in s ==> o == Since(since)
    requires forall o :: o in w ==> o == IgnoreSpace
    requires forall o :: o in revs ==> o.IgnoreRev?
    requires forall o :: o in f ==> o.IgnoreRevsFile?
    ensures var all := base + s + w + revs + f;
      all[..|base|] == base
      && (IgnoreSpace in all <==> IgnoreSpace in w)
      && (Since(since) in all <==> Since(since) in s)
      && (forall rev :: IgnoreRev(rev) in all <==> IgnoreRev(rev) in revs)
  {
    var all := base + s + w + revs + f;
    assert all == base + (s + w + revs + f);
  }

  // ------------------------------------------------------- pygit2 flags

  /** The pygit2 `BlameFlag` bits; NORMAL is the empty set. */
  datatype BlameFlag = IgnoreWhitespace | TrackCopiesSameFile | TrackCopiesSameCommitMoves
                     | TrackCopiesSameCommitCopies | TrackCopiesAnyCommitCopies

  /** `RepoBlameBase._get_git_blames_for`: the flags for `repo.blame`. */
  function BlameFlags(whitespace: bool, copyMove: int): set<BlameFlag>
  {
    var base: set<BlameFlag> := if whitespace then {} else {IgnoreWhitespace};
    match copyMove
    case 1 => base + {TrackCopiesSameFile}
    case 2 => base + {TrackCopiesSameCommitMoves}
    case 3 => base + {TrackCopiesSameCommitCopies}
    case 4 => base + {TrackCopiesAnyCommitCopies}
    case _ => base
  }

  /** Whitespace is ignored iff `whitespace` is off; levels 1..4 add exactly one tracking flag, others none. */
  lemma BlameFlagsMeaning(whitespace: bool, copyMove: int)
    ensures IgnoreWhitespace in BlameFlags(whitespace, copyMove) <==> !whitespace
    ensures 1 <= copyMove <= 4 ==>
      exists t :: t != IgnoreWhitespace && BlameFlags(whitespace, copyMove) - {IgnoreWhitespace} == {t}
    ensures !(1 <= copyMove <= 4) ==> BlameFlags(whitespace, copyMove) <= {IgnoreWhitespace}
  {
    var flags := BlameFlags(whitespace, copyMove);
    if copyMove == 1 {
      assert flags - {IgnoreWhitespace} == {TrackCopiesSameFile};
    } else if copyMove == 2 {
      assert flags - {IgnoreWhitespace} == {TrackCopiesSameCommitMoves};
    } else if copyMove == 3 {
      assert flags - {IgnoreWhitespace} == {TrackCopiesSameCommitCopies};
    } else if copyMove == 4 {
      assert flags - {IgnoreWhitespace} == {TrackCopiesAnyCommitCopies};
    }
  }

  /**
   * The newest commit of a blame: `newest_id` for an empty start SHA,
   * otherwise the id of that short SHA, a KeyError when it is unknown.
   */
  function NewestCommit(startShaShort: string, shaShort2id: map<string, string>, newestId: string): (r: Result<string>)
    ensures r.Ok? <==> startShaShort == "" || startShaShort in shaShort2id
    ensures r.Ok? ==> r.value == if startShaShort == "" then newestId else shaShort2id[startShaShort]
    ensures r.Raise? ==> r.error == KeyError
  {
    if startShaShort == "" then Ok(newestId)
    else if startShaShort in shaShort2id then Ok(shaShort2id[startShaShort])
    else Raise(KeyError)
  }

  // ---------------------------------------------------- commit numbers

  /** Numbers 1, 2, ... given in list order; a repeated SHA keeps its last number. */
  function NumberUp(shas: seq<string>): map<string, int>
  {
    if |shas| == 0 then map[]
    else NumberUp(shas[..|shas| - 1])[shas[|shas| - 1] := |shas|]
  }

  /** Numbers `top`, `top - 1`, ... given in list order. */
  function NumberDown(shas: seq<string>, top: int): map<string, int>
  {
    if |shas| == 0 then map[]
    else NumberDown(shas[..|shas| - 1], top)[shas[|shas| - 1] := top - (|shas| - 1)]
  }

  predicate Distinct(s: seq<string>)
  {
    forall p, q :: 0 <= p < q < |s| ==> s[p] != s[q]
  }

  /** `BlameReader._set_sha_long2nr` (blame.py): the commits oldest first, numbered from 1. */
  method SetShaLong2Nr(oldestFirst: seq<string>) returns (sha2nr: map<string, int>)
    ensures sha2nr == NumberUp(oldestFirst)
  {
    sha2nr := map[];
    var i := 1;
    for k := 0 to |oldestFirst|
      invariant sha2nr == NumberUp(oldestFirst[..k]) && i == k + 1
    {
      assert oldestFirst[..k + 1][..k] == oldestFirst[..k];
      sha2nr := sha2nr[oldestFirst[k] := i];
      i := i + 1;
    }
    assert oldestFirst[..|oldestFirst|] == oldestFirst;
  }

  /** `BlameBaseReader._set_sha2nr` (blame_reader.py): the commits newest first, counting down from their number. */
  method SetSha2Nr(newestFirst: seq<string>) returns (sha2nr: map<string, int>)
    ensures sha2nr == NumberDown(newestFirst, |newestFirst|)
  {
    sha2nr := map[];
    var i := |newestFirst|;
    for k := 0 to |newestFirst|
      invariant sha2nr == NumberDown(newestFirst[..k], |newestFirst|) && i == |newestFirst| - k
    {
      assert newestFirst[..k + 1][..k] == newestFirst[..k];
      sha2nr := sha2nr[newestFirst[k] := i];
      i := i - 1;
    }
    assert newestFirst[..|newestFirst|] == newestFirst;
  }

  /** Counting up from the oldest commit: the k-th oldest commit is number k + 1, and only listed commits are numbered. */
  lemma {:induction false} NumberUpAt(shas: seq<string>)
    requires Distinct(shas)
    ensures forall s :: s in NumberUp(shas) <==> s in shas
    ensures forall k :: 0 <= k < |shas| ==> NumberUp(shas)[shas[k]] == k + 1
  {
    if |shas| > 0 {
      var n := |shas| - 1;
      NumberUpAt(shas[..n]);
      assert shas == shas[..n] + [shas[n]];
    }
  }

  /** Counting down from the newest commit: the newest gets `len(commits)`, the oldest 1. */
  lemma {:induction false} NumberDownAt(shas: seq<string>, top: int)
    requires Distinct(shas)
    ensures forall s :: s in NumberDown(shas, top) <==> s in shas
    ensures forall k :: 0 <= k < |shas| ==> NumberDown(shas, top)[shas[k]] == top - k
  {
    if |shas| > 0 {
      var n := |shas| - 1;
      NumberDownAt(shas[..n], top);
      assert shas == shas[..n] + [shas[n]];
    }
  }
}
