/**
 * Reading blames: the hunks git reports for a file become `Blame` records
 * (`_process_git_blames` in repo_blame.py), and the blame history keeps the
 * blames of a file at each of its earlier commits (`run_blame_history` in
 * repo_blame.py, `BlameHistoryReader.run` in blame_reader.py).
 *
 * Git is a parameter: the hunks of a blame, the files of a commit's tree and
 * the comment detection of comment.py come in as functions.
 */
module BlameHistory {
  import opened Errors
  import opened BlameRows
  import BlameOptions

  // ------------------------------------------------------------ paths

  /** `str.rfind(c)`: the last index of `c`, or -1. */
  function RFind(s: string, c: char): (i: int)
    ensures -1 <= i < |s|
    ensures i >= 0 ==> s[i] == c
    ensures forall k :: i < k < |s| ==> s[k] != c
  {
    if |s| == 0 then -1
    else if s[|s| - 1] == c then |s| - 1
    else RFind(s[..|s| - 1], c)
  }

  /** `Path(fstr).name`: what follows the last "/". */
  function BaseName(path: string): string
  {
    path[RFind(path, '/') + 1..]
  }

  /** `Path(fstr).suffix`: the name from its last ".", unless that dot starts or ends the name. */
  function Suffix(path: string): string
  {
    var name := BaseName(path);
    var i := RFind(name, '.');
    if 0 < i < |name| - 1 then name[i..] else ""
  }

  /** `dot_ext[1:] if dot_ext else ""`: the extension without its dot. */
  function Extension(path: string): string
  {
    var suffix := Suffix(path);
    if suffix != "" then suffix[1..] else ""
  }

  /**
   * A non-empty extension is the text after the path's last ".", contains no
   * "/", and the dot is preceded by a character of the same name.
   */
  lemma ExtensionMeaning(path: string)
    ensures var ext := Extension(path);
      ext != "" ==>
        var dot := |path| - |ext| - 1;
        1 <= dot && path[dot] == '.' && path[dot + 1..] == ext && path[dot - 1] != '/'
        && '.' !in ext && '/' !in ext
  {
    var ext := Extension(path);
    if ext != "" {
      var p := RFind(path, '/');
      var name := path[p + 1..];
      var i := RFind(name, '.');
      assert ext == name[i + 1..];
      assert name[i - 1] == path[p + i];
      forall k | 0 <= k < |ext| ensures ext[k] != '.' && ext[k] != '/' {
        assert ext[k] == name[i + 1 + k] == path[p + i + 2 + k];
      }
    }
  }

  /** Conversely, a dot that is neither the first nor the last character of the name starts the extension. */
  lemma ExtensionOf(pre: string, ext: string)
    requires ext != "" && '.' !in ext && '/' !in ext
    requires pre != "" && pre[|pre| - 1] != '/'
    ensures Extension(pre + "." + ext) == ext
  {
    var path := pre + "." + ext;
    var p := RFind(path, '/');
    forall k | |pre| - 1 <= k < |path| ensures path[k] != '/' {
      if k == |pre| - 1 {
        assert path[k] == pre[k];
      } else if k > |pre| {
        assert path[k] == ext[k - |pre| - 1];
      }
    }
    assert p < |pre| - 1;
    var name := path[p + 1..];
    assert name == pre[p + 1..] + "." + ext;
    var dot := |name| - |ext| - 1;
    assert name[dot] == '.';
    forall k | dot < k < |name| ensures name[k] != '.' {
      assert name[k] == ext[k - dot - 1];
    }
    assert RFind(name, '.') == dot;
    assert name[dot..][1..] == ext;
  }

  // ----------------------------------------------------------- slicing

  /** A Python slice bound: a negative one counts from the end, and both are clamped to the sequence. */
  function SliceBound(i: int, len: nat): (b: nat)
    ensures b <= len
    ensures 0 <= i <= len ==> b == i
  {
    if i < 0 then (if i + len < 0 then 0 else i + len)
    else if i > len then len
    else i
  }

  /** `xs[lo:hi]`. */
  function PySlice<T>(xs: seq<T>, lo: int, hi: int): seq<T>
  {
    var a := SliceBound(lo, |xs|);
    var b := SliceBound(hi, |xs|);
    if a <= b then xs[a..b] else []
  }

  /** `file_lines[start - 1 : start - 1 + lines_in_hunk]`. */
  function HunkLines(fileLines: seq<string>, start: int, count: int): seq<string>
  {
    PySlice(fileLines, start - 1, start - 1 + count)
  }

  /**
   * A hunk's lines are consecutive lines of the file; a hunk inside the file
   * gets exactly its `count` lines from line `start` on, and one that starts
   * past the end, or has no lines, gets none. (A start of 0 would count from
   * the end of the file, as Python slices do.)
   */
  lemma HunkLinesMeaning(fileLines: seq<string>, start: int, count: int)
    ensures var lines := HunkLines(fileLines, start, count);
      var a := SliceBound(start - 1, |fileLines|);
      a + |lines| <= |fileLines| && lines == fileLines[a..a + |lines|]
    ensures 1 <= start && 0 <= count && start - 1 + count <= |fileLines| ==>
      |HunkLines(fileLines, start, count)| == count
      && forall k :: 0 <= k < count ==> HunkLines(fileLines, start, count)[k] == fileLines[start - 1 + k]
    ensures start > |fileLines| || (start >= 1 && count == 0) ==> HunkLines(fileLines, start, count) == []
  {
  }

  // ------------------------------------------------------- the blob

  /** A file of a commit's tree, as `_traverse_tree` yields it: its path and the lines of its data. */
  datatype TreeFile = TreeFile(path: string, lines: seq<string>)

  /** Where the loop over the tree breaks: the first file at `fstr`, or -1. */
  function PathIndex(files: seq<TreeFile>, fstr: string): (i: int)
    ensures -1 <= i < |files|
    ensures i >= 0 ==> files[i].path == fstr
    ensures forall j :: 0 <= j < |files| && (i < 0 || j < i) ==> files[j].path != fstr
  {
    if |files| == 0 then -1
    else if files[0].path == fstr then 0
    else
      var i := PathIndex(files[1..], fstr);
      if i < 0 then -1 else i + 1
  }

  /** `blob`: the data of the first file at `fstr`, if any. */
  function FindBlob(files: seq<TreeFile>, fstr: string): Option<seq<string>>
  {
    var i := PathIndex(files, fstr);
    if i < 0 then None else Some(files[i].lines)
  }

  // ------------------------------------------------------ the hunks

  /** What a hunk's final commit tells: `author.name`, `author.email`, `short_id`, the date and the message. */
  datatype Commit = Commit(author: string, email: string, shortId: string, date: string, message: string)

  /** A blame hunk: its final commit, `final_start_line_number` and `lines_in_hunk`. */
  datatype Hunk = Hunk(commit: Commit, start: int, count: int)

  /** The repository as the blame reader sees it. */
  datatype Git = Git(
    shaShort2id: map<string, string>,
    shaShort2nr: map<string, nat>,
    newestId: string,
    treeOf: string -> seq<TreeFile>,              // the files of a commit's tree, in `_traverse_tree` order
    hunksOf: (string, string) -> seq<Hunk>,       // `repo.blame(fstr, newest_commit=id, ...)`
    commentsOf: (string, seq<string>) -> seq<bool>) // `get_is_comment_lines(extension, lines, False)[0]`

  /** One hunk's `Blame`; a commit without a number is a KeyError. */
  function HunkBlame(h: Hunk, fileLines: seq<string>, ext: string, git: Git): Result<Blame>
  {
    var lines := HunkLines(fileLines, h.start, h.count);
    if h.commit.shortId !in git.shaShort2nr then Raise(KeyError)
    else Ok(Blame(h.commit.author, h.commit.date, h.commit.message, h.commit.shortId,
                  git.shaShort2nr[h.commit.shortId], lines, git.commentsOf(ext, lines)))
  }

  /** The blames of the hunks in order, up to the first failure. */
  function HunkBlames(hunks: seq<Hunk>, fileLines: seq<string>, ext: string, git: Git): Result<seq<Blame>>
  {
    if |hunks| == 0 then Ok([])
    else match HunkBlames(hunks[..|hunks| - 1], fileLines, ext, git)
      case Raise(e) => Raise(e)
      case Ok(bs) =>
        match HunkBlame(hunks[|hunks| - 1], fileLines, ext, git)
        case Raise(e) => Raise(e)
        case Ok(b) => Ok(bs + [b])
  }

  /**
   * `_process_git_blames`, with the path that gives the extension and the
   * path looked up in the commit's tree apart; the source passes one path
   * for both.
   */
  function Processed(extFstr: string, fstr: string, hunks: seq<Hunk>, commitSha: string, git: Git): Result<seq<Blame>>
  {
    var ext := Extension(extFstr);
    if commitSha !in git.shaShort2id then Raise(KeyError)
    else match FindBlob(git.treeOf(git.shaShort2id[commitSha]), fstr)
      case None => Raise(FileNotFoundError)
      case Some(fileLines) =>
        if |fileLines| == 0 then Raise(FileNotFoundError)
        else HunkBlames(hunks, fileLines, ext, git)
  }

  /** Every hunk becomes the blame of its commit and its lines; an unnumbered commit is a KeyError. */
  lemma {:induction false} HunkBlamesMeaning(hunks: seq<Hunk>, fileLines: seq<string>, ext: string, git: Git)
    ensures var r := HunkBlames(hunks, fileLines, ext, git);
      (r.Ok? <==> forall k :: 0 <= k < |hunks| ==> hunks[k].commit.shortId in git.shaShort2nr)
      && (r.Raise? ==> r.error == KeyError)
      && (r.Ok? ==> |r.value| == |hunks| && forall k :: 0 <= k < |hunks| ==>
            var b := r.value[k];
            var h := hunks[k];
            b.author == h.commit.author && b.sha == h.commit.shortId && b.date == h.commit.date
            && b.message == h.commit.message && b.commitNr == git.shaShort2nr[h.commit.shortId]
            && b.lines == HunkLines(fileLines, h.start, h.count) && b.isComments == git.commentsOf(ext, b.lines))
  {
    if |hunks| > 0 {
      var n := |hunks| - 1;
      HunkBlamesMeaning(hunks[..n], fileLines, ext, git);
      var r := HunkBlames(hunks, fileLines, ext, git);
      var prev := HunkBlames(hunks[..n], fileLines, ext, git);
      if r.Ok? {
        assert prev.Ok?;
        forall k | 0 <= k < |hunks| ensures hunks[k].commit.shortId in git.shaShort2nr {
          if k < n {
            assert hunks[..n][k] == hunks[k];
          }
        }
        forall k | 0 <= k < n ensures r.value[k] == prev.value[k] && hunks[..n][k] == hunks[k] { }
      } else if prev.Raise? {
        var k :| 0 <= k < n && hunks[..n][k].commit.shortId !in git.shaShort2nr;
        assert hunks[k] == hunks[..n][k];
      }
    }
  }

  /**
   * The commit must be known and the file must be in its tree with some
   * data, else FileNotFoundError; then every hunk becomes a blame, and an
   * unnumbered commit is a KeyError.
   */
  lemma ProcessedMeaning(extFstr: string, fstr: string, hunks: seq<Hunk>, commitSha: string, git: Git)
    ensures var r := Processed(extFstr, fstr, hunks, commitSha, git);
      (r.Raise? ==> r.error == KeyError || r.error == FileNotFoundError)
      && (r.Raise? && r.error == FileNotFoundError <==>
            commitSha in git.shaShort2id
            && var blob := FindBlob(git.treeOf(git.shaShort2id[commitSha]), fstr);
              blob.None? || blob.value == [])
      && (r.Ok? ==>
            commitSha in git.shaShort2id && FindBlob(git.treeOf(git.shaShort2id[commitSha]), fstr).Some?
            && r == HunkBlames(hunks, FindBlob(git.treeOf(git.shaShort2id[commitSha]), fstr).value, Extension(extFstr), git))
  {
    if commitSha in git.shaShort2id {
      var fileLines := FindBlob(git.treeOf(git.shaShort2id[commitSha]), fstr);
      if fileLines.Some? {
        HunkBlamesMeaning(hunks, fileLines.value, Extension(extFstr), git);
      }
    }
  }

  /** `_process_git_blames`: finds the file's data in the commit's tree, then turns each hunk into a blame. */
  method ProcessGitBlames(extFstr: string, fstr: string, hunks: seq<Hunk>, commitSha: string, git: Git)
    returns (r: Result<seq<Blame>>)
    ensures r == Processed(extFstr, fstr, hunks, commitSha, git)
  {
    var dotExt := Suffix(extFstr);
    var extension := if dotExt != "" then dotExt[1..] else "";
    if commitSha !in git.shaShort2id {
      return Raise(KeyError);
    }
    var files := git.treeOf(git.shaShort2id[commitSha]);
    var blob: Option<seq<string>> := None;
    var i := 0;
    while i < |files|
      invariant 0 <= i <= |files|
      invariant forall j :: 0 <= j < i ==> files[j].path != fstr
    {
      if files[i].path == fstr {
        blob := Some(files[i].lines);
        break;
      }
      i := i + 1;
    }
    assert blob == FindBlob(files, fstr);
    if blob.None? || |blob.value| == 0 {
      return Raise(FileNotFoundError);
    }
    var fileLines := blob.value;
    var blames: seq<Blame> := [];
    for k := 0 to |hunks|
      invariant HunkBlames(hunks[..k], fileLines, extension, git) == Ok(blames)
    {
      var h := hunks[k];
      assert hunks[..k + 1][..k] == hunks[..k];
      var lines := HunkLines(fileLines, h.start, h.count);
      var isCommentLines := git.commentsOf(extension, lines);
      if h.commit.shortId !in git.shaShort2nr {
        HunkBlamesStayRaised(hunks, fileLines, extension, git, k + 1);
        return Raise(KeyError);
      }
      var nr := git.shaShort2nr[h.commit.shortId];
      blames := blames + [Blame(h.commit.author, h.commit.date, h.commit.message, h.commit.shortId, nr, lines, isCommentLines)];
    }
    assert hunks[..|hunks|] == hunks;
    return Ok(blames);
  }

  lemma {:induction false} HunkBlamesStayRaised(hunks: seq<Hunk>, fileLines: seq<string>, ext: string, git: Git, i: nat)
    requires i <= |hunks| && HunkBlames(hunks[..i], fileLines, ext, git).Raise?
    ensures HunkBlames(hunks, fileLines, ext, git) == HunkBlames(hunks[..i], fileLines, ext, git)
    decreases |hunks| - i
  {
    if i < |hunks| {
      assert hunks[..i + 1][..i] == hunks[..i];
      HunkBlamesStayRaised(hunks, fileLines, ext, git, i + 1);
    } else {
      assert hunks[..i] == hunks;
    }
  }

  /** `_get_git_blames_for(fstr, sha)` followed by `_process_git_blames(extFstr, ..., sha)` with `fstr` looked up in the tree as `treeFstr`. */
  function GitBlames(extFstr: string, treeFstr: string, fstr: string, sha: string, git: Git): Result<seq<Blame>>
  {
    match BlameOptions.NewestCommit(sha, git.shaShort2id, git.newestId)
    case Raise(e) => Raise(e)
    case Ok(id) => Processed(extFstr, treeFstr, git.hunksOf(fstr, id), sha, git)
  }

  /**
   * The history reads a file at an older commit under the path it had then
   * (`fstr`), but `run_blame_history` passes `root_fstr` to
   * `_process_git_blames`, which also looks that path up in the commit's
   * tree: a file renamed since is not found.
   */
  function HistoryBlamesAsWritten(git: Git): BlamesAt
  {
    (root: string, fstr: string, sha: string) => GitBlames(root, root, fstr, sha, git)
  }

  /** The history's blames with `root`'s extension and `fstr`'s data. */
  function HistoryBlames(git: Git): BlamesAt
  {
    (root: string, fstr: string, sha: string) => GitBlames(root, fstr, fstr, sha, git)
  }

  /** As written, a commit whose tree has no file at the root's path fails, whichever file is blamed. */
  lemma HistoryAsWrittenMissesRenamed(root: string, fstr: string, sha: string, git: Git)
    requires sha in git.shaShort2id
    requires FindBlob(git.treeOf(git.shaShort2id[sha]), root).None?
    ensures HistoryBlamesAsWritten(git)(root, fstr, sha) == Raise(FileNotFoundError)
  {
  }

  /** Corrected, the blamed file's own data is read, whatever the root is called. */
  lemma HistoryReadsBlamedFile(root: string, fstr: string, sha: string, git: Git)
    requires sha != "" && sha in git.shaShort2id
    requires var blob := FindBlob(git.treeOf(git.shaShort2id[sha]), fstr); blob.Some? && blob.value != []
    requires var hunks := git.hunksOf(fstr, git.shaShort2id[sha]);
      forall k :: 0 <= k < |hunks| ==> hunks[k].commit.shortId in git.shaShort2nr
    ensures HistoryBlames(git)(root, fstr, sha).Ok?
    ensures |HistoryBlames(git)(root, fstr, sha).value| == |git.hunksOf(fstr, git.shaShort2id[sha])|
  {
    var id := git.shaShort2id[sha];
    var blob := FindBlob(git.treeOf(id), fstr).value;
    assert BlameOptions.NewestCommit(sha, git.shaShort2id, git.newestId) == Ok(id);
    assert HistoryBlames(git)(root, fstr, sha) == Processed(root, fstr, git.hunksOf(fstr, id), sha, git);
    HunkBlamesMeaning(git.hunksOf(fstr, id), blob, Extension(root), git);
  }

  /** A file renamed from "old.py" to "new.py": its history at the older commit. */
  lemma RenamedFileExample()
    ensures var git := Git(map["c1" := "id1"], map[], "id1",
                           (id: string) => [TreeFile("old.py", ["x = 1"])],
                           (f: string, id: string) => [],
                           (e: string, lines: seq<string>) => []);
      HistoryBlamesAsWritten(git)("new.py", "old.py", "c1") == Raise(FileNotFoundError)
      && HistoryBlames(git)("new.py", "old.py", "c1") == Ok([])
  {
    var git := Git(map["c1" := "id1"], map[], "id1",
                   (id: string) => [TreeFile("old.py", ["x = 1"])],
                   (f: string, id: string) => [],
                   (e: string, lines: seq<string>) => []);
    var files := git.treeOf("id1");
    assert PathIndex(files, "new.py") == -1 by {
      assert files[0].path != "new.py";
    }
    assert PathIndex(files, "old.py") == 0;
  }

  // ------------------------------------------- loops that stop at a failure

  /** A loop over `xs` whose body may raise: the state after it, or the first exception. */
  function FoldR<S, X>(init: S, xs: seq<X>, step: (S, X) -> Result<S>): Result<S>
  {
    if |xs| == 0 then Ok(init)
    else match FoldR(init, xs[..|xs| - 1], step)
      case Raise(e) => Raise(e)
      case Ok(s) => step(s, xs[|xs| - 1])
  }

  lemma FoldRSnoc<S, X>(init: S, xs: seq<X>, i: nat, step: (S, X) -> Result<S>)
    requires i < |xs|
    ensures FoldR(init, xs[..i + 1], step) ==
      match FoldR(init, xs[..i], step)
      case Raise(e) => Raise(e)
      case Ok(s) => step(s, xs[i])
  {
    assert xs[..i + 1][..i] == xs[..i];
  }

  lemma {:induction false} FoldRStaysRaised<S, X>(init: S, xs: seq<X>, i: nat, step: (S, X) -> Result<S>)
    requires i <= |xs| && FoldR(init, xs[..i], step).Raise?
    ensures FoldR(init, xs, step) == FoldR(init, xs[..i], step)
    decreases |xs| - i
  {
    if i < |xs| {
      FoldRSnoc(init, xs, i, step);
      FoldRStaysRaised(init, xs, i + 1, step);
    } else {
      assert xs[..i] == xs;
    }
  }

  /** A loop body that stores `val(x)` under `x` unless `x` is skipped. */
  function PutStep<V>(skip: string -> bool, val: string -> Result<V>): (map<string, V>, string) -> Result<map<string, V>>
  {
    (m: map<string, V>, x: string) =>
      if skip(x) then Ok(m)
      else match val(x)
        case Raise(e) => Raise(e)
        case Ok(v) => Ok(m[x := v])
  }

  /**
   * Such a loop succeeds exactly when every value it computes does, and then
   * adds the keys it visits, each with its value; other keys keep theirs. A
   * failure is the exception of a value it computes.
   */
  lemma {:induction false} PutFoldMeaning<V>(m: map<string, V>, xs: seq<string>, skip: string -> bool, val: string -> Result<V>)
    ensures var r := FoldR(m, xs, PutStep(skip, val));
      (r.Ok? <==> forall k :: 0 <= k < |xs| && !skip(xs[k]) ==> val(xs[k]).Ok?)
      && (r.Raise? ==> exists k :: 0 <= k < |xs| && !skip(xs[k]) && val(xs[k]) == Raise(r.error))
      && (r.Ok? ==> forall x ::
            (x in r.value <==> x in m || (x in xs && !skip(x)))
            && (x in xs && !skip(x) ==> val(x) == Ok(r.value[x]))
            && (x in r.value && (x !in xs || skip(x)) ==> r.value[x] == m[x]))
  {
    if |xs| > 0 {
      var n := |xs| - 1;
      var step := PutStep(skip, val);
      PutFoldMeaning(m, xs[..n], skip, val);
      assert xs == xs[..n] + [xs[n]];
      var prev := FoldR(m, xs[..n], step);
      var r := FoldR(m, xs, step);
      forall k | 0 <= k < n ensures xs[..n][k] == xs[k] { }
      if prev.Raise? {
        var k :| 0 <= k < n && !skip(xs[..n][k]) && val(xs[..n][k]) == Raise(prev.error);
        assert xs[k] == xs[..n][k];
      }
    }
  }

  // --------------------------------------------------- the blame history

  type Inner = map<string, seq<Blame>>
  type Outer = map<string, Inner>

  /** The blames of a file at a commit, for the history of a root file: (root, file, SHA). */
  type BlamesAt = (string, string, string) -> Result<seq<Blame>>

  /** `fstr == root_fstr and sha_short == head_sha`, when the head is reused. */
  predicate Skipped(root: string, head: string, skipHead: bool, fstr: string, sha: string)
  {
    skipHead && fstr == root && sha == head
  }

  /** The loop over one file's SHAs. */
  function ShaStep(root: string, head: string, skipHead: bool, fstr: string, blamesAt: BlamesAt): (Inner, string) -> Result<Inner>
  {
    PutStep((sha: string) => Skipped(root, head, skipHead, fstr, sha), (sha: string) => blamesAt(root, fstr, sha))
  }

  /** The loop over one file's SHAs, storing each SHA's blames unless skipped. */
  method AddShas(m: Inner, root: string, head: string, skipHead: bool, fstr: string, shas: seq<string>, blamesAt: BlamesAt)
    returns (r: Result<Inner>)
    ensures r == FoldR(m, shas, ShaStep(root, head, skipHead, fstr, blamesAt))
  {
    ghost var step := ShaStep(root, head, skipHead, fstr, blamesAt);
    var cur := m;
    for i := 0 to |shas|
      invariant FoldR(m, shas[..i], step) == Ok(cur)
    {
      FoldRSnoc(m, shas, i, step);
      if !(skipHead && fstr == root && shas[i] == head) {
        var blames := blamesAt(root, fstr, shas[i]);
        if blames.Raise? {
          FoldRStaysRaised(m, shas, i + 1, step);
          return Raise(blames.error);
        }
        cur := cur[shas[i] := blames.value];
      }
    }
    assert shas[..|shas|] == shas;
    return Ok(cur);
  }

  /** `fr2f2sha_shorts[root]`: the files of a root, in dict order, each with its SHAs, newest first. */
  type FileShas = seq<(string, seq<string>)>

  /** A dict lookup in `FileShas`. */
  function ShasOf(pairs: FileShas, fstr: string): (r: Option<seq<string>>)
    ensures r.None? <==> forall j :: 0 <= j < |pairs| ==> pairs[j].0 != fstr
    ensures r.Some? ==> exists j :: 0 <= j < |pairs| && pairs[j] == (fstr, r.value)
  {
    if |pairs| == 0 then None
    else if pairs[0].0 == fstr then Some(pairs[0].1)
    else
      var r := ShasOf(pairs[1..], fstr);
      assert forall j :: 1 <= j < |pairs| ==> pairs[j] == pairs[1..][j - 1];
      r
  }

  /** Some file of the root lists `sha`, and it is not the skipped head of the root itself. */
  predicate Listed(pairs: FileShas, root: string, head: string, skipHead: bool, sha: string)
  {
    exists j :: 0 <= j < |pairs| && sha in pairs[j].1 && !Skipped(root, head, skipHead, pairs[j].0, sha)
  }

  /** The loop over the files of a root. */
  function PairStep(root: string, head: string, skipHead: bool, blamesAt: BlamesAt): (Inner, (string, seq<string>)) -> Result<Inner>
  {
    (m: Inner, p: (string, seq<string>)) => FoldR(m, p.1, ShaStep(root, head, skipHead, p.0, blamesAt))
  }

  lemma ListedSnoc(pairs: FileShas, root: string, head: string, skipHead: bool, sha: string)
    requires |pairs| > 0
    ensures var n := |pairs| - 1;
      Listed(pairs, root, head, skipHead, sha) <==>
        Listed(pairs[..n], root, head, skipHead, sha) || (sha in pairs[n].1 && !Skipped(root, head, skipHead, pairs[n].0, sha))
  {
    var n := |pairs| - 1;
    if Listed(pairs[..n], root, head, skipHead, sha) {
      var j :| 0 <= j < n && sha in pairs[..n][j].1 && !Skipped(root, head, skipHead, pairs[..n][j].0, sha);
      assert pairs[j] == pairs[..n][j];
    }
    if Listed(pairs, root, head, skipHead, sha) {
      var j :| 0 <= j < |pairs| && sha in pairs[j].1 && !Skipped(root, head, skipHead, pairs[j].0, sha);
      if j < n {
        assert pairs[..n][j] == pairs[j];
      }
    }
  }

  /** The loop over a root's files succeeds exactly when every blame it computes does. */
  lemma {:induction false} PairFoldOk(m: Inner, root: string, head: string, skipHead: bool, pairs: FileShas, blamesAt: BlamesAt)
    ensures FoldR(m, pairs, PairStep(root, head, skipHead, blamesAt)).Ok? <==>
      forall j, k :: 0 <= j < |pairs| && 0 <= k < |pairs[j].1| && !Skipped(root, head, skipHead, pairs[j].0, pairs[j].1[k]) ==>
        blamesAt(root, pairs[j].0, pairs[j].1[k]).Ok?
  {
    if |pairs| > 0 {
      var n := |pairs| - 1;
      PairFoldOk(m, root, head, skipHead, pairs[..n], blamesAt);
      var prev := FoldR(m, pairs[..n], PairStep(root, head, skipHead, blamesAt));
      forall j | 0 <= j < n ensures pairs[..n][j] == pairs[j] { }
      if prev.Ok? {
        PairLast(prev.value, root, head, skipHead, pairs, blamesAt);
      }
    }
  }

  /**
   * After the loop over a root's files every listed SHA is added; a SHA
   * listed by several files keeps the blames of one of them, and an
   * unlisted key keeps its value.
   */
  lemma {:induction false} PairFoldMeaning(m: Inner, root: string, head: string, skipHead: bool, pairs: FileShas, blamesAt: BlamesAt)
    ensures var r := FoldR(m, pairs, PairStep(root, head, skipHead, blamesAt));
      r.Ok? ==> forall sha ::
        (sha in r.value <==> sha in m || Listed(pairs, root, head, skipHead, sha))
        && (sha in r.value && !Listed(pairs, root, head, skipHead, sha) ==> r.value[sha] == m[sha])
        && (Listed(pairs, root, head, skipHead, sha) ==>
              exists j :: 0 <= j < |pairs| && sha in pairs[j].1 && !Skipped(root, head, skipHead, pairs[j].0, sha)
                && blamesAt(root, pairs[j].0, sha) == Ok(r.value[sha]))
  {
    if |pairs| > 0 {
      var n := |pairs| - 1;
      var step := PairStep(root, head, skipHead, blamesAt);
      PairFoldMeaning(m, root, head, skipHead, pairs[..n], blamesAt);
      var prev := FoldR(m, pairs[..n], step);
      var r := FoldR(m, pairs, step);
      var last := pairs[n];
      if prev.Ok? {
        PairLast(prev.value, root, head, skipHead, pairs, blamesAt);
        if r.Ok? {
          forall sha ensures
            (sha in r.value <==> sha in m || Listed(pairs, root, head, skipHead, sha))
            && (sha in r.value && !Listed(pairs, root, head, skipHead, sha) ==> r.value[sha] == m[sha])
            && (Listed(pairs, root, head, skipHead, sha) ==>
                  exists j :: 0 <= j < |pairs| && sha in pairs[j].1 && !Skipped(root, head, skipHead, pairs[j].0, sha)
                    && blamesAt(root, pairs[j].0, sha) == Ok(r.value[sha]))
          {
            ListedSnoc(pairs, root, head, skipHead, sha);
            if Listed(pairs, root, head, skipHead, sha) && !(sha in last.1 && !Skipped(root, head, skipHead, last.0, sha)) {
              var j :| 0 <= j < n && sha in pairs[..n][j].1 && !Skipped(root, head, skipHead, pairs[..n][j].0, sha)
                && blamesAt(root, pairs[..n][j].0, sha) == Ok(prev.value[sha]);
              assert pairs[j] == pairs[..n][j];
            }
          }
        }
      }
    }
  }

  /** The step for the last file, through `PutFoldMeaning`. */
  lemma PairLast(prev: Inner, root: string, head: string, skipHead: bool, pairs: FileShas, blamesAt: BlamesAt)
    requires |pairs| > 0
    ensures var n := |pairs| - 1;
      var last := pairs[n];
      var r := FoldR(prev, last.1, ShaStep(root, head, skipHead, last.0, blamesAt));
      PairStep(root, head, skipHead, blamesAt)(prev, last) == r
      && (r.Ok? <==> forall k :: 0 <= k < |last.1| && !Skipped(root, head, skipHead, last.0, last.1[k]) ==>
                       blamesAt(root, last.0, last.1[k]).Ok?)
      && (r.Ok? ==> forall sha ::
            (sha in r.value <==> sha in prev || (sha in last.1 && !Skipped(root, head, skipHead, last.0, sha)))
            && (sha in last.1 && !Skipped(root, head, skipHead, last.0, sha) ==> blamesAt(root, last.0, sha) == Ok(r.value[sha]))
            && (sha in r.value && !(sha in last.1 && !Skipped(root, head, skipHead, last.0, sha)) ==> r.value[sha] == prev[sha]))
  {
    var last := pairs[|pairs| - 1];
    PutFoldMeaning(prev, last.1, (sha: string) => Skipped(root, head, skipHead, last.0, sha), (sha: string) => blamesAt(root, last.0, sha));
  }

  /**
   * One root of the STATIC history: its head SHA is the first of its own
   * SHAs, the head blames are reused, and every other (file, SHA) of the root
   * is blamed.
   */
  function RootHistory(root: string, fstr2blames: map<string, seq<Blame>>, fr2f2: map<string, FileShas>, blamesAt: BlamesAt): Result<Inner>
  {
    if root !in fr2f2 then Raise(KeyError)
    else match ShasOf(fr2f2[root], root)
      case None => Raise(KeyError)
      case Some(shas) =>
        if |shas| == 0 then Raise(IndexError)
        else if root !in fstr2blames then Raise(KeyError)
        else FoldR(map[shas[0] := fstr2blames[root]], fr2f2[root], PairStep(root, shas[0], true, blamesAt))
  }

  /**
   * A root missing from the table, or from its own files, is a KeyError, and
   * one without SHAs an IndexError. Otherwise the history holds the head SHA
   * and exactly the SHAs its files list; the head keeps the blames already
   * read unless another file lists the head SHA too, and every other SHA has
   * the blames of a file that lists it.
   */
  lemma RootHistoryMeaning(root: string, fstr2blames: map<string, seq<Blame>>, fr2f2: map<string, FileShas>, blamesAt: BlamesAt)
    ensures var r := RootHistory(root, fstr2blames, fr2f2, blamesAt);
      (root !in fr2f2 || ShasOf(fr2f2[root], root).None? ==> r == Raise(KeyError))
      && (root in fr2f2 && ShasOf(fr2f2[root], root) == Some([]) ==> r == Raise(IndexError))
      && (r.Ok? ==>
            root in fr2f2 && ShasOf(fr2f2[root], root).Some? && ShasOf(fr2f2[root], root).value != []
            && var pairs := fr2f2[root];
              var head := ShasOf(pairs, root).value[0];
              head in r.value
              && (!Listed(pairs, root, head, true, head) ==> r.value[head] == fstr2blames[root])
              && forall sha :: (sha in r.value <==> sha == head || Listed(pairs, root, head, true, sha))
                   && (Listed(pairs, root, head, true, sha) ==>
                         exists j :: 0 <= j < |pairs| && sha in pairs[j].1 && !Skipped(root, head, true, pairs[j].0, sha)
                           && blamesAt(root, pairs[j].0, sha) == Ok(r.value[sha])))
  {
    if root in fr2f2 && ShasOf(fr2f2[root], root).Some? && ShasOf(fr2f2[root], root).value != [] && root in fstr2blames {
      var pairs := fr2f2[root];
      var head := ShasOf(pairs, root).value[0];
      PairFoldOk(map[head := fstr2blames[root]], root, head, true, pairs, blamesAt);
      PairFoldMeaning(map[head := fstr2blames[root]], root, head, true, pairs, blamesAt);
    }
  }

  /** The loop over the roots. */
  function RootStep(fstr2blames: map<string, seq<Blame>>, fr2f2: map<string, FileShas>, blamesAt: BlamesAt): (Outer, string) -> Result<Outer>
  {
    PutStep((root: string) => false, (root: string) => RootHistory(root, fstr2blames, fr2f2, blamesAt))
  }

  /**
   * The STATIC history keeps what it held and adds every root, each with its
   * history; it fails exactly when a root's history does, with that
   * root's exception.
   */
  lemma StaticHistoryMeaning(init: Outer, fstrs: seq<string>, fstr2blames: map<string, seq<Blame>>, fr2f2: map<string, FileShas>, blamesAt: BlamesAt)
    ensures var r := FoldR(init, fstrs, RootStep(fstr2blames, fr2f2, blamesAt));
      (r.Ok? <==> forall k :: 0 <= k < |fstrs| ==> RootHistory(fstrs[k], fstr2blames, fr2f2, blamesAt).Ok?)
      && (r.Raise? ==> exists k :: 0 <= k < |fstrs| && RootHistory(fstrs[k], fstr2blames, fr2f2, blamesAt) == Raise(r.error))
      && (r.Ok? ==> forall root ::
            (root in r.value <==> root in init || root in fstrs)
            && (root in fstrs ==> RootHistory(root, fstr2blames, fr2f2, blamesAt) == Ok(r.value[root]))
            && (root in r.value && root !in fstrs ==> r.value[root] == init[root]))
  {
    PutFoldMeaning(init, fstrs, (root: string) => false, (root: string) => RootHistory(root, fstr2blames, fr2f2, blamesAt));
  }

  /** The part of `RepoBlameHistory` that `run_blame_history` reads and writes. */
  class RepoBlameHistory {
    var fstrs: seq<string>
    var fstr2blames: map<string, seq<Blame>>
    var fr2f2shaShorts: map<string, FileShas>
    var fstr2sha2blames: Outer

    constructor (fstrs: seq<string>, fstr2blames: map<string, seq<Blame>>, fr2f2shaShorts: map<string, FileShas>)
      ensures this.fstrs == fstrs && this.fstr2blames == fstr2blames && this.fr2f2shaShorts == fr2f2shaShorts
      ensures fstr2sha2blames == map[]
    {
      this.fstrs := fstrs;
      this.fstr2blames := fstr2blames;
      this.fr2f2shaShorts := fr2f2shaShorts;
      fstr2sha2blames := map[];
    }

    /** The body of the loop over the roots: one root's history. */
    method RootBlameHistory(root: string, blamesAt: BlamesAt) returns (r: Result<Inner>)
      ensures r == RootHistory(root, fstr2blames, fr2f2shaShorts, blamesAt)
    {
      if root !in fr2f2shaShorts {
        return Raise(KeyError);
      }
      var pairs := fr2f2shaShorts[root];
      var own := ShasOf(pairs, root);
      if own.None? {
        return Raise(KeyError);
      }
      if |own.value| == 0 {
        return Raise(IndexError);
      }
      var head := own.value[0];
      if root !in fstr2blames {
        return Raise(KeyError);
      }
      var init: Inner := map[head := fstr2blames[root]];
      ghost var step := PairStep(root, head, true, blamesAt);
      var inner := init;
      for j := 0 to |pairs|
        invariant FoldR(init, pairs[..j], step) == Ok(inner)
      {
        FoldRSnoc(init, pairs, j, step);
        var next := AddShas(inner, root, head, true, pairs[j].0, pairs[j].1, blamesAt);
        if next.Raise? {
          FoldRStaysRaised(init, pairs, j + 1, step);
          return next;
        }
        inner := next.value;
      }
      assert pairs[..|pairs|] == pairs;
      return Ok(inner);
    }

    /**
     * `run_blame_history`: for the STATIC history, adds every root's
     * history; any other setting changes nothing.
     */
    method RunBlameHistory(blameHistory: string, git: Git) returns (r: Result<()>)
      modifies this
      ensures fstrs == old(fstrs) && fstr2blames == old(fstr2blames) && fr2f2shaShorts == old(fr2f2shaShorts)
      ensures blameHistory != "static" ==> r == Ok(()) && fstr2sha2blames == old(fstr2sha2blames)
      ensures blameHistory == "static" ==>
        var h := FoldR(old(fstr2sha2blames), fstrs, RootStep(fstr2blames, fr2f2shaShorts, HistoryBlames(git)));
        (r.Ok? <==> h.Ok?) && (r.Ok? ==> fstr2sha2blames == h.value) && (r.Raise? ==> r.error == h.error)
    {
      if blameHistory != "static" {
        return Ok(());
      }
      var blamesAt := HistoryBlames(git);
      ghost var step := RootStep(fstr2blames, fr2f2shaShorts, blamesAt);
      ghost var init := fstr2sha2blames;
      for i := 0 to |fstrs|
        invariant fstrs == old(fstrs) && fstr2blames == old(fstr2blames) && fr2f2shaShorts == old(fr2f2shaShorts)
        invariant FoldR(init, fstrs[..i], step) == Ok(fstr2sha2blames)
      {
        FoldRSnoc(init, fstrs, i, step);
        var root := fstrs[i];
        var inner := RootBlameHistory(root, blamesAt);
        if inner.Raise? {
          FoldRStaysRaised(init, fstrs, i + 1, step);
          return Raise(inner.error);
        }
        fstr2sha2blames := fstr2sha2blames[root := inner.value];
      }
      assert fstrs[..|fstrs|] == fstrs;
      return Ok(());
    }
  }

  /** `get_file_for_sha_short`'s loop: the index of the first file whose SHAs contain `sha`, or -1. */
  function ShaIndex(pairs: FileShas, sha: string): (i: int)
    ensures -1 <= i < |pairs|
    ensures i >= 0 ==> sha in pairs[i].1
    ensures forall j :: 0 <= j < |pairs| && (i < 0 || j < i) ==> sha !in pairs[j].1
  {
    if |pairs| == 0 then -1
    else if sha in pairs[0].1 then 0
    else
      var i := ShaIndex(pairs[1..], sha);
      assert forall j :: 1 <= j < |pairs| ==> pairs[j] == pairs[1..][j - 1];
      if i < 0 then -1 else i + 1
  }

  /**
   * `get_file_for_sha_short`: the first file of the root whose SHAs contain
   * `sha`; a ValueError when none does, a KeyError for an unknown root.
   */
  function FileForShaShort(fr2f2: map<string, FileShas>, root: string, sha: string): (r: Result<string>)
    ensures root !in fr2f2 <==> r == Raise(KeyError)
    ensures root in fr2f2 ==>
      var pairs := fr2f2[root];
      (r.Raise? <==> forall j :: 0 <= j < |pairs| ==> sha !in pairs[j].1)
      && (r.Raise? ==> r.error == ValueError)
      && (r.Ok? ==> exists j :: 0 <= j < |pairs| && pairs[j].0 == r.value && sha in pairs[j].1
                      && forall i :: 0 <= i < j ==> sha !in pairs[i].1)
  {
    if root !in fr2f2 then Raise(KeyError)
    else
      var i := ShaIndex(fr2f2[root], sha);
      if i < 0 then Raise(ValueError) else Ok(fr2f2[root][i].0)
  }

  // ------------------------------------- the history in blame_reader.py

  /** `fstr2shas[fstr][-1]`, the head SHA; an unknown file is a KeyError, one without SHAs an IndexError. */
  function HeadSha(fstr2shas: map<string, seq<string>>, fstr: string): Result<string>
  {
    if fstr !in fstr2shas then Raise(KeyError)
    else if |fstr2shas[fstr]| == 0 then Raise(IndexError)
    else Ok(fstr2shas[fstr][|fstr2shas[fstr]| - 1])
  }

  /**
   * The body of `BlameHistoryReader.run`'s loop as written: the head blames
   * are stored into `fstr2sha2blames[fstr]` before anything creates that
   * dict.
   */
  function ReaderStepAsWritten(fstr2shas: map<string, seq<string>>, fstr2blames: map<string, seq<Blame>>, blamesAt: BlamesAt): (Outer, string) -> Result<Outer>
  {
    (o: Outer, f: string) =>
      match HeadSha(fstr2shas, f)
      case Raise(e) => Raise(e)
      case Ok(head) =>
        if f !in fstr2blames || f !in o then Raise(KeyError)
        else match FoldR(o[f][head := fstr2blames[f]], fstr2shas[f], ShaStep(f, head, false, f, blamesAt))
          case Raise(e) => Raise(e)
          case Ok(inner) => Ok(o[f := inner])
  }

  /** `BlameHistoryReader.run` as written starts from an empty `fstr2sha2blames`, so its first file always fails. */
  lemma ReaderAsWrittenRaises(fstrs: seq<string>, fstr2shas: map<string, seq<string>>, fstr2blames: map<string, seq<Blame>>, blamesAt: BlamesAt)
    requires |fstrs| > 0
    ensures var r := FoldR(map[], fstrs, ReaderStepAsWritten(fstr2shas, fstr2blames, blamesAt));
      r.Raise? && (r.error == KeyError || r.error == IndexError)
  {
    var step := ReaderStepAsWritten(fstr2shas, fstr2blames, blamesAt);
    FoldRSnoc(map[], fstrs, 0, step);
    assert fstrs[..0] == [];
    FoldRStaysRaised(map[], fstrs, 1, step);
  }

  /** One file of the corrected `run`: its dict is created, then filled with the head blames and every SHA's blames. */
  function ReaderFile(fstr: string, fstr2shas: map<string, seq<string>>, fstr2blames: map<string, seq<Blame>>, blamesAt: BlamesAt): Result<Inner>
  {
    match HeadSha(fstr2shas, fstr)
    case Raise(e) => Raise(e)
    case Ok(head) =>
      if fstr !in fstr2blames then Raise(KeyError)
      else FoldR(map[head := fstr2blames[fstr]], fstr2shas[fstr], ShaStep(fstr, head, false, fstr, blamesAt))
  }

  /**
   * The head SHA is among the file's SHAs, so its blames are read again:
   * a file's history has exactly its SHAs, each with the blames at that SHA.
   */
  lemma ReaderFileMeaning(fstr: string, fstr2shas: map<string, seq<string>>, fstr2blames: map<string, seq<Blame>>, blamesAt: BlamesAt)
    ensures var r := ReaderFile(fstr, fstr2shas, fstr2blames, blamesAt);
      (fstr !in fstr2shas ==> r == Raise(KeyError))
      && (fstr in fstr2shas && fstr2shas[fstr] == [] ==> r == Raise(IndexError))
      && (r.Ok? ==>
            fstr in fstr2shas && fstr in fstr2blames
            && (forall sha :: (sha in r.value <==> sha in fstr2shas[fstr])
                 && (sha in r.value ==> blamesAt(fstr, fstr, sha) == Ok(r.value[sha]))))
      && (fstr in fstr2shas && fstr2shas[fstr] != [] && fstr in fstr2blames ==>
            (r.Ok? <==> forall k :: 0 <= k < |fstr2shas[fstr]| ==> blamesAt(fstr, fstr, fstr2shas[fstr][k]).Ok?))
  {
    if fstr in fstr2shas && fstr2shas[fstr] != [] && fstr in fstr2blames {
      var shas := fstr2shas[fstr];
      var head := shas[|shas| - 1];
      PutFoldMeaning(map[head := fstr2blames[fstr]], shas, (sha: string) => Skipped(fstr, head, false, fstr, sha), (sha: string) => blamesAt(fstr, fstr, sha));
    }
  }

  /** The loop of the corrected `run` over the files. */
  function ReaderStep(fstr2shas: map<string, seq<string>>, fstr2blames: map<string, seq<Blame>>, blamesAt: BlamesAt): (Outer, string) -> Result<Outer>
  {
    PutStep((f: string) => false, (f: string) => ReaderFile(f, fstr2shas, fstr2blames, blamesAt))
  }

  /** The corrected `run` adds every file with its history, and fails exactly when a file's history does. */
  lemma ReaderHistoryMeaning(init: Outer, fstrs: seq<string>, fstr2shas: map<string, seq<string>>, fstr2blames: map<string, seq<Blame>>, blamesAt: BlamesAt)
    ensures var r := FoldR(init, fstrs, ReaderStep(fstr2shas, fstr2blames, blamesAt));
      (r.Ok? <==> forall k :: 0 <= k < |fstrs| ==> ReaderFile(fstrs[k], fstr2shas, fstr2blames, blamesAt).Ok?)
      && (r.Ok? ==> forall f ::
            (f in r.value <==> f in init || f in fstrs)
            && (f in fstrs ==> ReaderFile(f, fstr2shas, fstr2blames, blamesAt) == Ok(r.value[f]))
            && (f in r.value && f !in fstrs ==> r.value[f] == init[f]))
  {
    PutFoldMeaning(init, fstrs, (f: string) => false, (f: string) => ReaderFile(f, fstr2shas, fstr2blames, blamesAt));
  }

  /** The part of `BlameHistoryReader` that `run` reads and writes, with the inner dict created per file. */
  class BlameHistoryReader {
    var fstrs: seq<string>
    var fstr2blames: map<string, seq<Blame>>
    var fstr2shas: map<string, seq<string>>
    var fstr2sha2blames: Outer

    constructor (fstrs: seq<string>, fstr2blames: map<string, seq<Blame>>, fstr2shas: map<string, seq<string>>)
      ensures this.fstrs == fstrs && this.fstr2blames == fstr2blames && this.fstr2shas == fstr2shas
      ensures fstr2sha2blames == map[]
    {
      this.fstrs := fstrs;
      this.fstr2blames := fstr2blames;
      this.fstr2shas := fstr2shas;
      fstr2sha2blames := map[];
    }

    /** `run`, with `self.fstr2sha2blames[fstr] = {}` before the head blames are stored. */
    method Run(blamesAt: BlamesAt) returns (r: Result<()>)
      modifies this
      ensures fstrs == old(fstrs) && fstr2blames == old(fstr2blames) && fstr2shas == old(fstr2shas)
      ensures var h := FoldR(old(fstr2sha2blames), fstrs, ReaderStep(fstr2shas, fstr2blames, blamesAt));
        (r.Ok? <==> h.Ok?) && (r.Ok? ==> fstr2sha2blames == h.value) && (r.Raise? ==> r.error == h.error)
    {
      ghost var step := ReaderStep(fstr2shas, fstr2blames, blamesAt);
      ghost var init := fstr2sha2blames;
      for i := 0 to |fstrs|
        invariant fstrs == old(fstrs) && fstr2blames == old(fstr2blames) && fstr2shas == old(fstr2shas)
        invariant FoldR(init, fstrs[..i], step) == Ok(fstr2sha2blames)
      {
        FoldRSnoc(init, fstrs, i, step);
        var fstr := fstrs[i];
        if fstr !in fstr2shas || |fstr2shas[fstr]| == 0 {
          FoldRStaysRaised(init, fstrs, i + 1, step);
          return Raise(if fstr !in fstr2shas then KeyError else IndexError);
        }
        var shas := fstr2shas[fstr];
        var headSha := shas[|shas| - 1];
        if fstr !in fstr2blames {
          FoldRStaysRaised(init, fstrs, i + 1, step);
          return Raise(KeyError);
        }
        var inner := AddShas(map[headSha := fstr2blames[fstr]], fstr, headSha, false, fstr, shas, blamesAt);
        if inner.Raise? {
          FoldRStaysRaised(init, fstrs, i + 1, step);
          return Raise(inner.error);
        }
        fstr2sha2blames := fstr2sha2blames[fstr := inner.value];
      }
      assert fstrs[..|fstrs|] == fstrs;
      return Ok(());
    }
  }

  // ---------------------------------------- reading the blames at HEAD

  /** The blames with each author replaced by the name the persons database gives it. */
  function Renamed(bs: seq<Blame>, authorOf: string -> string): seq<Blame>
  {
    seq(|bs|, i requires 0 <= i < |bs| => bs[i].(author := authorOf(bs[i].author)))
  }

  /** Renaming changes nothing but the authors, and renaming twice is renaming once when the database's names are final. */
  lemma RenamedMeaning(bs: seq<Blame>, authorOf: string -> string)
    ensures var r := Renamed(bs, authorOf);
      |r| == |bs|
      && (forall i :: 0 <= i < |bs| ==>
            r[i].author == authorOf(bs[i].author)
            && r[i].(author := bs[i].author) == bs[i])
      && ((forall a :: authorOf(authorOf(a)) == authorOf(a)) ==> Renamed(r, authorOf) == r)
  {
  }

  /** The inner loop of the rebuild: `fstr2blames[fstr].append(blame)` after renaming the author. */
  method RenameAuthors(bs: seq<Blame>, authorOf: string -> string) returns (r: seq<Blame>)
    ensures r == Renamed(bs, authorOf)
  {
    r := [];
    for i := 0 to |bs|
      invariant r == Renamed(bs[..i], authorOf)
    {
      r := r + [bs[i].(author := authorOf(bs[i].author))];
    }
    assert bs[..|bs|] == bs;
  }

  /** The files and blames of `RepoBlame.run_blame` and `BlameReader.run`. */
  class RepoBlame {
    var allFstrs: seq<string>
    var fstr2blames: map<string, seq<Blame>>

    constructor (allFstrs: seq<string>)
      ensures this.allFstrs == allFstrs && fstr2blames == map[]
    {
      this.allFstrs := allFstrs;
      fstr2blames := map[];
    }

    /**
     * The single-threaded `run_blame`: the blames of every file at HEAD
     * (`blamesOf`), then a new dict holding exactly those files with their
     * authors renamed (`authorOf`, the persons database).
     */
    method RunBlame(blamesOf: string -> Result<seq<Blame>>, authorOf: string -> string) returns (r: Result<()>)
      modifies this
      ensures allFstrs == old(allFstrs)
      ensures r.Ok? <==> forall k :: 0 <= k < |allFstrs| ==> blamesOf(allFstrs[k]).Ok?
      ensures r.Raise? ==> exists k :: 0 <= k < |allFstrs| && blamesOf(allFstrs[k]) == Raise(r.error)
      ensures r.Ok? ==> forall f :: (f in fstr2blames <==> f in allFstrs)
      ensures r.Ok? ==> forall f :: f in allFstrs ==>
        blamesOf(f).Ok? && fstr2blames[f] == Renamed(blamesOf(f).value, authorOf)
    {
      for i := 0 to |allFstrs|
        invariant allFstrs == old(allFstrs)
        invariant forall k :: 0 <= k < i ==> blamesOf(allFstrs[k]).Ok?
        invariant forall k :: 0 <= k < i ==>
          allFstrs[k] in fstr2blames && fstr2blames[allFstrs[k]] == blamesOf(allFstrs[k]).value
      {
        var blames := blamesOf(allFstrs[i]);
        if blames.Raise? {
          return Raise(blames.error);
        }
        fstr2blames := fstr2blames[allFstrs[i] := blames.value];
      }
      var fstrs, fetched := allFstrs, fstr2blames;
      var rebuilt: map<string, seq<Blame>> := map[];
      for j := 0 to |fstrs|
        invariant allFstrs == fstrs
        invariant forall f :: f in rebuilt <==> f in fstrs[..j]
        invariant forall f :: f in rebuilt ==>
          f in fetched && rebuilt[f] == Renamed(fetched[f], authorOf)
      {
        var fstr := fstrs[j];
        var blames := RenameAuthors(fetched[fstr], authorOf);
        rebuilt := rebuilt[fstr := blames];
        assert fstrs[..j + 1] == fstrs[..j] + [fstr];
      }
      assert fstrs[..|fstrs|] == fstrs;
      fstr2blames := rebuilt;
      return Ok(());
    }
  }
}
