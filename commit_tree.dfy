/**
 * The files of a commit's tree (repo_reader.py and repo_base.py): the
 * recursive tree walk `_traverse_tree`, the path lookups `file_in_tree` and
 * `get_blob_from_tree`, the choice of the biggest files, the line counts of
 * the HEAD files and the insertions of an initial commit.
 *
 * A tree is a value: pygit2's objects become the `Entry` datatype, and the
 * file pattern matching of `fnmatch` comes in as predicates.
 */
module CommitTree {
  import opened Errors
  import BlameHistory
  import CommitWalk
  import PyValues

  /** An entry of a git tree: a sub-tree, a blob with its size and text, or a submodule commit. */
  datatype Entry =
    | Tree(name: string, entries: seq<Entry>)
    | Blob(name: string, size: nat, data: string)
    | Submodule(name: string)

  // ------------------------------------------------------------ paths

  /** The path of a child: `f"{base_path}/{entry.name}" if base_path else entry.name`. */
  function Child(base: string, name: string): string
  {
    if base != "" then base + "/" + name else name
  }

  /** The path reached from `base` through the names `parts`. */
  function JoinPath(base: string, parts: seq<string>): string
    decreases |parts|
  {
    if |parts| == 0 then base else JoinPath(Child(base, parts[0]), parts[1..])
  }

  /** `_traverse_tree`: every entry that is not a tree, depth first, with its path. */
  function Traverse(entries: seq<Entry>, base: string): seq<(Entry, string)>
    decreases entries
  {
    if |entries| == 0 then []
    else
      var e := entries[0];
      var path := Child(base, e.name);
      (if e.Tree? then Traverse(e.entries, path) else [(e, path)]) + Traverse(entries[1..], base)
  }

  /** `file_in_tree`: the first entry that fits the next name decides. */
  function FileInTree(entries: seq<Entry>, parts: seq<string>): bool
    decreases entries
  {
    if |parts| == 0 || |entries| == 0 then false
    else
      var e := entries[0];
      if e.Tree? && |parts| > 1 then
        if e.name == parts[0] then FileInTree(e.entries, parts[1..]) else FileInTree(entries[1..], parts)
      else if e.Blob? && |parts| == 1 && e.name == parts[0] then true
      else FileInTree(entries[1..], parts)
  }

  /** `get_blob_from_tree`: the same search as `file_in_tree`, returning the blob. */
  function GetBlob(entries: seq<Entry>, parts: seq<string>): Option<Entry>
    decreases entries
  {
    if |parts| == 0 || |entries| == 0 then None
    else
      var e := entries[0];
      if e.Tree? && |parts| > 1 then
        if e.name == parts[0] then GetBlob(e.entries, parts[1..]) else GetBlob(entries[1..], parts)
      else if e.Blob? && |parts| == 1 && e.name == parts[0] then Some(e)
      else GetBlob(entries[1..], parts)
  }

  /** The two lookups agree, and what is found is a blob with the last name of the path. */
  lemma {:induction false} GetBlobAgrees(entries: seq<Entry>, parts: seq<string>)
    ensures GetBlob(entries, parts).Some? <==> FileInTree(entries, parts)
    ensures GetBlob(entries, parts).Some? ==>
      GetBlob(entries, parts).value.Blob? && GetBlob(entries, parts).value.name == parts[|parts| - 1]
    decreases entries
  {
    if |parts| == 0 || |entries| == 0 {
    } else {
      var e := entries[0];
      if e.Tree? && |parts| > 1 {
        if e.name == parts[0] {
          GetBlobAgrees(e.entries, parts[1..]);
        } else {
          GetBlobAgrees(entries[1..], parts);
        }
      } else if e.Blob? && |parts| == 1 && e.name == parts[0] {
      } else {
        GetBlobAgrees(entries[1..], parts);
      }
    }
  }

  /** A blob the lookup finds is listed by the tree walk, under the path joined from the names. */
  lemma {:induction false} FoundIsTraversed(entries: seq<Entry>, base: string, parts: seq<string>)
    requires GetBlob(entries, parts).Some?
    ensures (GetBlob(entries, parts).value, JoinPath(base, parts)) in Traverse(entries, base)
    decreases entries
  {
    var e := entries[0];
    var rest := Traverse(entries[1..], base);
    var here := if e.Tree? then Traverse(e.entries, Child(base, e.name)) else [(e, Child(base, e.name))];
    assert Traverse(entries, base) == here + rest;
    if e.Tree? && |parts| > 1 {
      if e.name == parts[0] {
        FoundIsTraversed(e.entries, Child(base, e.name), parts[1..]);
      } else {
        FoundIsTraversed(entries[1..], base, parts);
      }
    } else if e.Blob? && |parts| == 1 && e.name == parts[0] {
      assert JoinPath(base, parts) == JoinPath(Child(base, e.name), parts[1..]);
      assert here[0] == (GetBlob(entries, parts).value, JoinPath(base, parts));
    } else {
      FoundIsTraversed(entries[1..], base, parts);
    }
  }

  /** The tree walk lists no sub-tree, and under a non-empty base every path starts with the base and a "/". */
  lemma {:induction false} TraverseMeaning(entries: seq<Entry>, base: string)
    ensures forall i :: 0 <= i < |Traverse(entries, base)| ==>
      !Traverse(entries, base)[i].0.Tree?
      && (base != "" ==> base + "/" <= Traverse(entries, base)[i].1)
    decreases entries
  {
    if |entries| > 0 {
      var e := entries[0];
      var path := Child(base, e.name);
      TraverseMeaning(entries[1..], base);
      if e.Tree? {
        TraverseMeaning(e.entries, path);
        forall i | 0 <= i < |Traverse(e.entries, path)| && base != ""
          ensures base + "/" <= Traverse(e.entries, path)[i].1
        {
          assert path == (base + "/") + e.name;
          assert base + "/" <= path;
          assert path + "/" <= Traverse(e.entries, path)[i].1;
          assert (base + "/") + (e.name + "/") == path + "/";
        }
      }
    }
  }

  // ------------------------------------------------- choosing the files

  /** `fstr.split(".")[-1]`: what follows the last ".", or the whole path when there is none. */
  function LastDotPart(fstr: string): (ext: string)
    ensures '.' !in ext
    ensures ext <= fstr || (exists i :: 0 <= i < |fstr| && fstr[i] == '.' && fstr[i + 1..] == ext)
  {
    fstr[BlameHistory.RFind(fstr, '.') + 1..]
  }

  /** A path the file choice keeps: in the subfolder, with a wanted extension, and matched by no exclude pattern. */
  predicate Wanted(fstr: string, extensions: set<string>, exFile: string -> bool, inSubfolder: string -> bool)
  {
    inSubfolder(fstr) && LastDotPart(fstr) in extensions && !exFile(fstr)
  }

  /**
   * `get_worktree_files_sizes`: the blobs of the HEAD tree in the subfolder
   * whose extension is wanted and that no exclude pattern matches, with
   * their sizes, in walk order.
   */
  function FilesSizes(items: seq<(Entry, string)>, extensions: set<string>, exFile: string -> bool,
                      inSubfolder: string -> bool): (r: seq<(string, nat)>)
    ensures |r| <= |items|
    ensures forall x :: x in r ==>
      Wanted(x.0, extensions, exFile, inSubfolder) && exists e :: (e, x.0) in items && e.Blob? && e.size == x.1
  {
    if |items| == 0 then []
    else
      var rest := FilesSizes(items[1..], extensions, exFile, inSubfolder);
      var e := items[0].0;
      var fstr := items[0].1;
      assert forall x :: x in items[1..] ==> x in items;
      if e.Blob? && Wanted(fstr, extensions, exFile, inSubfolder) then
        [(fstr, e.size)] + rest
      else rest
  }

  /**
   * The sort key of `sorted(..., key=lambda x: x[1], reverse=True)`: a
   * stable ascending sort on the negated size keeps files of equal size in
   * walk order, as Python's reversed sort does.
   */
  function NegSize(x: (string, nat)): int
  {
    -(x.1 as int)
  }

  /** The files by descending size, equal sizes in walk order. */
  function SortBySize(s: seq<(string, nat)>): (r: seq<(string, nat)>)
    ensures |r| == |s|
  {
    CommitWalk.SortBy(s, NegSize)
  }

  /** The names of the files. */
  function Names(s: seq<(string, nat)>): seq<string>
  {
    seq(|s|, i requires 0 <= i < |s| => s[i].0)
  }

  /** `_get_biggest_worktree_files`: `assert n > 0`, then the names of the `n` biggest files. */
  function BiggestFiles(sizes: seq<(string, nat)>, n: int): Result<seq<string>>
  {
    if n <= 0 then Raise(AssertionError)
    else
      var sorted := SortBySize(sizes);
      Ok(Names(sorted[..if n < |sorted| then n else |sorted|]))
  }

  /**
   * At most `n` files are chosen, biggest first, and no file left out is
   * bigger than one chosen; `n <= 0` fails the assertion.
   */
  lemma BiggestFilesMeaning(sizes: seq<(string, nat)>, n: int)
    ensures BiggestFiles(sizes, n).Raise? <==> n <= 0
    ensures BiggestFiles(sizes, n).Raise? ==> BiggestFiles(sizes, n).error == AssertionError
    ensures n > 0 ==>
      var sorted := SortBySize(sizes);
      var k := if n < |sizes| then n else |sizes|;
      multiset(sorted) == multiset(sizes)
      && BiggestFiles(sizes, n).value == Names(sorted[..k])
      && |BiggestFiles(sizes, n).value| == k
      && (forall i, j :: 0 <= i < j < k ==> sorted[i].1 >= sorted[j].1)
      && (forall i, j :: 0 <= i < k <= j < |sorted| ==> sorted[i].1 >= sorted[j].1)
  {
    CommitWalk.SortByMeaning(sizes, NegSize);
    var sorted := SortBySize(sizes);
    assert |sorted| == |multiset(sorted)| == |multiset(sizes)| == |sizes|;
  }

  /** `any(fnmatch(fstr, pattern) for pattern in include_files)`. */
  predicate Included(fstr: string, includeFiles: seq<string>, fnmatch: (string, string) -> bool)
    decreases |includeFiles|
  {
    |includeFiles| > 0 && (fnmatch(fstr, includeFiles[0]) || Included(fstr, includeFiles[1..], fnmatch))
  }

  /** Some blob of the walk has path `fstr`. */
  ghost predicate BlobPath(items: seq<(Entry, string)>, fstr: string)
  {
    exists e :: (e, fstr) in items && e.Blob?
  }

  /** The blob paths of the walk chosen by the patterns: the list comprehension of `_get_worktree_files`. */
  function PatternFiles(items: seq<(Entry, string)>, includeFiles: seq<string>, extensions: set<string>,
                        exFile: string -> bool, inSubfolder: string -> bool, fnmatch: (string, string) -> bool): (r: seq<string>)
    ensures |r| <= |items|
  {
    if |items| == 0 then []
    else
      var rest := PatternFiles(items[1..], includeFiles, extensions, exFile, inSubfolder, fnmatch);
      var fstr := items[0].1;
      if items[0].0.Blob? && Wanted(fstr, extensions, exFile, inSubfolder) && Included(fstr, includeFiles, fnmatch)
      then [fstr] + rest
      else rest
  }

  /** Every chosen path is a wanted blob of the walk that an include pattern matches. */
  lemma {:induction false} PatternFilesMeaning(items: seq<(Entry, string)>, includeFiles: seq<string>, extensions: set<string>,
                                               exFile: string -> bool, inSubfolder: string -> bool, fnmatch: (string, string) -> bool)
    ensures forall f :: f in PatternFiles(items, includeFiles, extensions, exFile, inSubfolder, fnmatch) ==>
      Wanted(f, extensions, exFile, inSubfolder) && Included(f, includeFiles, fnmatch) && BlobPath(items, f)
  {
    if |items| > 0 {
      var rest := PatternFiles(items[1..], includeFiles, extensions, exFile, inSubfolder, fnmatch);
      PatternFilesMeaning(items[1..], includeFiles, extensions, exFile, inSubfolder, fnmatch);
      forall f | f in rest ensures BlobPath(items, f) {
        var e :| (e, f) in items[1..] && e.Blob?;
        assert (e, f) in items;
      }
      assert BlobPath(items, items[0].1) <== items[0].0.Blob? by {
        assert items[0] in items;
      }
    }
  }

  /** `_get_worktree_files`: the include patterns when there are any, otherwise the `nFiles` biggest files. */
  function WorktreeFiles(items: seq<(Entry, string)>, includeFiles: seq<string>, nFiles: int, extensions: set<string>,
                         exFile: string -> bool, inSubfolder: string -> bool, fnmatch: (string, string) -> bool): Result<seq<string>>
  {
    if |includeFiles| == 0 then BiggestFiles(FilesSizes(items, extensions, exFile, inSubfolder), nFiles)
    else Ok(PatternFiles(items, includeFiles, extensions, exFile, inSubfolder, fnmatch))
  }

  /** Include patterns take priority over the number of files: with patterns the choice never fails and ignores `nFiles`. */
  lemma WorktreeFilesMeaning(items: seq<(Entry, string)>, includeFiles: seq<string>, nFiles: int, extensions: set<string>,
                             exFile: string -> bool, inSubfolder: string -> bool, fnmatch: (string, string) -> bool)
    ensures var r := WorktreeFiles(items, includeFiles, nFiles, extensions, exFile, inSubfolder, fnmatch);
      (r.Raise? <==> |includeFiles| == 0 && nFiles <= 0)
      && (|includeFiles| > 0 ==>
            r == WorktreeFiles(items, includeFiles, 1, extensions, exFile, inSubfolder, fnmatch)
            && forall f :: f in r.value ==> Included(f, includeFiles, fnmatch))
      && (|includeFiles| == 0 && nFiles > 0 ==> |r.value| <= nFiles)
  {
    if |includeFiles| == 0 {
      BiggestFilesMeaning(FilesSizes(items, extensions, exFile, inSubfolder), nFiles);
    } else {
      PatternFilesMeaning(items, includeFiles, extensions, exFile, inSubfolder, fnmatch);
    }
  }

  // ------------------------------------------------------- line counts

  /** How often `c` occurs in `s`. */
  function Occurrences(s: string, c: char): nat
  {
    if |s| == 0 then 0 else Occurrences(s[..|s| - 1], c) + (if s[|s| - 1] == c then 1 else 0)
  }

  /** `len(text.split("\n"))`: one piece more than there are newlines. */
  function SplitCount(text: string): nat
  {
    Occurrences(text, '\n') + 1
  }

  /** The number of lines of a text, the last of which need not end in a newline. */
  function LinesIn(text: string): nat
  {
    if |text| == 0 then 0
    else Occurrences(text, '\n') + (if text[|text| - 1] == '\n' then 0 else 1)
  }

  /** The insertions repo_reader.py counts for a file of an initial commit: the pieces of the split. */
  function InitialInsertionsAsRead(text: string): nat
  {
    SplitCount(text)
  }

  /** The insertions repo_base.py counts: the pieces, less one when the text ends in a newline. */
  function InitialInsertions(text: string): nat
  {
    SplitCount(text) - (if |text| > 0 && text[|text| - 1] == '\n' then 1 else 0)
  }

  /**
   * repo_base.py counts the lines of a non-empty text (an empty one counts
   * 1); repo_reader.py counts one more whenever the text ends in a newline.
   */
  lemma InitialInsertionsMeaning(text: string)
    ensures |text| > 0 ==> InitialInsertions(text) == LinesIn(text)
    ensures |text| == 0 ==> InitialInsertions(text) == 1
    ensures InitialInsertionsAsRead(text)
      == InitialInsertions(text) + (if |text| > 0 && text[|text| - 1] == '\n' then 1 else 0)
  {
  }

  /** The sum of the counts of the listed files. */
  function SumOf(m: map<string, int>, keys: seq<string>): int
    requires forall k :: k in keys ==> k in m
  {
    if |keys| == 0 then 0 else SumOf(m, keys[..|keys| - 1]) + m[keys[|keys| - 1]]
  }

  lemma {:induction false} SumOfUpdate(m: map<string, int>, keys: seq<string>, f: string, v: int)
    requires forall k :: k in keys ==> k in m
    requires f !in keys
    ensures SumOf(m[f := v], keys) == SumOf(m, keys)
  {
    if |keys| > 0 {
      SumOfUpdate(m, keys[..|keys| - 1], f, v);
    }
  }

  /** Counting one more file keeps "*" the sum of the counted files. */
  lemma AddCountSum(m: map<string, int>, counted: seq<string>, fstr: string, count: int)
    requires forall k :: k in counted ==> k in m
    requires "*" in m && "*" !in counted && fstr != "*" && fstr !in counted
    requires m["*"] == SumOf(m, counted)
    ensures var m' := m[fstr := count]["*" := m["*"] + count];
      forall k :: k in counted + [fstr] ==> k in m'
    ensures var m' := m[fstr := count]["*" := m["*"] + count];
      m'["*"] == SumOf(m', counted + [fstr])
  {
    var m' := m[fstr := count]["*" := m["*"] + count];
    SumOfUpdate(m, counted, fstr, count);
    SumOfUpdate(m[fstr := count], counted, "*", m["*"] + count);
    assert (counted + [fstr])[..|counted|] == counted;
  }

  /** The first blob among the first `n` items of the tree walk listed under `fstr`. */
  function FirstBlob(items: seq<(Entry, string)>, n: nat, fstr: string): (r: Option<Entry>)
    requires n <= |items|
    ensures r.Some? ==> r.value.Blob?
  {
    if n == 0 then None
    else
      var prev := FirstBlob(items, n - 1, fstr);
      if prev.Some? then prev
      else if items[n - 1].0.Blob? && items[n - 1].1 == fstr then Some(items[n - 1].0)
      else None
  }

  /** There is a first blob exactly when the walk lists `fstr` as a blob, and it is the earliest one. */
  lemma {:induction false} FirstBlobMeaning(items: seq<(Entry, string)>, n: nat, fstr: string)
    requires n <= |items|
    ensures FirstBlob(items, n, fstr).Some? <==> exists k :: 0 <= k < n && items[k].0.Blob? && items[k].1 == fstr
    ensures FirstBlob(items, n, fstr).Some? ==>
      exists k :: 0 <= k < n && items[k].0 == FirstBlob(items, n, fstr).value && items[k].0.Blob? && items[k].1 == fstr
                  && forall j :: 0 <= j < k ==> !(items[j].0.Blob? && items[j].1 == fstr)
  {
    if n > 0 {
      FirstBlobMeaning(items, n - 1, fstr);
    }
  }

  /** The files counted after the first `i` items of the walk: the chosen ones with a blob among them. */
  ghost predicate CountedFiles(items: seq<(Entry, string)>, i: nat, fstrs: seq<string>, counted: seq<string>)
    requires i <= |items|
  {
    forall f :: f in counted <==> f in fstrs && f != "*" && FirstBlob(items, i, f).Some?
  }

  /** Each counted file has the piece count of its first blob among the first `i` items. */
  ghost predicate CountedValues(items: seq<(Entry, string)>, i: nat, m: map<string, int>, counted: seq<string>)
    requires i <= |items|
  {
    forall f :: f in counted ==> f in m && FirstBlob(items, i, f).Some? && m[f] == SplitCount(FirstBlob(items, i, f).value.data)
  }

  /** No file is counted twice. */
  ghost predicate NoRepeats(counted: seq<string>)
  {
    forall i, j :: 0 <= i < j < |counted| ==> counted[i] != counted[j]
  }

  /** The line-count map after the first `i` items of the walk, with the files counted so far in order. */
  ghost predicate CountedUpTo(items: seq<(Entry, string)>, i: nat, fstrs: seq<string>, m: map<string, int>, counted: seq<string>)
    requires i <= |items|
  {
    && "*" in m && "*" !in counted
    && (forall f :: f in m <==> f == "*" || f in counted)
    && CountedFiles(items, i, fstrs, counted)
    && CountedValues(items, i, m, counted)
    && NoRepeats(counted)
    && m["*"] == SumOf(m, counted)
  }

  /** A file counted at item `i` joins the counted files. */
  lemma CountedFilesAdd(items: seq<(Entry, string)>, i: nat, fstrs: seq<string>, counted: seq<string>)
    requires i < |items| && CountedFiles(items, i, fstrs, counted)
    requires items[i].0.Blob? && items[i].1 in fstrs && items[i].1 != "*" && items[i].1 !in counted
    ensures CountedFiles(items, i + 1, fstrs, counted + [items[i].1])
  {
    forall f ensures f in counted + [items[i].1] <==> f in fstrs && f != "*" && FirstBlob(items, i + 1, f).Some? {
      if f != items[i].1 {
        assert FirstBlob(items, i + 1, f) == FirstBlob(items, i, f);
      }
    }
  }

  /** The file counted at item `i` gets the piece count of that blob, and the others keep theirs. */
  lemma CountedValuesAdd(items: seq<(Entry, string)>, i: nat, m: map<string, int>, counted: seq<string>)
    requires i < |items| && CountedValues(items, i, m, counted)
    requires items[i].0.Blob? && FirstBlob(items, i, items[i].1).None?
    ensures CountedValues(items, i + 1, m[items[i].1 := SplitCount(items[i].0.data)], counted + [items[i].1])
  {
    var fstr := items[i].1;
    var m' := m[fstr := SplitCount(items[i].0.data)];
    forall f | f in counted + [fstr] ensures f in m' && FirstBlob(items, i + 1, f).Some? && m'[f] == SplitCount(FirstBlob(items, i + 1, f).value.data) {
      if f != fstr {
        assert FirstBlob(items, i + 1, f) == FirstBlob(items, i, f);
      }
    }
  }

  /** A turn of the counting loop that counts a new file keeps the map in step with the walk. */
  lemma LineCountsAdd(items: seq<(Entry, string)>, i: nat, fstrs: seq<string>, m: map<string, int>, counted: seq<string>)
    requires i < |items| && CountedUpTo(items, i, fstrs, m, counted)
    requires items[i].0.Blob? && items[i].1 in fstrs && items[i].1 !in m
    ensures CountedUpTo(items, i + 1, fstrs,
                        m[items[i].1 := SplitCount(items[i].0.data)]["*" := m["*"] + SplitCount(items[i].0.data)],
                        counted + [items[i].1])
  {
    var fstr := items[i].1;
    var lineCount := SplitCount(items[i].0.data);
    var counted' := counted + [fstr];
    var m' := m[fstr := lineCount];
    var m'' := m'["*" := m["*"] + lineCount];
    assert fstr != "*" && fstr !in counted;
    assert FirstBlob(items, i, fstr).None?;
    assert "*" in m'' && "*" !in counted';
    assert forall f :: f in m'' <==> f == "*" || f in counted';
    assert CountedFiles(items, i + 1, fstrs, counted') by {
      CountedFilesAdd(items, i, fstrs, counted);
    }
    assert CountedValues(items, i + 1, m'', counted') by {
      CountedValuesAdd(items, i, m, counted);
      forall f | f in counted' ensures f != "*" && f in m' {
      }
    }
    assert NoRepeats(counted') by {
      forall a, b | 0 <= a < b < |counted'| ensures counted'[a] != counted'[b] {
        if b == |counted| {
          assert counted'[a] in counted;
        }
      }
    }
    assert m''["*"] == SumOf(m'', counted') by {
      AddCountSum(m, counted, fstr, lineCount);
    }
  }

  /** A turn of the counting loop that counts nothing keeps the map in step with the walk. */
  lemma LineCountsSkip(items: seq<(Entry, string)>, i: nat, fstrs: seq<string>, m: map<string, int>, counted: seq<string>)
    requires i < |items| && CountedUpTo(items, i, fstrs, m, counted)
    requires !(items[i].0.Blob? && items[i].1 in fstrs && items[i].1 !in m)
    ensures CountedUpTo(items, i + 1, fstrs, m, counted)
  {
    forall f | f in counted || f != items[i].1 || !items[i].0.Blob?
      ensures FirstBlob(items, i + 1, f) == FirstBlob(items, i, f)
    {
    }
  }

  /**
   * `_set_fstr2line_count`: "*" starts at 0; each chosen file gets the
   * piece count of its first blob in the walk, and "*" their sum.
   */
  method LineCounts(items: seq<(Entry, string)>, fstrs: seq<string>) returns (m: map<string, int>, ghost counted: seq<string>)
    ensures "*" in m && "*" !in counted
    ensures forall f :: f in m <==> f == "*" || f in counted
    ensures forall f :: f in counted <==> f in fstrs && f != "*" && FirstBlob(items, |items|, f).Some?
    ensures forall f :: f in counted ==> m[f] == SplitCount(FirstBlob(items, |items|, f).value.data)
    ensures forall i, j :: 0 <= i < j < |counted| ==> counted[i] != counted[j]
    ensures m["*"] == SumOf(m, counted)
  {
    m := map["*" := 0];
    counted := [];
    for i := 0 to |items|
      invariant CountedUpTo(items, i, fstrs, m, counted)
    {
      var blob, fstr := items[i].0, items[i].1;
      if blob.Blob? && fstr in fstrs && fstr !in m {
        LineCountsAdd(items, i, fstrs, m, counted);
        var lineCount := SplitCount(blob.data);
        m := m[fstr := lineCount]["*" := m["*"] + lineCount];
        counted := counted + [fstr];
      } else {
        LineCountsSkip(items, i, fstrs, m, counted);
      }
    }
  }

  /** pygit2's `Object.type`: an integer code, 1 for a commit (a submodule entry), 2 for a tree and 3 for a blob. */
  function ObjectType(e: Entry): (v: PyValues.Value)
    ensures v.Int?
  {
    match e
    case Tree(_, _) => PyValues.Int(2)
    case Blob(_, _, _) => PyValues.Int(3)
    case Submodule(_) => PyValues.Int(1)
  }

  /**
   * `_set_fstr2line_count` as written: its test `blob.type == "blob"`
   * compares pygit2's integer type code with a string, which never holds,
   * so no file is counted and "*" stays 0.
   */
  method LineCountsAsWritten(items: seq<(Entry, string)>, fstrs: seq<string>) returns (m: map<string, int>)
    ensures m == map["*" := 0]
  {
    m := map["*" := 0];
    var total := 0;
    for i := 0 to |items|
      invariant m == map["*" := 0] && total == 0
    {
      var blob, fstr := items[i].0, items[i].1;
      if ObjectType(blob) == PyValues.Str("blob") && fstr in fstrs && fstr !in m {
        match blob
        case Blob(_, _, data) =>
          var lineCount := SplitCount(data);
          total := total + lineCount;
          m := m[fstr := lineCount]["*" := total];
        case _ =>
      }
    }
  }

  /**
   * A HEAD tree holding one listed, empty file "a.py": the corrected count
   * gives it one line, while the test as written passes over its blob.
   */
  lemma AsWrittenCountsNoFile()
    ensures var items := [(Blob("a.py", 0, ""), "a.py")];
      && FirstBlob(items, |items|, "a.py") == Some(items[0].0)
      && SplitCount(FirstBlob(items, |items|, "a.py").value.data) == 1
      && ObjectType(items[0].0) != PyValues.Str("blob")
  {
  }
}
