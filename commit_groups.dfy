/**
 * The per-file commit history of repo_reader.py, repo_base.py and
 * stats_reader.py: the commit records of a file are grouped into runs of
 * the same file and author (`_process_commit_data_for`), every record's
 * short SHA is filed under its root file, file and author, and finally
 * `reduce_commits` removes the groups that a longer list shares at its end.
 *
 * The records themselves come from git diffs (`_get_commit_data_for`);
 * here they are an input. `CommitGroup` lives in a module that is not part
 * of this model; it is compared by value, as a dataclass is.
 */
module CommitGroups {
  import opened Errors
  import CommitWalk
  import Seqs

  /** `CommitData`: one commit's change to one file. */
  datatype CommitData = CommitData(fstr: string, author: string, insertions: int, deletions: int,
                                   timestamp: int, shaShort: string)

  /** `CommitGroup`: consecutive commits of one author to one file. */
  datatype Group = Group(author: string, fstr: string, insertions: int, deletions: int,
                         dateSum: int, shaShorts: set<string>)

  // ---------------------------------------------------------- grouping

  /** The group a record starts. */
  function NewGroup(d: CommitData): Group
  {
    Group(d.author, d.fstr, d.insertions, d.deletions, d.timestamp * d.insertions, {d.shaShort})
  }

  /** The last group with the record added to it. */
  function AddTo(g: Group, d: CommitData): Group
  {
    g.(dateSum := g.dateSum + d.timestamp * d.insertions, shaShorts := g.shaShorts + {d.shaShort},
       insertions := g.insertions + d.insertions, deletions := g.deletions + d.deletions)
  }

  /** The record belongs to the same file and author as the group. */
  predicate SameRun(g: Group, d: CommitData)
  {
    d.fstr == g.fstr && d.author == g.author
  }

  /**
   * One step of the grouping loop: the record merges into the last group
   * when there are at least `minGroups` groups (and at least one) and the
   * last has its file and author; otherwise it starts a new group.
   * repo_reader.py and repo_base.py test `commit_groups`, which is
   * `minGroups == 1`; stats_reader.py tests `len(commits) > 1`, which is
   * `minGroups == 2`.
   */
  function Merge(groups: seq<Group>, d: CommitData, minGroups: nat): seq<Group>
  {
    if |groups| > 0 && |groups| >= minGroups && SameRun(groups[|groups| - 1], d) then
      groups[..|groups| - 1] + [AddTo(groups[|groups| - 1], d)]
    else groups + [NewGroup(d)]
  }

  /** The groups of a sequence of records, built one record at a time. */
  function Grouped(ds: seq<CommitData>, minGroups: nat): seq<Group>
  {
    if ds == [] then [] else Merge(Grouped(ds[..|ds| - 1], minGroups), ds[|ds| - 1], minGroups)
  }

  /** The last group has the file and author of the last record. */
  lemma {:induction false} GroupedLast(ds: seq<CommitData>, minGroups: nat)
    requires ds != []
    ensures Grouped(ds, minGroups) != []
    ensures SameRun(Grouped(ds, minGroups)[|Grouped(ds, minGroups)| - 1], ds[|ds| - 1])
  {
  }

  /**
   * With the `commit_groups` test, a record adds no group exactly when the
   * previous record has its file and author, and the first record always
   * starts one.
   */
  lemma GroupedMergesIff(ds: seq<CommitData>, d: CommitData)
    ensures |Grouped(ds + [d], 1)| == |Grouped(ds, 1)| || |Grouped(ds + [d], 1)| == |Grouped(ds, 1)| + 1
    ensures |Grouped(ds + [d], 1)| == |Grouped(ds, 1)|
            <==> ds != [] && ds[|ds| - 1].fstr == d.fstr && ds[|ds| - 1].author == d.author
  {
    assert (ds + [d])[..|ds|] == ds;
    if ds != [] {
      GroupedLast(ds, 1);
    }
  }

  /** Neighbouring groups never share both file and author. */
  predicate RunsDiffer(gs: seq<Group>)
  {
    forall i :: 0 <= i < |gs| - 1 ==> gs[i].fstr != gs[i + 1].fstr || gs[i].author != gs[i + 1].author
  }

  /** With the `commit_groups` test, neighbouring groups never share both file and author. */
  lemma {:induction false} GroupedRunsDiffer(ds: seq<CommitData>)
    ensures RunsDiffer(Grouped(ds, 1))
  {
    if ds != [] {
      var init := ds[..|ds| - 1];
      GroupedRunsDiffer(init);
      MergeRunsDiffer(Grouped(init, 1), ds[|ds| - 1]);
    }
  }

  /** A merge step with the `commit_groups` test keeps neighbouring groups apart. */
  lemma MergeRunsDiffer(gs: seq<Group>, d: CommitData)
    requires RunsDiffer(gs)
    ensures RunsDiffer(Merge(gs, d, 1))
  {
    var r := Merge(gs, d, 1);
    forall i | 0 <= i < |r| - 1 ensures r[i].fstr != r[i + 1].fstr || r[i].author != r[i + 1].author {
      if i + 1 < |gs| {
        assert r[i] == gs[i];
        assert r[i + 1].fstr == gs[i + 1].fstr && r[i + 1].author == gs[i + 1].author;
      }
    }
  }

  /**
   * The `len(commits) > 1` test of stats_reader.py: the first two records
   * of one file and author stay two groups, where the `commit_groups` test
   * merges them into one.
   */
  lemma StatsFirstTwoApart(d1: CommitData, d2: CommitData)
    requires d1.fstr == d2.fstr && d1.author == d2.author
    ensures Grouped([d1, d2], 2) == [NewGroup(d1), NewGroup(d2)]
    ensures Grouped([d1, d2], 2)[0].fstr == Grouped([d1, d2], 2)[1].fstr
    ensures Grouped([d1, d2], 2)[0].author == Grouped([d1, d2], 2)[1].author
    ensures Grouped([d1, d2], 1) == [AddTo(NewGroup(d1), d2)]
  {
    assert [d1, d2][..1] == [d1];
    assert [d1][..0] == [];
    assert Grouped([d1], 1) == [NewGroup(d1)];
    assert Grouped([d1], 2) == [NewGroup(d1)];
    assert [NewGroup(d1)][..0] + [AddTo(NewGroup(d1), d2)] == [AddTo(NewGroup(d1), d2)];
  }

  // ------------------------------------------------------------ totals

  /** The sum of `f` over a sequence. */
  function Total<T>(s: seq<T>, f: T -> int): int
  {
    if s == [] then 0 else Total(s[..|s| - 1], f) + f(s[|s| - 1])
  }

  function GroupInsertions(g: Group): int { g.insertions }
  function GroupDeletions(g: Group): int { g.deletions }
  function GroupDateSum(g: Group): int { g.dateSum }
  function RecordInsertions(d: CommitData): int { d.insertions }
  function RecordDeletions(d: CommitData): int { d.deletions }
  /** `int(timestamp) * insertions`: the weight a record adds to its group's date sum. */
  function RecordDateSum(d: CommitData): int { d.timestamp * d.insertions }

  /** The short SHAs of some groups. */
  function GroupShas(gs: seq<Group>): set<string>
  {
    if gs == [] then {} else GroupShas(gs[..|gs| - 1]) + gs[|gs| - 1].shaShorts
  }

  /** The short SHAs of some records. */
  function RecordShas(ds: seq<CommitData>): set<string>
  {
    if ds == [] then {} else RecordShas(ds[..|ds| - 1]) + {ds[|ds| - 1].shaShort}
  }

  /**
   * Whatever the merge test, the groups' insertions, deletions and date
   * sums add up to those of the records, and their SHAs are the records'.
   */
  lemma {:induction false} GroupedTotals(ds: seq<CommitData>, minGroups: nat)
    ensures Total(Grouped(ds, minGroups), GroupInsertions) == Total(ds, RecordInsertions)
    ensures Total(Grouped(ds, minGroups), GroupDeletions) == Total(ds, RecordDeletions)
    ensures Total(Grouped(ds, minGroups), GroupDateSum) == Total(ds, RecordDateSum)
    ensures GroupShas(Grouped(ds, minGroups)) == RecordShas(ds)
  {
    if ds != [] {
      var init, d := ds[..|ds| - 1], ds[|ds| - 1];
      GroupedTotals(init, minGroups);
      MergeTotals(Grouped(init, minGroups), d, minGroups);
    }
  }

  /** One step of the grouping adds the record's numbers and SHA to the totals. */
  lemma MergeTotals(gs: seq<Group>, d: CommitData, minGroups: nat)
    ensures Total(Merge(gs, d, minGroups), GroupInsertions) == Total(gs, GroupInsertions) + d.insertions
    ensures Total(Merge(gs, d, minGroups), GroupDeletions) == Total(gs, GroupDeletions) + d.deletions
    ensures Total(Merge(gs, d, minGroups), GroupDateSum) == Total(gs, GroupDateSum) + RecordDateSum(d)
    ensures GroupShas(Merge(gs, d, minGroups)) == GroupShas(gs) + {d.shaShort}
  {
    if |gs| > 0 && |gs| >= minGroups && SameRun(gs[|gs| - 1], d) {
      var front := gs[..|gs| - 1];
      assert (front + [AddTo(gs[|gs| - 1], d)])[..|front|] == front;
      assert gs == front + [gs[|gs| - 1]];
    } else {
      assert (gs + [NewGroup(d)])[..|gs|] == gs;
    }
  }

  // ----------------------------------------------------------- SHA sets

  /** `fr2f2a2sha_short_set`: root file to file to author to short SHAs. */
  type ShaSets = map<string, map<string, map<string, set<string>>>>

  /** The SHA is filed under the root, file and author. */
  predicate Has(t: ShaSets, root: string, fstr: string, author: string, sha: string)
  {
    root in t && fstr in t[root] && author in t[root][fstr] && sha in t[root][fstr][author]
  }

  /** Some record has the file, author and SHA. */
  predicate Recorded(ds: seq<CommitData>, fstr: string, author: string, sha: string)
  {
    exists k :: 0 <= k < |ds| && ds[k].fstr == fstr && ds[k].author == author && ds[k].shaShort == sha
  }

  /** Files one record's SHA, creating the missing levels as empty. */
  function AddSha(t: ShaSets, root: string, d: CommitData): ShaSets
  {
    var byFile := if root in t then t[root] else map[];
    var byAuthor := if d.fstr in byFile then byFile[d.fstr] else map[];
    var shas := if d.author in byAuthor then byAuthor[d.author] else {};
    t[root := byFile[d.fstr := byAuthor[d.author := shas + {d.shaShort}]]]
  }

  /** Files the SHAs of all records under `root`. */
  function AddShas(t: ShaSets, root: string, ds: seq<CommitData>): ShaSets
  {
    if ds == [] then t else AddSha(AddShas(t, root, ds[..|ds| - 1]), root, ds[|ds| - 1])
  }

  /** Filing one record adds its SHA under `root`, its file and its author, and nothing else. */
  lemma AddShaMeaning(t: ShaSets, root: string, d: CommitData)
    ensures forall r, f, a, s :: Has(AddSha(t, root, d), r, f, a, s) <==>
      Has(t, r, f, a, s) || (r == root && f == d.fstr && a == d.author && s == d.shaShort)
  {
  }

  /** After filing, a SHA is present exactly when it was before or a record under `root` has it. */
  lemma {:induction false} AddShasMeaning(t: ShaSets, root: string, ds: seq<CommitData>)
    ensures forall r, f, a, s :: Has(AddShas(t, root, ds), r, f, a, s) <==> Has(t, r, f, a, s) || (r == root && Recorded(ds, f, a, s))
  {
    if ds != [] {
      var init, d := ds[..|ds| - 1], ds[|ds| - 1];
      AddShasMeaning(t, root, init);
      AddShaMeaning(AddShas(t, root, init), root, d);
      forall f, a, s ensures Recorded(ds, f, a, s) <==> Recorded(init, f, a, s) || (f == d.fstr && a == d.author && s == d.shaShort) {
        if Recorded(init, f, a, s) {
          var k :| 0 <= k < |init| && init[k].fstr == f && init[k].author == a && init[k].shaShort == s;
          assert ds[k] == init[k];
        }
        if Recorded(ds, f, a, s) {
          var k :| 0 <= k < |ds| && ds[k].fstr == f && ds[k].author == a && ds[k].shaShort == s;
          if k < |init| {
            assert init[k] == ds[k];
          }
        }
        assert ds[|ds| - 1] == d;
      }
    }
  }

  /** Grouping and filing one more record is one more step of each. */
  lemma SnocSteps(t: ShaSets, root: string, ds: seq<CommitData>, d: CommitData)
    ensures Grouped(ds + [d], 1) == Merge(Grouped(ds, 1), d, 1)
    ensures AddShas(t, root, ds + [d]) == AddSha(AddShas(t, root, ds), root, d)
  {
    assert (ds + [d])[..|ds|] == ds;
  }

  /** The records of a list of lists, in order. */
  function Flatten(ls: seq<seq<CommitData>>): seq<CommitData>
  {
    if ls == [] then [] else Flatten(ls[..|ls| - 1]) + ls[|ls| - 1]
  }

  // ---------------------------------------------------- reduce_commits



  /**
   * The inner loop of `reduce_commits`: pops the last group of `g2` while
   * it equals the group `k + 1` places from the end of `g1`. As written
   * (`asWritten`) the loop reads `g1[-(k + 1)]` even when `g1` has only `k`
   * groups, which raises IndexError; the corrected loop stops there.
   * Either way only the end of `g2` is removed.
   */
  function TrimFrom<T(==)>(g1: seq<T>, g2: seq<T>, k: nat, asWritten: bool): (r: Result<seq<T>>)
    ensures !asWritten ==> r.Ok?
    ensures r.Ok? ==> r.value <= g2
    decreases |g2|
  {
    if g2 == [] then Ok(g2)
    else if k >= |g1| then (if asWritten then Raise(IndexError) else Ok(g2))
    else if g1[|g1| - 1 - k] == g2[|g2| - 1] then
      var r := TrimFrom(g1, g2[..|g2| - 1], k + 1, asWritten);
      if r.Ok? then Seqs.PrefixTransitive(r.value, g2[..|g2| - 1], g2); r else r
    else Ok(g2)
  }

  /** How many groups the corrected loop pops from `g2`: at most what is left of `g1`. */
  function Popped<T(==)>(g1: seq<T>, g2: seq<T>, k: nat): (n: nat)
    requires k <= |g1|
    ensures n <= |g2| && n <= |g1| - k
    ensures n == |g2| - |TrimFrom(g1, g2, k, false).value|
    decreases |g2|
  {
    if g2 != [] && k < |g1| && g1[|g1| - 1 - k] == g2[|g2| - 1] then 1 + Popped(g1, g2[..|g2| - 1], k + 1) else 0
  }

  /** The element `j` places before the last; `FromEnd(s, 0)` is Python's `s[-1]`. */
  function FromEnd<T>(s: seq<T>, j: nat): T
    requires j < |s|
  {
    s[|s| - 1 - j]
  }

  /**
   * The corrected loop removes from `g2` exactly an end it shares with
   * what is left of `g1`: the `j`-th group popped from `g2` equals the
   * group `k + j` places before the end of `g1`.
   */
  lemma {:induction false} TrimMeaning<T>(g1: seq<T>, g2: seq<T>, k: nat)
    requires k <= |g1|
    ensures forall j :: 0 <= j < Popped(g1, g2, k) ==> FromEnd(g2, j) == FromEnd(g1, k + j)
    decreases |g2|
  {
    if g2 != [] && k < |g1| && g1[|g1| - 1 - k] == g2[|g2| - 1] {
      var g2' := g2[..|g2| - 1];
      TrimMeaning(g1, g2', k + 1);
      forall j | 1 <= j < Popped(g1, g2, k) ensures FromEnd(g2, j) == FromEnd(g1, k + j) {
        assert FromEnd(g2', j - 1) == FromEnd(g1, k + 1 + (j - 1));
      }
    }
  }

  /** The shared end is the longest: the next pair to compare differs, or one side is used up. */
  lemma {:induction false} TrimMaximal<T>(g1: seq<T>, g2: seq<T>, k: nat)
    requires k <= |g1|
    ensures Popped(g1, g2, k) < |g2| && k + Popped(g1, g2, k) < |g1| ==>
      FromEnd(g2, Popped(g1, g2, k)) != FromEnd(g1, k + Popped(g1, g2, k))
    decreases |g2|
  {
    if g2 != [] && k < |g1| && g1[|g1| - 1 - k] == g2[|g2| - 1] {
      TrimMaximal(g1, g2[..|g2| - 1], k + 1);
    }
  }

  /**
   * The loop as written raises exactly when the rest of `g1` runs out
   * while `g2` still has groups: `g1[..|g1| - k]` is a proper suffix of
   * `g2`. When it does not raise, it agrees with the corrected loop.
   */
  lemma {:induction false} TrimAsWrittenMeaning<T>(g1: seq<T>, g2: seq<T>, k: nat)
    requires k <= |g1|
    ensures TrimFrom(g1, g2, k, true).Raise? <==> |g2| > |g1| - k && g2[|g2| - (|g1| - k)..] == g1[..|g1| - k]
    ensures TrimFrom(g1, g2, k, true).Raise? ==> TrimFrom(g1, g2, k, true).error == IndexError
    ensures TrimFrom(g1, g2, k, true).Ok? ==> TrimFrom(g1, g2, k, true) == TrimFrom(g1, g2, k, false)
    decreases |g2|
  {
    if g2 != [] && k < |g1| {
      var rest := g2[..|g2| - 1];
      TrimAsWrittenMeaning(g1, rest, k + 1);
      var n := |g1| - k;
      if g1[|g1| - 1 - k] == g2[|g2| - 1] {
        if |g2| > n && g2[|g2| - n..] == g1[..n] {
          assert rest[|rest| - (n - 1)..] == g2[|g2| - n..][..n - 1];
          assert g1[..n - 1] == g1[..n][..n - 1];
        }
        if |rest| > n - 1 && rest[|rest| - (n - 1)..] == g1[..n - 1] {
          assert g2[|g2| - n..] == rest[|rest| - (n - 1)..] + [g2[|g2| - 1]];
          assert g1[..n] == g1[..n - 1] + [g1[n - 1]];
        }
      }
    } else if g2 != [] {
      assert g2[|g2| - 0..] == [] == g1[..0];
    }
  }

  /**
   * `for fstr2 in fstrs`: trims every list named by `fs`, in order, against
   * `g1`.
   */
  function TrimAll(m: map<string, seq<Group>>, g1: seq<Group>, fs: seq<string>, asWritten: bool): (r: Result<map<string, seq<Group>>>)
    requires forall f :: f in fs ==> f in m
    ensures r.Ok? ==> r.value.Keys == m.Keys
    ensures !asWritten ==> r.Ok?
  {
    if fs == [] then Ok(m)
    else
      match TrimAll(m, g1, fs[..|fs| - 1], asWritten)
      case Raise(e) => Raise(e)
      case Ok(m') =>
        var f := fs[|fs| - 1];
        match TrimFrom(g1, m'[f], 0, asWritten)
        case Raise(e) => Raise(e)
        case Ok(g2) => Ok(m'[f := g2])
  }

  /**
   * The `while fstrs` loop of `reduce_commits` over the sorted names:
   * takes the last name, and unless its list is empty trims the lists of
   * all names before it against that list.
   */
  function Reduce(m: map<string, seq<Group>>, order: seq<string>, asWritten: bool): (r: Result<map<string, seq<Group>>>)
    requires forall f :: f in order ==> f in m
    ensures r.Ok? ==> r.value.Keys == m.Keys
    ensures !asWritten ==> r.Ok?
    decreases |order|
  {
    if order == [] then Ok(m)
    else
      var rest := order[..|order| - 1];
      var g1 := m[order[|order| - 1]];
      if g1 == [] then Reduce(m, rest, asWritten)
      else
        match TrimAll(m, g1, rest, asWritten)
        case Raise(e) => Raise(e)
        case Ok(m') => Reduce(m', rest, asWritten)
  }

  /** The sort key of `reduce_commits`: the length of a file's list. */
  function LenKey(m: map<string, seq<Group>>): string -> int
  {
    f => if f in m then |m[f]| else 0
  }

  /** Trimming all lists keeps every list a prefix of its original and leaves unnamed lists alone. */
  lemma {:induction false} TrimAllMeaning(m: map<string, seq<Group>>, g1: seq<Group>, fs: seq<string>, asWritten: bool)
    requires forall f :: f in fs ==> f in m
    ensures TrimAll(m, g1, fs, asWritten).Ok? ==> forall f :: f in m ==> TrimAll(m, g1, fs, asWritten).value[f] <= m[f]
    ensures TrimAll(m, g1, fs, asWritten).Ok? ==> forall f :: f in m && f !in fs ==> TrimAll(m, g1, fs, asWritten).value[f] == m[f]
  {
    if fs != [] {
      var init := fs[..|fs| - 1];
      assert forall h :: h in init ==> h in fs;
      TrimAllMeaning(m, g1, init, asWritten);
      var r := TrimAll(m, g1, init, asWritten);
      if r.Ok? {
        var f := fs[|fs| - 1];
        var t := TrimFrom(g1, r.value[f], 0, asWritten);
        if t.Ok? {
          Seqs.PrefixTransitive(t.value, r.value[f], m[f]);
        }
      }
    }
  }

  /**
   * `reduce_commits` keeps the keys and leaves every list a prefix of its
   * original: it only ever pops list ends. Lists of files it is not given
   * stay as they were.
   */
  lemma {:induction false} ReduceMeaning(m: map<string, seq<Group>>, order: seq<string>, asWritten: bool)
    requires forall f :: f in order ==> f in m
    ensures Reduce(m, order, asWritten).Ok? ==> forall f :: f in m ==> Reduce(m, order, asWritten).value[f] <= m[f]
    ensures Reduce(m, order, asWritten).Ok? ==> forall f :: f in m && f !in order ==> Reduce(m, order, asWritten).value[f] == m[f]
    decreases |order|
  {
    if order != [] {
      var rest := order[..|order| - 1];
      var g1 := m[order[|order| - 1]];
      assert forall h :: h in rest ==> h in order;
      if g1 == [] {
        ReduceMeaning(m, rest, asWritten);
      } else {
        TrimAllMeaning(m, g1, rest, asWritten);
        var t := TrimAll(m, g1, rest, asWritten);
        if t.Ok? {
          ReduceMeaning(t.value, rest, asWritten);
          var r := Reduce(t.value, rest, asWritten);
          if r.Ok? {
            forall f | f in m ensures r.value[f] <= m[f] {
              Seqs.PrefixTransitive(r.value[f], t.value[f], m[f]);
            }
          }
        }
      }
    }
  }

  /**
   * The list taken first, the longest by the sort, is never changed: every
   * later pass only touches the names before it.
   */
  lemma ReduceKeepsTaken(m: map<string, seq<Group>>, order: seq<string>, asWritten: bool)
    requires forall f :: f in order ==> f in m
    requires order != [] && order[|order| - 1] !in order[..|order| - 1]
    ensures Reduce(m, order, asWritten).Ok? ==>
      Reduce(m, order, asWritten).value[order[|order| - 1]] == m[order[|order| - 1]]
  {
    var rest := order[..|order| - 1];
    var last := order[|order| - 1];
    assert forall h :: h in rest ==> h in order;
    if m[last] != [] {
      TrimAllMeaning(m, m[last], rest, asWritten);
      var t := TrimAll(m, m[last], rest, asWritten);
      if t.Ok? {
        ReduceMeaning(t.value, rest, asWritten);
      }
    } else {
      ReduceMeaning(m, rest, asWritten);
    }
  }

  /** Taking c = [s, q, r] in the example below: b = [p, q, r] loses q and r, a = [x, p] is kept. */
  lemma ExampleTakeC(x: Group, p: Group, q: Group, r: Group, s: Group, asWritten: bool)
    requires r != p && s != p
    ensures TrimAll(map["a" := [x, p], "b" := [p, q, r], "c" := [s, q, r]], [s, q, r], ["a", "b"], asWritten)
            == Ok(map["a" := [x, p], "b" := [p], "c" := [s, q, r]])
  {
    var m := map["a" := [x, p], "b" := [p, q, r], "c" := [s, q, r]];
    var ab: seq<string> := ["a", "b"];
    assert ab[..1] == ["a"] && ab[..1][..0] == [];
    assert [p, q, r][..2] == [p, q] && [p, q][..1] == [p];
    assert TrimFrom([s, q, r], [p], 2, asWritten) == Ok([p]);
    assert TrimFrom([s, q, r], [p, q], 1, asWritten) == Ok([p]);
    assert TrimFrom([s, q, r], [p, q, r], 0, asWritten) == Ok([p]);
    assert TrimFrom([s, q, r], [x, p], 0, asWritten) == Ok([x, p]);
    assert m["a" := [x, p]] == m;
    assert TrimAll(m, [s, q, r], ["a"], asWritten) == Ok(m);
    assert m["b" := [p]] == map["a" := [x, p], "b" := [p], "c" := [s, q, r]];
  }

  /** Taking b = [p] in the example below: a = [x, p] loses p, and the loop as written then reads `[p][-2]`. */
  lemma ExampleTakeB(x: Group, p: Group, q: Group, r: Group, s: Group)
    ensures Reduce(map["a" := [x, p], "b" := [p], "c" := [s, q, r]], ["a", "b"], true) == Raise(IndexError)
    ensures Reduce(map["a" := [x, p], "b" := [p], "c" := [s, q, r]], ["a", "b"], false)
            == Ok(map["a" := [x], "b" := [p], "c" := [s, q, r]])
  {
    var m1 := map["a" := [x, p], "b" := [p], "c" := [s, q, r]];
    var ab: seq<string> := ["a", "b"];
    assert ab[..1] == ["a"] && ab[..1][..0] == [];
    assert [x, p][..1] == [x];
    assert TrimFrom([p], [x], 1, true) == Raise(IndexError);
    assert TrimFrom([p], [x, p], 0, true) == Raise(IndexError);
    assert TrimAll(m1, [p], ["a"], true) == Raise(IndexError);
    assert TrimFrom([p], [x], 1, false) == Ok([x]);
    assert TrimFrom([p], [x, p], 0, false) == Ok([x]);
    var m2 := m1["a" := [x]];
    assert TrimAll(m1, [p], ["a"], false) == Ok(m2);
    assert Reduce(m2, ["a"], false) == Ok(m2);
    assert m2 == map["a" := [x], "b" := [p], "c" := [s, q, r]];
  }

  /**
   * An input on which `reduce_commits` as written raises IndexError. Sorted
   * by length the files are a = [x, p], b = [p, q, r], c = [s, q, r].
   * Taking c trims b to [p]; taking b = [p] then pops p from a and reads
   * `commit_groups1[-2]` of the one-group list [p]. The corrected loop stops
   * there and leaves a = [x], b = [p], c = [s, q, r].
   */
  lemma ReduceAsWrittenRaises(x: Group, p: Group, q: Group, r: Group, s: Group)
    requires r != p && s != p
    ensures CommitWalk.SortBy(["a", "b", "c"], LenKey(map["a" := [x, p], "b" := [p, q, r], "c" := [s, q, r]]))
            == ["a", "b", "c"]
    ensures Reduce(map["a" := [x, p], "b" := [p, q, r], "c" := [s, q, r]], ["a", "b", "c"], true)
            == Raise(IndexError)
    ensures Reduce(map["a" := [x, p], "b" := [p, q, r], "c" := [s, q, r]], ["a", "b", "c"], false)
            == Ok(map["a" := [x], "b" := [p], "c" := [s, q, r]])
  {
    ExampleOrder(x, p, q, r, s);
    var abc: seq<string> := ["a", "b", "c"];
    assert abc[..2] == ["a", "b"];
    ExampleTakeC(x, p, q, r, s, true);
    ExampleTakeC(x, p, q, r, s, false);
    ExampleTakeB(x, p, q, r, s);
  }

  /** The sort of `reduce_commits` puts the files of the example above in the order a, b, c. */
  lemma ExampleOrder(x: Group, p: Group, q: Group, r: Group, s: Group)
    ensures CommitWalk.SortBy(["a", "b", "c"], LenKey(map["a" := [x, p], "b" := [p, q, r], "c" := [s, q, r]]))
            == ["a", "b", "c"]
  {
    var key := LenKey(map["a" := [x, p], "b" := [p, q, r], "c" := [s, q, r]]);
    assert key("a") == 2 && key("b") == 3 && key("c") == 3;
    var abc: seq<string> := ["a", "b", "c"];
    assert abc[1..] == ["b", "c"] && abc[1..][1..] == ["c"] && abc[1..][1..][1..] == [];
    assert CommitWalk.SortBy(["c"], key) == ["c"];
    assert CommitWalk.SortBy(["b", "c"], key) == ["b", "c"];
  }

  // ------------------------------------------------------------- state

  /** The innermost `while` of `reduce_commits`, with the corrected bound: pops the end `groups2` shares with `groups1`. */
  method TrimList(groups1: seq<Group>, groups2: seq<Group>) returns (r: seq<Group>)
    ensures Ok(r) == TrimFrom(groups1, groups2, 0, false)
  {
    r := groups2;
    var i := 0;
    while |r| > 0 && i < |groups1| && groups1[|groups1| - 1 - i] == r[|r| - 1]
      invariant TrimFrom(groups1, groups2, 0, false) == TrimFrom(groups1, r, i, false)
      decreases |r|
    {
      r := r[..|r| - 1];
      i := i + 1;
    }
  }

  /** One step of the grouping loop of `_process_commit_data_for`, on the list being built. */
  method AddRecord(groups: seq<Group>, d: CommitData) returns (r: seq<Group>)
    ensures r == Merge(groups, d, 1)
  {
    if |groups| > 0 && d.fstr == groups[|groups| - 1].fstr && d.author == groups[|groups| - 1].author {
      var last := groups[|groups| - 1];
      r := groups[..|groups| - 1] + [last.(dateSum := last.dateSum + d.timestamp * d.insertions,
                                           shaShorts := last.shaShorts + {d.shaShort},
                                           insertions := last.insertions + d.insertions,
                                           deletions := last.deletions + d.deletions)];
    } else {
      r := groups + [Group(d.author, d.fstr, d.insertions, d.deletions, d.timestamp * d.insertions, {d.shaShort})];
    }
  }

  class CommitReader {
    var fr2f2a2shaShortSet: ShaSets
    var fstr2commitGroups: map<string, seq<Group>>

    constructor ()
      ensures fr2f2a2shaShortSet == map[] && fstr2commitGroups == map[]
    {
      fr2f2a2shaShortSet := map[];
      fstr2commitGroups := map[];
    }

    /** The SHA bookkeeping of `_process_commit_data_for`, which creates the missing levels of the nested dict. */
    method FileSha(root: string, d: CommitData)
      modifies this
      ensures fr2f2a2shaShortSet == AddSha(old(fr2f2a2shaShortSet), root, d)
      ensures fstr2commitGroups == old(fstr2commitGroups)
    {
      var target := fr2f2a2shaShortSet;
      if root !in target {
        target := target[root := map[]];
      }
      var byFile := target[root];
      if d.fstr !in byFile {
        byFile := byFile[d.fstr := map[]];
      }
      var byAuthor := byFile[d.fstr];
      if d.author !in byAuthor {
        byAuthor := byAuthor[d.author := {}];
      }
      var shas := byAuthor[d.author] + {d.shaShort};
      // the nested dicts are updated in place; writing them back models that
      fr2f2a2shaShortSet := target[root := byFile[d.fstr := byAuthor[d.author := shas]]];
      ghost var t := old(fr2f2a2shaShortSet);
      ghost var byFile0 := if root in t then t[root] else map[];
      ghost var byAuthor0 := if d.fstr in byFile0 then byFile0[d.fstr] else map[];
      ghost var shas0 := if d.author in byAuthor0 then byAuthor0[d.author] else {};
      assert shas == shas0 + {d.shaShort};
      assert byAuthor[d.author := shas] == byAuthor0[d.author := shas0 + {d.shaShort}];
      assert byFile[d.fstr := byAuthor[d.author := shas]] == byFile0[d.fstr := byAuthor0[d.author := shas0 + {d.shaShort}]];
    }

    /**
     * `_process_commit_data_for`: groups the records of one root file and
     * files every record's SHA.
     */
    method ProcessCommitData(datasList: seq<seq<CommitData>>, root: string) returns (groups: seq<Group>)
      modifies this
      ensures groups == Grouped(Flatten(datasList), 1)
      ensures fr2f2a2shaShortSet == AddShas(old(fr2f2a2shaShortSet), root, Flatten(datasList))
      ensures fstr2commitGroups == old(fstr2commitGroups)
    {
      groups := [];
      var i := 0;
      while i < |datasList|
        invariant 0 <= i <= |datasList|
        invariant groups == Grouped(Flatten(datasList[..i]), 1)
        invariant fr2f2a2shaShortSet == AddShas(old(fr2f2a2shaShortSet), root, Flatten(datasList[..i]))
        invariant fstr2commitGroups == old(fstr2commitGroups)
      {
        assert datasList[..i + 1][..i] == datasList[..i];
        groups := ProcessCommitDatas(old(fr2f2a2shaShortSet), Flatten(datasList[..i]), datasList[i], root, groups);
        i := i + 1;
      }
      assert datasList[..|datasList|] == datasList;
    }

    /** The body of the outer loop of `_process_commit_data_for`: one list of records. */
    method ProcessCommitDatas(ghost t: ShaSets, ghost done: seq<CommitData>, datas: seq<CommitData>, root: string,
                              groups0: seq<Group>) returns (groups: seq<Group>)
      requires groups0 == Grouped(done, 1)
      requires fr2f2a2shaShortSet == AddShas(t, root, done)
      modifies this
      ensures groups == Grouped(done + datas, 1)
      ensures fr2f2a2shaShortSet == AddShas(t, root, done + datas)
      ensures fstr2commitGroups == old(fstr2commitGroups)
    {
      groups := groups0;
      assert done + datas[..0] == done;
      var j := 0;
      while j < |datas|
        invariant 0 <= j <= |datas|
        invariant groups == Grouped(done + datas[..j], 1)
        invariant fr2f2a2shaShortSet == AddShas(t, root, done + datas[..j])
        invariant fstr2commitGroups == old(fstr2commitGroups)
      {
        var d := datas[j];
        Seqs.AppendSlice(done, datas, j);
        SnocSteps(t, root, done + datas[..j], d);
        FileSha(root, d);
        groups := AddRecord(groups, d);
        j := j + 1;
      }
      assert datas[..|datas|] == datas;
    }

    /**
     * `reduce_commits`, with the corrected bound on the inner loop: sorts
     * the names by the length of their lists, then repeatedly takes the
     * last name and trims the lists of the names before it.
     */
    method ReduceCommits(fstrs: seq<string>)
      requires forall f :: f in fstrs ==> f in fstr2commitGroups
      modifies this
      ensures fstr2commitGroups
              == Reduce(old(fstr2commitGroups), CommitWalk.SortBy(fstrs, LenKey(old(fstr2commitGroups))), false).value
      ensures fr2f2a2shaShortSet == old(fr2f2a2shaShortSet)
    {
      var order := CommitWalk.SortBy(fstrs, LenKey(fstr2commitGroups));
      ghost var goal := Reduce(fstr2commitGroups, order, false);
      var fs := order;
      while |fs| > 0
        invariant forall f :: f in fs ==> f in fstr2commitGroups
        invariant Reduce(fstr2commitGroups, fs, false) == goal
        invariant fr2f2a2shaShortSet == old(fr2f2a2shaShortSet)
        decreases |fs|
      {
        var fstr1 := fs[|fs| - 1];
        fs := fs[..|fs| - 1];
        assert forall f :: f in fs ==> f in fs + [fstr1];
        var groups1 := fstr2commitGroups[fstr1];
        if groups1 == [] {
          continue;
        }
        TrimOthers(groups1, fs);
      }
    }

    /** The `for fstr2 in fstrs` loop of `reduce_commits`: trims the list of every name in `fs` against `groups1`. */
    method TrimOthers(groups1: seq<Group>, fs: seq<string>)
      requires forall f :: f in fs ==> f in fstr2commitGroups
      modifies this
      ensures Ok(fstr2commitGroups) == TrimAll(old(fstr2commitGroups), groups1, fs, false)
      ensures fr2f2a2shaShortSet == old(fr2f2a2shaShortSet)
    {
      var j := 0;
      while j < |fs|
        invariant 0 <= j <= |fs|
        invariant TrimAll(old(fstr2commitGroups), groups1, fs[..j], false) == Ok(fstr2commitGroups)
        invariant fr2f2a2shaShortSet == old(fr2f2a2shaShortSet)
      {
        assert fs[..j + 1][..j] == fs[..j];
        var fstr2 := fs[j];
        var groups2 := TrimList(groups1, fstr2commitGroups[fstr2]);
        fstr2commitGroups := fstr2commitGroups[fstr2 := groups2];
        j := j + 1;
      }
      assert fs[..|fs|] == fs;
    }

    /**
     * `_set_fstr2commits` on one thread: groups the records of every file
     * (the git part, `_get_commit_data_for`, is the parameter `dataFor`),
     * then reduces the lists.
     */
    method SetFstr2Commits(fstrs: seq<string>, dataFor: string -> seq<seq<CommitData>>)
      modifies this
      ensures fr2f2a2shaShortSet == FiledShas(old(fr2f2a2shaShortSet), fstrs, dataFor)
      ensures fstr2commitGroups
              == Reduce(Filled(old(fstr2commitGroups), fstrs, dataFor),
                        CommitWalk.SortBy(fstrs, LenKey(Filled(old(fstr2commitGroups), fstrs, dataFor))), false).value
    {
      var i := 0;
      while i < |fstrs|
        invariant 0 <= i <= |fstrs|
        invariant fr2f2a2shaShortSet == FiledShas(old(fr2f2a2shaShortSet), fstrs[..i], dataFor)
        invariant fstr2commitGroups == Filled(old(fstr2commitGroups), fstrs[..i], dataFor)
      {
        assert fstrs[..i + 1][..i] == fstrs[..i];
        var fstr := fstrs[i];
        var groups := ProcessCommitData(dataFor(fstr), fstr);
        fstr2commitGroups := fstr2commitGroups[fstr := groups];
        i := i + 1;
      }
      assert fstrs[..|fstrs|] == fstrs;
      ReduceCommits(fstrs);
    }
  }

  /** The lists of the files after the grouping loop of `_set_fstr2commits`. */
  function Filled(m: map<string, seq<Group>>, fstrs: seq<string>, dataFor: string -> seq<seq<CommitData>>): (r: map<string, seq<Group>>)
    ensures r.Keys == m.Keys + set f | f in fstrs
  {
    if fstrs == [] then m
    else Filled(m, fstrs[..|fstrs| - 1], dataFor)[fstrs[|fstrs| - 1] := Grouped(Flatten(dataFor(fstrs[|fstrs| - 1])), 1)]
  }

  /** The SHA sets after the grouping loop of `_set_fstr2commits`. */
  function FiledShas(t: ShaSets, fstrs: seq<string>, dataFor: string -> seq<seq<CommitData>>): ShaSets
  {
    if fstrs == [] then t
    else AddShas(FiledShas(t, fstrs[..|fstrs| - 1], dataFor), fstrs[|fstrs| - 1], Flatten(dataFor(fstrs[|fstrs| - 1])))
  }

  /** Every file gets a list, and each file's list is the grouping of its records. */
  lemma {:induction false} FilledKeys(m: map<string, seq<Group>>, fstrs: seq<string>, dataFor: string -> seq<seq<CommitData>>)
    ensures forall f :: f in fstrs ==>
      f in Filled(m, fstrs, dataFor) && Filled(m, fstrs, dataFor)[f] == Grouped(Flatten(dataFor(f)), 1)
    ensures forall f :: f in m && f !in fstrs ==> f in Filled(m, fstrs, dataFor) && Filled(m, fstrs, dataFor)[f] == m[f]
  {
    if fstrs != [] {
      var init := fstrs[..|fstrs| - 1];
      FilledKeys(m, init, dataFor);
      forall f | f in fstrs ensures f == fstrs[|fstrs| - 1] || f in init {
        var k :| 0 <= k < |fstrs| && fstrs[k] == f;
        if k < |init| {
          assert init[k] == f;
        }
      }
      forall f | f in init ensures f in fstrs {
        var k :| 0 <= k < |init| && init[k] == f;
        assert fstrs[k] == f;
      }
    }
  }
}
