/**
 * The input filters and name builders the two GUI front ends share: the
 * file-count and include-pattern filters, the output file name, and the
 * de-duplicated list of directories the input patterns match.
 */
module GuiFilters {
  import opened Errors
  import opened Strs
  import Seqs

  /** Shown in place of the repository name when no single repository is chosen. */
  const RepoHint: string := "<repo-name>"
  /** Shown in place of the repository's parent folder when no single repository is chosen. */
  const ParentHint: string := "<repo-parent-folder>"

  // ------------------------------------------------------- file count

  /** `filter(str.isdigit, s)`: the digits of `s`, in order. */
  function DigitsOnly(s: string): (r: string)
    ensures forall i :: 0 <= i < |r| ==> IsDigit(r[i])
  {
    Seqs.Filter(s, IsDigit)
  }

  /** A leading zero does not change the value of a digit string. */
  lemma {:induction false} LeadingZeroValue(s: string)
    requires forall i :: 0 <= i < |s| ==> IsDigit(s[i])
    ensures DigitsValue(['0'] + s) == DigitsValue(s)
  {
    if s != [] {
      var n := |s| - 1;
      LeadingZeroValue(s[..n]);
      assert (['0'] + s)[..|s|] == ['0'] + s[..n];
    }
  }

  /** `s.lstrip("0")`: what remains is a suffix that never starts with a zero, after zeros only. */
  function StripZeros(s: string): (r: string)
    ensures r == [] || r[0] != '0'
    ensures |r| <= |s| && r == s[|s| - |r|..]
    ensures forall i :: 0 <= i < |s| - |r| ==> s[i] == '0'
  {
    if s != [] && s[0] == '0' then StripZeros(s[1..]) else s
  }

  /** Stripping leading zeros keeps the value of a digit string. */
  lemma {:induction false} StripZerosValue(s: string)
    requires forall i :: 0 <= i < |s| ==> IsDigit(s[i])
    ensures forall i :: 0 <= i < |StripZeros(s)| ==> IsDigit(StripZeros(s)[i])
    ensures DigitsValue(StripZeros(s)) == DigitsValue(s)
  {
    if s != [] && s[0] == '0' {
      StripZerosValue(s[1..]);
      assert s == ['0'] + s[1..];
      LeadingZeroValue(s[1..]);
    }
  }

  /** The text `process_n_files` writes back into the file-count field. */
  function FilteredNFiles(s: string): (r: string)
    ensures forall i :: 0 <= i < |r| ==> IsDigit(r[i])
    ensures r == [] || r[0] != '0'
    ensures DigitsValue(r) == DigitsValue(DigitsOnly(s))
  {
    StripZerosValue(DigitsOnly(s));
    StripZeros(DigitsOnly(s))
  }

  /** The number of files `process_n_files` stores: the filtered text's value, or 0 when it is empty. */
  function NFilesOf(s: string): (n: nat)
    ensures n == DigitsValue(DigitsOnly(s))
  {
    var f := FilteredNFiles(s);
    if f == "" then 0 else DigitsValue(f)
  }

  /** Filtering a list whose every element passes keeps it whole. */
  lemma {:induction false} FilterKeepsAll<T(!new)>(xs: seq<T>, p: T -> bool)
    requires forall i :: 0 <= i < |xs| ==> p(xs[i])
    ensures Seqs.Filter(xs, p) == xs
  {
    if xs != [] {
      FilterKeepsAll(xs[1..], p);
      assert xs == [xs[0]] + xs[1..];
    }
  }

  /** `str(n)` starts with a zero only for `n == 0`. */
  lemma {:induction false} NoLeadingZero(n: nat)
    requires n > 0
    ensures NatToString(n)[0] != '0'
  {
    if n >= 10 {
      NoLeadingZero(n / 10);
      assert NatToString(n)[0] == NatToString(n / 10)[0];
    }
  }

  /** Typing a count `n` leaves the field as `str(n)` (empty for 0) and stores `n`. */
  lemma NFilesRoundTrip(n: nat)
    ensures NFilesOf(NatToString(n)) == n
    ensures n > 0 ==> FilteredNFiles(NatToString(n)) == NatToString(n)
    ensures n == 0 ==> FilteredNFiles(NatToString(n)) == ""
  {
    NatToStringRoundTrip(n);
    var s := NatToString(n);
    FilterKeepsAll(s, IsDigit);
    if n > 0 {
      NoLeadingZero(n);
    } else {
      assert s == ['0'];
      assert StripZeros(s) == StripZeros(s[1..]);
    }
  }

  /** Filtering the field's text again changes nothing. */
  lemma FilteredNFilesIdempotent(s: string)
    ensures FilteredNFiles(FilteredNFiles(s)) == FilteredNFiles(s)
  {
    var f := FilteredNFiles(s);
    FilterKeepsAll(f, IsDigit);
  }

  // ---------------------------------------------------- include files

  /** The characters `process_include_files` keeps: ASCII letters and digits and " .,-_*". */
  predicate IncludeChar(c: char)
  {
    || 'a' <= c <= 'z' || 'A' <= c <= 'Z' || IsDigit(c)
    || c == ' ' || c == '.' || c == ',' || c == '-' || c == '_' || c == '*'
  }

  /** `process_include_files`: the allowed characters, in their original order. */
  function IncludeFilter(patterns: string): (r: string)
    ensures forall c :: c in r <==> c in patterns && IncludeChar(c)
  {
    Seqs.Filter(patterns, IncludeChar)
  }

  /** Patterns made of allowed characters pass unchanged; in particular filtering twice is filtering once. */
  lemma IncludeFilterKeepsAllowed(patterns: string)
    requires forall i :: 0 <= i < |patterns| ==> IncludeChar(patterns[i])
    ensures IncludeFilter(patterns) == patterns
  {
    FilterKeepsAll(patterns, IncludeChar);
  }

  lemma IncludeFilterIdempotent(patterns: string)
    ensures IncludeFilter(IncludeFilter(patterns)) == IncludeFilter(patterns)
  {
    var r := IncludeFilter(patterns);
    assert forall i :: 0 <= i < |r| ==> IncludeChar(r[i]) by {
      forall i | 0 <= i < |r| ensures IncludeChar(r[i]) {
        assert r[i] in r;
      }
    }
    IncludeFilterKeepsAllowed(r);
  }

  // ------------------------------------------------------ output name

  /**
   * `get_rename_file`: the output base with the repository name after it
   * (postfix), before it (prefix) or not at all; `RepoHint` stands in when
   * there is no single repository.
   */
  function RenameFile(fix: string, outfileBase: string, repoName: Option<string>): (r: string)
    ensures var repo := if repoName.Some? then repoName.value else RepoHint;
      && (fix == "postfix" ==> r == outfileBase + "-" + repo)
      && (fix == "prefix" ==> r == repo + "-" + outfileBase)
      && (fix != "postfix" && fix != "prefix" ==> r == outfileBase)
  {
    var repo := if repoName.Some? then repoName.value else RepoHint;
    if fix == "postfix" then outfileBase + "-" + repo
    else if fix == "prefix" then repo + "-" + outfileBase
    else outfileBase
  }

  /** The output base can always be read back from the renamed file. */
  lemma RenameFileKeepsBase(fix: string, outfileBase: string, repoName: Option<string>)
    ensures var r := RenameFile(fix, outfileBase, repoName);
      && |outfileBase| <= |r|
      && (fix == "postfix" ==> r[..|outfileBase|] == outfileBase)
      && (fix != "postfix" ==> r[|r| - |outfileBase|..] == outfileBase)
  {
    var r := RenameFile(fix, outfileBase, repoName);
    var repo := if repoName.Some? then repoName.value else RepoHint;
    if fix == "postfix" {
      assert r == outfileBase + ("-" + repo);
    } else if fix == "prefix" {
      assert r == (repo + "-") + outfileBase;
    }
  }

  // ---------------------------------------------------- de-duplication

  /** No element occurs twice. */
  predicate Distinct<T(==)>(xs: seq<T>)
  {
    forall i, j :: 0 <= i < j < |xs| ==> xs[i] != xs[j]
  }

  /** Each element at its first occurrence, in order of first occurrence. */
  function Unique<T(==,!new)>(xs: seq<T>): (r: seq<T>)
    ensures forall x :: x in r <==> x in xs
    ensures Distinct(r)
    ensures |r| <= |xs|
  {
    if xs == [] then []
    else
      var u := Unique(xs[..|xs| - 1]);
      var x := xs[|xs| - 1];
      assert forall y :: y in xs <==> y in xs[..|xs| - 1] || y == x by {
        assert xs == xs[..|xs| - 1] + [x];
      }
      if x in u then u else u + [x]
  }

  /** An element of a prefix has the same first position in the whole. */
  lemma {:induction false} IndexOfPrefix<T>(xs: seq<T>, n: nat, x: T)
    requires n <= |xs| && x in xs[..n]
    ensures Seqs.IndexOf(xs, x) == Seqs.IndexOf(xs[..n], x)
  {
    var i := Seqs.IndexOf(xs[..n], x);
    var j := Seqs.IndexOf(xs, x);
    assert xs[i] == x;
  }

  /** The kept elements appear in the order of their first occurrence in the input. */
  lemma {:induction false} UniqueFirstOccurrenceOrder<T(!new)>(xs: seq<T>)
    ensures forall i, j :: 0 <= i < j < |Unique(xs)| ==> Seqs.IndexOf(xs, Unique(xs)[i]) < Seqs.IndexOf(xs, Unique(xs)[j])
  {
    if xs != [] {
      var n := |xs| - 1;
      var front := xs[..n];
      var u := Unique(front);
      var r := Unique(xs);
      UniqueFirstOccurrenceOrder(front);
      forall i, j | 0 <= i < j < |r|
        ensures Seqs.IndexOf(xs, r[i]) < Seqs.IndexOf(xs, r[j])
      {
        assert r[i] == u[i] && u[i] in front;
        IndexOfPrefix(xs, n, r[i]);
        if j < |u| {
          assert r[j] == u[j] && u[j] in front;
          IndexOfPrefix(xs, n, r[j]);
          assert Seqs.IndexOf(front, u[i]) < Seqs.IndexOf(front, u[j]);
        } else {
          assert r[j] == xs[n] && xs[n] !in u;
        }
      }
    }
  }

  /** An input with no repeats is kept as it is. */
  lemma {:induction false} UniqueOfDistinct<T(!new)>(xs: seq<T>)
    requires Distinct(xs)
    ensures Unique(xs) == xs
  {
    if xs != [] {
      var n := |xs| - 1;
      UniqueOfDistinct(xs[..n]);
      assert xs[n] !in xs[..n];
      assert xs == xs[..n] + [xs[n]];
    }
  }

  /** The de-duplicating loop of `get_dir_matches`. */
  method UniqueMatches(all: seq<string>) returns (unique: seq<string>)
    ensures unique == Unique(all)
  {
    unique := [];
    for i := 0 to |all|
      invariant unique == Unique(all[..i])
    {
      assert all[..i + 1][..i] == all[..i];
      if all[i] !in unique {
        unique := unique + [all[i]];
      }
    }
    assert all[..|all|] == all;
  }

  // ------------------------------------------------- directory matches

  /** Every pattern matches at least one directory. */
  predicate AllMatch(patterns: seq<string>, dirsOf: string -> seq<string>)
  {
    forall k :: 0 <= k < |patterns| ==> dirsOf(patterns[k]) != []
  }

  /**
   * The directories the patterns match, de-duplicated in order of first
   * occurrence, or none at all once one pattern matches nothing. `dirsOf`
   * stands for the glob of one pattern restricted to directories.
   */
  function DirMatchesOf(patterns: seq<string>, dirsOf: string -> seq<string>): (r: seq<string>)
    ensures !AllMatch(patterns, dirsOf) ==> r == []
    ensures Distinct(r)
  {
    if AllMatch(patterns, dirsOf) then Unique(Seqs.FlatMap(dirsOf, patterns)) else []
  }

  /** A directory a pattern matches is among the joined matches. */
  lemma {:induction false} FlatMapTo(dirsOf: string -> seq<string>, patterns: seq<string>, k: nat, d: string)
    requires k < |patterns| && d in dirsOf(patterns[k])
    ensures d in Seqs.FlatMap(dirsOf, patterns)
  {
    var n := |patterns| - 1;
    if k < n {
      assert patterns[..n][k] == patterns[k];
      FlatMapTo(dirsOf, patterns[..n], k, d);
    }
  }

  /** When every pattern matches, the result holds exactly the matched directories. */
  lemma DirMatchesExactly(patterns: seq<string>, dirsOf: string -> seq<string>, d: string)
    requires AllMatch(patterns, dirsOf)
    ensures d in DirMatchesOf(patterns, dirsOf) <==> exists k :: 0 <= k < |patterns| && d in dirsOf(patterns[k])
  {
    if d in Seqs.FlatMap(dirsOf, patterns) {
      Seqs.FlatMapFrom(dirsOf, patterns, d);
      var p :| p in patterns && d in dirsOf(p);
      var k :| 0 <= k < |patterns| && patterns[k] == p;
    }
    if exists k :: 0 <= k < |patterns| && d in dirsOf(patterns[k]) {
      var k :| 0 <= k < |patterns| && d in dirsOf(patterns[k]);
      FlatMapTo(dirsOf, patterns, k, d);
    }
  }

  /**
   * `get_dir_matches` / `get_posix_dir_matches`: one pattern at a time,
   * stopping at the first that matches nothing; `valid` is the colour the
   * input field is given.
   */
  method DirMatches(patterns: seq<string>, dirsOf: string -> seq<string>) returns (matches: seq<string>, valid: bool)
    ensures valid <==> AllMatch(patterns, dirsOf)
    ensures matches == DirMatchesOf(patterns, dirsOf)
  {
    var all: seq<string> := [];
    for i := 0 to |patterns|
      invariant all == Seqs.FlatMap(dirsOf, patterns[..i])
      invariant forall k :: 0 <= k < i ==> dirsOf(patterns[k]) != []
    {
      var found := dirsOf(patterns[i]);
      if found == [] {
        return [], false;
      }
      Seqs.FlatMapSnoc(dirsOf, patterns, i);
      all := all + found;
    }
    assert patterns[..|patterns|] == patterns;
    valid := true;
    matches := UniqueMatches(all);
  }
}
