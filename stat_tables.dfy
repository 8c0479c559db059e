/**
 * The statistics tables of repo.py (`StatTables` and the parts of
 * `RepoData` that number and order their keys).
 *
 * Every table is a Python dict, so it has an insertion order as well as a
 * mapping; a `Dict` keeps both. "*" stands for all authors and for all
 * files. The `Stat` and `FileStat` classes live in a module that is not part
 * of this model: a stat is the sum of the commit groups added to it, with
 * the SHAs as a set, and the file names a `FileStat` collects are left out.
 */
module StatTables {
  import opened Errors
  import CommitGroups
  import BlameOptions
  import CommitWalk

  /** The counters of a `Stat`. */
  datatype Stat = Stat(insertions: int, deletions: int, dateSum: int, lineCount: int, shas: set<string>)

  /** A fresh `Stat()`. */
  const Zero := Stat(0, 0, 0, 0, {})

  /** `stat.add(other)`. */
  function Plus(a: Stat, b: Stat): Stat
  {
    Stat(a.insertions + b.insertions, a.deletions + b.deletions, a.dateSum + b.dateSum,
         a.lineCount + b.lineCount, a.shas + b.shas)
  }

  /** What `add_commit_group` adds: the group's counts and SHAs, and no lines. */
  function GroupStat(g: CommitGroups.Group): Stat
  {
    Stat(g.insertions, g.deletions, g.dateSum, 0, g.shaShorts)
  }

  /** A dict: its keys in insertion order, and its mapping. */
  datatype Dict<V> = Dict(keys: seq<string>, at: map<string, V>)

  /** `d[k] = v`: a new key goes to the end, an existing key keeps its place. */
  function Put<V>(d: Dict<V>, k: string, v: V): Dict<V>
  {
    Dict(if k in d.at then d.keys else d.keys + [k], d.at[k := v])
  }

  /** Assigning a key twice is assigning it the second value. */
  lemma PutTwice<V>(d: Dict<V>, k: string, a: V, b: V)
    ensures Put(Put(d, k, a), k, b) == Put(d, k, b)
  {
  }

  /** The keys list the mapping's keys, each once, as a dict's do. */
  ghost predicate Keyed<V>(d: Dict<V>)
  {
    (forall k :: k in d.at <==> k in d.keys) && BlameOptions.Distinct(d.keys)
  }

  /** Assigning keeps a dict well keyed. */
  lemma PutKeyed<V>(d: Dict<V>, k: string, v: V)
    requires Keyed(d)
    ensures Keyed(Put(d, k, v))
    ensures forall j :: j in Put(d, k, v).at <==> j in d.at || j == k
  {
  }

  // ------------------------------------------------ get_author2fstr2fstat

  /** One commit group of one file, in the order the loops visit them. */
  datatype Visit = Visit(fstr: string, group: CommitGroups.Group)

  function FileVisits(fstr: string, groups: seq<CommitGroups.Group>): seq<Visit>
  {
    if |groups| == 0 then []
    else FileVisits(fstr, groups[..|groups| - 1]) + [Visit(fstr, groups[|groups| - 1])]
  }

  lemma {:induction false} FileVisitsIn(fstr: string, groups: seq<CommitGroups.Group>)
    ensures forall v :: v in FileVisits(fstr, groups) ==> v.fstr == fstr && v.group in groups
  {
    if |groups| > 0 {
      FileVisitsIn(fstr, groups[..|groups| - 1]);
      assert forall g :: g in groups[..|groups| - 1] ==> g in groups;
    }
  }

  /** The commit groups of the files, file by file. */
  function Visits(fstrs: seq<string>, fstr2groups: map<string, seq<CommitGroups.Group>>): (vs: seq<Visit>)
    requires forall f :: f in fstrs ==> f in fstr2groups
    ensures forall v :: v in vs ==> v.fstr in fstrs && v.group in fstr2groups[v.fstr]
  {
    if |fstrs| == 0 then []
    else
      var f := fstrs[|fstrs| - 1];
      assert forall g :: g in fstrs[..|fstrs| - 1] ==> g in fstrs;
      FileVisitsIn(f, fstr2groups[f]);
      Visits(fstrs[..|fstrs| - 1], fstr2groups) + FileVisits(f, fstr2groups[f])
  }

  /** author -> file -> stat. */
  type Table = Dict<Dict<Stat>>

  /** `{"*": FileStat("*")}`. */
  function StarRow(): Dict<Stat>
  {
    Dict(["*"], map["*" := Zero])
  }

  /** The table before the loops: "*" and then every included author, each with a "*" file. */
  function InitTable(included: seq<string>): (t: Table)
    ensures Starred(t) && forall a :: a in t.at <==> a == "*" || a in included
  {
    if |included| == 0 then Dict(["*"], map["*" := StarRow()])
    else Put(InitTable(included[..|included| - 1]), included[|included| - 1], StarRow())
  }

  /** Every author of the table, and "*", has a "*" file. */
  predicate Starred(t: Table)
  {
    "*" in t.at && forall a :: a in t.at ==> "*" in t.at[a].at
  }

  /** The body of the inner loop for the group of `v`, whose author is `author`. */
  function AddGroup(t: Table, v: Visit, author: string): (r: Table)
    requires Starred(t) && author in t.at
    ensures Starred(r) && r.at.Keys == t.at.Keys && r.keys == t.keys
  {
    var s := GroupStat(v.group);
    var all := t.at["*"];
    var t1 := Put(t, "*", Put(all, "*", Plus(all.at["*"], s)));
    var row := t1.at[author];
    var row1 := Put(row, "*", Plus(row.at["*"], s));
    var cur := if v.fstr in row1.at then row1.at[v.fstr] else Zero;
    Put(t1, author, Put(row1, v.fstr, Plus(cur, s)))
  }

  /** Every group visited has an author the table knows. */
  ghost predicate AuthorsKnown(vs: seq<Visit>, authorOf: string -> string, t: Table)
  {
    forall v :: v in vs ==> authorOf(v.group.author) in t.at
  }

  /** The table after the loops have visited `vs`. */
  function Built(t: Table, vs: seq<Visit>, authorOf: string -> string): (r: Table)
    requires Starred(t) && AuthorsKnown(vs, authorOf, t)
    ensures Starred(r) && r.at.Keys == t.at.Keys && r.keys == t.keys
  {
    if |vs| == 0 then t
    else
      var v := vs[|vs| - 1];
      AddGroup(Built(t, vs[..|vs| - 1], authorOf), v, authorOf(v.group.author))
  }

  /** Every row of the table before the loops is `{"*": FileStat("*")}`. */
  lemma {:induction false} InitTableRows(included: seq<string>)
    ensures forall a :: a in InitTable(included).at ==> InitTable(included).at[a] == StarRow()
  {
    if |included| > 0 {
      InitTableRows(included[..|included| - 1]);
    }
  }

  /**
   * The keys before the loops start with "*", each once; they are just "*"
   * exactly when no author other than "*" is included.
   */
  lemma {:induction false} InitTableKeys(included: seq<string>)
    ensures |InitTable(included).keys| > 0 && InitTable(included).keys[0] == "*" && Keyed(InitTable(included))
    ensures InitTable(included).keys == ["*"] <==> forall a :: a in included ==> a == "*"
  {
    if |included| > 0 {
      var n := |included| - 1;
      InitTableKeys(included[..n]);
      PutKeyed(InitTable(included[..n]), included[n], StarRow());
      assert included == included[..n] + [included[n]];
      if InitTable(included).keys == ["*"] {
        assert included[n] == "*";
      }
    }
  }

  /** The group counts towards author `a` ("*": every author) and file `f` ("*": every file). */
  predicate Counts(v: Visit, a: string, f: string, authorOf: string -> string)
  {
    (a == "*" || authorOf(v.group.author) == a) && (f == "*" || v.fstr == f)
  }

  /** The sum of the groups that count towards `a` and `f`. */
  function Total(vs: seq<Visit>, a: string, f: string, authorOf: string -> string): Stat
  {
    if |vs| == 0 then Zero
    else
      var prev := Total(vs[..|vs| - 1], a, f, authorOf);
      var v := vs[|vs| - 1];
      if Counts(v, a, f, authorOf) then Plus(prev, GroupStat(v.group)) else prev
  }

  /** No group counted: the total is zero. */
  lemma {:induction false} TotalNone(vs: seq<Visit>, a: string, f: string, authorOf: string -> string)
    requires forall v :: v in vs ==> !Counts(v, a, f, authorOf)
    ensures Total(vs, a, f, authorOf) == Zero
  {
    if |vs| > 0 {
      TotalNone(vs[..|vs| - 1], a, f, authorOf);
    }
  }

  /** The table says what the groups add up to. */
  ghost predicate Tallied(t: Table, vs: seq<Visit>, authorOf: string -> string)
  {
    && "*" in t.at && t.at["*"].at.Keys == {"*"}
    && (forall a, f :: a in t.at && f in t.at[a].at ==> t.at[a].at[f] == Total(vs, a, f, authorOf))
    && (forall a, f :: a in t.at && a != "*" && f != "*" ==>
          (f in t.at[a].at <==> exists v :: v in vs && Counts(v, a, f, authorOf)))
  }

  /** The totals after one more group. */
  lemma TotalSnoc(vs: seq<Visit>, v: Visit, a: string, f: string, authorOf: string -> string)
    ensures Total(vs + [v], a, f, authorOf) ==
      (if Counts(v, a, f, authorOf) then Plus(Total(vs, a, f, authorOf), GroupStat(v.group)) else Total(vs, a, f, authorOf))
  {
    assert (vs + [v])[..|vs|] == vs;
  }

  /** The rows of the table after one group of author `x`, other than "*", in a file other than "*". */
  lemma AddGroupRows(t: Table, v: Visit, x: string)
    requires Starred(t) && x in t.at && x != "*" && v.fstr != "*"
    ensures var s, r := GroupStat(v.group), AddGroup(t, v, x);
      && r.at["*"].at == t.at["*"].at["*" := Plus(t.at["*"].at["*"], s)]
      && r.at[x].at == t.at[x].at["*" := Plus(t.at[x].at["*"], s)]
           [v.fstr := Plus(if v.fstr in t.at[x].at then t.at[x].at[v.fstr] else Zero, s)]
      && forall a :: a in t.at && a != x && a != "*" ==> r.at[a] == t.at[a]
  {
  }

  /** One entry after one more group. */
  lemma AddGroupEntry(t: Table, vs: seq<Visit>, v: Visit, authorOf: string -> string, a: string, f: string)
    requires Starred(t) && authorOf(v.group.author) in t.at && authorOf(v.group.author) != "*" && v.fstr != "*"
    requires Tallied(t, vs, authorOf)
    requires a in t.at && f in AddGroup(t, v, authorOf(v.group.author)).at[a].at
    ensures AddGroup(t, v, authorOf(v.group.author)).at[a].at[f] == Total(vs + [v], a, f, authorOf)
  {
    var x := authorOf(v.group.author);
    AddGroupRows(t, v, x);
    TotalSnoc(vs, v, a, f, authorOf);
    if a == x && f == v.fstr && f !in t.at[x].at {
      assert forall w :: w in vs ==> !Counts(w, a, f, authorOf);
      TotalNone(vs, a, f, authorOf);
    }
  }

  /** One key after one more group. */
  lemma AddGroupKey(t: Table, vs: seq<Visit>, v: Visit, authorOf: string -> string, a: string, f: string)
    requires Starred(t) && authorOf(v.group.author) in t.at && authorOf(v.group.author) != "*" && v.fstr != "*"
    requires Tallied(t, vs, authorOf)
    requires a in t.at && a != "*" && f != "*"
    ensures f in AddGroup(t, v, authorOf(v.group.author)).at[a].at <==> exists w :: w in vs + [v] && Counts(w, a, f, authorOf)
  {
    var x := authorOf(v.group.author);
    AddGroupRows(t, v, x);
    if a == x && f == v.fstr {
      assert v in vs + [v];
    } else if exists w :: w in vs + [v] && Counts(w, a, f, authorOf) {
      var w :| w in vs + [v] && Counts(w, a, f, authorOf);
      assert w in vs;
    }
  }

  /** One more group, of a file other than "*", keeps the table tallied. */
  lemma AddGroupTallied(t: Table, vs: seq<Visit>, v: Visit, authorOf: string -> string)
    requires Starred(t) && authorOf(v.group.author) in t.at && authorOf(v.group.author) != "*" && v.fstr != "*"
    requires Tallied(t, vs, authorOf)
    ensures Tallied(AddGroup(t, v, authorOf(v.group.author)), vs + [v], authorOf)
  {
    var r := AddGroup(t, v, authorOf(v.group.author));
    AddGroupRows(t, v, authorOf(v.group.author));
    forall a, f | a in r.at && f in r.at[a].at
      ensures r.at[a].at[f] == Total(vs + [v], a, f, authorOf)
    {
      AddGroupEntry(t, vs, v, authorOf, a, f);
    }
    forall a, f | a in r.at && a != "*" && f != "*"
      ensures f in r.at[a].at <==> exists w :: w in vs + [v] && Counts(w, a, f, authorOf)
    {
      AddGroupKey(t, vs, v, authorOf, a, f);
    }
  }

  /**
   * With "*" neither an included author nor a file, `get_author2fstr2fstat`
   * has exactly "*" and the included authors as keys, and entry `[a][f]` is
   * the sum of the commit groups of author `a` in file `f`, "*" taking in
   * every author or every file; an author has a file entry exactly when it
   * has a group in that file, and "*" has only the "*" file.
   */
  lemma {:induction false} BuiltMeaning(included: seq<string>, vs: seq<Visit>, authorOf: string -> string)
    requires "*" !in included
    requires forall v :: v in vs ==> authorOf(v.group.author) in included && v.fstr != "*"
    ensures (forall a :: a in Built(InitTable(included), vs, authorOf).at <==> a == "*" || a in included)
    ensures Tallied(Built(InitTable(included), vs, authorOf), vs, authorOf)
  {
    var init := InitTable(included);
    if |vs| == 0 {
      InitTableRows(included);
      assert Tallied(init, vs, authorOf);
    } else {
      var n := |vs| - 1;
      assert vs[..n] + [vs[n]] == vs;
      assert forall v :: v in vs[..n] ==> v in vs;
      BuiltMeaning(included, vs[..n], authorOf);
      assert vs[n] in vs;
      var prev := Built(init, vs[..n], authorOf);
      assert Built(init, vs, authorOf) == AddGroup(prev, vs[n], authorOf(vs[n].group.author));
      AddGroupTallied(prev, vs[..n], vs[n], authorOf);
    }
  }

  /** The body of the inner loop of `get_author2fstr2fstat`, on the group of `v`. */
  method AddVisit(t: Table, v: Visit, author: string) returns (target: Table)
    requires Starred(t) && author in t.at
    ensures target == AddGroup(t, v, author)
  {
    var s := GroupStat(v.group);
    target := Put(t, "*", Put(t.at["*"], "*", Plus(t.at["*"].at["*"], s)));
    var row := target.at[author];
    row := Put(row, "*", Plus(row.at["*"], s));
    if v.fstr !in row.at {
      PutTwice(row, v.fstr, Zero, Plus(Zero, s));
      row := Put(row, v.fstr, Zero);
    }
    row := Put(row, v.fstr, Plus(row.at[v.fstr], s));
    target := Put(target, author, row);
  }

  lemma FileVisitsSnoc(fstr: string, groups: seq<CommitGroups.Group>, j: nat)
    requires j < |groups|
    ensures FileVisits(fstr, groups[..j + 1]) == FileVisits(fstr, groups[..j]) + [Visit(fstr, groups[j])]
  {
    assert groups[..j + 1][..j] == groups[..j];
  }

  /** One more group after `done` and the groups of the current file so far. */
  lemma BuiltSnoc(t: Table, done: seq<Visit>, file: seq<Visit>, v: Visit, authorOf: string -> string)
    requires Starred(t) && authorOf(v.group.author) in t.at && AuthorsKnown(done + file, authorOf, t)
    ensures AuthorsKnown(done + (file + [v]), authorOf, t)
    ensures Built(t, done + (file + [v]), authorOf) == AddGroup(Built(t, done + file, authorOf), v, authorOf(v.group.author))
  {
    var vs := done + file;
    assert done + (file + [v]) == vs + [v];
    assert (vs + [v])[..|vs|] == vs;
  }

  /** The inner loop of `get_author2fstr2fstat`: the groups of one file. */
  method AddFile(t: Table, ghost init: Table, ghost done: seq<Visit>, fstr: string, groups: seq<CommitGroups.Group>,
                 authorOf: string -> string) returns (target: Table)
    requires Starred(init) && AuthorsKnown(done, authorOf, init)
    requires forall g :: g in groups ==> authorOf(g.author) in init.at
    requires t == Built(init, done, authorOf)
    ensures AuthorsKnown(done + FileVisits(fstr, groups), authorOf, init)
    ensures target == Built(init, done + FileVisits(fstr, groups), authorOf)
  {
    target := t;
    assert done + FileVisits(fstr, groups[..0]) == done;
    for j := 0 to |groups|
      invariant AuthorsKnown(done + FileVisits(fstr, groups[..j]), authorOf, init)
      invariant target == Built(init, done + FileVisits(fstr, groups[..j]), authorOf)
    {
      var g := groups[j];
      FileVisitsSnoc(fstr, groups, j);
      BuiltSnoc(init, done, FileVisits(fstr, groups[..j]), Visit(fstr, g), authorOf);
      target := AddVisit(target, Visit(fstr, g), authorOf(g.author));
    }
    assert groups[..|groups|] == groups;
  }

  /** The first loop of `get_author2fstr2fstat`: "*" and the included authors, each with a "*" file. */
  method NewTable(included: seq<string>) returns (target: Table)
    ensures target == InitTable(included)
  {
    target := Dict(["*"], map["*" := StarRow()]);
    for k := 0 to |included|
      invariant target == InitTable(included[..k])
    {
      assert included[..k + 1][..k] == included[..k];
      target := Put(target, included[k], StarRow());
    }
    assert included[..|included|] == included;
  }

  /**
   * Every file has its groups, and every group's author is "*" or included:
   * the lookups `fstr2commit_groups[fstr]` and `target[author]` of
   * `get_author2fstr2fstat` find their keys.
   */
  predicate GroupsKnown(fstrs: seq<string>, fstr2groups: map<string, seq<CommitGroups.Group>>,
                        authorOf: string -> string, included: seq<string>)
  {
    (forall f :: f in fstrs ==> f in fstr2groups) &&
    forall f, g :: f in fstrs && g in fstr2groups[f] ==> authorOf(g.author) == "*" || authorOf(g.author) in included
  }

  /** The groups of the first `i` files have known authors. */
  lemma VisitsKnown(fstrs: seq<string>, fstr2groups: map<string, seq<CommitGroups.Group>>,
                    authorOf: string -> string, included: seq<string>, i: nat)
    requires i <= |fstrs| && GroupsKnown(fstrs[..i], fstr2groups, authorOf, included)
    ensures forall f :: f in fstrs[..i] ==> f in fstr2groups
    ensures AuthorsKnown(Visits(fstrs[..i], fstr2groups), authorOf, InitTable(included))
  {
  }

  /** Whether every group's author is "*" or included: the `target[author]` lookups of one file succeed. */
  method GroupAuthorsKnown(groups: seq<CommitGroups.Group>, authorOf: string -> string, included: seq<string>)
    returns (known: bool)
    ensures known <==> forall g :: g in groups ==> authorOf(g.author) == "*" || authorOf(g.author) in included
  {
    for j := 0 to |groups|
      invariant forall g :: g in groups[..j] ==> authorOf(g.author) == "*" || authorOf(g.author) in included
    {
      var a := authorOf(groups[j].author);
      if a != "*" && a !in included {
        assert groups[j] in groups;
        return false;
      }
      assert groups[..j + 1] == groups[..j] + [groups[j]];
    }
    assert groups[..|groups|] == groups;
    return true;
  }

  /** A file without groups, or with a group of an unknown author, makes the whole list unknown. */
  lemma UnknownFile(fstrs: seq<string>, i: nat, fstr2groups: map<string, seq<CommitGroups.Group>>,
                    authorOf: string -> string, included: seq<string>)
    requires i < |fstrs|
    requires fstrs[i] !in fstr2groups ||
      !(forall g :: g in fstr2groups[fstrs[i]] ==> authorOf(g.author) == "*" || authorOf(g.author) in included)
    ensures !GroupsKnown(fstrs, fstr2groups, authorOf, included)
  {
    assert fstrs[i] in fstrs;
  }

  /** One more file with known groups, and its visits follow those of the files before it. */
  lemma KnownSnoc(fstrs: seq<string>, i: nat, fstr2groups: map<string, seq<CommitGroups.Group>>,
                  authorOf: string -> string, included: seq<string>)
    requires i < |fstrs| && GroupsKnown(fstrs[..i], fstr2groups, authorOf, included)
    requires fstrs[i] in fstr2groups
    requires forall g :: g in fstr2groups[fstrs[i]] ==> authorOf(g.author) == "*" || authorOf(g.author) in included
    ensures GroupsKnown(fstrs[..i + 1], fstr2groups, authorOf, included)
    ensures Visits(fstrs[..i + 1], fstr2groups) == Visits(fstrs[..i], fstr2groups) + FileVisits(fstrs[i], fstr2groups[fstrs[i]])
  {
    assert fstrs[..i + 1] == fstrs[..i] + [fstrs[i]];
    assert fstrs[..i + 1][..i] == fstrs[..i];
  }

  /**
   * `get_author2fstr2fstat`: the table of the commit groups of `fstrs`, file
   * by file, with `authorOf` the canonical author of a group's author
   * (`persons_db.get_author`). It raises KeyError when a file has no
   * groups entry, or a group's author is neither "*" nor included.
   */
  method GetAuthor2Fstr2Fstat(fstrs: seq<string>, fstr2groups: map<string, seq<CommitGroups.Group>>,
                              authorOf: string -> string, included: seq<string>) returns (r: Result<Table>)
    ensures r.Ok? <==> GroupsKnown(fstrs, fstr2groups, authorOf, included)
    ensures r.Raise? ==> r.error == KeyError
    ensures r.Ok? ==> r.value == Built(InitTable(included), Visits(fstrs, fstr2groups), authorOf)
  {
    var target := NewTable(included);
    for i := 0 to |fstrs|
      invariant GroupsKnown(fstrs[..i], fstr2groups, authorOf, included)
      invariant target == Built(InitTable(included), Visits(fstrs[..i], fstr2groups), authorOf)
    {
      var f := fstrs[i];
      var known := f in fstr2groups;
      if known {
        known := GroupAuthorsKnown(fstr2groups[f], authorOf, included);
      }
      if !known {
        UnknownFile(fstrs, i, fstr2groups, authorOf, included);
        return Raise(KeyError);
      }
      KnownSnoc(fstrs, i, fstr2groups, authorOf, included);
      VisitsKnown(fstrs, fstr2groups, authorOf, included, i);
      target := AddFile(target, InitTable(included), Visits(fstrs[..i], fstr2groups), f, fstr2groups[f], authorOf);
    }
    assert fstrs[..|fstrs|] == fstrs;
    r := Ok(target);
  }

  // ------------------------------------------------------- get_fstr2fstat

  /** Every key of the table and of its rows is listed once, as in a dict of dicts. */
  ghost predicate Nested(t: Table)
  {
    Keyed(t) && forall a :: a in t.at ==> Keyed(t.at[a])
  }

  /** `d[k]`, reading a missing entry as a fresh stat. */
  function Get(d: Dict<Stat>, k: string): Stat
  {
    if k in d.at then d.at[k] else Zero
  }

  /** The inner loop of `get_fstr2fstat` over the files `fs` of one author's row. */
  function AddRow(d: Dict<Stat>, row: Dict<Stat>, fs: seq<string>): Dict<Stat>
    requires forall f :: f in fs ==> f in row.at
  {
    if |fs| == 0 then d
    else
      var prev := AddRow(d, row, fs[..|fs| - 1]);
      var f := fs[|fs| - 1];
      if f == "*" then prev else Put(prev, f, Plus(Get(prev, f), row.at[f]))
  }

  /** The outer loop of `get_fstr2fstat` over `authors`. */
  function FileSums(src: Table, authors: seq<string>): Dict<Stat>
    requires Nested(src) && Starred(src) && forall a :: a in authors ==> a in src.at
  {
    if |authors| == 0 then Dict([], map[])
    else
      var prev := FileSums(src, authors[..|authors| - 1]);
      var a := authors[|authors| - 1];
      if a == "*" then Put(prev, "*", src.at["*"].at["*"])
      else AddRow(prev, src.at[a], src.at[a].keys)
  }

  /** The sum of file `f`'s entries in the rows of the authors other than "*". */
  function Column(src: Table, authors: seq<string>, f: string): Stat
    requires forall a :: a in authors ==> a in src.at
  {
    if |authors| == 0 then Zero
    else
      var prev := Column(src, authors[..|authors| - 1], f);
      var a := authors[|authors| - 1];
      if a != "*" && f in src.at[a].at then Plus(prev, src.at[a].at[f]) else prev
  }

  /** A row adds an entry for each of its files other than "*". */
  lemma {:induction false} AddRowKeys(d: Dict<Stat>, row: Dict<Stat>, fs: seq<string>)
    requires forall f :: f in fs ==> f in row.at
    ensures forall f :: f in AddRow(d, row, fs).at <==> f in d.at || (f in fs && f != "*")
  {
    if |fs| > 0 {
      var n := |fs| - 1;
      assert forall f :: f in fs[..n] ==> f in fs;
      AddRowKeys(d, row, fs[..n]);
      assert fs == fs[..n] + [fs[n]];
    }
  }

  /** A row adds its entry to each of its files other than "*", once, and leaves every other entry. */
  lemma {:induction false} AddRowEffect(d: Dict<Stat>, row: Dict<Stat>, fs: seq<string>)
    requires BlameOptions.Distinct(fs) && forall f :: f in fs ==> f in row.at
    ensures forall f :: f in AddRow(d, row, fs).at ==>
      AddRow(d, row, fs).at[f] == if f in fs && f != "*" then Plus(Get(d, f), row.at[f]) else Get(d, f)
  {
    if |fs| > 0 {
      var n := |fs| - 1;
      assert forall f :: f in fs[..n] ==> f in fs;
      AddRowEffect(d, row, fs[..n]);
      AddRowKeys(d, row, fs[..n]);
      var prev, g := AddRow(d, row, fs[..n]), fs[n];
      assert fs == fs[..n] + [fs[n]];
      assert g !in fs[..n];
      assert Get(prev, g) == Get(d, g);
      forall f | f in AddRow(d, row, fs).at
        ensures AddRow(d, row, fs).at[f] == if f in fs && f != "*" then Plus(Get(d, f), row.at[f]) else Get(d, f)
      {
        if f != g { assert (f in fs) == (f in fs[..n]); }
      }
    }
  }

  /** One more author. */
  lemma FileSumsSnoc(src: Table, authors: seq<string>, n: nat)
    requires Nested(src) && Starred(src) && forall a :: a in authors ==> a in src.at
    requires n < |authors|
    ensures forall a :: a in authors[..n] ==> a in src.at
    ensures FileSums(src, authors[..n + 1]) ==
      (if authors[n] == "*" then Put(FileSums(src, authors[..n]), "*", src.at["*"].at["*"])
       else AddRow(FileSums(src, authors[..n]), src.at[authors[n]], src.at[authors[n]].keys))
    ensures forall f :: (Column(src, authors[..n + 1], f) ==
      if authors[n] != "*" && f in src.at[authors[n]].at then Plus(Column(src, authors[..n], f), src.at[authors[n]].at[f])
      else Column(src, authors[..n], f))
  {
    assert forall a :: a in authors[..n] ==> a in authors;
    assert authors[..n + 1][..n] == authors[..n];
  }

  /**
   * `get_fstr2fstat` over the authors `authors`: its "*" entry is author
   * "*"'s "*" entry when "*" is among them, and every other file is in it
   * exactly when some other author has an entry for it, with the sum of
   * those entries.
   */
  lemma {:induction false} FileSumsMeaning(src: Table, authors: seq<string>)
    requires Nested(src) && Starred(src) && forall a :: a in authors ==> a in src.at
    ensures "*" in FileSums(src, authors).at <==> "*" in authors
    ensures "*" in authors ==> FileSums(src, authors).at["*"] == src.at["*"].at["*"]
    ensures forall f :: f != "*" ==>
      (f in FileSums(src, authors).at <==> exists a :: a in authors && a != "*" && f in src.at[a].at)
    ensures forall f :: f != "*" && f in FileSums(src, authors).at ==> FileSums(src, authors).at[f] == Column(src, authors, f)
  {
    if |authors| > 0 {
      var n := |authors| - 1;
      FileSumsSnoc(src, authors, n);
      assert authors[..n + 1] == authors;
      FileSumsMeaning(src, authors[..n]);
      var prev := FileSums(src, authors[..n]);
      var a := authors[n];
      if a != "*" {
        AddRowKeys(prev, src.at[a], src.at[a].keys);
        AddRowEffect(prev, src.at[a], src.at[a].keys);
        forall f | f != "*" && f in FileSums(src, authors).at
          ensures FileSums(src, authors).at[f] == Column(src, authors, f)
        {
          if f !in prev.at {
            assert Column(src, authors[..n], f) == Zero by {
              ColumnNone(src, authors[..n], f);
            }
          }
        }
      }
      forall f | f != "*" && (exists b :: b in authors && b != "*" && f in src.at[b].at)
        ensures f in FileSums(src, authors).at
      {
        var b :| b in authors && b != "*" && f in src.at[b].at;
        if b != a {
          assert b in authors[..n];
        }
      }
    }
  }

  /** No author other than "*" has the file: its column is empty. */
  lemma {:induction false} ColumnNone(src: Table, authors: seq<string>, f: string)
    requires forall a :: a in authors ==> a in src.at
    requires forall a :: a in authors && a != "*" ==> f !in src.at[a].at
    ensures Column(src, authors, f) == Zero
  {
    if |authors| > 0 {
      var n := |authors| - 1;
      assert forall a :: a in authors[..n] ==> a in authors;
      ColumnNone(src, authors[..n], f);
    }
  }

  /** The inner loop of `get_fstr2fstat`: one author's files, other than "*". */
  method AddAuthorFiles(d: Dict<Stat>, row: Dict<Stat>) returns (target: Dict<Stat>)
    requires Keyed(row)
    ensures target == AddRow(d, row, row.keys)
  {
    target := d;
    for j := 0 to |row.keys|
      invariant target == AddRow(d, row, row.keys[..j])
    {
      var f := row.keys[j];
      assert row.keys[..j + 1][..j] == row.keys[..j];
      if f != "*" {
        if f !in target.at {
          PutTwice(target, f, Zero, Plus(Zero, row.at[f]));
          target := Put(target, f, Zero);
        }
        target := Put(target, f, Plus(target.at[f], row.at[f]));
      }
    }
    assert row.keys[..|row.keys|] == row.keys;
  }

  /**
   * `get_fstr2fstat`: file -> stat, "*" being author "*"'s "*" entry. The
   * file names each stat collects (`add_name`) are left out.
   */
  method GetFstr2Fstat(src: Table) returns (target: Dict<Stat>)
    requires Nested(src) && Starred(src)
    ensures target == FileSums(src, src.keys)
  {
    target := Dict([], map[]);
    for i := 0 to |src.keys|
      invariant target == FileSums(src, src.keys[..i])
    {
      var author := src.keys[i];
      FileSumsSnoc(src, src.keys, i);
      if author == "*" {
        target := Put(target, "*", src.at["*"].at["*"]);
      } else {
        target := AddAuthorFiles(target, src.at[author]);
      }
    }
    assert src.keys[..|src.keys|] == src.keys;
  }

  // ------------------------------------------------- get_fstr2author2fstat

  /** The column of file `f` as it stands: its dict, or a new one with only "*". */
  function ColumnOf(t: Table, f: string): Dict<Stat>
  {
    if f in t.at then t.at[f] else StarRow()
  }

  /** Author `a`'s entry `s` for one file, added to the file's column. */
  function Enter(col: Dict<Stat>, a: string, s: Stat): Dict<Stat>
  {
    var col1 := Put(col, a, s);
    Put(col1, "*", Plus(Get(col1, "*"), s))
  }

  /** The inner loop of `get_fstr2author2fstat` over the files `fs` of author `a`'s row. */
  function AddColumn(t: Table, a: string, row: Dict<Stat>, fs: seq<string>): Table
    requires forall f :: f in fs ==> f in row.at
  {
    if |fs| == 0 then t
    else
      var prev := AddColumn(t, a, row, fs[..|fs| - 1]);
      var f := fs[|fs| - 1];
      if f == "*" then prev else Put(prev, f, Enter(ColumnOf(prev, f), a, row.at[f]))
  }

  /** The outer loop of `get_fstr2author2fstat` over `authors`. */
  function Transposed(src: Table, authors: seq<string>): Table
    requires Nested(src) && Starred(src) && forall a :: a in authors ==> a in src.at
  {
    if |authors| == 0 then Dict([], map[])
    else
      var prev := Transposed(src, authors[..|authors| - 1]);
      var a := authors[|authors| - 1];
      if a == "*" then Put(prev, "*", src.at["*"])
      else AddColumn(prev, a, src.at[a], src.at[a].keys)
  }

  /** File `f`'s column read author by author, the reference the loops are compared with. */
  function ExpectedColumn(src: Table, authors: seq<string>, f: string): Dict<Stat>
    requires forall a :: a in authors ==> a in src.at
  {
    if |authors| == 0 then StarRow()
    else
      var prev := ExpectedColumn(src, authors[..|authors| - 1], f);
      var a := authors[|authors| - 1];
      if a != "*" && f in src.at[a].at then Enter(prev, a, src.at[a].at[f]) else prev
  }

  /** A row adds a column for each of its files other than "*". */
  lemma {:induction false} AddColumnKeys(t: Table, a: string, row: Dict<Stat>, fs: seq<string>)
    requires forall f :: f in fs ==> f in row.at
    ensures forall f :: f in AddColumn(t, a, row, fs).at <==> f in t.at || (f in fs && f != "*")
  {
    if |fs| > 0 {
      var n := |fs| - 1;
      assert forall f :: f in fs[..n] ==> f in fs;
      AddColumnKeys(t, a, row, fs[..n]);
      assert fs == fs[..n] + [fs[n]];
    }
  }

  /** A row enters each of its files other than "*" once, and leaves every other column. */
  lemma {:induction false} AddColumnEffect(t: Table, a: string, row: Dict<Stat>, fs: seq<string>)
    requires BlameOptions.Distinct(fs) && forall f :: f in fs ==> f in row.at
    ensures forall f :: f in AddColumn(t, a, row, fs).at ==>
      AddColumn(t, a, row, fs).at[f] == if f in fs && f != "*" then Enter(ColumnOf(t, f), a, row.at[f]) else ColumnOf(t, f)
  {
    if |fs| > 0 {
      var n := |fs| - 1;
      assert forall f :: f in fs[..n] ==> f in fs;
      AddColumnEffect(t, a, row, fs[..n]);
      AddColumnKeys(t, a, row, fs[..n]);
      var prev, g := AddColumn(t, a, row, fs[..n]), fs[n];
      assert fs == fs[..n] + [fs[n]];
      assert g !in fs[..n];
      assert ColumnOf(prev, g) == ColumnOf(t, g);
      var r := AddColumn(t, a, row, fs);
      assert r.at == if g == "*" then prev.at else prev.at[g := Enter(ColumnOf(t, g), a, row.at[g])];
      forall f | f in r.at
        ensures r.at[f] == if f in fs && f != "*" then Enter(ColumnOf(t, f), a, row.at[f]) else ColumnOf(t, f)
      {
        if f != g { assert (f in fs) == (f in fs[..n]); assert r.at[f] == prev.at[f]; }
      }
    }
  }

  /** One more author. */
  lemma TransposedSnoc(src: Table, authors: seq<string>, n: nat)
    requires Nested(src) && Starred(src) && forall a :: a in authors ==> a in src.at
    requires n < |authors|
    ensures forall a :: a in authors[..n] ==> a in src.at
    ensures Transposed(src, authors[..n + 1]) ==
      (if authors[n] == "*" then Put(Transposed(src, authors[..n]), "*", src.at["*"])
       else AddColumn(Transposed(src, authors[..n]), authors[n], src.at[authors[n]], src.at[authors[n]].keys))
    ensures forall f :: (ExpectedColumn(src, authors[..n + 1], f) ==
      if authors[n] != "*" && f in src.at[authors[n]].at then Enter(ExpectedColumn(src, authors[..n], f), authors[n], src.at[authors[n]].at[f])
      else ExpectedColumn(src, authors[..n], f))
  {
    assert forall a :: a in authors[..n] ==> a in authors;
    assert authors[..n + 1][..n] == authors[..n];
  }

  /** No author other than "*" has the file: its expected column is the fresh one. */
  lemma {:induction false} ExpectedColumnNone(src: Table, authors: seq<string>, f: string)
    requires forall a :: a in authors ==> a in src.at
    requires forall a :: a in authors && a != "*" ==> f !in src.at[a].at
    ensures ExpectedColumn(src, authors, f) == StarRow()
  {
    if |authors| > 0 {
      var n := |authors| - 1;
      assert forall a :: a in authors[..n] ==> a in authors;
      ExpectedColumnNone(src, authors[..n], f);
    }
  }

  /**
   * `get_fstr2author2fstat` over the authors `authors` has "*" exactly when
   * "*" is among them, holding author "*"'s row, and every other file
   * exactly when some other author has an entry for it.
   */
  lemma {:induction false} TransposedKeys(src: Table, authors: seq<string>)
    requires Nested(src) && Starred(src) && forall a :: a in authors ==> a in src.at
    ensures "*" in Transposed(src, authors).at <==> "*" in authors
    ensures "*" in authors ==> Transposed(src, authors).at["*"] == src.at["*"]
    ensures forall f :: f != "*" ==>
      (f in Transposed(src, authors).at <==> exists a :: a in authors && a != "*" && f in src.at[a].at)
  {
    if |authors| > 0 {
      var n := |authors| - 1;
      TransposedSnoc(src, authors, n);
      assert authors[..n + 1] == authors;
      TransposedKeys(src, authors[..n]);
      var prev := Transposed(src, authors[..n]);
      var a := authors[n];
      if a != "*" {
        AddColumnKeys(prev, a, src.at[a], src.at[a].keys);
        AddColumnEffect(prev, a, src.at[a], src.at[a].keys);
      }
      forall f | f != "*" && (exists b :: b in authors && b != "*" && f in src.at[b].at)
        ensures f in Transposed(src, authors).at
      {
        var b :| b in authors && b != "*" && f in src.at[b].at;
        if b != a {
          assert b in authors[..n];
        }
      }
    }
  }

  /** Each file other than "*" of `get_fstr2author2fstat` holds the column the authors give it in order. */
  lemma {:induction false} TransposedColumns(src: Table, authors: seq<string>)
    requires Nested(src) && Starred(src) && forall a :: a in authors ==> a in src.at
    ensures forall f :: f != "*" && f in Transposed(src, authors).at ==>
      Transposed(src, authors).at[f] == ExpectedColumn(src, authors, f)
  {
    if |authors| > 0 {
      var n := |authors| - 1;
      TransposedSnoc(src, authors, n);
      assert authors[..n + 1] == authors;
      TransposedColumns(src, authors[..n]);
      TransposedKeys(src, authors[..n]);
      var prev := Transposed(src, authors[..n]);
      var a := authors[n];
      if a != "*" {
        AddColumnKeys(prev, a, src.at[a], src.at[a].keys);
        AddColumnEffect(prev, a, src.at[a], src.at[a].keys);
        forall f | f != "*" && f in Transposed(src, authors).at
          ensures Transposed(src, authors).at[f] == ExpectedColumn(src, authors, f)
        {
          if f !in prev.at {
            ExpectedColumnNone(src, authors[..n], f);
          }
        }
      }
    }
  }

  /**
   * The expected column of a file: "*" holds the sum of the other authors'
   * entries, and an author other than "*" is in it exactly when it has an
   * entry for the file, which it then holds unchanged.
   */
  lemma ExpectedColumnMeaning(src: Table, authors: seq<string>, f: string)
    requires forall a :: a in authors ==> a in src.at
    ensures "*" in ExpectedColumn(src, authors, f).at
    ensures ExpectedColumn(src, authors, f).at["*"] == Column(src, authors, f)
    ensures forall a :: a != "*" ==>
      (a in ExpectedColumn(src, authors, f).at <==> a in authors && f in src.at[a].at)
    ensures forall a :: a != "*" && a in ExpectedColumn(src, authors, f).at ==>
      ExpectedColumn(src, authors, f).at[a] == src.at[a].at[f]
  {
    ExpectedColumnStar(src, authors, f);
    ExpectedColumnAuthors(src, authors, f);
  }

  /** The "*" entry of a column is the column's sum. */
  lemma {:induction false} ExpectedColumnStar(src: Table, authors: seq<string>, f: string)
    requires forall a :: a in authors ==> a in src.at
    ensures "*" in ExpectedColumn(src, authors, f).at
    ensures ExpectedColumn(src, authors, f).at["*"] == Column(src, authors, f)
  {
    if |authors| > 0 {
      var n := |authors| - 1;
      assert forall a :: a in authors[..n] ==> a in authors;
      ExpectedColumnStar(src, authors[..n], f);
    }
  }

  /** Every other entry of a column is its author's entry for the file. */
  lemma {:induction false} ExpectedColumnAuthors(src: Table, authors: seq<string>, f: string)
    requires forall a :: a in authors ==> a in src.at
    ensures forall a :: a != "*" ==>
      (a in ExpectedColumn(src, authors, f).at <==> a in authors && f in src.at[a].at)
    ensures forall a :: a != "*" && a in ExpectedColumn(src, authors, f).at ==>
      ExpectedColumn(src, authors, f).at[a] == src.at[a].at[f]
  {
    if |authors| > 0 {
      var n := |authors| - 1;
      assert forall a :: a in authors[..n] ==> a in authors;
      ExpectedColumnAuthors(src, authors[..n], f);
      assert authors == authors[..n] + [authors[n]];
    }
  }

  /** `get_fstr2author2fstat` and `get_fstr2fstat` agree: a file's "*" author entry is the file's stat. */
  lemma TransposedAgrees(src: Table)
    requires Nested(src) && Starred(src)
    ensures forall f :: f in Transposed(src, src.keys).at <==> f in FileSums(src, src.keys).at
    ensures forall f :: f != "*" && f in Transposed(src, src.keys).at ==>
      "*" in Transposed(src, src.keys).at[f].at && Transposed(src, src.keys).at[f].at["*"] == FileSums(src, src.keys).at[f]
  {
    TransposedKeys(src, src.keys);
    TransposedColumns(src, src.keys);
    FileSumsMeaning(src, src.keys);
    forall f | f != "*" && f in Transposed(src, src.keys).at
      ensures "*" in Transposed(src, src.keys).at[f].at && Transposed(src, src.keys).at[f].at["*"] == FileSums(src, src.keys).at[f]
    {
      ExpectedColumnMeaning(src, src.keys, f);
    }
  }

  /** The inner loop of `get_fstr2author2fstat`: author `a`'s files, other than "*". */
  method AddAuthorColumns(t: Table, a: string, row: Dict<Stat>) returns (target: Table)
    requires Keyed(row)
    ensures target == AddColumn(t, a, row, row.keys)
  {
    target := t;
    for j := 0 to |row.keys|
      invariant target == AddColumn(t, a, row, row.keys[..j])
    {
      var f := row.keys[j];
      assert row.keys[..j + 1][..j] == row.keys[..j];
      if f != "*" {
        if f !in target.at {
          target := Put(target, f, StarRow());
        }
        var col := Put(target.at[f], a, row.at[f]);
        col := Put(col, "*", Plus(Get(col, "*"), row.at[f]));
        PutTwice(target, f, StarRow(), col);
        target := Put(target, f, col);
      }
    }
    assert row.keys[..|row.keys|] == row.keys;
  }

  /**
   * `get_fstr2author2fstat`: file -> author -> stat, "*" being author "*"'s
   * row. The file names of the "*" entries are left out.
   */
  method GetFstr2Author2Fstat(src: Table) returns (target: Table)
    requires Nested(src) && Starred(src)
    ensures target == Transposed(src, src.keys)
  {
    target := Dict([], map[]);
    for i := 0 to |src.keys|
      invariant target == Transposed(src, src.keys[..i])
    {
      var author := src.keys[i];
      TransposedSnoc(src, src.keys, i);
      if author == "*" {
        target := Put(target, "*", src.at["*"]);
      } else {
        target := AddAuthorColumns(target, author, src.at[author]);
      }
    }
    assert src.keys[..|src.keys|] == src.keys;
  }

  // ------------------------------------------------------ get_author2pstat

  /** The sum of a row's entries for the files `fs`, other than "*". */
  function RowTotal(row: Dict<Stat>, fs: seq<string>): Stat
    requires forall f :: f in fs ==> f in row.at
  {
    if |fs| == 0 then Zero
    else
      var prev := RowTotal(row, fs[..|fs| - 1]);
      var f := fs[|fs| - 1];
      if f == "*" then prev else Plus(prev, row.at[f])
  }

  /** The loop of `get_author2pstat` over `authors`. */
  function PersonSums(src: Table, authors: seq<string>): Dict<Stat>
    requires Nested(src) && Starred(src) && forall a :: a in authors ==> a in src.at
  {
    if |authors| == 0 then Dict([], map[])
    else
      var prev := PersonSums(src, authors[..|authors| - 1]);
      var a := authors[|authors| - 1];
      Put(prev, a, if a == "*" then src.at["*"].at["*"] else RowTotal(src.at[a], src.at[a].keys))
  }

  /** `get_author2pstat` has the same authors as its source. */
  lemma {:induction false} PersonSumsKeys(src: Table, authors: seq<string>)
    requires Nested(src) && Starred(src) && forall a :: a in authors ==> a in src.at
    ensures forall a :: a in PersonSums(src, authors).at <==> a in authors
  {
    if |authors| > 0 {
      var n := |authors| - 1;
      assert forall a :: a in authors[..n] ==> a in authors;
      PersonSumsKeys(src, authors[..n]);
      assert authors == authors[..n] + [authors[n]];
    }
  }

  /** "*" gets author "*"'s "*" entry, and every other author the sum of its files other than "*". */
  lemma {:induction false} PersonSumsValues(src: Table, authors: seq<string>)
    requires Nested(src) && Starred(src) && forall a :: a in authors ==> a in src.at
    ensures forall a :: a in PersonSums(src, authors).at && a in src.at ==>
      PersonSums(src, authors).at[a] == if a == "*" then src.at["*"].at["*"] else RowTotal(src.at[a], src.at[a].keys)
  {
    if |authors| > 0 {
      var n := |authors| - 1;
      assert forall a :: a in authors[..n] ==> a in authors;
      PersonSumsValues(src, authors[..n]);
    }
  }

  /** Adding up one author's files, other than "*". */
  method SumRow(row: Dict<Stat>) returns (s: Stat)
    requires Keyed(row)
    ensures s == RowTotal(row, row.keys)
  {
    s := Zero;
    for j := 0 to |row.keys|
      invariant s == RowTotal(row, row.keys[..j])
    {
      assert row.keys[..j + 1][..j] == row.keys[..j];
      var f := row.keys[j];
      if f != "*" {
        s := Plus(s, row.at[f]);
      }
    }
    assert row.keys[..|row.keys|] == row.keys;
  }

  /** `get_author2pstat`: author -> stat. The `Person` of each author is left out. */
  method GetAuthor2Pstat(src: Table) returns (target: Dict<Stat>)
    requires Nested(src) && Starred(src)
    ensures target == PersonSums(src, src.keys)
  {
    target := Dict([], map[]);
    for i := 0 to |src.keys|
      invariant target == PersonSums(src, src.keys[..i])
    {
      var author := src.keys[i];
      assert src.keys[..i + 1][..i] == src.keys[..i];
      assert forall a :: a in src.keys[..i] ==> a in src.keys;
      if author == "*" {
        target := Put(target, "*", src.at["*"].at["*"]);
      } else {
        var s := SumRow(src.at[author]);
        target := Put(target, author, s);
      }
    }
    assert src.keys[..|src.keys|] == src.keys;
  }

  // ------------------------------------------------- _run_blame_no_history

  /** Assigning a well-keyed row keeps the table well keyed. */
  lemma PutRowNested(t: Table, a: string, row: Dict<Stat>)
    requires Nested(t) && Keyed(row)
    ensures Nested(Put(t, a, row))
  {
    PutKeyed(t, a, row);
  }

  /** One more group keeps every dict of the table well keyed. */
  lemma AddGroupNested(t: Table, v: Visit, author: string)
    requires Starred(t) && author in t.at && Nested(t)
    ensures Nested(AddGroup(t, v, author))
  {
    var s := GroupStat(v.group);
    var all := t.at["*"];
    PutKeyed(all, "*", Plus(all.at["*"], s));
    PutRowNested(t, "*", Put(all, "*", Plus(all.at["*"], s)));
    var t1 := Put(t, "*", Put(all, "*", Plus(all.at["*"], s)));
    var row := t1.at[author];
    PutKeyed(row, "*", Plus(row.at["*"], s));
    var row1 := Put(row, "*", Plus(row.at["*"], s));
    var cur := if v.fstr in row1.at then row1.at[v.fstr] else Zero;
    PutKeyed(row1, v.fstr, Plus(cur, s));
    PutRowNested(t1, author, Put(row1, v.fstr, Plus(cur, s)));
  }

  /** The table of `get_author2fstr2fstat` is a well-keyed dict of dicts. */
  lemma {:induction false} BuiltNested(included: seq<string>, vs: seq<Visit>, authorOf: string -> string)
    requires AuthorsKnown(vs, authorOf, InitTable(included))
    ensures Nested(Built(InitTable(included), vs, authorOf))
  {
    if |vs| == 0 {
      InitTableKeys(included);
      InitTableRows(included);
    } else {
      var n := |vs| - 1;
      assert forall v :: v in vs[..n] ==> v in vs;
      BuiltNested(included, vs[..n], authorOf);
      AddGroupNested(Built(InitTable(included), vs[..n], authorOf), vs[n], authorOf(vs[n].group.author));
    }
  }

  /** With no author other than "*" included, the table of `get_author2fstr2fstat` has only the "*" author. */
  lemma NoAuthorsNoTable(included: seq<string>, vs: seq<Visit>, authorOf: string -> string)
    requires AuthorsKnown(vs, authorOf, InitTable(included))
    ensures Built(InitTable(included), vs, authorOf).keys == ["*"] <==> forall a :: a in included ==> a == "*"
  {
    InitTableKeys(included);
  }

  /** A row adds its files, other than "*", as keys each once. */
  lemma {:induction false} AddRowKeyed(d: Dict<Stat>, row: Dict<Stat>, fs: seq<string>)
    requires Keyed(d) && forall f :: f in fs ==> f in row.at
    ensures Keyed(AddRow(d, row, fs))
  {
    if |fs| > 0 {
      var n := |fs| - 1;
      assert forall f :: f in fs[..n] ==> f in fs;
      AddRowKeyed(d, row, fs[..n]);
      var prev := AddRow(d, row, fs[..n]);
      PutKeyed(prev, fs[n], Plus(Get(prev, fs[n]), row.at[fs[n]]));
    }
  }

  /** The files of `get_fstr2fstat` are listed each once. */
  lemma {:induction false} FileSumsKeyed(src: Table, authors: seq<string>)
    requires Nested(src) && Starred(src) && forall a :: a in authors ==> a in src.at
    ensures Keyed(FileSums(src, authors))
  {
    if |authors| > 0 {
      var n := |authors| - 1;
      FileSumsSnoc(src, authors, n);
      assert authors[..n + 1] == authors;
      FileSumsKeyed(src, authors[..n]);
      var prev := FileSums(src, authors[..n]);
      PutKeyed(prev, "*", src.at["*"].at["*"]);
      AddRowKeyed(prev, src.at[authors[n]], src.at[authors[n]].keys);
    }
  }

  lemma FirstTwoDiffer(s: seq<string>)
    requires BlameOptions.Distinct(s)
    ensures |s| >= 2 ==> s[0] != s[1]
  {
  }

  /** A well-keyed dict lists only "*" exactly when "*" is its only key. */
  lemma KeyedOnlyStar<V>(d: Dict<V>)
    requires Keyed(d)
    ensures d.keys == ["*"] <==> d.at.Keys == {"*"}
  {
    if d.at.Keys == {"*"} {
      assert "*" in d.keys;
      forall i | 0 <= i < |d.keys| ensures d.keys[i] == "*" {
        assert d.keys[i] in d.at;
      }
      FirstTwoDiffer(d.keys);
      assert d.keys == [d.keys[0]];
    }
  }

  /**
   * `get_fstr2fstat` of a table with "*" has only the "*" file exactly when
   * no author other than "*" has a file other than "*".
   */
  lemma OnlyStarFile(src: Table)
    requires Nested(src) && Starred(src)
    ensures FileSums(src, src.keys).keys == ["*"] <==>
      forall a, f :: a in src.at && a != "*" && f in src.at[a].at ==> f == "*"
  {
    var d := FileSums(src, src.keys);
    FileSumsKeyed(src, src.keys);
    FileSumsMeaning(src, src.keys);
    KeyedOnlyStar(d);
    if d.keys == ["*"] {
      forall a, f | a in src.at && a != "*" && f in src.at[a].at
        ensures f == "*"
      {
        assert a in src.keys;
        assert f != "*" ==> f in d.at;
      }
    }
    if forall a, f :: a in src.at && a != "*" && f in src.at[a].at ==> f == "*" {
      assert "*" in src.keys;
      assert forall f :: f in d.at ==> f == "*";
    }
  }

  /** The line count of a file of `get_fstr2fstat`, negated so that sorting by it puts the most lines first. */
  function FewerLines(fstr2fstat: Dict<Stat>): string -> int
  {
    f => if f in fstr2fstat.at then -fstr2fstat.at[f].lineCount else 0
  }

  /** `sorted(fstrs, key=line_count, reverse=True)`: a stable sort, most lines first. */
  function StarFstrs(fstr2fstat: Dict<Stat>): seq<string>
  {
    CommitWalk.SortBy(fstr2fstat.keys, FewerLines(fstr2fstat))
  }

  /** `star_fstrs` without a leading "*". */
  function DropStar(starFstrs: seq<string>): seq<string>
  {
    if |starFstrs| > 0 && starFstrs[0] == "*" then starFstrs[1..] else starFstrs
  }

  /** A first element whose key is no larger than any other stays first, ahead of the sorted rest. */
  lemma SortByKeepsFirst(s: seq<string>, key: string -> int)
    requires |s| > 0 && forall x :: x in s ==> key(s[0]) <= key(x)
    ensures CommitWalk.SortBy(s, key) == [s[0]] + CommitWalk.SortBy(s[1..], key)
  {
    var rest := CommitWalk.SortBy(s[1..], key);
    if |rest| > 0 {
      assert rest[0] in rest;
      assert rest[0] in s[1..];
    }
  }

  /**
   * When "*" is the first file of `get_fstr2fstat` and has at least as many
   * lines as any file, `star_fstrs` starts with "*", and `fstrs` holds every
   * other file, each once, with the most lines first.
   */
  lemma StarFirst(fstr2fstat: Dict<Stat>)
    requires Keyed(fstr2fstat) && |fstr2fstat.keys| > 0 && fstr2fstat.keys[0] == "*"
    requires forall f :: f in fstr2fstat.at ==> fstr2fstat.at[f].lineCount <= fstr2fstat.at["*"].lineCount
    ensures StarFstrs(fstr2fstat)[0] == "*"
    ensures forall f :: f in DropStar(StarFstrs(fstr2fstat)) <==> f in fstr2fstat.at && f != "*"
    ensures |DropStar(StarFstrs(fstr2fstat))| == |fstr2fstat.keys| - 1
    ensures CommitWalk.Ordered(DropStar(StarFstrs(fstr2fstat)), FewerLines(fstr2fstat))
  {
    var keys, key := fstr2fstat.keys, FewerLines(fstr2fstat);
    SortByKeepsFirst(keys, key);
    assert DropStar(StarFstrs(fstr2fstat)) == CommitWalk.SortBy(keys[1..], key);
    CommitWalk.SortByMeaning(keys[1..], key);
    KeyedTail(fstr2fstat);
  }

  /** The keys after the first of a well-keyed dict are its other keys. */
  lemma KeyedTail<V>(d: Dict<V>)
    requires Keyed(d) && |d.keys| > 0
    ensures forall k :: k in d.keys[1..] <==> k in d.at && k != d.keys[0]
  {
    assert d.keys == [d.keys[0]] + d.keys[1..];
    forall k | k in d.keys[1..] ensures k != d.keys[0] {
      var i :| 0 <= i < |d.keys[1..]| && d.keys[1..][i] == k;
      assert d.keys[i + 1] == k;
    }
  }
}
