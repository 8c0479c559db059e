/**
 * The two `git log` parsers of stats_reader.py.
 *
 * The first pass (`_get_commits_first_pass`) reads records of six lines,
 * long SHA, short SHA, commit timestamp, subject, author and e-mail, with
 * blank lines between them; it files every accepted commit under both of
 * its SHAs and collects the short SHAs of the excluded ones.
 *
 * The per-file pass (`_process_commit_lines_for`) reads `--numstat`
 * records: a "sha timestamp" header, the author, and one stat line
 * "insertions deletions path", where the path may be a rename expression.
 * The records are grouped into runs of one author and file.
 *
 * The output of `git log` is an input here: its lines, after
 * `splitlines()`. Regular-expression matching of subjects and the
 * `filter_matched` flag of a person are parameters.
 */
module LogParser {
  import opened Errors
  import opened Strs
  import CommitWalk
  import CommitGroups

  // ------------------------------------------------------- since / until

  /** `_get_since_until_args`: the date-limiting options of every `git log` call; "" is unset. */
  function SinceUntilArgs(since: string, until: string): (args: seq<string>)
  {
    if since != "" && until != "" then ["--since=" + since, "--until=" + until]
    else if since != "" then ["--since=" + since]
    else if until != "" then ["--until=" + until]
    else []
  }

  /**
   * `--since` is passed exactly when `since` is set and `--until` exactly
   * when `until` is set, each once, with `--since` first, and nothing else.
   */
  lemma SinceUntilMeaning(since: string, until: string)
    ensures var args := SinceUntilArgs(since, until);
      |args| == (if since != "" then 1 else 0) + (if until != "" then 1 else 0)
      && (("--since=" + since) in args <==> since != "")
      && (("--until=" + until) in args <==> until != "")
      && (since != "" ==> args[0] == "--since=" + since)
      && (until != "" ==> args[|args| - 1] == "--until=" + until)
  {
    var s := "--since=" + since;
    var u := "--until=" + until;
    assert s[2] == 's' && u[2] == 'u';
    assert s != u;
    if since == "" {
      assert s == "--since=";
      assert |u| != |s| || u != s;
    }
    if until == "" {
      assert u == "--until=";
    }
  }

  // --------------------------------------------------------- first pass

  /** `Commit` of the first pass: short SHA, long SHA and commit date. */
  datatype LogCommit = LogCommit(shaShort: string, shaLong: string, date: int)

  /**
   * What the first pass collects from a stretch of lines: the accepted
   * commits in log order, the excluded short SHAs, the (author, e-mail)
   * pairs given to the persons database, and the exception that ended it,
   * if any.
   */
  datatype Outcome = Outcome(found: seq<LogCommit>, excluded: set<string>, persons: seq<(string, string)>,
                             error: Option<Exception>)

  const NoOutcome := Outcome([], {}, [], None)

  /** The collections of `a` followed by those of `b`; `b` decides the error. */
  function Then(a: Outcome, b: Outcome): Outcome
  {
    Outcome(a.found + b.found, a.excluded + b.excluded, a.persons + b.persons, b.error)
  }

  lemma ThenAssoc(a: Outcome, b: Outcome, c: Outcome)
    ensures Then(a, Then(b, c)) == Then(Then(a, b), c)
  {
    assert a.found + (b.found + c.found) == (a.found + b.found) + c.found;
    assert a.persons + (b.persons + c.persons) == (a.persons + b.persons) + c.persons;
  }

  function Excluded(shaShort: string): Outcome
  {
    NoOutcome.(excluded := {shaShort})
  }

  function Accepted(c: LogCommit, author: string, email: string): Outcome
  {
    NoOutcome.(found := [c], persons := [(author, email)])
  }

  /** What one turn of a parsing loop does: skip lines, exclude a commit, accept one, or raise. */
  datatype Turn = Skip(n: nat) | Exclude(shaShort: string, n: nat) | Accept(commit: LogCommit, author: string, email: string)
                | Fail(error: Exception)

  /**
   * One turn of the first-pass loop on the lines `w` that are left. A blank
   * line is skipped; a `pop(0)` from an exhausted list is an `IndexError`
   * and a timestamp that is not a number a `ValueError`. As written
   * (`skipWhole` false) an excluded record consumes only the lines read so
   * far: two when its SHA is excluded, four when its subject is. With
   * `skipWhole` the whole six-line record is skipped. An accepted record
   * consumes its six lines.
   */
  function FirstPassStep(w: seq<string>, exRevs: seq<string>, exMessage: string -> bool, skipWhole: bool): (t: Turn)
    requires |w| > 0
    ensures (t.Skip? || t.Exclude?) ==> 1 <= t.n <= |w|
    ensures t.Accept? ==> |w| >= 6
  {
    if w[0] == "" then Skip(1)
    else if |w| < 2 then Fail(IndexError)
    else if CommitWalk.ExcludedRev(w[0], exRevs) then Exclude(w[1], if skipWhole then Upto(6, w) else 2)
    else if |w| < 3 then Fail(IndexError)
    else match ParseInt(w[2])
      case None => Fail(ValueError)
      case Some(t) =>
        if |w| < 4 then Fail(IndexError)
        else if exMessage(w[3]) then Exclude(w[1], if skipWhole then Upto(6, w) else 4)
        else if |w| < 6 then Fail(IndexError)
        else Accept(LogCommit(w[1], w[0], t), w[4], w[5])
  }

  /** At most `n` of the lines `w`: a skip stops at the end of the log. */
  function Upto(n: nat, w: seq<string>): nat
  {
    if n <= |w| then n else |w|
  }

  /**
   * The first-pass loop on the lines `w` that are left, with `acc`
   * collected so far; an exception ends it.
   */
  function FirstPass(w: seq<string>, acc: Outcome, exRevs: seq<string>, exMessage: string -> bool, skipWhole: bool)
    : Outcome
    decreases |w|
  {
    if |w| == 0 then acc
    else match FirstPassStep(w, exRevs, exMessage, skipWhole)
      case Skip(n) => FirstPass(w[n..], acc, exRevs, exMessage, skipWhole)
      case Exclude(sha, n) => FirstPass(w[n..], acc.(excluded := acc.excluded + {sha}), exRevs, exMessage, skipWhole)
      case Accept(c, author, email) =>
        FirstPass(w[6..], acc.(found := acc.found + [c], persons := acc.persons + [(author, email)]),
                  exRevs, exMessage, skipWhole)
      case Fail(e) => acc.(error := Some(e))
  }

  /** `sha2commit` after filing `cs` in order, each under its short and its long SHA. */
  function Filed(m: map<string, LogCommit>, cs: seq<LogCommit>): map<string, LogCommit>
  {
    if cs == [] then m
    else
      var c := cs[|cs| - 1];
      Filed(m, cs[..|cs| - 1])[c.shaShort := c][c.shaLong := c]
  }

  lemma FiledSnoc(m: map<string, LogCommit>, cs: seq<LogCommit>, c: LogCommit)
    ensures Filed(m, cs + [c]) == Filed(m, cs)[c.shaShort := c][c.shaLong := c]
  {
    assert (cs + [c])[..|cs|] == cs;
  }

  /**
   * Every filed commit is found under both of its SHAs, the last one filed
   * is found under both as itself, and every entry is either an old one or
   * a filed commit under one of its own SHAs.
   */
  lemma {:induction false} FiledMeaning(m: map<string, LogCommit>, cs: seq<LogCommit>)
    ensures forall k :: k in m ==> k in Filed(m, cs)
    ensures forall c :: c in cs ==> c.shaShort in Filed(m, cs) && c.shaLong in Filed(m, cs)
    ensures cs != [] ==> var c := cs[|cs| - 1];
      Filed(m, cs)[c.shaLong] == c && (c.shaShort != c.shaLong ==> Filed(m, cs)[c.shaShort] == c)
    ensures forall k :: k in Filed(m, cs) ==>
      (k in m && Filed(m, cs)[k] == m[k])
      || (Filed(m, cs)[k] in cs && (k == Filed(m, cs)[k].shaShort || k == Filed(m, cs)[k].shaLong))
  {
    if cs != [] {
      var init := cs[..|cs| - 1];
      FiledMeaning(m, init);
      forall c | c in init ensures c in cs {
        var k :| 0 <= k < |init| && init[k] == c;
        assert cs[k] == c;
      }
      assert cs == init + [cs[|cs| - 1]];
    }
  }

  /** The date of a commit, the sort key of the first pass. */
  function CommitDate(c: LogCommit): int
  {
    c.date
  }

  /** A first-pass record as `git log --pretty=format:%H%n%h%n%ct%n%s%n%aN%n%aE%n` prints it. */
  datatype LogRecord = LogRecord(shaLong: string, shaShort: string, date: nat, message: string,
                                 author: string, email: string)

  /** The seven lines of a record: its six fields and the blank line after it. */
  function RecordLines(r: LogRecord): seq<string>
  {
    [r.shaLong, r.shaShort, NatToString(r.date), r.message, r.author, r.email, ""]
  }

  /** The lines of a log of records. */
  function LogLines(rs: seq<LogRecord>): seq<string>
  {
    if rs == [] then [] else RecordLines(rs[0]) + LogLines(rs[1..])
  }

  /** The record is excluded, by its SHA or by its subject. */
  predicate RecordExcluded(r: LogRecord, exRevs: seq<string>, exMessage: string -> bool)
  {
    CommitWalk.ExcludedRev(r.shaLong, exRevs) || exMessage(r.message)
  }

  /** What a log of records should give: each record excluded or accepted, in order, and no error. */
  function Expected(rs: seq<LogRecord>, exRevs: seq<string>, exMessage: string -> bool): Outcome
  {
    if rs == [] then NoOutcome
    else
      var r := rs[0];
      Then(if RecordExcluded(r, exRevs, exMessage) then Excluded(r.shaShort)
           else Accepted(LogCommit(r.shaShort, r.shaLong, r.date), r.author, r.email),
           Expected(rs[1..], exRevs, exMessage))
  }

  /** One record in front of the rest of the log. */
  lemma FirstPassRecord(r: LogRecord, rest: seq<string>, acc: Outcome, exRevs: seq<string>, exMessage: string -> bool,
                        skipWhole: bool)
    requires acc.error.None?
    requires r.shaLong != ""
    requires skipWhole || !RecordExcluded(r, exRevs, exMessage)
    ensures FirstPass(RecordLines(r) + rest, acc, exRevs, exMessage, skipWhole)
         == FirstPass(rest, Then(acc, if RecordExcluded(r, exRevs, exMessage) then Excluded(r.shaShort)
                                      else Accepted(LogCommit(r.shaShort, r.shaLong, r.date), r.author, r.email)),
                      exRevs, exMessage, skipWhole)
  {
    var all := RecordLines(r) + rest;
    ParseIntRoundTrip(r.date);
    assert all[6..][0] == "" && all[6..][1..] == rest;
    assert acc.found + [] == acc.found && acc.persons + [] == acc.persons && acc.excluded + {} == acc.excluded;
  }

  /**
   * Reading the log of well-formed records gives each record's commit or
   * exclusion, in order, without an error: always when the whole excluded
   * record is skipped, and as written only when no record is excluded.
   */
  lemma {:induction false} FirstPassRoundTrip(rs: seq<LogRecord>, acc: Outcome, exRevs: seq<string>,
                                              exMessage: string -> bool, skipWhole: bool)
    requires acc.error.None?
    requires forall i :: 0 <= i < |rs| ==> rs[i].shaLong != ""
    requires skipWhole || forall i :: 0 <= i < |rs| ==> !RecordExcluded(rs[i], exRevs, exMessage)
    ensures FirstPass(LogLines(rs), acc, exRevs, exMessage, skipWhole) == Then(acc, Expected(rs, exRevs, exMessage))
  {
    if rs == [] {
      assert acc.found + [] == acc.found && acc.persons + [] == acc.persons && acc.excluded + {} == acc.excluded;
    } else {
      var r := rs[0];
      var one := if RecordExcluded(r, exRevs, exMessage) then Excluded(r.shaShort)
                 else Accepted(LogCommit(r.shaShort, r.shaLong, r.date), r.author, r.email);
      FirstPassRecord(r, LogLines(rs[1..]), acc, exRevs, exMessage, skipWhole);
      FirstPassRoundTrip(rs[1..], Then(acc, one), exRevs, exMessage, skipWhole);
      ThenAssoc(acc, one, Expected(rs[1..], exRevs, exMessage));
    }
  }

  /**
   * As written, excluding a commit by its SHA makes the parser read the
   * record's timestamp line as the next long SHA, and then the author as
   * a timestamp: `int("Alice")` raises. Skipping the whole record reads
   * the same log without an error.
   */
  lemma FirstPassExcludedRaises(exMessage: string -> bool)
    requires !exMessage("msg")
    ensures FirstPass(["aaaa", "aa", "100", "msg", "Alice", "a@x", ""], NoOutcome, ["aaaa"], exMessage, false)
         == Outcome([], {"aa"}, [], Some(ValueError))
    ensures FirstPass(["aaaa", "aa", "100", "msg", "Alice", "a@x", ""], NoOutcome, ["aaaa"], exMessage, true)
         == Outcome([], {"aa"}, [], None)
  {
    var lines := ["aaaa", "aa", "100", "msg", "Alice", "a@x", ""];
    ExampleRevs();
    ExampleAuthorNotNumber();
    assert lines[2..] == ["100", "msg", "Alice", "a@x", ""];
    assert lines[6..] == [""] && lines[6..][1..] == [];
    var after := Outcome([], {"aa"}, [], None);
    assert FirstPass(lines[2..], after, ["aaaa"], exMessage, false) == Outcome([], {"aa"}, [], Some(ValueError));
    assert FirstPass(lines[6..], after, ["aaaa"], exMessage, true) == after;
  }

  /** "aaaa" is excluded by itself and "100" is not. */
  lemma ExampleRevs()
    ensures CommitWalk.ExcludedRev("aaaa", ["aaaa"]) && !CommitWalk.ExcludedRev("100", ["aaaa"])
  {
    assert !("aaaa" <= "100");
    assert ["aaaa"][1..] == [];
  }

  /** `int("Alice")` raises. */
  lemma ExampleAuthorNotNumber()
    ensures ParseInt("Alice") == None
  {
    assert Strip("Alice") == "Alice" by {
      assert DropSpace("Alice") == "Alice";
      assert DropTrailing("Alice") == "Alice";
    }
    assert !IsDigit("Alice"[0]);
  }

  // ------------------------------------------------------ numstat records

  /**
   * The file name of a numstat path: the path itself without "=>"; with
   * "{", "pre{old => new}suf" becomes "pre" + "new" + "suf" with "//"
   * collapsed to "/"; otherwise the part after " => ". Each unpacking of
   * a split into two names raises `ValueError` when the split does not
   * give exactly two parts, and indexing the missing second part raises
   * `IndexError`.
   */
  function RenameTarget(line: string): (r: Result<string>)
  {
    if !Contains(line, "=>") then Ok(line)
    else if Contains(line, "{") then
      var p1 := SplitOn(line, "{");
      if |p1| != 2 then Raise(ValueError)
      else
        var p2 := SplitOn(p1[1], " => ");
        if |p2| != 2 then Raise(ValueError)
        else
          var p3 := SplitOn(p2[1], "}");
          if |p3| != 2 then Raise(ValueError)
          else Ok(ReplaceAll(p1[0] + p3[0] + p3[1], "//", "/"))
    else
      var parts := SplitOn(line, " => ");
      if |parts| < 2 then Raise(IndexError) else Ok(parts[1])
  }

  /** A path without "=" is its own file name. */
  lemma RenamePlain(path: string)
    requires '=' !in path
    ensures RenameTarget(path) == Ok(path)
  {
    SplitAbsent(path, "=>", 0);
  }

  /** "before => after" names `after`. */
  lemma RenameWhole(before: string, after: string)
    requires '{' !in before && '{' !in after && '=' !in before && '=' !in after
    ensures RenameTarget(before + " => " + after) == Ok(after)
  {
    var line := before + " => " + after;
    assert line[|before| + 1..|before| + 3] == "=>";
    assert StartsAt(line, |before| + 1, "=>");
    assert '{' !in line;
    SplitAbsent(line, "{", 0);
    NoSecondCharBefore(before, " => ", after);
    SplitFirst(before, " => ", after);
    SplitAbsent(after, " => ", 1);
  }

  /**
   * "pre{before => after}suf" names "pre" + "after" + "suf" with every "//"
   * collapsed, when the braces, the arrow and "=" occur nowhere else.
   */
  lemma RenameBraces(pre: string, before: string, after: string, suf: string)
    requires '{' !in pre && '{' !in before && '{' !in after && '{' !in suf
    requires '=' !in pre && '=' !in before && '=' !in after && '=' !in suf
    requires '}' !in before && '}' !in after && '}' !in suf
    ensures RenameTarget(pre + "{" + before + " => " + after + "}" + suf) == Ok(ReplaceAll(pre + after + suf, "//", "/"))
  {
    var inner := after + "}" + suf;
    var rest := before + " => " + inner;
    var line := pre + "{" + rest;
    assert line == pre + "{" + before + " => " + after + "}" + suf;
    assert Contains(line, "=>") by {
      assert line[|pre| + |before| + 2..|pre| + |before| + 4] == "=>";
      assert !(FindFrom(line, "=>", 0).None?) by {
        assert StartsAt(line, |pre| + |before| + 2, "=>");
      }
    }
    SplitAtChar(pre, '{', rest);
    SplitAtSep(before, " => ", inner);
    SplitAtChar(after, '}', suf);
  }

  /**
   * A move into a new directory, as in `src/gigui/{ => gi}/gitinspector.py`,
   * names the file in that directory, for a directory, a sub-directory
   * and a file name each without '/'.
   */
  lemma RenameIntoDirectory(dir: string, sub: string, name: string)
    requires '/' !in dir && '/' !in sub && '/' !in name && sub != [] && name != []
    requires '{' !in dir && '{' !in sub && '{' !in name && '}' !in sub && '}' !in name
    requires '=' !in dir && '=' !in sub && '=' !in name
    ensures RenameTarget(dir + "/{ => " + sub + "}/" + name) == Ok(dir + "/" + sub + "/" + name)
  {
    var tail := "/" + name + "";
    var mid := "/" + sub + tail;
    assert dir + "/{ => " + sub + "}/" + name == (dir + "/") + "{" + "" + " => " + sub + "}" + ("/" + name);
    assert (dir + "/") + sub + ("/" + name) == dir + mid;
    assert dir + ("/" + sub + ("/" + name)) == dir + "/" + sub + "/" + name;
    assert tail == "/" + name;
    RenameBraces(dir + "/", "", sub, "/" + name);
    assert ReplaceAll(tail, "//", "/") == "/" + name by {
      ReplaceSingleSlash(name, "");
      assert ReplaceAll("", "//", "/") == "";
    }
    ReplaceSingleSlash(sub, tail);
    ReplaceAfter(dir, mid, "//", "/");
  }

  /** A '/' followed by a name without '/' is not a "//". */
  lemma ReplaceSingleSlash(name: string, s: string)
    requires name != [] && '/' !in name
    ensures ReplaceAll("/" + name + s, "//", "/") == "/" + name + ReplaceAll(s, "//", "/")
  {
    var t := "/" + name + s;
    assert t[1] == name[0];
    assert t[1..] == name + s;
    ReplaceAfter(name, s, "//", "/");
  }

  /**
   * A move out of a directory, as in `src/{gi => }/a.py`, names the file
   * in the directory above: the "//" the empty new part leaves is
   * collapsed.
   */
  lemma RenameOutOfDirectory(dir: string, moved: string, name: string)
    requires '/' !in dir && '/' !in name
    requires '{' !in dir && '{' !in moved && '{' !in name && '}' !in name
    requires '=' !in dir && '=' !in moved && '=' !in name && '}' !in moved
    ensures RenameTarget(dir + "/{" + moved + " => }/" + name) == Ok(dir + "/" + name)
  {
    var t := "//" + name;
    assert dir + "/{" + moved + " => }/" + name == (dir + "/") + "{" + moved + " => " + "" + "}" + ("/" + name);
    assert (dir + "/") + "" + ("/" + name) == dir + t;
    assert dir + ("/" + name) == dir + "/" + name;
    assert t[..2] == "//" && t[2..] == name + "";
    RenameBraces(dir + "/", moved, "", "/" + name);
    ReplaceAfter(dir, t, "//", "/");
    assert ReplaceAll(t, "//", "/") == "/" + name by {
      ReplaceAfter(name, "", "//", "/");
      assert ReplaceAll("", "//", "/") == "";
    }
  }

  /**
   * One `--numstat` record that produces a group: `int` of the first two
   * words of the stat line, the name from the rest joined by single
   * spaces, and `int` of the header's timestamp, in the order the source
   * evaluates them.
   */
  function StatRecord(shaShort: string, timestamp: string, author: string, statLine: string): Result<CommitGroups.CommitData>
  {
    var ws := Words(statLine);
    if |ws| == 0 then Raise(IndexError)
    else match ParseInt(ws[0])
      case None => Raise(ValueError)
      case Some(ins) =>
        if |ws| == 1 then Raise(IndexError)
        else match ParseInt(ws[1])
          case None => Raise(ValueError)
          case Some(del) =>
            match RenameTarget(Join(ws[2..], " "))
            case Raise(e) => Raise(e)
            case Ok(fstr) =>
              match ParseInt(timestamp)
              case None => Raise(ValueError)
              case Some(t) => Ok(CommitGroups.CommitData(fstr, author, ins, del, t, shaShort))
  }

  /** What one turn of the numstat loop does: pass over lines, give a record, or raise. */
  datatype NumstatTurn = Pass(n: nat) | Record(data: CommitGroups.CommitData) | Stop(error: Exception)

  /**
   * One turn of the loop of `_process_commit_lines_for` on the lines `w`
   * that are left. A blank line is passed over; a header that is not two
   * words raises `ValueError`; a missing author line raises `IndexError`;
   * an author line that ends the log ends the loop (all lines are passed
   * over); a record of a filter-matched author or with an empty stat line
   * gives no record. As written (`skipWhole` false) a record of an
   * excluded SHA passes over its header line only; with `skipWhole` it
   * also passes over its author and stat lines.
   */
  function NumstatStep(w: seq<string>, exShas: set<string>, filterMatched: string -> bool, skipWhole: bool)
    : (t: NumstatTurn)
    requires |w| > 0
    ensures t.Pass? ==> 1 <= t.n <= |w|
    ensures t.Record? ==> |w| >= 3
  {
    if w[0] == "" then Pass(1)
    else
      var hdr := Words(w[0]);
      if |hdr| != 2 then Stop(ValueError)
      else if hdr[0] in exShas then Pass(if skipWhole then Upto(3, w) else 1)
      else if |w| < 2 then Stop(IndexError)
      else if |w| < 3 then Pass(|w|)
      else if filterMatched(w[1]) || w[2] == "" then Pass(3)
      else match StatRecord(hdr[0], hdr[1], w[1], w[2])
        case Raise(e) => Stop(e)
        case Ok(d) => Record(d)
  }

  /**
   * The records the loop of `_process_commit_lines_for` reads from the
   * lines `w` that are left, after the records `done`; an exception ends it.
   */
  function Numstat(w: seq<string>, done: seq<CommitGroups.CommitData>, exShas: set<string>,
                   filterMatched: string -> bool, skipWhole: bool)
    : Result<seq<CommitGroups.CommitData>>
    decreases |w|
  {
    if |w| == 0 then Ok(done)
    else match NumstatStep(w, exShas, filterMatched, skipWhole)
      case Pass(n) => Numstat(w[n..], done, exShas, filterMatched, skipWhole)
      case Record(d) => Numstat(w[3..], done + [d], exShas, filterMatched, skipWhole)
      case Stop(e) => Raise(e)
  }

  /**
   * `_process_commit_lines_for`: the groups of the records. As written the
   * merge test is `len(commits) > 1` and an excluded record is only partly
   * consumed; corrected, a record merges into any matching last group and
   * an excluded record is skipped whole.
   */
  function CommitLines(lines: seq<string>, exShas: set<string>, filterMatched: string -> bool, asWritten: bool)
    : Result<seq<CommitGroups.Group>>
  {
    match Numstat(lines, [], exShas, filterMatched, !asWritten)
    case Raise(e) => Raise(e)
    case Ok(ds) => Ok(CommitGroups.Grouped(ds, if asWritten then 2 else 1))
  }

  /** A numstat record as `git log --numstat --pretty=format:%n%h %ct%n%aN` prints it for one file. */
  datatype NumstatEntry = NumstatEntry(shaShort: string, date: nat, author: string, insertions: nat,
                                       deletions: nat, path: string)

  /** The blank line, header, author and tab-separated stat line of an entry. */
  function EntryLines(e: NumstatEntry): seq<string>
  {
    ["", e.shaShort + " " + NatToString(e.date), e.author,
     NatToString(e.insertions) + "\t" + NatToString(e.deletions) + "\t" + e.path]
  }

  function NumstatLines(es: seq<NumstatEntry>): seq<string>
  {
    if es == [] then [] else EntryLines(es[0]) + NumstatLines(es[1..])
  }

  /** A SHA and a path without whitespace, and a path without "=". */
  predicate WellFormedEntry(e: NumstatEntry)
  {
    IsWord(e.shaShort) && IsWord(e.path) && '=' !in e.path
  }

  /** The records the entries should give: those of SHAs not excluded and of authors not filtered out. */
  function ExpectedData(es: seq<NumstatEntry>, exShas: set<string>, filterMatched: string -> bool)
    : seq<CommitGroups.CommitData>
  {
    if es == [] then []
    else
      var e := es[0];
      (if e.shaShort in exShas || filterMatched(e.author) then []
       else [CommitGroups.CommitData(e.path, e.author, e.insertions, e.deletions, e.date, e.shaShort)])
      + ExpectedData(es[1..], exShas, filterMatched)
  }

  /** The digits of a number contain no whitespace. */
  lemma DigitsAreWord(n: nat)
    ensures IsWord(NatToString(n))
  {
    NatToStringRoundTrip(n);
    var s := NatToString(n);
    forall i | 0 <= i < |s| ensures !IsSpace(s[i]) {
      assert IsDigit(s[i]);
    }
  }

  /** The header of an entry splits into its SHA and its date. */
  lemma HeaderWords(sha: string, date: nat)
    requires IsWord(sha)
    ensures Words(sha + " " + NatToString(date)) == [sha, NatToString(date)]
  {
    DigitsAreWord(date);
    assert sha + " " + NatToString(date) == sha + [' '] + NatToString(date);
    WordThenSpace(sha, ' ', NatToString(date));
    WordAlone(NatToString(date));
  }

  /** The stat line of an entry splits into its two counts and its path. */
  lemma StatWords(ins: nat, del: nat, path: string)
    requires IsWord(path)
    ensures Words(NatToString(ins) + "\t" + NatToString(del) + "\t" + path)
         == [NatToString(ins), NatToString(del), path]
  {
    var a := NatToString(ins);
    var b := NatToString(del);
    var tail := b + ['\t'] + path;
    assert Words(tail) == [b, path] by {
      DigitsAreWord(del);
      WordThenSpace(b, '\t', path);
      WordAlone(path);
    }
    assert Words(a + ['\t'] + tail) == [a] + Words(tail) by {
      DigitsAreWord(ins);
      WordThenSpace(a, '\t', tail);
    }
    assert a + "\t" + b + "\t" + path == a + ['\t'] + tail;
  }

  /** The stat line of a well-formed entry gives its record. */
  lemma StatRecordOf(e: NumstatEntry)
    requires WellFormedEntry(e)
    ensures StatRecord(e.shaShort, NatToString(e.date), e.author,
                       NatToString(e.insertions) + "\t" + NatToString(e.deletions) + "\t" + e.path)
         == Ok(CommitGroups.CommitData(e.path, e.author, e.insertions, e.deletions, e.date, e.shaShort))
  {
    StatWords(e.insertions, e.deletions, e.path);
    var ws := [NatToString(e.insertions), NatToString(e.deletions), e.path];
    assert ws[2..] == [e.path];
    ParseIntRoundTrip(e.insertions);
    ParseIntRoundTrip(e.deletions);
    ParseIntRoundTrip(e.date);
    RenamePlain(e.path);
  }

  /** One entry in front of the rest of the log. */
  lemma NumstatEntryStep(e: NumstatEntry, rest: seq<string>, done: seq<CommitGroups.CommitData>, exShas: set<string>,
                         filterMatched: string -> bool, skipWhole: bool)
    requires WellFormedEntry(e)
    requires skipWhole || e.shaShort !in exShas
    ensures Numstat(EntryLines(e) + rest, done, exShas, filterMatched, skipWhole)
         == Numstat(rest, done + (if e.shaShort in exShas || filterMatched(e.author) then []
                                  else [CommitGroups.CommitData(e.path, e.author, e.insertions, e.deletions, e.date,
                                                                e.shaShort)]),
                    exShas, filterMatched, skipWhole)
  {
    var all := EntryLines(e) + rest;
    var w := all[1..];
    assert all[0] == "";
    assert w[0] == e.shaShort + " " + NatToString(e.date) && w[1] == e.author;
    assert w[2] == NatToString(e.insertions) + "\t" + NatToString(e.deletions) + "\t" + e.path;
    assert w[3..] == rest;
    HeaderWords(e.shaShort, e.date);
    assert w[2] != "" by {
      assert |w[2]| >= |NatToString(e.insertions)| + 1;
    }
    StatRecordOf(e);
    assert done + [] == done;
  }

  /**
   * Reading the log of well-formed entries gives the record of every entry
   * that is neither excluded nor filtered out, in order: always when
   * excluded records are skipped whole, and as written only when no entry
   * is excluded.
   */
  lemma {:induction false} NumstatRoundTrip(es: seq<NumstatEntry>, done: seq<CommitGroups.CommitData>,
                                            exShas: set<string>, filterMatched: string -> bool, skipWhole: bool)
    requires forall i :: 0 <= i < |es| ==> WellFormedEntry(es[i])
    requires skipWhole || forall i :: 0 <= i < |es| ==> es[i].shaShort !in exShas
    ensures Numstat(NumstatLines(es), done, exShas, filterMatched, skipWhole)
         == Ok(done + ExpectedData(es, exShas, filterMatched))
  {
    if es == [] {
      assert done + [] == done;
    } else {
      var e := es[0];
      NumstatEntryStep(e, NumstatLines(es[1..]), done, exShas, filterMatched, skipWhole);
      var done' := ExpectedCons(es, done, exShas, filterMatched);
      NumstatRoundTrip(es[1..], done', exShas, filterMatched, skipWhole);
    }
  }

  /** The records expected after `done` are those of the first entry, then those of the rest. */
  lemma ExpectedCons(es: seq<NumstatEntry>, done: seq<CommitGroups.CommitData>, exShas: set<string>,
                     filterMatched: string -> bool)
    returns (done': seq<CommitGroups.CommitData>)
    requires es != []
    ensures done' == done + (if es[0].shaShort in exShas || filterMatched(es[0].author) then []
                             else [CommitGroups.CommitData(es[0].path, es[0].author, es[0].insertions,
                                                           es[0].deletions, es[0].date, es[0].shaShort)])
    ensures done' + ExpectedData(es[1..], exShas, filterMatched) == done + ExpectedData(es, exShas, filterMatched)
  {
    var e := es[0];
    var one := if e.shaShort in exShas || filterMatched(e.author) then []
               else [CommitGroups.CommitData(e.path, e.author, e.insertions, e.deletions, e.date, e.shaShort)];
    done' := done + one;
    assert ExpectedData(es, exShas, filterMatched) == one + ExpectedData(es[1..], exShas, filterMatched);
    assert done + one + ExpectedData(es[1..], exShas, filterMatched)
        == done + (one + ExpectedData(es[1..], exShas, filterMatched));
  }

  /**
   * As written, the record of an excluded SHA leaves its author line to be
   * read as the next header; a one-word author is not "sha timestamp" and
   * unpacking it raises. Skipping the whole record reads the same log
   * without an error.
   */
  lemma NumstatExcludedRaises(filterMatched: string -> bool)
    ensures CommitLines(["", "abc 100", "Alice", "1\t0\ta.py"], {"abc"}, filterMatched, true) == Raise(ValueError)
    ensures CommitLines(["", "abc 100", "Alice", "1\t0\ta.py"], {"abc"}, filterMatched, false) == Ok([])
  {
    var lines := ["", "abc 100", "Alice", "1\t0\ta.py"];
    ExampleHeaderWords();
    ExampleAuthorWords();
    var w1 := lines[1..];
    assert w1 == ["abc 100", "Alice", "1\t0\ta.py"];
    assert w1[1..] == ["Alice", "1\t0\ta.py"] && w1[3..] == [];
    assert Numstat(w1[1..], [], {"abc"}, filterMatched, false) == Raise(ValueError);
    assert Numstat(lines, [], {"abc"}, filterMatched, false) == Raise(ValueError);
    assert Numstat(w1[3..], [], {"abc"}, filterMatched, true) == Ok([]);
    assert Numstat(lines, [], {"abc"}, filterMatched, true) == Ok([]);
    CommitLinesOf(lines, {"abc"}, filterMatched, false, []);
  }

  /**
   * As written, two commits of one author to one file that come first
   * stay two groups, while the corrected merge test joins them.
   */
  lemma NumstatFirstTwoApart(a: NumstatEntry, b: NumstatEntry, filterMatched: string -> bool)
    requires WellFormedEntry(a) && WellFormedEntry(b)
    requires a.path == b.path && a.author == b.author && !filterMatched(a.author)
    ensures var da := CommitGroups.CommitData(a.path, a.author, a.insertions, a.deletions, a.date, a.shaShort);
            var db := CommitGroups.CommitData(b.path, b.author, b.insertions, b.deletions, b.date, b.shaShort);
      CommitLines(NumstatLines([a, b]), {}, filterMatched, true) == Ok([CommitGroups.NewGroup(da), CommitGroups.NewGroup(db)])
      && CommitLines(NumstatLines([a, b]), {}, filterMatched, false) == Ok([CommitGroups.AddTo(CommitGroups.NewGroup(da), db)])
  {
    var da := CommitGroups.CommitData(a.path, a.author, a.insertions, a.deletions, a.date, a.shaShort);
    var db := CommitGroups.CommitData(b.path, b.author, b.insertions, b.deletions, b.date, b.shaShort);
    var lines := NumstatLines([a, b]);
    assert ExpectedData([a, b], {}, filterMatched) == [da, db] by {
      assert [a, b][1..] == [b];
      assert [b][1..] == [];
      assert ExpectedData([b], {}, filterMatched) == [db];
    }
    NumstatRoundTrip([a, b], [], {}, filterMatched, true);
    NumstatRoundTrip([a, b], [], {}, filterMatched, false);
    assert [] + [da, db] == [da, db];
    CommitLinesOf(lines, {}, filterMatched, true, [da, db]);
    CommitLinesOf(lines, {}, filterMatched, false, [da, db]);
    CommitGroups.StatsFirstTwoApart(da, db);
  }

  /** The header line of the example above splits into two words. */
  lemma ExampleHeaderWords()
    ensures Words("abc 100") == ["abc", "100"]
  {
    assert IsWord("abc") by {
      forall i | 0 <= i < 3 ensures !IsSpace("abc"[i]) {}
    }
    assert IsWord("100") by {
      forall i | 0 <= i < 3 ensures !IsSpace("100"[i]) {}
    }
    assert "abc 100" == "abc" + [' '] + "100";
    WordThenSpace("abc", ' ', "100");
    WordAlone("100");
  }

  /** The author line of the example above is one word. */
  lemma ExampleAuthorWords()
    ensures Words("Alice") == ["Alice"]
  {
    assert IsWord("Alice") by {
      forall i | 0 <= i < 5 ensures !IsSpace("Alice"[i]) {}
    }
    WordAlone("Alice");
  }

  lemma CommitLinesOf(lines: seq<string>, exShas: set<string>, filterMatched: string -> bool, asWritten: bool,
                      ds: seq<CommitGroups.CommitData>)
    requires Numstat(lines, [], exShas, filterMatched, !asWritten) == Ok(ds)
    ensures CommitLines(lines, exShas, filterMatched, asWritten) == Ok(CommitGroups.Grouped(ds, if asWritten then 2 else 1))
  {
  }

  // ------------------------------------------------------------- state

  /**
   * One turn of the first-pass loop at line `pos` with `acc` collected so
   * far: what the turn does, where the next one starts and what is
   * collected after it.
   */
  method ReadFirstPassTurn(lines: seq<string>, pos: nat, revs: seq<string>, exMessage: string -> bool, acc: Outcome)
    returns (t: Turn, pos': nat, acc': Outcome)
    requires pos < |lines| && acc.error.None?
    ensures t.Fail? ==> FirstPass(lines[pos..], acc, revs, exMessage, true) == acc.(error := Some(t.error))
    ensures !t.Fail? ==> (pos < pos' <= |lines| && acc'.error.None?
      && FirstPass(lines[pos..], acc, revs, exMessage, true) == FirstPass(lines[pos'..], acc', revs, exMessage, true))
    ensures t.Accept? ==> acc'.found == acc.found + [t.commit] && acc'.persons == acc.persons + [(t.author, t.email)]
    ensures !t.Accept? ==> acc'.found == acc.found && acc'.persons == acc.persons
  {
    t := FirstPassStep(lines[pos..], revs, exMessage, true);
    match t
    case Fail(e) =>
      return t, pos, acc;
    case Skip(n) =>
      assert lines[pos..][n..] == lines[pos + n..];
      return t, pos + n, acc;
    case Exclude(sha, n) =>
      assert lines[pos..][n..] == lines[pos + n..];
      return t, pos + n, acc.(excluded := acc.excluded + {sha});
    case Accept(c, author, email) =>
      assert lines[pos..][6..] == lines[pos + 6..];
      return t, pos + 6, acc.(found := acc.found + [c], persons := acc.persons + [(author, email)]);
  }

  /**
   * One turn of the numstat loop at line `pos` after the records `done`:
   * what the turn does and where the next one starts.
   */
  method ReadNumstatTurn(lines: seq<string>, pos: nat, exShas: set<string>, filterMatched: string -> bool,
                         ghost done: seq<CommitGroups.CommitData>)
    returns (t: NumstatTurn, pos': nat)
    requires pos < |lines|
    ensures t.Stop? ==> Numstat(lines[pos..], done, exShas, filterMatched, true) == Raise(t.error)
    ensures !t.Stop? ==> (pos < pos' <= |lines|
      && Numstat(lines[pos..], done, exShas, filterMatched, true)
         == Numstat(lines[pos'..], if t.Record? then done + [t.data] else done, exShas, filterMatched, true))
  {
    t := NumstatStep(lines[pos..], exShas, filterMatched, true);
    match t
    case Stop(e) =>
      return t, pos;
    case Pass(n) =>
      assert lines[pos..][n..] == lines[pos + n..];
      return t, pos + n;
    case Record(d) =>
      assert lines[pos..][3..] == lines[pos + 3..];
      return t, pos + 3;
  }

  /** The part of `StatsReader` the two parsers read and fill. */
  class LogReader {
    /** The class-level `ex_revs`: revisions whose commits are excluded. */
    var exRevs: seq<string>
    var commits: seq<LogCommit>
    var exShaShorts: set<string>
    var sha2commit: map<string, LogCommit>
    /** The `add_person` calls made on the persons database, in order. */
    var persons: seq<(string, string)>

    constructor (exRevs: seq<string>)
      ensures this.exRevs == exRevs && commits == [] && exShaShorts == {} && sha2commit == map[] && persons == []
    {
      this.exRevs := exRevs;
      commits := [];
      exShaShorts := {};
      sha2commit := map[];
      persons := [];
    }

    /**
     * `_get_commits_first_pass` on the lines of the log, with the whole
     * excluded record skipped: files every accepted commit under both SHAs
     * and adds its author as it goes; at the end, without an exception,
     * the accepted commits sorted by date and the excluded short SHAs.
     */
    method GetCommitsFirstPass(lines: seq<string>, exMessage: string -> bool) returns (err: Option<Exception>)
      modifies this
      ensures var o := FirstPass(lines, NoOutcome, old(exRevs), exMessage, true);
        err == o.error
        && sha2commit == Filed(old(sha2commit), o.found)
        && persons == old(persons) + o.persons
        && (err.None? ==> commits == CommitWalk.SortBy(o.found, CommitDate) && exShaShorts == o.excluded)
        && (err.Some? ==> commits == old(commits) && exShaShorts == old(exShaShorts))
      ensures exRevs == old(exRevs)
    {
      var revs := exRevs;
      ghost var goal := FirstPass(lines, NoOutcome, revs, exMessage, true);
      var acc := NoOutcome;
      var pos := 0;
      assert lines[0..] == lines;
      while pos < |lines|
        invariant pos <= |lines| && acc.error.None?
        invariant goal == FirstPass(lines[pos..], acc, revs, exMessage, true)
        invariant sha2commit == Filed(old(sha2commit), acc.found)
        invariant persons == old(persons) + acc.persons
        invariant commits == old(commits) && exShaShorts == old(exShaShorts) && exRevs == revs
        decreases |lines| - pos
      {
        var t, next, acc' := ReadFirstPassTurn(lines, pos, revs, exMessage, acc);
        if t.Fail? {
          return Some(t.error);
        }
        if t.Accept? {
          AddCommit(t.commit, t.author, t.email);
          FiledSnoc(old(sha2commit), acc.found, t.commit);
        }
        pos, acc := next, acc';
      }
      commits := CommitWalk.SortBy(acc.found, CommitDate);
      exShaShorts := acc.excluded;
      err := None;
    }

    /** `add_person` and the two `sha2commit` entries of an accepted commit. */
    method AddCommit(c: LogCommit, author: string, email: string)
      modifies this
      ensures sha2commit == old(sha2commit)[c.shaShort := c][c.shaLong := c]
      ensures persons == old(persons) + [(author, email)]
      ensures commits == old(commits) && exShaShorts == old(exShaShorts) && exRevs == old(exRevs)
    {
      persons := persons + [(author, email)];
      sha2commit := sha2commit[c.shaShort := c];
      sha2commit := sha2commit[c.shaLong := c];
    }

    /**
     * `_process_commit_lines_for` on the lines of one file's log, with the
     * corrected merge test and the whole record of an excluded SHA
     * skipped: the groups of its records, or the exception that ends it.
     */
    method ProcessCommitLines(lines: seq<string>, filterMatched: string -> bool)
      returns (r: Result<seq<CommitGroups.Group>>)
      ensures r == CommitLines(lines, exShaShorts, filterMatched, false)
    {
      var ex := exShaShorts;
      ghost var goal := Numstat(lines, [], ex, filterMatched, true);
      ghost var done: seq<CommitGroups.CommitData> := [];
      var groups: seq<CommitGroups.Group> := [];
      var pos := 0;
      assert lines[0..] == lines;
      while pos < |lines|
        invariant pos <= |lines|
        invariant goal == Numstat(lines[pos..], done, ex, filterMatched, true)
        invariant groups == CommitGroups.Grouped(done, 1)
        decreases |lines| - pos
      {
        var t, next := ReadNumstatTurn(lines, pos, ex, filterMatched, done);
        if t.Stop? {
          return Raise(t.error);
        }
        if t.Record? {
          groups := CommitGroups.AddRecord(groups, t.data);
          assert (done + [t.data])[..|done|] == done && (done + [t.data])[|done|] == t.data;
          done := done + [t.data];
        }
        pos := next;
      }
      r := Ok(groups);
    }
  }
}
