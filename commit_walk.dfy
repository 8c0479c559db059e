/**
 * Walking the commits of the repository (repo_reader.py and repo_base.py):
 * numbering them oldest first, choosing the newest and oldest commit that
 * the `--until` and `--since` dates allow, and the first pass that collects
 * the commits in range and the SHAs the exclusion patterns remove.
 *
 * pygit2's walks are sequences of `Commit` values, newest first for a TIME
 * walk and oldest first for a REVERSE walk; dates are UNIX timestamps.
 */
module CommitWalk {
  import opened Errors

  /** A commit of a walk: its long id, short id, commit time and message. */
  datatype Commit = Commit(id: string, shortId: string, time: int, message: string)

  // --------------------------------------------------------- numbering

  /** The numbering dicts that `__init__` fills, plus the head and initial commit ids. */
  datatype Numbering = Numbering(
    short2id: map<string, string>,
    id2short: map<string, string>,
    short2nr: map<string, nat>,
    nr2short: map<nat, string>,
    id2nr: map<string, nat>,
    nr2id: map<nat, string>)

  predicate DistinctIds(walk: seq<Commit>)
  {
    forall i, j :: 0 <= i < j < |walk| ==> walk[i].id != walk[j].id && walk[i].shortId != walk[j].shortId
  }

  /** The numbering dicts after the loop has seen `walk`: the last commit seen gets number `|walk|`. */
  function NumberOf(walk: seq<Commit>): Numbering
  {
    if |walk| == 0 then Numbering(map[], map[], map[], map[], map[], map[])
    else
      var num := NumberOf(walk[..|walk| - 1]);
      var c, nr := walk[|walk| - 1], |walk|;
      Numbering(
        num.short2id[c.shortId := c.id], num.id2short[c.id := c.shortId],
        num.short2nr[c.shortId := nr], num.nr2short[nr := c.shortId],
        num.id2nr[c.id := nr], num.nr2id[nr := c.id])
  }

  /** Commits are numbered 1..n oldest first: number `k` is the `k`-th commit of the REVERSE walk. */
  lemma {:induction false} NumberedByPosition(walk: seq<Commit>)
    ensures forall k :: k in NumberOf(walk).nr2short <==> 1 <= k <= |walk|
    ensures forall k :: k in NumberOf(walk).nr2id <==> 1 <= k <= |walk|
    ensures forall k :: 1 <= k <= |walk| ==>
      NumberOf(walk).nr2short[k] == walk[k - 1].shortId && NumberOf(walk).nr2id[k] == walk[k - 1].id
  {
    if |walk| > 0 {
      var n := |walk|;
      var prefix := walk[..n - 1];
      NumberedByPosition(prefix);
      var num, prev := NumberOf(walk), NumberOf(prefix);
      assert num.nr2short == prev.nr2short[n := walk[n - 1].shortId];
      assert num.nr2id == prev.nr2id[n := walk[n - 1].id];
      forall k: nat | 1 <= k < n
        ensures num.nr2short[k] == walk[k - 1].shortId && num.nr2id[k] == walk[k - 1].id
      {
        assert prefix[k - 1] == walk[k - 1];
      }
    }
  }

  /** Every commit's short id and id get a number, and that number maps back to them. */
  lemma {:induction false} NumbersMapBack(walk: seq<Commit>)
    ensures forall s :: s in NumberOf(walk).short2nr ==>
      1 <= NumberOf(walk).short2nr[s] <= |walk| && NumberOf(walk).short2nr[s] in NumberOf(walk).nr2short
      && NumberOf(walk).nr2short[NumberOf(walk).short2nr[s]] == s
    ensures forall s :: s in NumberOf(walk).id2nr ==>
      1 <= NumberOf(walk).id2nr[s] <= |walk| && NumberOf(walk).id2nr[s] in NumberOf(walk).nr2id
      && NumberOf(walk).nr2id[NumberOf(walk).id2nr[s]] == s
    ensures forall k :: 0 <= k < |walk| ==> walk[k].shortId in NumberOf(walk).short2nr && walk[k].id in NumberOf(walk).id2nr
  {
    if |walk| > 0 {
      var n := |walk|;
      var prefix := walk[..n - 1];
      NumbersMapBack(prefix);
      var num, prev := NumberOf(walk), NumberOf(prefix);
      var c := walk[n - 1];
      assert num.short2nr == prev.short2nr[c.shortId := n] && num.nr2short == prev.nr2short[n := c.shortId];
      assert num.id2nr == prev.id2nr[c.id := n] && num.nr2id == prev.nr2id[n := c.id];
      forall k | 0 <= k < n - 1
        ensures walk[k].shortId in num.short2nr && walk[k].id in num.id2nr
      {
        assert prefix[k] == walk[k];
      }
    }
  }

  /** The short-id and id maps agree with the numbers: `short2id[s]` is the id numbered like `s`, and back. */
  lemma {:induction false} IdsAgreeWithNumbers(walk: seq<Commit>)
    ensures forall s :: s in NumberOf(walk).short2id <==> s in NumberOf(walk).short2nr
    ensures forall s :: s in NumberOf(walk).id2short <==> s in NumberOf(walk).id2nr
    ensures forall s :: s in NumberOf(walk).short2id ==>
      NumberOf(walk).short2nr[s] in NumberOf(walk).nr2id
      && NumberOf(walk).short2id[s] == NumberOf(walk).nr2id[NumberOf(walk).short2nr[s]]
    ensures forall s :: s in NumberOf(walk).id2short ==>
      NumberOf(walk).id2nr[s] in NumberOf(walk).nr2short
      && NumberOf(walk).id2short[s] == NumberOf(walk).nr2short[NumberOf(walk).id2nr[s]]
  {
    if |walk| > 0 {
      var prefix := walk[..|walk| - 1];
      IdsAgreeWithNumbers(prefix);
      NumbersMapBack(prefix);
    }
  }

  /** With distinct short ids, `short2nr` undoes `nr2short`. */
  lemma {:induction false} ShortNumbersInverse(walk: seq<Commit>)
    requires DistinctIds(walk)
    ensures forall k :: 1 <= k <= |walk| ==>
      k in NumberOf(walk).nr2short && NumberOf(walk).nr2short[k] in NumberOf(walk).short2nr
      && NumberOf(walk).short2nr[NumberOf(walk).nr2short[k]] == k
  {
    NumberedByPosition(walk);
    if |walk| > 0 {
      var n := |walk|;
      var prefix := walk[..n - 1];
      assert DistinctIds(prefix);
      ShortNumbersInverse(prefix);
      NumberedByPosition(prefix);
      var num, prev := NumberOf(walk), NumberOf(prefix);
      var c := walk[n - 1];
      assert num.short2nr == prev.short2nr[c.shortId := n];
      forall k: nat | 1 <= k < n
        ensures num.short2nr[num.nr2short[k]] == k
      {
        assert prefix[k - 1] == walk[k - 1];
        assert walk[k - 1].shortId != c.shortId;
      }
    }
  }

  /** With distinct ids, `id2nr` undoes `nr2id`. */
  lemma {:induction false} IdNumbersInverse(walk: seq<Commit>)
    requires DistinctIds(walk)
    ensures forall k :: 1 <= k <= |walk| ==>
      k in NumberOf(walk).nr2id && NumberOf(walk).nr2id[k] in NumberOf(walk).id2nr
      && NumberOf(walk).id2nr[NumberOf(walk).nr2id[k]] == k
  {
    NumberedByPosition(walk);
    if |walk| > 0 {
      var n := |walk|;
      var prefix := walk[..n - 1];
      assert DistinctIds(prefix);
      IdNumbersInverse(prefix);
      NumberedByPosition(prefix);
      var num, prev := NumberOf(walk), NumberOf(prefix);
      var c := walk[n - 1];
      assert num.id2nr == prev.id2nr[c.id := n];
      forall k: nat | 1 <= k < n
        ensures num.id2nr[num.nr2id[k]] == k
      {
        assert prefix[k - 1] == walk[k - 1];
        assert walk[k - 1].id != c.id;
      }
    }
  }

  /** With distinct ids, the number maps and the id maps are inverses of each other. */
  lemma NumbersInverse(walk: seq<Commit>)
    requires DistinctIds(walk)
    ensures forall k :: 1 <= k <= |walk| ==>
      k in NumberOf(walk).nr2short && k in NumberOf(walk).nr2id
      && NumberOf(walk).nr2short[k] in NumberOf(walk).short2nr && NumberOf(walk).short2nr[NumberOf(walk).nr2short[k]] == k
      && NumberOf(walk).nr2id[k] in NumberOf(walk).id2nr && NumberOf(walk).id2nr[NumberOf(walk).nr2id[k]] == k
  {
    ShortNumbersInverse(walk);
    IdNumbersInverse(walk);
  }

  /**
   * The numbering loop of `__init__` over the REVERSE walk, with the head
   * and initial commit ids it then reads from `nr2commit`.
   */
  method NumberCommits(walk: seq<Commit>) returns (num: Numbering, ends: Result<(string, string)>)
    ensures num == NumberOf(walk)
    ensures ends.Raise? <==> |walk| == 0
    ensures ends.Raise? ==> ends.error == KeyError
    ensures ends.Ok? ==> ends.value == (walk[|walk| - 1].id, walk[0].id)
  {
    num := Numbering(map[], map[], map[], map[], map[], map[]);
    var nr := 1;
    for i := 0 to |walk|
      invariant nr == i + 1
      invariant num == NumberOf(walk[..i])
    {
      var oid, shaShort := walk[i].id, walk[i].shortId;
      assert walk[..i + 1][..i] == walk[..i];
      num := Numbering(
        num.short2id[shaShort := oid],
        num.id2short[oid := shaShort],
        num.short2nr[shaShort := nr],
        num.nr2short[nr := shaShort],
        num.id2nr[oid := nr],
        num.nr2id[nr := oid]);
      nr := nr + 1;
    }
    assert walk[..|walk|] == walk;
    NumberedByPosition(walk);
    // `self.nr2commit[len(self.nr2commit)]` and `self.nr2commit[1]`; the dict has `nr - 1` entries
    if nr - 1 == 0 {
      ends := Raise(KeyError);
    } else {
      ends := Ok((num.nr2id[nr - 1], num.nr2id[1]));
    }
  }

  // ------------------------------------------------- newest and oldest

  /**
   * The loop of `_set_newest_oldest` from index `i` on, over the TIME walk
   * (newest first): commits after `until` are skipped, the first commit
   * left is the newest, and the first commit before `since` ends the loop
   * with the oldest set to the previous commit. As written, `previous` is
   * only updated for skipped commits; `everyStep` updates it for every
   * commit the loop passes. Gives (newest, oldest).
   */
  function Scan(walk: seq<Commit>, until: Option<int>, since: Option<int>, i: nat,
                previous: Option<Commit>, newest: Option<Commit>, everyStep: bool): (Option<Commit>, Option<Commit>)
    requires i <= |walk|
    decreases |walk| - i
  {
    if i == |walk| then (newest, None)
    else
      var c := walk[i];
      if until.Some? && c.time > until.value then Scan(walk, until, since, i + 1, Some(c), newest, everyStep)
      else
        var newest' := if newest.None? then Some(c) else newest;
        if since.Some? && c.time < since.value then (newest', previous)
        else Scan(walk, until, since, i + 1, if everyStep then Some(c) else previous, newest', everyStep)
  }

  /** The ids `_set_newest_oldest` sets: the newest falls back to the head, the oldest to the initial commit. */
  function NewestOldest(walk: seq<Commit>, until: Option<int>, since: Option<int>, headId: string, initialId: string,
                        everyStep: bool): (string, string)
  {
    var (newest, oldest) := Scan(walk, until, since, 0, None, None, everyStep);
    (if newest.Some? then newest.value.id else headId, if oldest.Some? then oldest.value.id else initialId)
  }

  /** As written, without `--until` the oldest commit is always the initial commit, whatever `--since` says. */
  lemma {:induction false} AsWrittenIgnoresSince(walk: seq<Commit>, since: Option<int>, i: nat, newest: Option<Commit>)
    requires i <= |walk|
    ensures Scan(walk, None, since, i, None, newest, false).1 == None
    decreases |walk| - i
  {
    if i < |walk| {
      var c := walk[i];
      if !(since.Some? && c.time < since.value) {
        AsWrittenIgnoresSince(walk, since, i + 1, if newest.None? then Some(c) else newest);
      }
    }
  }

  /** With `--until` 9 and `--since` 6 over commits at 10, 8 and 5, the loop as written picks as oldest a commit newer than the newest. */
  lemma OldestNewerThanNewest()
    ensures var walk := [Commit("a", "a", 10, ""), Commit("b", "b", 8, ""), Commit("c", "c", 5, "")];
      NewestOldest(walk, Some(9), Some(6), "a", "c", false) == ("b", "a")
      && NewestOldest(walk, Some(9), Some(6), "a", "c", true) == ("b", "b")
  {
    var walk := [Commit("a", "a", 10, ""), Commit("b", "b", 8, ""), Commit("c", "c", 5, "")];
    assert Scan(walk, Some(9), Some(6), 2, Some(walk[0]), Some(walk[1]), false) == (Some(walk[1]), Some(walk[0]));
    assert Scan(walk, Some(9), Some(6), 2, Some(walk[1]), Some(walk[1]), true) == (Some(walk[1]), Some(walk[1]));
  }

  /** The commit is not after `until`. */
  predicate NotAfter(c: Commit, until: Option<int>)
  {
    until.None? || c.time <= until.value
  }

  /** The index of the first commit from `i` on that is not after `until`, or `|walk|` if there is none. */
  function FirstNotAfter(walk: seq<Commit>, until: Option<int>, i: nat): (k: nat)
    requires i <= |walk|
    ensures i <= k <= |walk|
    ensures k < |walk| ==> NotAfter(walk[k], until)
    ensures forall j :: i <= j < k ==> !NotAfter(walk[j], until)
    decreases |walk| - i
  {
    if i == |walk| || NotAfter(walk[i], until) then i else FirstNotAfter(walk, until, i + 1)
  }

  /** The index of the first commit from `i` on that the loop stops at, or `|walk|` if there is none. */
  function FirstStop(walk: seq<Commit>, until: Option<int>, since: Option<int>, i: nat): (k: nat)
    requires i <= |walk|
    ensures i <= k <= |walk|
    ensures k < |walk| ==> StopsAt(walk[k], until, since)
    ensures forall j :: i <= j < k ==> !StopsAt(walk[j], until, since)
    decreases |walk| - i
  {
    if i == |walk| || StopsAt(walk[i], until, since) then i else FirstStop(walk, until, since, i + 1)
  }

  /** The newest the loop finds from index `i` on, updating `previous` at every step. */
  lemma {:induction false} ScanNewest(walk: seq<Commit>, until: Option<int>, since: Option<int>, i: nat,
                                      previous: Option<Commit>, newest: Option<Commit>)
    requires i <= |walk|
    ensures var f := FirstNotAfter(walk, until, i);
      Scan(walk, until, since, i, previous, newest, true).0
        == (if newest.Some? then newest else if f < |walk| then Some(walk[f]) else None)
    decreases |walk| - i
  {
    if i < |walk| {
      var c := walk[i];
      if until.Some? && c.time > until.value {
        assert FirstNotAfter(walk, until, i) == FirstNotAfter(walk, until, i + 1);
        ScanNewest(walk, until, since, i + 1, Some(c), newest);
      } else if !(since.Some? && c.time < since.value) {
        assert FirstNotAfter(walk, until, i) == i;
        ScanNewest(walk, until, since, i + 1, Some(c), if newest.None? then Some(c) else newest);
      }
    }
  }

  /** The oldest the loop sets from index `i` on, updating `previous` at every step. */
  lemma {:induction false} ScanOldest(walk: seq<Commit>, until: Option<int>, since: Option<int>, i: nat,
                                      previous: Option<Commit>, newest: Option<Commit>)
    requires i <= |walk|
    ensures var k := FirstStop(walk, until, since, i);
      Scan(walk, until, since, i, previous, newest, true).1
        == (if k == |walk| then None else if k == i then previous else Some(walk[k - 1]))
    decreases |walk| - i
  {
    if i < |walk| {
      var c := walk[i];
      if until.Some? && c.time > until.value {
        assert FirstStop(walk, until, since, i) == FirstStop(walk, until, since, i + 1);
        ScanOldest(walk, until, since, i + 1, Some(c), newest);
      } else if !(since.Some? && c.time < since.value) {
        assert FirstStop(walk, until, since, i) == FirstStop(walk, until, since, i + 1);
        ScanOldest(walk, until, since, i + 1, Some(c), if newest.None? then Some(c) else newest);
      }
    }
  }

  /**
   * Updating `previous` at every step: the newest is the first commit not
   * after `until`, if any; the oldest is set exactly when the loop stops at
   * a commit that is not the first of the walk, and it is the commit just
   * before the first commit that is not after `until` but older than `since`.
   */
  lemma ScanMeaning(walk: seq<Commit>, until: Option<int>, since: Option<int>)
    ensures var (n, o) := Scan(walk, until, since, 0, None, None, true);
      var f, k := FirstNotAfter(walk, until, 0), FirstStop(walk, until, since, 0);
      && (n.Some? <==> f < |walk|)
      && (n.Some? ==> n.value == walk[f])
      && (o.Some? <==> 0 < k < |walk|)
      && (o.Some? ==> o.value == walk[k - 1])
  {
    ScanNewest(walk, until, since, 0, None, None);
    ScanOldest(walk, until, since, 0, None, None);
  }

  /** Newest first, as the TIME walk gives the commits. */
  predicate NewestFirst(walk: seq<Commit>)
  {
    forall i, j :: 0 <= i < j < |walk| ==> walk[i].time >= walk[j].time
  }

  /**
   * Updating `previous` at every step, over a walk newest first with some
   * commit in the date range: a newest commit is found, and the oldest is
   * never newer than it.
   */
  lemma OldestNotNewer(walk: seq<Commit>, until: Option<int>, since: Option<int>, w: nat)
    requires NewestFirst(walk) && w < |walk| && InRange(walk[w], until, since)
    ensures var (n, o) := Scan(walk, until, since, 0, None, None, true);
      n.Some? && (o.Some? ==> o.value.time <= n.value.time)
  {
    ScanMeaning(walk, until, since);
    var f, k := FirstNotAfter(walk, until, 0), FirstStop(walk, until, since, 0);
    assert f <= w;
    if k < |walk| {
      assert k != f;
    }
  }

  /** `_set_newest_oldest`, with `previous_commit` updated at every step of the loop. */
  method SetNewestOldest(walk: seq<Commit>, until: Option<int>, since: Option<int>, headId: string, initialId: string)
    returns (newestId: string, oldestId: string)
    ensures (newestId, oldestId) == NewestOldest(walk, until, since, headId, initialId, true)
  {
    var previous: Option<Commit> := None;
    var newest: Option<Commit> := None;
    var oldest: Option<Commit> := None;
    var i := 0;
    while i < |walk|
      invariant i <= |walk|
      invariant oldest.None?
      invariant Scan(walk, until, since, 0, None, None, true) == Scan(walk, until, since, i, previous, newest, true)
      decreases |walk| - i
    {
      var c := walk[i];
      if until.Some? && c.time > until.value {
        previous := Some(c);
        i := i + 1;
        continue;
      }
      if newest.None? {
        newest := Some(c);
      }
      if since.Some? && c.time < since.value {
        oldest := previous;
        break;
      }
      previous := Some(c);
      i := i + 1;
    }
    newestId := if newest.Some? then newest.value.id else headId;
    oldestId := if oldest.Some? then oldest.value.id else initialId;
  }

  // -------------------------------------------------------- first pass

  /** `any(sha_long.startswith(rev) for rev in self.ex_revs)`. */
  predicate ExcludedRev(id: string, exRevs: seq<string>)
    decreases |exRevs|
  {
    |exRevs| > 0 && (exRevs[0] <= id || ExcludedRev(id, exRevs[1..]))
  }

  /**
   * The loop of `_get_commits_first_pass` from index `i` of the TIME walk:
   * commits after `until` are skipped, the first commit before `since`
   * ends it, a commit whose id starts with an excluded revision or whose
   * message matches an excluded pattern gives its short id to the excluded
   * set, and every other commit is kept with its date, in walk order.
   */
  function FirstPassFrom(walk: seq<Commit>, i: nat, until: Option<int>, since: Option<int>,
                         exRevs: seq<string>, exMessage: string -> bool): (seq<(string, int)>, set<string>)
    requires i <= |walk|
    decreases |walk| - i
  {
    if i == |walk| then ([], {})
    else
      var c := walk[i];
      if until.Some? && c.time > until.value then FirstPassFrom(walk, i + 1, until, since, exRevs, exMessage)
      else if since.Some? && c.time < since.value then ([], {})
      else
        var rest := FirstPassFrom(walk, i + 1, until, since, exRevs, exMessage);
        if ExcludedRev(c.id, exRevs) || exMessage(c.message) then (rest.0, {c.shortId} + rest.1)
        else ([(c.shortId, c.time)] + rest.0, rest.1)
  }

  /** Some commit at index `i` or later in the walk is in range and kept as `x`. */
  predicate KeptFrom(walk: seq<Commit>, i: nat, x: (string, int), until: Option<int>, since: Option<int>,
                     exRevs: seq<string>, exMessage: string -> bool)
  {
    exists k :: i <= k < |walk| && x == (walk[k].shortId, walk[k].time)
      && InRange(walk[k], until, since) && !ExcludedRev(walk[k].id, exRevs) && !exMessage(walk[k].message)
  }

  /** Some commit at index `i` or later in the walk is in range and excluded with short id `s`. */
  predicate ExcludedFrom(walk: seq<Commit>, i: nat, s: string, until: Option<int>, since: Option<int>,
                         exRevs: seq<string>, exMessage: string -> bool)
  {
    exists k :: i <= k < |walk| && walk[k].shortId == s
      && InRange(walk[k], until, since) && (ExcludedRev(walk[k].id, exRevs) || exMessage(walk[k].message))
  }

  /**
   * The first pass keeps only commits in the date range that no exclusion
   * removes, and excludes only short ids of commits in range that one does.
   */
  lemma {:induction false} FirstPassMeaning(walk: seq<Commit>, i: nat, until: Option<int>, since: Option<int>,
                                            exRevs: seq<string>, exMessage: string -> bool)
    requires i <= |walk|
    ensures forall x :: x in FirstPassFrom(walk, i, until, since, exRevs, exMessage).0 ==>
      KeptFrom(walk, i, x, until, since, exRevs, exMessage)
    ensures forall s :: s in FirstPassFrom(walk, i, until, since, exRevs, exMessage).1 ==>
      ExcludedFrom(walk, i, s, until, since, exRevs, exMessage)
    decreases |walk| - i
  {
    if i < |walk| {
      FirstPassMeaning(walk, i + 1, until, since, exRevs, exMessage);
      var c := walk[i];
      var rest := FirstPassFrom(walk, i + 1, until, since, exRevs, exMessage);
      forall x | KeptFrom(walk, i + 1, x, until, since, exRevs, exMessage)
        ensures KeptFrom(walk, i, x, until, since, exRevs, exMessage)
      {
        var k :| i + 1 <= k < |walk| && x == (walk[k].shortId, walk[k].time)
          && InRange(walk[k], until, since) && !ExcludedRev(walk[k].id, exRevs) && !exMessage(walk[k].message);
      }
      forall s | ExcludedFrom(walk, i + 1, s, until, since, exRevs, exMessage)
        ensures ExcludedFrom(walk, i, s, until, since, exRevs, exMessage)
      {
        var k :| i + 1 <= k < |walk| && walk[k].shortId == s
          && InRange(walk[k], until, since) && (ExcludedRev(walk[k].id, exRevs) || exMessage(walk[k].message));
      }
      if !(until.Some? && c.time > until.value) && !(since.Some? && c.time < since.value) {
        assert InRange(c, until, since);
        if ExcludedRev(c.id, exRevs) || exMessage(c.message) {
          assert ExcludedFrom(walk, i, c.shortId, until, since, exRevs, exMessage);
        } else {
          assert KeptFrom(walk, i, (c.shortId, c.time), until, since, exRevs, exMessage);
        }
      }
    }
  }

  /** The first pass stops at this commit: it is not after `until` but before `since`. */
  predicate StopsAt(c: Commit, until: Option<int>, since: Option<int>)
  {
    !(until.Some? && c.time > until.value) && since.Some? && c.time < since.value
  }

  /**
   * The converse: a commit in the date range that the first pass reaches,
   * because no earlier commit stopped it, is kept with its date when no
   * exclusion applies, and gives its short id to the excluded set when one does.
   */
  lemma {:induction false} FirstPassComplete(walk: seq<Commit>, i: nat, k: nat, until: Option<int>, since: Option<int>,
                                             exRevs: seq<string>, exMessage: string -> bool)
    requires i <= k < |walk|
    requires forall j :: i <= j < k ==> !StopsAt(walk[j], until, since)
    requires InRange(walk[k], until, since)
    ensures !ExcludedRev(walk[k].id, exRevs) && !exMessage(walk[k].message) ==>
      (walk[k].shortId, walk[k].time) in FirstPassFrom(walk, i, until, since, exRevs, exMessage).0
    ensures ExcludedRev(walk[k].id, exRevs) || exMessage(walk[k].message) ==>
      walk[k].shortId in FirstPassFrom(walk, i, until, since, exRevs, exMessage).1
    decreases k - i
  {
    if i < k {
      assert !StopsAt(walk[i], until, since);
      FirstPassComplete(walk, i + 1, k, until, since, exRevs, exMessage);
    }
  }

  /** The commit is in the date range. */
  predicate InRange(c: Commit, until: Option<int>, since: Option<int>)
  {
    NotAfter(c, until) && (since.None? || c.time >= since.value)
  }

  /** Ascending by `key`. */
  predicate Ordered<T>(s: seq<T>, key: T -> int)
  {
    forall i, j :: 0 <= i < j < |s| ==> key(s[i]) <= key(s[j])
  }

  /**
   * Inserts `x`, which came before every element of `s`, ahead of the first
   * element whose key is no smaller: the place a stable sort gives it.
   */
  function InsertBy<T>(x: T, s: seq<T>, key: T -> int): (r: seq<T>)
    ensures |r| == |s| + 1
    ensures multiset(r) == multiset(s) + multiset{x}
  {
    if |s| == 0 || key(x) <= key(s[0]) then [x] + s
    else
      assert s == [s[0]] + s[1..];
      [s[0]] + InsertBy(x, s[1..], key)
  }

  /** Python's `list.sort(key=...)`, which is stable. */
  function SortBy<T(!new)>(s: seq<T>, key: T -> int): (r: seq<T>)
    ensures |r| == |s|
    ensures multiset(r) == multiset(s)
    ensures forall x :: x in r <==> x in s
  {
    if |s| == 0 then []
    else
      assert s == [s[0]] + s[1..];
      var r := InsertBy(s[0], SortBy(s[1..], key), key);
      assert forall x :: x in r <==> x in multiset(r);
      assert forall x :: x in s <==> x in multiset(s);
      r
  }

  /** Insertion keeps the order by key. */
  lemma {:induction false} InsertByOrdered<T>(x: T, s: seq<T>, key: T -> int)
    requires Ordered(s, key)
    ensures Ordered(InsertBy(x, s, key), key)
  {
    if |s| > 0 && key(x) > key(s[0]) {
      InsertByOrdered(x, s[1..], key);
      var r := InsertBy(x, s[1..], key);
      forall v | v in r ensures key(s[0]) <= key(v) {
        assert v in multiset(r);
      }
    }
  }

  /** The sort orders by key; its contract makes it a permutation. */
  lemma {:induction false} SortByMeaning<T(!new)>(s: seq<T>, key: T -> int)
    ensures Ordered(SortBy(s, key), key)
  {
    if |s| > 0 {
      SortByMeaning(s[1..], key);
      InsertByOrdered(s[0], SortBy(s[1..], key), key);
    }
  }

  /** The date of a first-pass commit. */
  function Date(c: (string, int)): int
  {
    c.1
  }

  /** `commits.sort(key=lambda x: x[1])`. */
  method SortByDate(found: seq<(string, int)>) returns (commits: seq<(string, int)>)
    ensures commits == SortBy(found, Date)
  {
    commits := SortBy(found, Date);
  }

  /**
   * One turn of the first-pass loop on commit `i`: `stop` when the commit is
   * before `since`, otherwise the kept list and excluded set after it.
   */
  method FirstPassTurn(walk: seq<Commit>, i: nat, until: Option<int>, since: Option<int>,
                       exRevs: seq<string>, exMessage: string -> bool,
                       found: seq<(string, int)>, excluded: set<string>)
    returns (stop: bool, found': seq<(string, int)>, excluded': set<string>)
    requires i < |walk|
    ensures stop ==> FirstPassFrom(walk, i, until, since, exRevs, exMessage) == ([], {})
    ensures stop ==> found' == found && excluded' == excluded
    ensures !stop ==> found' + FirstPassFrom(walk, i + 1, until, since, exRevs, exMessage).0
                      == found + FirstPassFrom(walk, i, until, since, exRevs, exMessage).0
    ensures !stop ==> excluded' + FirstPassFrom(walk, i + 1, until, since, exRevs, exMessage).1
                      == excluded + FirstPassFrom(walk, i, until, since, exRevs, exMessage).1
  {
    var c := walk[i];
    ghost var rest := FirstPassFrom(walk, i + 1, until, since, exRevs, exMessage);
    stop, found', excluded' := false, found, excluded;
    if until.Some? && c.time > until.value {
      return;
    }
    if since.Some? && c.time < since.value {
      stop := true;
      return;
    }
    if ExcludedRev(c.id, exRevs) || exMessage(c.message) {
      excluded' := excluded + {c.shortId};
    } else {
      var kept := (c.shortId, c.time);
      assert found + ([kept] + rest.0) == (found + [kept]) + rest.0;
      found' := found + [kept];
    }
  }

  /**
   * The first loop of `get_commits`: commits after `until` are skipped, the
   * first one before `since` ends the walk, excluded ones give their short
   * SHA, and the rest are kept as (short SHA, date); the kept ones are then
   * sorted by date.
   */
  method FirstPass(walk: seq<Commit>, until: Option<int>, since: Option<int>, exRevs: seq<string>, exMessage: string -> bool)
    returns (commits: seq<(string, int)>, exShaShorts: set<string>)
    ensures commits == SortBy(FirstPassFrom(walk, 0, until, since, exRevs, exMessage).0, Date)
    ensures exShaShorts == FirstPassFrom(walk, 0, until, since, exRevs, exMessage).1
  {
    ghost var all := FirstPassFrom(walk, 0, until, since, exRevs, exMessage);
    var found: seq<(string, int)> := [];
    exShaShorts := {};
    var i := 0;
    while i < |walk|
      invariant i <= |walk|
      invariant all.0 == found + FirstPassFrom(walk, i, until, since, exRevs, exMessage).0
      invariant all.1 == exShaShorts + FirstPassFrom(walk, i, until, since, exRevs, exMessage).1
      decreases |walk| - i
    {
      var stop;
      stop, found, exShaShorts := FirstPassTurn(walk, i, until, since, exRevs, exMessage, found, exShaShorts);
      if stop {
        assert found + [] == found;
        break;
      }
      i := i + 1;
    }
    assert found + [] == found;
    commits := SortByDate(found);
  }
}
