/**
 * Shortening of tab and sheet names (`string2truncated`).
 *
 * A name no longer than `maxLength` is kept as it is. A longer name is cut
 * from the front to its last `maxLength - 2` characters. Names whose cut
 * tails collide are cut further, until nothing changes any more, so that
 * there is room for a ".." prefix and a "-n" suffix. Finally every cut name
 * gets the ".." prefix, and the members of a colliding group are numbered
 * "-1", "-2", ... in input order.
 *
 * The Python dict `org2trunc` keeps its keys in insertion order; it is
 * modelled by the sequence of distinct long names (`LongNames`) and a
 * sequence of values of the same length.
 */
module Truncation {
  import opened Errors
  import opened Strs

  /** `t` is a (possibly empty) tail of `s`. */
  predicate IsSuffix(t: string, s: string)
  {
    |t| <= |s| && s[|s| - |t|..] == t
  }

  lemma SuffixTransitive(a: string, b: string, c: string)
    requires IsSuffix(a, b) && IsSuffix(b, c)
    ensures IsSuffix(a, c)
  {
    assert c[|c| - |a|..] == c[|c| - |b|..][|b| - |a|..];
  }

  /** Python's `s[k:]` for a non-negative `k`: empty once `k` reaches the length. */
  function DropFront(s: string, k: nat): (r: string)
    ensures |r| == if k >= |s| then 0 else |s| - k
    ensures IsSuffix(r, s)
  {
    if k >= |s| then [] else s[k..]
  }

  /** `Counter(vals)[v]`: how often `v` occurs in `vals`. */
  function Count(vals: seq<string>, v: string): (n: nat)
    ensures n <= |vals|
  {
    if |vals| == 0 then 0
    else
      Count(vals[..|vals| - 1], v) + (if vals[|vals| - 1] == v then 1 else 0)
  }

  lemma {:induction false} CountPrefix(vals: seq<string>, j: nat, v: string)
    requires j <= |vals|
    ensures Count(vals[..j], v) <= Count(vals, v)
    decreases |vals|
  {
    if j < |vals| {
      assert vals[..|vals| - 1][..j] == vals[..j];
      CountPrefix(vals[..|vals| - 1], j, v);
    } else {
      assert vals[..j] == vals;
    }
  }

  lemma {:induction false} CountConstant(n: nat, v: string)
    ensures Count(seq(n, _ => v), v) == n
  {
    if n > 0 {
      assert seq(n, _ => v)[..n - 1] == seq(n - 1, _ => v);
      CountConstant(n - 1, v);
    }
  }

  /** The first cut of a long name: its last `maxLength - 2` characters. */
  function InitialTrunc(org: string, maxLength: int): (t: string)
    requires |org| > maxLength
    ensures IsSuffix(t, org)
    ensures |t| == if maxLength >= 2 then maxLength - 2 else 0
  {
    DropFront(org, |org| - maxLength + 2)
  }

  /** The keys of `org2trunc`: every long name once, in first-occurrence order. */
  function LongNames(orgs: seq<string>, maxLength: int): (longs: seq<string>)
    ensures |longs| <= |orgs|
  {
    if |orgs| == 0 then []
    else
      var prev := LongNames(orgs[..|orgs| - 1], maxLength);
      var org := orgs[|orgs| - 1];
      if |org| > maxLength && org !in prev then prev + [org] else prev
  }

  /** The long names are exactly the inputs longer than `maxLength`. */
  lemma {:induction false} LongNamesMembers(orgs: seq<string>, maxLength: int)
    ensures forall s :: s in LongNames(orgs, maxLength) <==> s in orgs && |s| > maxLength
  {
    if |orgs| > 0 {
      var n := |orgs| - 1;
      assert orgs == orgs[..n] + [orgs[n]];
      LongNamesMembers(orgs[..n], maxLength);
    }
  }

  /** No long name is listed twice. */
  lemma {:induction false} LongNamesDistinct(orgs: seq<string>, maxLength: int)
    ensures forall i, j :: 0 <= i < j < |LongNames(orgs, maxLength)| ==>
      LongNames(orgs, maxLength)[i] != LongNames(orgs, maxLength)[j]
  {
    if |orgs| > 0 {
      LongNamesDistinct(orgs[..|orgs| - 1], maxLength);
    }
  }

  /** Every long name is longer than `maxLength`. */
  lemma LongNamesAreLong(orgs: seq<string>, maxLength: int)
    ensures forall s :: s in LongNames(orgs, maxLength) ==> |s| > maxLength
  {
    LongNamesMembers(orgs, maxLength);
  }

  function InitialTruncs(longs: seq<string>, maxLength: int): (vals: seq<string>)
    requires forall s :: s in longs ==> |s| > maxLength
    ensures |vals| == |longs|
  {
    seq(|longs|, i requires 0 <= i < |longs| => InitialTrunc(longs[i], maxLength))
  }

  /**
   * The rule `truncate` applies to a value that occurs `count > 1` times: cut
   * it from the front so that "..", the value, "-" and a number with as many
   * digits as `count` fit in `maxLength`.
   */
  function Shorten(v: string, count: nat, maxLength: int): (t: string)
    ensures IsSuffix(t, v)
  {
    var required := maxLength - NumDigits(count) - 3;
    var reduceBy := |v| - required;
    if reduceBy > 0 then DropFront(v, reduceBy) else v
  }

  /** What one pass of `truncate` makes of entry `i`. */
  function TruncateEntry(vals: seq<string>, i: nat, maxLength: int): (t: string)
    requires i < |vals|
    ensures IsSuffix(t, vals[i])
  {
    var count := Count(vals, vals[i]);
    if count > 1 then Shorten(vals[i], count, maxLength) else vals[i]
  }

  /** One pass of `truncate` over all values. */
  function Step(vals: seq<string>, maxLength: int): (r: seq<string>)
    ensures |r| == |vals|
  {
    seq(|vals|, i requires 0 <= i < |vals| => TruncateEntry(vals, i, maxLength))
  }

  function TotalLength(vals: seq<string>): nat
  {
    if |vals| == 0 then 0 else TotalLength(vals[..|vals| - 1]) + |vals[|vals| - 1]|
  }

  /** Replacing every value by a tail of it never lengthens the total, and shortens it if anything changed. */
  lemma {:induction false} TailsShorten(a: seq<string>, b: seq<string>)
    requires |a| == |b|
    requires forall i :: 0 <= i < |a| ==> IsSuffix(b[i], a[i])
    ensures TotalLength(b) <= TotalLength(a)
    ensures a != b ==> TotalLength(b) < TotalLength(a)
  {
    if |a| > 0 {
      var n := |a| - 1;
      assert a == a[..n] + [a[n]];
      assert b == b[..n] + [b[n]];
      TailsShorten(a[..n], b[..n]);
      if |b[n]| == |a[n]| {
        assert b[n] == a[n];
      }
    }
  }

  /** A pass of `truncate` that changes anything strictly shortens the values. */
  lemma StepShrinks(vals: seq<string>, maxLength: int)
    ensures Step(vals, maxLength) != vals ==> TotalLength(Step(vals, maxLength)) < TotalLength(vals)
  {
    TailsShorten(vals, Step(vals, maxLength));
  }

  /**
   * The value the `while new_org2trunc != org2trunc` loop ends with: a
   * fixpoint of `truncate` whose entries are tails of the starting entries.
   */
  function Fixpoint(vals: seq<string>, maxLength: int): (r: seq<string>)
    ensures |r| == |vals|
    ensures Step(r, maxLength) == r
    ensures forall i :: 0 <= i < |vals| ==> IsSuffix(r[i], vals[i])
    decreases TotalLength(vals)
  {
    var next := Step(vals, maxLength);
    if next == vals then vals
    else
      StepShrinks(vals, maxLength);
      var r := Fixpoint(next, maxLength);
      assert forall i :: 0 <= i < |vals| ==> IsSuffix(r[i], vals[i]) by {
        forall i | 0 <= i < |vals|
          ensures IsSuffix(r[i], vals[i])
        {
          SuffixTransitive(r[i], next[i], vals[i]);
        }
      }
      r
  }

  /** A cut value with the ".." prefix and the number `k`. */
  function Numbered(t: string, k: nat): string
  {
    ".." + t + "-" + NatToString(k)
  }

  /** What `number` makes of entry `i`: the ".." prefix, and "-k" for the k-th member of a colliding group. */
  function Label(vals: seq<string>, i: nat): string
    requires i < |vals|
  {
    if Count(vals, vals[i]) > 1 then
      Numbered(vals[i], Count(vals[..i], vals[i]) + 1)
    else ".." + vals[i]
  }

  /** The labels of the first `n` entries, as the `number` loop builds them. */
  function LabelsUpTo(vals: seq<string>, n: nat): (labels: seq<string>)
    requires n <= |vals|
    ensures |labels| == n
    ensures forall j :: 0 <= j < n ==> labels[j] == Label(vals, j)
  {
    if n == 0 then [] else LabelsUpTo(vals, n - 1) + [Label(vals, n - 1)]
  }

  function Labels(vals: seq<string>): (labels: seq<string>)
    ensures |labels| == |vals|
  {
    LabelsUpTo(vals, |vals|)
  }

  /** The cut values the long names end with, before numbering, in the order of `LongNames`. */
  function FinalTruncs(orgs: seq<string>, maxLength: int): (truncs: seq<string>)
    ensures |truncs| == |LongNames(orgs, maxLength)|
  {
    var longs := LongNames(orgs, maxLength);
    LongNamesAreLong(orgs, maxLength);
    Fixpoint(InitialTruncs(longs, maxLength), maxLength)
  }

  /** The labels the long names end with, in the order of `LongNames`. */
  function FinalLabels(orgs: seq<string>, maxLength: int): (labels: seq<string>)
    ensures |labels| == |LongNames(orgs, maxLength)|
  {
    Labels(FinalTruncs(orgs, maxLength))
  }

  /** `shortened` is ".." followed by a tail of `org`, possibly followed by "-" and a number. */
  ghost predicate IsShortening(shortened: string, org: string)
  {
    exists t: string, k: nat {:trigger IsSuffix(t, org), NatToString(k)} ::
      IsSuffix(t, org) && (shortened == ".." + t || shortened == Numbered(t, k))
  }

  /** Every final label is a shortening of its long name. */
  lemma FinalLabelsAreShortenings(orgs: seq<string>, maxLength: int)
    ensures forall i :: 0 <= i < |FinalLabels(orgs, maxLength)| ==>
      IsShortening(FinalLabels(orgs, maxLength)[i], LongNames(orgs, maxLength)[i])
  {
    var longs := LongNames(orgs, maxLength);
    LongNamesAreLong(orgs, maxLength);
    var start := InitialTruncs(longs, maxLength);
    var fix := Fixpoint(start, maxLength);
    forall i | 0 <= i < |longs|
      ensures IsShortening(Labels(fix)[i], longs[i])
    {
      SuffixTransitive(fix[i], start[i], longs[i]);
      LabelShortens(fix, i, longs[i]);
    }
  }

  /** A label is ".." and the value, possibly with a number: a shortening of whatever the value is a tail of. */
  lemma LabelShortens(vals: seq<string>, i: nat, org: string)
    requires i < |vals| && IsSuffix(vals[i], org)
    ensures IsShortening(Label(vals, i), org)
  {
    var k := Count(vals[..i], vals[i]) + 1;
    assert IsSuffix(vals[i], org) && NatToString(k) == NatToString(k);
  }

  /**
   * At a fixpoint whose values have at most `maxLength - 2` characters, every
   * label fits in `maxLength`, provided the longest possible number fits too.
   */
  lemma LabelsFit(vals: seq<string>, maxLength: int)
    requires Step(vals, maxLength) == vals
    requires forall i :: 0 <= i < |vals| ==> |vals[i]| <= maxLength - 2
    requires maxLength >= 3 + NumDigits(|vals|)
    ensures forall i :: 0 <= i < |vals| ==> |Labels(vals)[i]| <= maxLength
  {
    forall i | 0 <= i < |vals|
      ensures |Label(vals, i)| <= maxLength
    {
      var v := vals[i];
      var count := Count(vals, v);
      if count > 1 {
        NumDigitsMonotone(count, |vals|);
        assert Shorten(v, count, maxLength) == v by {
          assert Step(vals, maxLength)[i] == TruncateEntry(vals, i, maxLength);
        }
        assert |v| <= maxLength - NumDigits(count) - 3;
        var k := Count(vals[..i], v) + 1;
        assert vals[..i + 1][..i] == vals[..i];
        assert Count(vals[..i + 1], v) == k;
        CountPrefix(vals, i + 1, v);
        NumDigitsMonotone(k, count);
      }
    }
  }

  /** With room for the prefix and the largest number, every final label fits. */
  lemma FinalLabelsFit(orgs: seq<string>, maxLength: int)
    requires maxLength >= 3 + NumDigits(|orgs|)
    ensures LabelsFitIn(FinalLabels(orgs, maxLength), maxLength)
  {
    var longs := LongNames(orgs, maxLength);
    LongNamesAreLong(orgs, maxLength);
    var start := InitialTruncs(longs, maxLength);
    var fix := Fixpoint(start, maxLength);
    forall i | 0 <= i < |fix|
      ensures |fix[i]| <= maxLength - 2
    {
    }
    NumDigitsMonotone(|fix|, |orgs|);
    LabelsFit(fix, maxLength);
  }

  /** One pass of `truncate`. */
  method Truncate(vals: seq<string>, maxLength: int) returns (r: seq<string>)
    ensures r == Step(vals, maxLength)
  {
    r := [];
    var i := 0;
    while i < |vals|
      invariant 0 <= i <= |vals|
      invariant |r| == i
      invariant forall j :: 0 <= j < i ==> r[j] == TruncateEntry(vals, j, maxLength)
    {
      var t := TruncateOne(vals, i, maxLength);
      r := r + [t];
      i := i + 1;
    }
    assert forall j :: 0 <= j < |vals| ==> r[j] == Step(vals, maxLength)[j];
  }

  /** The body of the `truncate` loop for entry `i`. */
  method TruncateOne(vals: seq<string>, i: nat, maxLength: int) returns (t: string)
    requires i < |vals|
    ensures t == TruncateEntry(vals, i, maxLength)
  {
    var count := Count(vals, vals[i]);
    t := vals[i];
    if count > 1 {
      var required := maxLength - NumDigits(count) - 3;
      var reduceBy := |vals[i]| - required;
      if reduceBy > 0 {
        t := DropFront(vals[i], reduceBy);
      }
    }
  }

  lemma CountSnoc(vals: seq<string>, i: nat)
    requires i < |vals|
    ensures forall u :: Count(vals[..i + 1], u) == Count(vals[..i], u) + (if vals[i] == u then 1 else 0)
  {
    assert vals[..i + 1][..i] == vals[..i];
  }

  function SeenCount(seen: map<string, nat>, v: string): nat
  {
    if v in seen then seen[v] else 0
  }

  /** The `seen2i` table after `i` entries: how many members of each colliding group were numbered so far. */
  ghost predicate SeenMatches(vals: seq<string>, i: nat, seen: map<string, nat>)
    requires i <= |vals|
  {
    forall u {:trigger SeenCount(seen, u)} :: SeenCount(seen, u) == if Count(vals, u) > 1 then Count(vals[..i], u) else 0
  }

  lemma SeenAdvance(vals: seq<string>, i: nat, seen: map<string, nat>, seen': map<string, nat>)
    requires i < |vals| && SeenMatches(vals, i, seen)
    requires seen' == if Count(vals, vals[i]) > 1 then seen[vals[i] := SeenCount(seen, vals[i]) + 1] else seen
    ensures SeenMatches(vals, i + 1, seen')
    ensures Count(vals, vals[i]) > 1 ==> SeenCount(seen', vals[i]) == Count(vals[..i], vals[i]) + 1
  {
    CountSnoc(vals, i);
    forall u ensures SeenCount(seen', u) == if Count(vals, u) > 1 then Count(vals[..i + 1], u) else 0 {
      assert SeenCount(seen, u) == if Count(vals, u) > 1 then Count(vals[..i], u) else 0;
    }
  }

  /** `number`: add the ".." prefix, and number colliding values in order of appearance. */
  method Number(vals: seq<string>) returns (labels: seq<string>)
    ensures labels == Labels(vals)
  {
    var seen: map<string, nat> := map[];
    labels := [];
    var i := 0;
    while i < |vals|
      invariant 0 <= i <= |vals|
      invariant labels == LabelsUpTo(vals, i)
      invariant SeenMatches(vals, i, seen)
    {
      var v := vals[i];
      ghost var before := seen;
      var next: string;
      if Count(vals, v) > 1 {
        if v in seen {
          seen := seen[v := seen[v] + 1];
        } else {
          seen := seen[v := 1];
        }
        assert seen == before[v := SeenCount(before, v) + 1];
        SeenAdvance(vals, i, before, seen);
        next := Numbered(v, seen[v]);
      } else {
        SeenAdvance(vals, i, before, seen);
        next := ".." + v;
      }
      assert next == Label(vals, i);
      labels := labels + [next];
      i := i + 1;
    }
  }

  /** The first loop of `string2truncated`: keep the short names apart, give each long name its first cut. */
  method SplitLongNames(orgs: seq<string>, maxLength: int) returns (longs: seq<string>, truncs: seq<string>)
    ensures longs == LongNames(orgs, maxLength)
    ensures forall s :: s in longs ==> |s| > maxLength
    ensures truncs == InitialTruncs(longs, maxLength)
  {
    LongNamesAreLong(orgs, maxLength);
    longs := [];
    truncs := [];
    var i := 0;
    while i < |orgs|
      invariant 0 <= i <= |orgs|
      invariant longs == LongNames(orgs[..i], maxLength)
      invariant forall s :: s in longs ==> |s| > maxLength
      invariant |truncs| == |longs|
      invariant forall j :: 0 <= j < |longs| ==> truncs[j] == InitialTrunc(longs[j], maxLength)
    {
      var org := orgs[i];
      assert orgs[..i + 1][..i] == orgs[..i];
      if |org| > maxLength && org !in longs {
        longs := longs + [org];
        truncs := truncs + [InitialTrunc(org, maxLength)];
      }
      i := i + 1;
    }
    assert orgs[..|orgs|] == orgs;
  }

  /** The `while new_org2trunc != org2trunc` loop. */
  method RepeatTruncate(truncs: seq<string>, maxLength: int) returns (current: seq<string>)
    ensures current == Fixpoint(truncs, maxLength)
  {
    current := truncs;
    var next := Truncate(current, maxLength);
    while next != current
      invariant next == Step(current, maxLength)
      invariant Fixpoint(current, maxLength) == Fixpoint(truncs, maxLength)
      decreases TotalLength(current)
    {
      StepShrinks(current, maxLength);
      current := next;
      next := Truncate(current, maxLength);
    }
  }

  /** The part of `string2truncated` before its assertions. */
  method LabelLongNames(orgs: seq<string>, maxLength: int) returns (longs: seq<string>, labels: seq<string>)
    ensures longs == LongNames(orgs, maxLength)
    ensures labels == FinalLabels(orgs, maxLength)
  {
    var truncs;
    longs, truncs := SplitLongNames(orgs, maxLength);
    var fixed := RepeatTruncate(truncs, maxLength);
    labels := Number(fixed);
  }

  /** The dict the function returns: the labelled long names, then every short name mapped to itself. */
  method BuildMap(orgs: seq<string>, maxLength: int, longs: seq<string>, labels: seq<string>)
    returns (m: map<string, string>)
    requires longs == LongNames(orgs, maxLength) && |labels| == |longs|
    ensures forall s :: s in m <==> s in orgs
    ensures forall i :: 0 <= i < |longs| ==> longs[i] in m && m[longs[i]] == labels[i]
    ensures forall s :: s in orgs && |s| <= maxLength ==> s in m && m[s] == s
  {
    LongNamesMembers(orgs, maxLength);
    LongNamesDistinct(orgs, maxLength);
    m := MapLongNames(longs, labels);
    m := AddShortNames(m, orgs, maxLength);
    EveryInputIsKey(orgs, maxLength, longs, labels, m);
  }

  /** The loop that fills `org2trunc` with the numbered labels. */
  method MapLongNames(longs: seq<string>, labels: seq<string>) returns (m: map<string, string>)
    requires |labels| == |longs|
    requires forall i, j :: 0 <= i < j < |longs| ==> longs[i] != longs[j]
    ensures forall s :: s in m ==> s in longs
    ensures forall j :: 0 <= j < |longs| ==> longs[j] in m && m[longs[j]] == labels[j]
  {
    m := map[];
    for i := 0 to |longs|
      invariant forall s :: s in m ==> s in longs
      invariant forall j :: 0 <= j < i ==> longs[j] in m && m[longs[j]] == labels[j]
    {
      m := m[longs[i] := labels[i]];
    }
  }

  /** The loop `for org in org_short: org2trunc[org] = org`. */
  method AddShortNames(m0: map<string, string>, orgs: seq<string>, maxLength: int) returns (m: map<string, string>)
    ensures forall s :: s in m <==> s in m0 || (s in orgs && |s| <= maxLength)
    ensures forall s :: s in m0 && |s| > maxLength ==> m[s] == m0[s]
    ensures forall j :: 0 <= j < |orgs| && |orgs[j]| <= maxLength ==> orgs[j] in m && m[orgs[j]] == orgs[j]
  {
    m := m0;
    for k := 0 to |orgs|
      invariant forall s :: s in m ==> s in m0 || (s in orgs && |s| <= maxLength)
      invariant forall s :: s in m0 ==> s in m
      invariant forall s :: s in m0 && |s| > maxLength ==> m[s] == m0[s]
      invariant forall j :: 0 <= j < k && |orgs[j]| <= maxLength ==> orgs[j] in m && m[orgs[j]] == orgs[j]
    {
      if |orgs[k]| <= maxLength {
        m := m[orgs[k] := orgs[k]];
      }
    }
  }

  lemma EveryInputIsKey(orgs: seq<string>, maxLength: int, longs: seq<string>, labels: seq<string>, m: map<string, string>)
    requires forall s :: s in longs <==> s in orgs && |s| > maxLength
    requires forall j :: 0 <= j < |longs| ==> longs[j] in m
    requires forall j :: 0 <= j < |orgs| && |orgs[j]| <= maxLength ==> orgs[j] in m && m[orgs[j]] == orgs[j]
    ensures forall s :: s in orgs ==> s in m
    ensures forall s :: s in orgs && |s| <= maxLength ==> s in m && m[s] == s
  {
    forall s | s in orgs
      ensures s in m
      ensures |s| <= maxLength ==> m[s] == s
    {
      var k :| 0 <= k < |orgs| && orgs[k] == s;
      if |s| > maxLength {
        var j :| 0 <= j < |longs| && longs[j] == s;
      }
    }
  }

  /** The labels pass the final `assert len(trunc) <= max_length`. */
  predicate LabelsFitIn(labels: seq<string>, maxLength: int)
  {
    forall i :: 0 <= i < |labels| ==> |labels[i]| <= maxLength
  }

  /** The labels pass the `assert len(trunc) == max_length` made right after numbering. */
  predicate LabelsExact(labels: seq<string>, maxLength: int)
  {
    forall i :: 0 <= i < |labels| ==> |labels[i]| == maxLength
  }

  /** The loop behind `assert len(trunc) <= max_length`. */
  method AllFit(labels: seq<string>, maxLength: int) returns (ok: bool)
    ensures ok <==> LabelsFitIn(labels, maxLength)
  {
    for i := 0 to |labels|
      invariant LabelsFitIn(labels[..i], maxLength)
    {
      if |labels[i]| > maxLength {
        return false;
      }
    }
    assert labels[..|labels|] == labels;
    return true;
  }

  /** The loop behind `assert len(trunc) == max_length`. */
  method AllExact(labels: seq<string>, maxLength: int) returns (ok: bool)
    ensures ok <==> LabelsExact(labels, maxLength)
  {
    for i := 0 to |labels|
      invariant LabelsExact(labels[..i], maxLength)
    {
      if |labels[i]| != maxLength {
        return false;
      }
    }
    assert labels[..|labels|] == labels;
    return true;
  }

  /** Long names map to shortenings of themselves. */
  lemma LongEntriesAreShortenings(orgs: seq<string>, maxLength: int, longs: seq<string>, m: map<string, string>)
    requires longs == LongNames(orgs, maxLength)
    requires forall s :: s in m <==> s in orgs
    requires forall i :: 0 <= i < |longs| ==> longs[i] in m && m[longs[i]] == FinalLabels(orgs, maxLength)[i]
    ensures forall s :: s in orgs && |s| > maxLength ==> IsShortening(m[s], s)
  {
    FinalLabelsAreShortenings(orgs, maxLength);
    LongNamesMembers(orgs, maxLength);
    forall s | s in orgs && |s| > maxLength
      ensures IsShortening(m[s], s)
    {
      var j :| 0 <= j < |longs| && longs[j] == s;
    }
  }

  /** Long name `longs[i]` maps to `labels[i]`. */
  predicate LabelsMapped(m: map<string, string>, longs: seq<string>, labels: seq<string>)
  {
    |labels| == |longs| && forall i :: 0 <= i < |longs| ==> longs[i] in m && m[longs[i]] == labels[i]
  }

  /** What the map holds once every label fits: shortenings of the long names, none longer than `maxLength`. */
  lemma FittingEntries(orgs: seq<string>, maxLength: int, longs: seq<string>, m: map<string, string>)
    requires longs == LongNames(orgs, maxLength)
    requires forall s :: s in m <==> s in orgs
    requires forall s :: s in orgs && |s| <= maxLength ==> s in m && m[s] == s
    requires LabelsMapped(m, longs, FinalLabels(orgs, maxLength))
    requires LabelsFitIn(FinalLabels(orgs, maxLength), maxLength)
    ensures forall s :: s in orgs && |s| > maxLength ==> IsShortening(m[s], s)
    ensures forall s :: s in m ==> |m[s]| <= maxLength
    ensures maxLength >= 3 + NumDigits(|orgs|) && GroupsUnderTen(FinalTruncs(orgs, maxLength)) ==>
      forall s :: s in orgs && |s| > maxLength ==> |m[s]| == maxLength
  {
    LongEntriesAreShortenings(orgs, maxLength, longs, m);
    LongNamesMembers(orgs, maxLength);
    forall s | s in m
      ensures |m[s]| <= maxLength
    {
      if |s| > maxLength {
        var j :| 0 <= j < |longs| && longs[j] == s;
      }
    }
    if maxLength >= 3 + NumDigits(|orgs|) && GroupsUnderTen(FinalTruncs(orgs, maxLength)) {
      FinalLabelsExactIff(orgs, maxLength);
      LongEntriesExact(orgs, maxLength, longs, m);
    }
  }

  /** When every label has exactly `maxLength` characters, so does the entry of every long name. */
  lemma LongEntriesExact(orgs: seq<string>, maxLength: int, longs: seq<string>, m: map<string, string>)
    requires longs == LongNames(orgs, maxLength)
    requires LabelsExact(FinalLabels(orgs, maxLength), maxLength)
    requires forall i :: 0 <= i < |longs| ==> longs[i] in m && m[longs[i]] == FinalLabels(orgs, maxLength)[i]
    ensures forall s :: s in orgs && |s| > maxLength ==> s in m && |m[s]| == maxLength
  {
    LongNamesMembers(orgs, maxLength);
    forall s | s in orgs && |s| > maxLength
      ensures s in m && |m[s]| == maxLength
    {
      var j :| 0 <= j < |longs| && longs[j] == s;
    }
  }

  /**
   * `string2truncated` as written: it raises AssertionError unless every
   * numbered label has exactly `maxLength` characters.
   */
  method String2TruncatedAsWritten(orgs: seq<string>, maxLength: int) returns (r: Result<map<string, string>>)
    ensures r.Ok? <==> LabelsExact(FinalLabels(orgs, maxLength), maxLength)
    ensures r.Ok? ==> forall s :: s in r.value <==> s in orgs
    ensures r.Ok? ==> LabelsMapped(r.value, LongNames(orgs, maxLength), FinalLabels(orgs, maxLength))
  {
    var longs, labels := LabelLongNames(orgs, maxLength);
    var exact := AllExact(labels, maxLength);
    if !exact {
      return Raise(AssertionError);
    }
    var m := BuildMap(orgs, maxLength, longs, labels);
    r := Ok(m);
  }

  /**
   * `string2truncated` without the exact-length assertion: every input is a
   * key and every key an input, short names are kept, long names get a
   * shortening of themselves, and nothing is longer than `maxLength`. It
   * succeeds whenever `maxLength` leaves room for the ".." prefix, the "-"
   * and the largest possible number.
   */
  method String2Truncated(orgs: seq<string>, maxLength: int) returns (r: Result<map<string, string>>)
    ensures r.Ok? <==> LabelsFitIn(FinalLabels(orgs, maxLength), maxLength)
    ensures maxLength >= 3 + NumDigits(|orgs|) ==> r.Ok?
    ensures r.Ok? ==> forall s :: s in r.value <==> s in orgs
    ensures r.Ok? ==> forall s :: s in orgs && |s| <= maxLength ==> r.value[s] == s
    ensures r.Ok? ==> forall s :: s in orgs && |s| > maxLength ==> IsShortening(r.value[s], s)
    ensures r.Ok? ==> forall s :: s in r.value ==> |r.value[s]| <= maxLength
    ensures r.Ok? ==> LabelsMapped(r.value, LongNames(orgs, maxLength), FinalLabels(orgs, maxLength))
    ensures r.Ok? && maxLength >= 3 + NumDigits(|orgs|) && GroupsUnderTen(FinalTruncs(orgs, maxLength)) ==>
      forall s :: s in orgs && |s| > maxLength ==> |r.value[s]| == maxLength
  {
    var longs, labels := LabelLongNames(orgs, maxLength);
    var m := BuildMap(orgs, maxLength, longs, labels);
    var fits := AllFit(labels, maxLength);
    if !fits {
      if maxLength >= 3 + NumDigits(|orgs|) {
        FinalLabelsFit(orgs, maxLength);
      }
      return Raise(AssertionError);
    }
    FittingEntries(orgs, maxLength, longs, m);
    r := Ok(m);
  }

  /** `truncate` turns a run of `n >= 2` equal values into a run of `n` equal, shortened values. */
  lemma StepOfConstant(n: nat, v: string, maxLength: int)
    requires n >= 2
    ensures Step(seq(n, _ => v), maxLength) == seq(n, _ => Shorten(v, n, maxLength))
  {
    var vals := seq(n, _ => v);
    CountConstant(n, v);
    forall i | 0 <= i < n
      ensures Step(vals, maxLength)[i] == Shorten(v, n, maxLength)
    {
      assert vals[i] == v;
    }
  }

  /** A value of `maxLength - 2` characters in a group of `n` is cut once, to leave room for `n`'s digits. */
  lemma ShortenOnce(v: string, n: nat, maxLength: int)
    requires |v| == maxLength - 2
    requires maxLength >= 3 + NumDigits(n)
    ensures |Shorten(v, n, maxLength)| == maxLength - NumDigits(n) - 3
    ensures Shorten(Shorten(v, n, maxLength), n, maxLength) == Shorten(v, n, maxLength)
  {
  }

  /**
   * Ten or more distinct long names whose last `maxLength - 2` characters
   * coincide make the exact-length assertion fail: the group is cut to leave
   * room for a two-digit number, and then "-1" is one digit short.
   */
  lemma SharedTailsBreakExactLength(orgs: seq<string>, maxLength: int)
    requires |orgs| >= 10
    requires forall i, j :: 0 <= i < j < |orgs| ==> orgs[i] != orgs[j]
    requires forall i :: 0 <= i < |orgs| ==> |orgs[i]| > maxLength
    requires forall i :: 0 <= i < |orgs| ==> InitialTrunc(orgs[i], maxLength) == InitialTrunc(orgs[0], maxLength)
    requires maxLength >= 3 + NumDigits(|orgs|)
    ensures !LabelsExact(FinalLabels(orgs, maxLength), maxLength)
  {
    var n := |orgs|;
    DistinctLongNames(orgs, maxLength);
    var v := InitialTrunc(orgs[0], maxLength);
    var start := seq(n, _ => v);
    assert InitialTruncs(orgs, maxLength) == start;
    var w := Shorten(v, n, maxLength);
    ShortenOnce(v, n, maxLength);
    var middle := seq(n, _ => w);
    StepOfConstant(n, v, maxLength);
    StepOfConstant(n, w, maxLength);
    assert start[0] != middle[0];
    FixpointAfterOneCut(start, middle, maxLength);
    FirstOfGroupIsShort(n, w, maxLength);
  }

  /** In a group of `n >= 10` equal values cut to `maxLength - NumDigits(n) - 3`, the first label is too short. */
  lemma FirstOfGroupIsShort(n: nat, w: string, maxLength: int)
    requires n >= 10
    requires |w| == maxLength - NumDigits(n) - 3
    ensures |Labels(seq(n, _ => w))[0]| < maxLength
  {
    var group := seq(n, _ => w);
    CountConstant(n, w);
    assert group[..0] == [];
    assert Labels(group)[0] == Numbered(w, 1);
  }

  lemma FixpointAfterOneCut(start: seq<string>, middle: seq<string>, maxLength: int)
    requires Step(start, maxLength) == middle && middle != start
    requires Step(middle, maxLength) == middle
    ensures Fixpoint(start, maxLength) == middle
  {
  }

  /** Distinct long names are their own `LongNames`. */
  lemma {:induction false} DistinctLongNames(orgs: seq<string>, maxLength: int)
    requires forall i, j :: 0 <= i < j < |orgs| ==> orgs[i] != orgs[j]
    requires forall i :: 0 <= i < |orgs| ==> |orgs[i]| > maxLength
    ensures LongNames(orgs, maxLength) == orgs
  {
    if |orgs| > 0 {
      var n := |orgs| - 1;
      var prefix := orgs[..n];
      DistinctLongNames(prefix, maxLength);
      assert orgs[n] !in prefix;
      assert orgs == prefix + [orgs[n]];
    }
  }

  // ------------------------------------------- numbering and exact length

  /** Wherever `a` holds `v`, `b` holds `w`: then `w` occurs in `b` at least as often. */
  lemma {:induction false} CountAtLeast(a: seq<string>, b: seq<string>, v: string, w: string)
    requires |a| == |b|
    requires forall j :: 0 <= j < |a| && a[j] == v ==> b[j] == w
    ensures Count(b, w) >= Count(a, v)
    decreases |a|
  {
    if |a| > 0 {
      var n := |a| - 1;
      CountAtLeast(a[..n], b[..n], v, w);
    }
  }

  /** The entry itself and the equal entries before it all count. */
  lemma CountOfEntry(vals: seq<string>, i: nat)
    requires i < |vals|
    ensures Count(vals[..i], vals[i]) + 1 <= Count(vals, vals[i])
  {
    assert vals[..i + 1][..i] == vals[..i];
    CountPrefix(vals, i + 1, vals[i]);
  }

  /** The first member of a group: no earlier entry equals it. */
  lemma {:induction false} FirstOccurrence(vals: seq<string>, v: string) returns (f: nat)
    requires Count(vals, v) > 0
    ensures f < |vals| && vals[f] == v && Count(vals[..f], v) == 0
    decreases |vals|
  {
    var n := |vals| - 1;
    if Count(vals[..n], v) > 0 {
      f := FirstOccurrence(vals[..n], v);
      assert vals[..n][..f] == vals[..f];
    } else {
      f := n;
    }
  }

  /**
   * `number` numbers a colliding group in input order: each member gets one
   * more than the number of members before it, so an earlier member gets a
   * smaller number, the numbers run from 1 to the group's size, and no two
   * members share a label.
   */
  lemma GroupNumberedInOrder(vals: seq<string>, i: nat, j: nat)
    requires i < j < |vals| && vals[i] == vals[j]
    ensures Count(vals, vals[i]) > 1
    ensures Labels(vals)[i] == Numbered(vals[i], Count(vals[..i], vals[i]) + 1)
    ensures Labels(vals)[j] == Numbered(vals[j], Count(vals[..j], vals[j]) + 1)
    ensures 1 <= Count(vals[..i], vals[i]) + 1 < Count(vals[..j], vals[j]) + 1 <= Count(vals, vals[i])
    ensures Labels(vals)[i] != Labels(vals)[j]
  {
    var v := vals[i];
    CountOfEntry(vals, j);
    var front := vals[..j];
    assert front[..i] == vals[..i];
    CountOfEntry(front, i);
    GroupLabel(vals, i);
    GroupLabel(vals, j);
    NumberedLabelsDiffer(v, Count(vals[..i], v) + 1, Count(vals[..j], v) + 1);
  }

  /** The label of a member of a colliding group carries its number. */
  lemma GroupLabel(vals: seq<string>, i: nat)
    requires i < |vals| && Count(vals, vals[i]) > 1
    ensures Labels(vals)[i] == Numbered(vals[i], Count(vals[..i], vals[i]) + 1)
  {
    var lab := Labels(vals);
    assert lab[i] == Label(vals, i);
  }

  /** Different numbers make different labels. */
  lemma NumberedLabelsDiffer(t: string, a: nat, b: nat)
    requires a != b
    ensures Numbered(t, a) != Numbered(t, b)
  {
    var p := ".." + t + "-";
    assert Numbered(t, a) == p + NatToString(a) && Numbered(t, b) == p + NatToString(b);
    NatToStringRoundTrip(a);
    NatToStringRoundTrip(b);
    assert (p + NatToString(a))[|p|..] == NatToString(a);
    assert (p + NatToString(b))[|p|..] == NatToString(b);
  }

  /**
   * What the `truncate` passes keep true: a value is still the first cut, of
   * `maxLength - 2` characters, or it belongs to a colliding group and is
   * no shorter than the room the group's size leaves.
   */
  ghost predicate CutSoFar(vals: seq<string>, maxLength: int)
  {
    forall i :: 0 <= i < |vals| ==>
      |vals[i]| == maxLength - 2 ||
      (Count(vals, vals[i]) > 1 && |vals[i]| >= maxLength - 3 - NumDigits(Count(vals, vals[i])))
  }

  /** A pass of `truncate` keeps `CutSoFar`: groups only grow, so the room they leave only shrinks. */
  lemma StepKeepsCut(vals: seq<string>, maxLength: int)
    requires CutSoFar(vals, maxLength)
    requires maxLength >= 3 + NumDigits(|vals|)
    ensures CutSoFar(Step(vals, maxLength), maxLength)
  {
    var next := Step(vals, maxLength);
    forall i | 0 <= i < |vals|
      ensures |next[i]| == maxLength - 2 ||
        (Count(next, next[i]) > 1 && |next[i]| >= maxLength - 3 - NumDigits(Count(next, next[i])))
    {
      var v := vals[i];
      var c := Count(vals, v);
      assert next[i] == TruncateEntry(vals, i, maxLength);
      if c > 1 {
        NumDigitsMonotone(c, |vals|);
        assert |next[i]| == maxLength - 3 - NumDigits(c);
        forall j | 0 <= j < |vals| && vals[j] == v
          ensures next[j] == next[i]
        {
          assert next[j] == TruncateEntry(vals, j, maxLength);
        }
        CountAtLeast(vals, next, v, next[i]);
        NumDigitsMonotone(c, Count(next, next[i]));
      }
    }
  }

  lemma {:induction false} FixpointKeepsCut(vals: seq<string>, maxLength: int)
    requires CutSoFar(vals, maxLength)
    requires maxLength >= 3 + NumDigits(|vals|)
    ensures CutSoFar(Fixpoint(vals, maxLength), maxLength)
    decreases TotalLength(vals)
  {
    var next := Step(vals, maxLength);
    if next != vals {
      StepShrinks(vals, maxLength);
      StepKeepsCut(vals, maxLength);
      FixpointKeepsCut(next, maxLength);
    }
  }

  /**
   * At the end of the passes a label of a lone value has `maxLength`
   * characters, and a label in a colliding group has `maxLength` less the
   * digits of the group's size plus the digits of its own number.
   */
  lemma LabelLength(vals: seq<string>, maxLength: int, i: nat)
    requires CutSoFar(vals, maxLength) && Step(vals, maxLength) == vals
    requires maxLength >= 3 + NumDigits(|vals|)
    requires i < |vals|
    ensures Count(vals, vals[i]) <= 1 ==> |Labels(vals)[i]| == maxLength
    ensures Count(vals, vals[i]) > 1 ==>
      |Labels(vals)[i]| == maxLength - NumDigits(Count(vals, vals[i])) + NumDigits(Count(vals[..i], vals[i]) + 1)
  {
    FixedEntryLength(vals, maxLength, i);
    LabelLengthOf(vals, i);
  }

  /** At a fixpoint a lone value keeps its first cut, and a grouped value is cut to the room its group leaves. */
  lemma FixedEntryLength(vals: seq<string>, maxLength: int, i: nat)
    requires CutSoFar(vals, maxLength) && Step(vals, maxLength) == vals
    requires maxLength >= 3 + NumDigits(|vals|)
    requires i < |vals|
    ensures Count(vals, vals[i]) <= 1 ==> |vals[i]| == maxLength - 2
    ensures Count(vals, vals[i]) > 1 ==> |vals[i]| == maxLength - 3 - NumDigits(Count(vals, vals[i]))
  {
    var v := vals[i];
    var c := Count(vals, v);
    assert TruncateEntry(vals, i, maxLength) == v by {
      assert Step(vals, maxLength)[i] == TruncateEntry(vals, i, maxLength);
    }
    if c > 1 {
      NumDigitsMonotone(c, |vals|);
      assert Shorten(v, c, maxLength) == v;
    }
  }

  /** The length of a label: the prefix and the value, and "-" and the number in a group. */
  lemma LabelLengthOf(vals: seq<string>, i: nat)
    requires i < |vals|
    ensures Count(vals, vals[i]) <= 1 ==> |Labels(vals)[i]| == 2 + |vals[i]|
    ensures Count(vals, vals[i]) > 1 ==> |Labels(vals)[i]| == 3 + |vals[i]| + NumDigits(Count(vals[..i], vals[i]) + 1)
  {
    assert Labels(vals)[i] == Label(vals, i);
  }

  /** Every group of equal values has fewer than ten members. */
  predicate GroupsUnderTen(vals: seq<string>)
  {
    forall i :: 0 <= i < |vals| ==> Count(vals, vals[i]) < 10
  }

  /**
   * The exact-length assertion holds exactly when every group of colliding
   * cut values has fewer than ten members: then every label has `maxLength`
   * characters, while in a group of ten or more the first member's "-1" is
   * a digit short.
   */
  lemma FinalLabelsExactIff(orgs: seq<string>, maxLength: int)
    requires maxLength >= 3 + NumDigits(|orgs|)
    ensures LabelsExact(FinalLabels(orgs, maxLength), maxLength) <==> GroupsUnderTen(FinalTruncs(orgs, maxLength))
  {
    var fix := FinalTruncs(orgs, maxLength);
    FinalTruncsCut(orgs, maxLength);
    if GroupsUnderTen(fix) {
      SmallGroupsExact(fix, maxLength);
    } else {
      LargeGroupShort(fix, maxLength);
    }
  }

  /** The final cut values keep `CutSoFar` and are a fixpoint of `truncate`. */
  lemma FinalTruncsCut(orgs: seq<string>, maxLength: int)
    requires maxLength >= 3 + NumDigits(|orgs|)
    ensures CutSoFar(FinalTruncs(orgs, maxLength), maxLength)
    ensures Step(FinalTruncs(orgs, maxLength), maxLength) == FinalTruncs(orgs, maxLength)
    ensures maxLength >= 3 + NumDigits(|FinalTruncs(orgs, maxLength)|)
  {
    var longs := LongNames(orgs, maxLength);
    LongNamesAreLong(orgs, maxLength);
    var start := InitialTruncs(longs, maxLength);
    NumDigitsMonotone(|longs|, |orgs|);
    assert CutSoFar(start, maxLength) by {
      forall i | 0 <= i < |start|
        ensures |start[i]| == maxLength - 2
      {
        assert start[i] == InitialTrunc(longs[i], maxLength);
      }
    }
    FixpointKeepsCut(start, maxLength);
  }

  lemma SmallGroupsExact(fix: seq<string>, maxLength: int)
    requires CutSoFar(fix, maxLength) && Step(fix, maxLength) == fix
    requires maxLength >= 3 + NumDigits(|fix|)
    requires GroupsUnderTen(fix)
    ensures LabelsExact(Labels(fix), maxLength)
  {
    forall i | 0 <= i < |fix|
      ensures |Labels(fix)[i]| == maxLength
    {
      ExactAt(fix, maxLength, i);
    }
  }

  lemma ExactAt(fix: seq<string>, maxLength: int, i: nat)
    requires CutSoFar(fix, maxLength) && Step(fix, maxLength) == fix
    requires maxLength >= 3 + NumDigits(|fix|)
    requires i < |fix| && Count(fix, fix[i]) < 10
    ensures |Labels(fix)[i]| == maxLength
  {
    LabelLength(fix, maxLength, i);
    var c := Count(fix, fix[i]);
    if c > 1 {
      CountOfEntry(fix, i);
      var k := Count(fix[..i], fix[i]) + 1;
      assert NumDigits(c) == 1 && NumDigits(k) == 1;
    }
  }

  lemma LargeGroupShort(fix: seq<string>, maxLength: int)
    requires CutSoFar(fix, maxLength) && Step(fix, maxLength) == fix
    requires maxLength >= 3 + NumDigits(|fix|)
    requires !GroupsUnderTen(fix)
    ensures !LabelsExact(Labels(fix), maxLength)
  {
    var i :| 0 <= i < |fix| && Count(fix, fix[i]) >= 10;
    var f := FirstOccurrence(fix, fix[i]);
    LabelLength(fix, maxLength, f);
    assert |Labels(fix)[f]| < maxLength;
  }

  /** With fewer than ten long names no group reaches ten, so the exact-length assertion holds. */
  lemma FewLongNamesAreExact(orgs: seq<string>, maxLength: int)
    requires maxLength >= 3 + NumDigits(|orgs|)
    requires |LongNames(orgs, maxLength)| < 10
    ensures LabelsExact(FinalLabels(orgs, maxLength), maxLength)
  {
    FinalLabelsExactIff(orgs, maxLength);
  }
}
