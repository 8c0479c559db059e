/**
 * The Python string operations the modelled code relies on, on `string`
 * as a sequence of characters: `str(n)`, `int(s)`, `s.isdigit()`,
 * `s.split()`, `s.split(sep)`, `sep.join(parts)`, `sep in s` and
 * `s.replace(old, new)`. Only ASCII whitespace and ASCII digits are
 * recognised.
 */
module Strs {
  import opened Errors

  // ------------------------------------------------------------ digits

  /** The number of decimal digits of `n`. */
  function NumDigits(n: nat): (d: nat)
    ensures 1 <= d
    ensures n < 10 <==> d == 1
  {
    if n < 10 then 1 else 1 + NumDigits(n / 10)
  }

  lemma {:induction false} NumDigitsMonotone(a: nat, b: nat)
    requires a <= b
    ensures NumDigits(a) <= NumDigits(b)
  {
    if a >= 10 {
      NumDigitsMonotone(a / 10, b / 10);
    }
  }

  /** The character of a decimal digit. */
  function DigitChar(d: nat): char
    requires d < 10
  {
    ('0' as int + d) as char
  }

  /** `str(n)` for a non-negative `n`. */
  function NatToString(n: nat): (s: string)
    ensures |s| == NumDigits(n)
  {
    if n < 10 then [DigitChar(n)]
    else NatToString(n / 10) + [DigitChar(n % 10)]
  }

  /** `c.isdigit()` for an ASCII character. */
  predicate IsDigit(c: char)
  {
    '0' as int <= c as int <= '9' as int
  }

  /** `s.isdigit()`: non-empty and all digits. */
  predicate AllDigits(s: string)
  {
    |s| > 0 && forall i :: 0 <= i < |s| ==> IsDigit(s[i])
  }

  /** The value of one digit. */
  function DigitValue(c: char): nat
    requires IsDigit(c)
  {
    c as int - '0' as int
  }

  /** The value of a string of digits, most significant first. */
  function DigitsValue(s: string): nat
    requires forall i :: 0 <= i < |s| ==> IsDigit(s[i])
  {
    if |s| == 0 then 0 else 10 * DigitsValue(s[..|s| - 1]) + DigitValue(s[|s| - 1])
  }

  /** `str(n)` is all digits, and reading it back gives `n`. */
  lemma {:induction false} NatToStringRoundTrip(n: nat)
    ensures AllDigits(NatToString(n))
    ensures DigitsValue(NatToString(n)) == n
  {
    var s := NatToString(n);
    if n >= 10 {
      NatToStringRoundTrip(n / 10);
      assert s[..|s| - 1] == NatToString(n / 10);
    }
  }

  // -------------------------------------------------------- whitespace

  /** `c.isspace()` for an ASCII character. */
  predicate IsSpace(c: char)
  {
    c == ' ' || c == '\t' || c == '\n' || c == '\r' || c as int == 11 || c as int == 12 || 28 <= c as int <= 31
  }

  /** The string without its leading whitespace. */
  function DropSpace(s: string): (r: string)
    ensures |r| <= |s|
    ensures r == [] || !IsSpace(r[0])
  {
    if |s| > 0 && IsSpace(s[0]) then DropSpace(s[1..]) else s
  }

  /** The leading run of non-whitespace characters. */
  function TakeWord(s: string): (w: string)
    ensures |w| <= |s| && w == s[..|w|]
    ensures forall i :: 0 <= i < |w| ==> !IsSpace(w[i])
  {
    if |s| > 0 && !IsSpace(s[0]) then [s[0]] + TakeWord(s[1..]) else []
  }

  /** `s.split()`: the maximal runs of non-whitespace characters, in order. */
  function Words(s: string): (ws: seq<string>)
    decreases |s|
  {
    var t := DropSpace(s);
    if t == [] then []
    else
      var w := TakeWord(t);
      [w] + Words(t[|w|..])
  }

  /** A word: non-empty, without whitespace. */
  predicate IsWord(w: string)
  {
    |w| > 0 && forall i :: 0 <= i < |w| ==> !IsSpace(w[i])
  }

  /** A word followed by whitespace splits off as the first word. */
  lemma WordThenSpace(w: string, c: char, rest: string)
    requires IsWord(w) && IsSpace(c)
    ensures Words(w + [c] + rest) == [w] + Words(rest)
  {
    var s := w + [c] + rest;
    assert DropSpace(s) == s;
    TakeWordOf(w, c, rest);
    assert s[|w|..] == [c] + rest;
    assert DropSpace([c] + rest) == DropSpace(rest);
  }

  lemma {:induction false} TakeWordOf(w: string, c: char, rest: string)
    requires (forall i :: 0 <= i < |w| ==> !IsSpace(w[i])) && IsSpace(c)
    ensures TakeWord(w + [c] + rest) == w
  {
    if |w| > 0 {
      assert (w + [c] + rest)[1..] == w[1..] + [c] + rest;
      TakeWordOf(w[1..], c, rest);
    }
  }

  /** A single word is its own split. */
  lemma {:induction false} WordAlone(w: string)
    requires IsWord(w)
    ensures Words(w) == [w]
  {
    assert DropSpace(w) == w;
    TakeWordAll(w);
    assert w[|w|..] == [];
  }

  lemma {:induction false} TakeWordAll(w: string)
    requires forall i :: 0 <= i < |w| ==> !IsSpace(w[i])
    ensures TakeWord(w) == w
  {
    if |w| > 0 {
      TakeWordAll(w[1..]);
      assert w == [w[0]] + w[1..];
    }
  }

  /** Every piece of a split is a word. */
  lemma {:induction false} WordsAreWords(s: string)
    ensures forall k :: 0 <= k < |Words(s)| ==> IsWord(Words(s)[k])
    decreases |s|
  {
    var t := DropSpace(s);
    if t != [] {
      var w := TakeWord(t);
      assert w[0] == t[0];
      WordsAreWords(t[|w|..]);
    }
  }

  /** `sep.join(parts)`. */
  function Join(parts: seq<string>, sep: string): string
  {
    if |parts| == 0 then ""
    else if |parts| == 1 then parts[0]
    else parts[0] + sep + Join(parts[1..], sep)
  }

  /** `s.strip()`: the string without leading and trailing whitespace. */
  function Strip(s: string): (r: string)
    ensures |r| <= |s|
  {
    var t := DropSpace(s);
    DropTrailing(t)
  }

  /** The string without its trailing whitespace. */
  function DropTrailing(s: string): (r: string)
    ensures |r| <= |s| && r == s[..|r|]
    ensures r == [] || !IsSpace(r[|r| - 1])
  {
    if |s| > 0 && IsSpace(s[|s| - 1]) then DropTrailing(s[..|s| - 1]) else s
  }

  // ------------------------------------------------------------ int(s)

  /**
   * `int(s)` for a base-10 string: surrounding whitespace is ignored, a
   * single "+" or "-" may come first, and at least one digit must follow;
   * anything else is a `ValueError`, here `None`.
   */
  function ParseInt(s: string): (r: Option<int>)
  {
    var t := Strip(s);
    if |t| > 0 && (t[0] == '+' || t[0] == '-') then
      var ds := t[1..];
      if AllDigits(ds) then Some(if t[0] == '-' then -(DigitsValue(ds) as int) else DigitsValue(ds)) else None
    else if AllDigits(t) then Some(DigitsValue(t))
    else None
  }

  /** `int(str(n)) == n`. */
  lemma ParseIntRoundTrip(n: nat)
    ensures ParseInt(NatToString(n)) == Some(n)
  {
    NatToStringRoundTrip(n);
    ParseDigits(NatToString(n));
  }

  /** A string of digits reads as its value. */
  lemma ParseDigits(s: string)
    requires AllDigits(s)
    ensures ParseInt(s) == Some(DigitsValue(s))
  {
    assert Strip(s) == s by {
      assert DropSpace(s) == s;
      assert DropTrailing(s) == s;
    }
  }

  // ------------------------------------------------- searching and splitting

  /** `sep` occurs in `s` at index `k`. */
  predicate StartsAt(s: string, k: nat, sep: string)
  {
    k + |sep| <= |s| && s[k..k + |sep|] == sep
  }

  /** `s.find(sep)` from index `k` on: the first index at which `sep` occurs. */
  function FindFrom(s: string, sep: string, k: nat): (r: Option<nat>)
    decreases |s| - k
    ensures r.Some? ==> k <= r.value && StartsAt(s, r.value, sep)
    ensures r.Some? ==> forall j :: k <= j < r.value ==> !StartsAt(s, j, sep)
    ensures r.None? ==> forall j :: k <= j ==> !StartsAt(s, j, sep)
  {
    if k + |sep| > |s| then None
    else if s[k..k + |sep|] == sep then Some(k)
    else FindFrom(s, sep, k + 1)
  }

  /** `sep in s`. */
  predicate Contains(s: string, sep: string)
  {
    FindFrom(s, sep, 0).Some?
  }

  /** `s.split(sep)` for a non-empty `sep`: the pieces between the occurrences, left to right. */
  function SplitOn(s: string, sep: string): (parts: seq<string>)
    requires |sep| > 0
    ensures |parts| >= 1
    decreases |s|
  {
    match FindFrom(s, sep, 0)
    case None => [s]
    case Some(k) => [s[..k]] + SplitOn(s[k + |sep|..], sep)
  }

  /** Without an occurrence the split is the whole string. */
  lemma SplitAbsent(s: string, sep: string, j: nat)
    requires j < |sep| && sep[j] !in s
    ensures !Contains(s, sep)
    ensures SplitOn(s, sep) == [s]
  {
    forall k: nat | StartsAt(s, k, sep) ensures false {
    }
  }

  /** The first occurrence of `sep` splits off what comes before it. */
  lemma SplitFirst(a: string, sep: string, b: string)
    requires |sep| > 0
    requires forall k :: 0 <= k < |a| ==> !StartsAt(a + sep + b, k, sep)
    ensures Contains(a + sep + b, sep)
    ensures SplitOn(a + sep + b, sep) == [a] + SplitOn(b, sep)
  {
    var s := a + sep + b;
    assert StartsAt(s, |a|, sep) by {
      assert s[|a|..|a| + |sep|] == sep;
    }
    assert FindFrom(s, sep, 0) == Some(|a|);
    assert s[..|a|] == a;
    assert s[|a| + |sep|..] == b;
  }

  /** A separator that occurs once, between `a` and `b`, splits into `a` and `b`. */
  lemma SplitTwo(a: string, sep: string, b: string, j: nat)
    requires forall k :: 0 <= k < |a| ==> !StartsAt(a + sep + b, k, sep)
    requires j < |sep| && sep[j] !in b
    ensures Contains(a + sep + b, sep)
    ensures SplitOn(a + sep + b, sep) == [a, b]
  {
    SplitFirst(a, sep, b);
    SplitAbsent(b, sep, j);
  }

  /** A one-character separator absent from `a` first occurs right after `a`. */
  lemma NoCharBefore(a: string, c: char, b: string)
    requires c !in a
    ensures forall k :: 0 <= k < |a| ==> !StartsAt(a + [c] + b, k, [c])
  {
    forall k | 0 <= k < |a| ensures !StartsAt(a + [c] + b, k, [c]) {
      assert (a + [c] + b)[k] == a[k];
    }
  }

  /**
   * A separator whose second character differs from its first, and does
   * not occur in `a`, first occurs right after `a`.
   */
  lemma NoSecondCharBefore(a: string, sep: string, b: string)
    requires |sep| >= 2 && sep[1] != sep[0] && sep[1] !in a
    ensures forall k :: 0 <= k < |a| ==> !StartsAt(a + sep + b, k, sep)
  {
    var s := a + sep + b;
    forall k | 0 <= k < |a| && StartsAt(s, k, sep) ensures false {
    }
  }

  /** A character that occurs once, between `a` and `b`, splits into `a` and `b`. */
  lemma SplitAtChar(a: string, c: char, b: string)
    requires c !in a && c !in b
    ensures Contains(a + [c] + b, [c])
    ensures SplitOn(a + [c] + b, [c]) == [a, b]
  {
    NoCharBefore(a, c, b);
    SplitTwo(a, [c], b, 0);
  }

  /**
   * A separator whose second character differs from its first and occurs
   * in neither `a` nor `b` splits `a + sep + b` into `a` and `b`.
   */
  lemma SplitAtSep(a: string, sep: string, b: string)
    requires |sep| >= 2 && sep[1] != sep[0] && sep[1] !in a && sep[1] !in b
    ensures Contains(a + sep + b, sep)
    ensures SplitOn(a + sep + b, sep) == [a, b]
  {
    NoSecondCharBefore(a, sep, b);
    SplitTwo(a, sep, b, 1);
  }

  // ------------------------------------------------------------ replace

  /** `s.replace(pat, rep)`: non-overlapping occurrences, left to right. */
  function ReplaceAll(s: string, pat: string, rep: string): string
    requires |pat| > 0
    decreases |s|
  {
    if |s| < |pat| then s
    else if s[..|pat|] == pat then rep + ReplaceAll(s[|pat|..], pat, rep)
    else [s[0]] + ReplaceAll(s[1..], pat, rep)
  }

  /** A prefix without the first character of `pat` is left alone, and the rest is replaced on its own. */
  lemma {:induction false} ReplaceAfter(a: string, s: string, pat: string, rep: string)
    requires |pat| > 0 && pat[0] !in a
    ensures ReplaceAll(a + s, pat, rep) == a + ReplaceAll(s, pat, rep)
    decreases |a|
  {
    if a == [] {
      assert a + s == s;
    } else {
      var t := a + s;
      assert t[0] == a[0];
      assert t[1..] == a[1..] + s;
      if |t| >= |pat| {
        assert t[..|pat|][0] == a[0];
        assert ReplaceAll(t, pat, rep) == [t[0]] + ReplaceAll(t[1..], pat, rep);
      } else {
        assert ReplaceAll(s, pat, rep) == s;
      }
      assert pat[0] !in a[1..];
      ReplaceAfter(a[1..], s, pat, rep);
      assert a == [a[0]] + a[1..];
    }
  }
}
