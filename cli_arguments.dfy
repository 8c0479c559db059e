/**
 * The argument helpers of the command line (`cli_arguments.py`): the
 * list option that may be given several times, the date type of
 * `--since` and `--until`, and the trailing slash of a subfolder.
 */
module CliArguments {
  import opened Errors
  import opened Strs
  import opened PyValues

  // ------------------------------------------------------ SplitAppendArgs

  /**
   * One occurrence of a list option: a false current value (the default,
   * `""` or `[]`) is replaced by the new items, a list is extended by them,
   * and any other true value has no `extend` (an `AttributeError`).
   */
  function SplitAppend(current: Value, xs: seq<string>): (r: Result<Value>)
    ensures r.Ok? <==> !Truthy(current) || current.List?
    ensures r.Ok? ==> r.value.List? && r.value.items == (if Truthy(current) then current.items else []) + xs
  {
    if !Truthy(current) then Ok(List(xs))
    else if current.List? then Ok(List(current.items + xs))
    else Raise(AttributeError)
  }

  /** The items of a list value, none for any false value. */
  function Items(v: Value): seq<string>
  {
    if v.List? then v.items else []
  }

  /** All items of all occurrences, in order. */
  function Concat(xss: seq<seq<string>>): seq<string>
  {
    if xss == [] then [] else xss[0] + Concat(xss[1..])
  }

  /** The value after several occurrences of the option, in order. */
  function Occurrences(current: Value, xss: seq<seq<string>>): Result<Value>
    decreases |xss|
  {
    if xss == [] then Ok(current)
    else match SplitAppend(current, xss[0])
      case Ok(v) => Occurrences(v, xss[1..])
      case Raise(e) => Raise(e)
  }

  /**
   * Starting from a false default or a list, an option given several times
   * holds every item of every occurrence, in the order given.
   */
  lemma {:induction false} OccurrencesConcatenate(current: Value, xss: seq<seq<string>>)
    requires xss != []
    requires !Truthy(current) || current.List?
    ensures Occurrences(current, xss) == Ok(List(Items(current) + Concat(xss)))
    decreases |xss|
  {
    var next := SplitAppend(current, xss[0]).value;
    assert next.items == Items(current) + xss[0];
    if |xss| > 1 {
      OccurrencesConcatenate(next, xss[1..]);
      assert Items(current) + xss[0] + Concat(xss[1..]) == Items(current) + (xss[0] + Concat(xss[1..]));
    } else {
      assert Concat(xss) == xss[0];
    }
  }

  /** An `argparse` namespace: the parsed value of each destination. */
  class Namespace {
    var values: map<string, Value>

    constructor (values: map<string, Value>)
      ensures this.values == values
    {
      this.values := values;
    }
  }

  /** The `action` of the list options. */
  class SplitAppendArgs {
    const dest: string

    constructor (dest: string)
      ensures this.dest == dest
    {
      this.dest := dest;
    }

    /**
     * `__call__` with `xs`, the option's text already split at commas
     * (`str_split_comma` is not part of this model). A namespace without
     * the destination is an `AttributeError`; only the destination changes.
     */
    method Call(namespace: Namespace, xs: seq<string>) returns (r: Result<()>)
      modifies namespace
      ensures dest !in old(namespace.values) ==> r == Raise(AttributeError) && namespace.values == old(namespace.values)
      ensures dest in old(namespace.values) ==>
        var next := SplitAppend(old(namespace.values)[dest], xs);
        && (next.Ok? ==> r == Ok(()) && namespace.values == old(namespace.values)[dest := next.value])
        && (next.Raise? ==> r == Raise(next.error) && namespace.values == old(namespace.values))
    {
      if dest !in namespace.values {
        return Raise(AttributeError);
      }
      var current := namespace.values[dest];
      if !Truthy(current) {
        namespace.values := namespace.values[dest := List(xs)];
      } else if current.List? {
        namespace.values := namespace.values[dest := List(current.items + xs)];
      } else {
        return Raise(AttributeError);
      }
      r := Ok(());
    }
  }

  // -------------------------------------------------- valid_datetime_type

  predicate InRange(c: char, lo: char, hi: char)
  {
    lo <= c <= hi
  }

  /**
   * The month of `strptime`'s "%m", `1[0-2]|0[1-9]|[1-9]`, when it is
   * all of `t`.
   */
  function MonthText(t: string): (m: Option<nat>)
    ensures m.Some? ==> 1 <= m.value <= 12
  {
    if |t| == 2 && t[0] == '1' && InRange(t[1], '0', '2') then Some(10 + DigitValue(t[1]))
    else if |t| == 2 && t[0] == '0' && InRange(t[1], '1', '9') then Some(DigitValue(t[1]))
    else if |t| == 1 && InRange(t[0], '1', '9') then Some(DigitValue(t[0]))
    else None
  }

  /**
   * The day of `strptime`'s "%d", `3[01]|[12]\d|0[1-9]|[1-9]| [1-9]`: the
   * first alternative that matches at the start of `t`, as its length and
   * value. It ends the pattern, so a later alternative is never tried.
   */
  function DayMatch(t: string): (d: Option<(nat, nat)>)
    ensures d.Some? ==> 1 <= d.value.0 <= 2 && d.value.0 <= |t| && 1 <= d.value.1 <= 31
  {
    if |t| >= 2 && t[0] == '3' && InRange(t[1], '0', '1') then Some((2, 30 + DigitValue(t[1])))
    else if |t| >= 2 && InRange(t[0], '1', '2') && IsDigit(t[1]) then Some((2, 10 * DigitValue(t[0]) + DigitValue(t[1])))
    else if |t| >= 2 && t[0] == '0' && InRange(t[1], '1', '9') then Some((2, DigitValue(t[1])))
    else if |t| >= 1 && InRange(t[0], '1', '9') then Some((1, DigitValue(t[0])))
    else if |t| >= 2 && t[0] == ' ' && InRange(t[1], '1', '9') then Some((2, DigitValue(t[1])))
    else None
  }

  /**
   * `strptime(s, "%Y-%m-%d")` up to the calendar check: four digits, "-",
   * a month, "-", a day, and nothing left over.
   */
  function ParseDate(s: string): (r: Option<(nat, nat, nat)>)
    ensures r.Some? ==> r.value.0 < 10000 && 1 <= r.value.1 <= 12 && 1 <= r.value.2 <= 31
  {
    if |s| >= 5 && AllDigits(s[..4]) && s[4] == '-' then
      var rest := s[5..];
      var k := if |rest| >= 2 && rest[1] == '-' then 1 else 2;
      if |rest| > k && rest[k] == '-' && MonthText(rest[..k]).Some? then
        match DayMatch(rest[k + 1..])
        case Some((len, d)) =>
          if len == |rest[k + 1..]| then
            DigitsBelow(s[..4]);
            Some((DigitsValue(s[..4]), MonthText(rest[..k]).value, d))
          else None
        case None => None
      else None
    else None
  }

  /** The value of four digits, place by place. */
  lemma FourDigits(s: string)
    requires |s| == 4 && AllDigits(s)
    ensures DigitsValue(s) == 1000 * DigitValue(s[0]) + 100 * DigitValue(s[1]) + 10 * DigitValue(s[2]) + DigitValue(s[3])
  {
    var a, b, c := s[..3], s[..2], s[..1];
    assert DigitsValue(c) == DigitValue(s[0]) by { assert c[..0] == []; }
    assert DigitsValue(b) == 10 * DigitsValue(c) + DigitValue(s[1]) by { assert b[..1] == c; }
    assert DigitsValue(a) == 10 * DigitsValue(b) + DigitValue(s[2]) by { assert a[..2] == b; }
    assert DigitsValue(s) == 10 * DigitsValue(a) + DigitValue(s[3]);
  }

  /** Four digits are below 10000. */
  lemma DigitsBelow(s: string)
    requires |s| == 4 && AllDigits(s)
    ensures DigitsValue(s) < 10000
  {
    FourDigits(s);
  }

  predicate IsLeap(y: nat)
  {
    y % 4 == 0 && (y % 100 != 0 || y % 400 == 0)
  }

  /** The number of days of a month of the Gregorian calendar. */
  function DaysInMonth(y: nat, m: nat): (n: nat)
    ensures 28 <= n <= 31
  {
    if m == 4 || m == 6 || m == 9 || m == 11 then 30
    else if m == 2 then (if IsLeap(y) then 29 else 28)
    else 31
  }

  /** A number below 100 as two digits. */
  function Pad2(n: nat): (t: string)
    requires n < 100
    ensures |t| == 2
  {
    [DigitChar(n / 10), DigitChar(n % 10)]
  }

  /** A number below 10000 as four digits. */
  function Pad4(n: nat): (t: string)
    requires n < 10000
    ensures |t| == 4
  {
    Pad2(n / 100) + Pad2(n % 100)
  }

  /** `strftime("%Y-%m-%d")`. */
  function FormatDate(y: nat, m: nat, d: nat): (t: string)
    requires y < 10000 && m < 100 && d < 100
    ensures |t| == 10
  {
    Pad4(y) + "-" + Pad2(m) + "-" + Pad2(d)
  }

  /** The value of the two digits at `i` and `i + 1`. */
  function TwoDigits(t: string, i: nat): nat
    requires i + 1 < |t| && IsDigit(t[i]) && IsDigit(t[i + 1])
  {
    10 * DigitValue(t[i]) + DigitValue(t[i + 1])
  }

  /** A date as `strftime("%Y-%m-%d")` writes it, of a day that exists (year 1 onwards). */
  predicate IsIsoDate(t: string)
  {
    && |t| == 10 && t[4] == '-' && t[7] == '-'
    && AllDigits(t[..4]) && IsDigit(t[5]) && IsDigit(t[6]) && IsDigit(t[8]) && IsDigit(t[9])
    && var y, m, d := DigitsValue(t[..4]), TwoDigits(t, 5), TwoDigits(t, 8);
       1 <= y && 1 <= m <= 12 && 1 <= d <= DaysInMonth(y, m)
  }

  /**
   * `valid_datetime_type`: "" is kept; otherwise a day of the calendar
   * written as `YYYY-MM-DD` (month and day may have one digit) comes back
   * written in full, and anything else is an `ArgumentTypeError`.
   */
  function ValidDatetime(s: string): (r: Result<string>)
    ensures s == "" ==> r == Ok("")
    ensures r.Raise? ==> r.error == ArgumentTypeError
    ensures r.Ok? && s != "" ==> IsIsoDate(r.value)
  {
    if s == "" then Ok("")
    else match ParseDate(s)
      case None => Raise(ArgumentTypeError)
      case Some((y, m, d)) =>
        if 1 <= y && d <= DaysInMonth(y, m) then
          FormatIsIso(y, m, d);
          Ok(FormatDate(y, m, d))
        else Raise(ArgumentTypeError)
  }

  lemma Pad2Digits(n: nat)
    requires n < 100
    ensures IsDigit(Pad2(n)[0]) && IsDigit(Pad2(n)[1])
    ensures TwoDigits(Pad2(n), 0) == n
  {
  }

  lemma Pad4Digits(n: nat)
    requires n < 10000
    ensures AllDigits(Pad4(n)) && DigitsValue(Pad4(n)) == n
  {
    var t := Pad4(n);
    var q, r := n / 100, n % 100;
    Pad2Digits(q);
    Pad2Digits(r);
    FourDigits(t);
    assert 1000 * DigitValue(t[0]) + 100 * DigitValue(t[1]) == 100 * q;
    assert 10 * DigitValue(t[2]) + DigitValue(t[3]) == r;
  }

  /** A written date reads back as its numbers. */
  lemma FormatIsIso(y: nat, m: nat, d: nat)
    requires 1 <= y < 10000 && 1 <= m <= 12 && 1 <= d <= DaysInMonth(y, m)
    ensures IsIsoDate(FormatDate(y, m, d))
  {
    var t := FormatDate(y, m, d);
    Pad4Digits(y);
    Pad2Digits(m);
    Pad2Digits(d);
    assert t[..4] == Pad4(y);
    assert t[5..7] == Pad2(m) && t[8..10] == Pad2(d);
  }

  /** A month written with two digits is read by "%m". */
  lemma MonthOfTwo(t: string)
    requires |t| == 2 && IsDigit(t[0]) && IsDigit(t[1]) && 1 <= TwoDigits(t, 0) <= 12
    ensures MonthText(t) == Some(TwoDigits(t, 0))
  {
  }

  /** A day written with two digits is read by "%d" as a whole. */
  lemma DayOfTwo(t: string)
    requires |t| == 2 && IsDigit(t[0]) && IsDigit(t[1]) && 1 <= TwoDigits(t, 0) <= 31
    ensures DayMatch(t) == Some((2, TwoDigits(t, 0)))
  {
  }

  /** A date written in full is read as its numbers. */
  lemma IsoDateParsed(t: string)
    requires IsIsoDate(t)
    ensures ParseDate(t) == Some((DigitsValue(t[..4]), TwoDigits(t, 5), TwoDigits(t, 8)))
  {
    var rest := t[5..];
    assert rest[..2] == t[5..7] && rest[2] == '-' && rest[3..] == t[8..10];
    MonthOfTwo(t[5..7]);
    DayOfTwo(t[8..10]);
  }

  /** A date written in full is written back the same. */
  lemma IsoDateWritten(t: string)
    requires IsIsoDate(t)
    ensures DigitsValue(t[..4]) < 10000
    ensures FormatDate(DigitsValue(t[..4]), TwoDigits(t, 5), TwoDigits(t, 8)) == t
  {
    var y := DigitsValue(t[..4]);
    DigitsBelow(t[..4]);
    Pad4Digits(y);
    PadDigitsUnique(t[..4], Pad4(y));
    var f := FormatDate(y, TwoDigits(t, 5), TwoDigits(t, 8));
    assert f[..4] == t[..4];
    forall i | 4 <= i < 10 ensures f[i] == t[i] {
    }
  }

  /** A date written in full is accepted as it is. */
  lemma IsoDateAccepted(t: string)
    requires IsIsoDate(t)
    ensures ValidDatetime(t) == Ok(t)
  {
    IsoDateParsed(t);
    IsoDateWritten(t);
  }

  /** Two strings of four digits with the same value are equal. */
  lemma PadDigitsUnique(a: string, b: string)
    requires |a| == 4 && |b| == 4 && AllDigits(a) && AllDigits(b) && DigitsValue(a) == DigitsValue(b)
    ensures a == b
  {
    FourDigits(a);
    FourDigits(b);
    assert DigitValue(a[0]) == DigitValue(b[0]);
    assert DigitValue(a[1]) == DigitValue(b[1]);
    assert DigitValue(a[2]) == DigitValue(b[2]);
    forall i | 0 <= i < 4 ensures a[i] == b[i] {
      assert IsDigit(a[i]) && IsDigit(b[i]);
    }
  }

  /** Checking a checked date again changes nothing. */
  lemma ValidDatetimeIdempotent(s: string)
    requires ValidDatetime(s).Ok?
    ensures ValidDatetime(ValidDatetime(s).value) == ValidDatetime(s)
  {
    if s != "" {
      IsoDateAccepted(ValidDatetime(s).value);
    }
  }

  /** "2024" reads as 2024. */
  lemma Year2024()
    ensures AllDigits("2024") && DigitsValue("2024") == 2024
  {
    FourDigits("2024");
  }

  lemma ShortDateParsed()
    ensures ParseDate("2024-2-9") == Some((2024, 2, 9))
  {
    var s := "2024-2-9";
    assert s[..4] == "2024" && s[5..][..1] == "2" && s[5..][2..] == "9";
    Year2024();
  }

  lemma ShortDateFormatted()
    ensures FormatDate(2024, 2, 9) == "2024-02-09"
  {
    assert Pad2(20) == "20" && Pad2(24) == "24" && Pad2(2) == "02" && Pad2(9) == "09";
    assert "2024" + "-" + "02" + "-" + "09" == "2024-02-09";
  }

  /** A short month and day are written out in full. */
  lemma ShortDateWrittenInFull()
    ensures ValidDatetime("2024-2-9") == Ok("2024-02-09")
  {
    ShortDateParsed();
    ShortDateFormatted();
    assert DaysInMonth(2024, 2) == 29;
  }

  /** A 32nd day is refused: "%d" takes the "3" and leaves the "2" over. */
  lemma DayOverRefused()
    ensures ValidDatetime("2024-01-32").Raise?
  {
    var s := "2024-01-32";
    assert s[..4] == "2024" && s[5..][..2] == "01" && s[5..][3..] == "32";
    assert DayMatch("32") == Some((1, 3));
  }

  // ------------------------------------------------ ensure_trailing_slash

  /** `ensure_trailing_slash`: a non-empty subfolder ends in one "/", added only when missing. */
  function EnsureTrailingSlash(subfolder: string): (r: string)
    ensures subfolder == "" <==> r == ""
    ensures r != "" ==> r[|r| - 1] == '/'
    ensures r == subfolder || r == subfolder + "/"
  {
    if |subfolder| > 0 && subfolder[|subfolder| - 1] != '/' then subfolder + "/" else subfolder
  }

  /** Adding the slash twice adds it once. */
  lemma EnsureTrailingSlashIdempotent(subfolder: string)
    ensures EnsureTrailingSlash(EnsureTrailingSlash(subfolder)) == EnsureTrailingSlash(subfolder)
  {
  }
}
