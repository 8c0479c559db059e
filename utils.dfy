/**
 * The small helpers of `utils.py`: relative file names, output file names,
 * the number parsers behind the command-line options and the hex check on
 * excluded revisions.
 *
 * Python's `int(arg)` is `Strs.ParseInt`; an `ArgumentTypeError` is
 * `Raise(ArgumentTypeError)`.
 */
module Utils {
  import opened Errors
  import opened Strs

  // ------------------------------------------------------- file names

  /**
   * `get_relative_fstr`: with a subfolder, a file inside it loses the
   * subfolder and one "/" after it, and a file outside it gets a leading "/".
   * The original name can always be recovered from the result.
   */
  function RelativeFstr(fstr: string, subfolder: string): (r: string)
    ensures subfolder == "" ==> r == fstr
    ensures subfolder != "" && IsPrefix(subfolder, fstr) ==>
      fstr == subfolder + r || fstr == subfolder + "/" + r
    ensures subfolder != "" && !IsPrefix(subfolder, fstr) ==> r == "/" + fstr
  {
    if |subfolder| > 0 then
      if IsPrefix(subfolder, fstr) then
        var rest := fstr[|subfolder|..];
        assert fstr == subfolder + rest;
        if IsPrefix("/", rest) then
          assert rest == "/" + rest[1..];
          rest[1..]
        else rest
      else "/" + fstr
    else fstr
  }

  /** The relative names of the blamed files. */
  function RelativeNames(fstrs: seq<string>, subfolder: string): (rels: seq<string>)
    ensures |rels| == |fstrs|
  {
    seq(|fstrs|, i requires 0 <= i < |fstrs| => RelativeFstr(fstrs[i], subfolder))
  }

  /** `s.startswith(p)`. */
  predicate IsPrefix(p: string, s: string)
  {
    |p| <= |s| && s[..|p|] == p
  }

  /** A file inside the subfolder comes out without the subfolder and without the "/" that follows it. */
  lemma RelativeInside(subfolder: string, name: string)
    requires subfolder != "" && subfolder[|subfolder| - 1] != '/'
    ensures RelativeFstr(subfolder + "/" + name, subfolder) == name
  {
    var fstr := subfolder + "/" + name;
    assert fstr[..|subfolder|] == subfolder;
    assert fstr[|subfolder|..] == "/" + name;
  }

  /** A subfolder given with its trailing "/" gives the same relative names. */
  lemma RelativeTrailingSlash(subfolder: string, name: string)
    requires subfolder != "" && subfolder[|subfolder| - 1] != '/'
    requires !IsPrefix("/", name)
    ensures RelativeFstr(subfolder + "/" + name, subfolder + "/") == RelativeFstr(subfolder + "/" + name, subfolder)
  {
    RelativeInside(subfolder, name);
    var fstr := subfolder + "/" + name;
    assert fstr[..|subfolder + "/"|] == subfolder + "/";
    assert fstr[|subfolder + "/"|..] == name;
  }

  /** The characters after the last "/". */
  function LastSegment(p: string): (seg: string)
    ensures |seg| <= |p| && '/' !in seg
  {
    if p == [] || p[|p| - 1] == '/' then []
    else LastSegment(p[..|p| - 1]) + [p[|p| - 1]]
  }

  /**
   * `Path(p).name` for a POSIX path: the last component, where empty
   * components and "." do not count; "" when there is none.
   */
  function PathName(p: string): (name: string)
    ensures '/' !in name && name != "."
    decreases |p|
  {
    if p == [] then ""
    else
      var seg := LastSegment(p);
      if seg == "" || seg == "." then PathName(p[..|p| - 1])
      else seg
  }

  /** A name without "/" is its own `Path(...).name`, and so is it under any directory. */
  lemma PathNameOfName(dir: string, name: string)
    requires name != "" && name != "." && '/' !in name
    ensures PathName(name) == name
    ensures PathName(dir + "/" + name) == name
  {
    LastSegmentOf(name, "");
    assert "" + name == name;
    LastSegmentOf(name, dir + "/");
  }

  /** After a "/" (or from the start), a name without "/" is the last segment. */
  lemma {:induction false} LastSegmentOf(name: string, front: string)
    requires '/' !in name
    requires front == "" || front[|front| - 1] == '/'
    ensures LastSegment(front + name) == name
    decreases |name|
  {
    if name == [] {
      assert front + name == front;
    } else {
      var n := |name| - 1;
      var p := front + name;
      assert p[|p| - 1] == name[n] && name[n] != '/';
      assert p[..|p| - 1] == front + name[..n];
      assert LastSegment(p) == LastSegment(front + name[..n]) + [name[n]];
      assert '/' !in name[..n] by {
        forall c | c in name[..n] ensures c != '/' { assert c in name; }
      }
      LastSegmentOf(name[..n], front);
      assert name == name[..n] + [name[n]];
    }
  }

  /**
   * `get_outfile_name`: the base name of `outfileBase`, with the repository
   * name in front for "prefix", behind it for "postfix", and alone otherwise.
   */
  function OutfileName(fix: string, outfileBase: string, repoName: string): (r: string)
    ensures var base := PathName(outfileBase);
      && (fix == "prefix" ==> r == repoName + "-" + base)
      && (fix == "postfix" ==> r == base + "-" + repoName)
      && (fix != "prefix" && fix != "postfix" ==> r == base)
  {
    var baseName := PathName(outfileBase);
    if fix == "prefix" then repoName + "-" + baseName
    else if fix == "postfix" then baseName + "-" + repoName
    else baseName
  }

  /** Only the last component of the base matters: a base given with directories names the same file. */
  lemma OutfileNameIgnoresDirectory(fix: string, dir: string, base: string, repoName: string)
    requires base != "" && base != "." && '/' !in base
    ensures OutfileName(fix, dir + "/" + base, repoName) == OutfileName(fix, base, repoName)
  {
    PathNameOfName(dir, base);
  }

  // -------------------------------------------------- option numbers

  /** `get_digit`: an integer from 0 to 9, else `ArgumentTypeError`. */
  function GetDigit(arg: string): (r: Result<int>)
    ensures r.Ok? <==> ParseInt(arg).Some? && 0 <= ParseInt(arg).value < 10
    ensures r.Ok? ==> r.value == ParseInt(arg).value
    ensures r.Raise? ==> r.error == ArgumentTypeError
  {
    match ParseInt(arg)
    case Some(n) => if 0 <= n < 10 then Ok(n) else Raise(ArgumentTypeError)
    case None => Raise(ArgumentTypeError)
  }

  /** `get_pos_number`: an integer of at least 0, else `ArgumentTypeError`. */
  function GetPosNumber(arg: string): (r: Result<int>)
    ensures r.Ok? <==> ParseInt(arg).Some? && ParseInt(arg).value >= 0
    ensures r.Ok? ==> r.value == ParseInt(arg).value
    ensures r.Raise? ==> r.error == ArgumentTypeError
  {
    match ParseInt(arg)
    case Some(n) => if 0 <= n then Ok(n) else Raise(ArgumentTypeError)
    case None => Raise(ArgumentTypeError)
  }

  /** `get_pos_number_or_empty`: as `get_pos_number`, except that "" is 0. */
  function GetPosNumberOrEmpty(arg: string): (r: Result<int>)
  {
    if arg == "" then Ok(0)
    else
      match ParseInt(arg)
      case Some(n) => if 0 <= n then Ok(n) else Raise(ArgumentTypeError)
      case None => Raise(ArgumentTypeError)
  }

  /** The two positive-number parsers agree on every argument but "", which only the second accepts. */
  lemma PosNumberOrEmptyAgrees(arg: string)
    ensures arg != "" ==> GetPosNumberOrEmpty(arg) == GetPosNumber(arg)
    ensures GetPosNumberOrEmpty("") == Ok(0) && GetPosNumber("") == Raise(ArgumentTypeError)
  {
    assert Strip("") == "";
  }

  /** A digit is a positive number, and every written-out digit and number is read back. */
  lemma NumberParsersRoundTrip(n: nat)
    ensures GetPosNumber(NatToString(n)) == Ok(n)
    ensures n < 10 ==> GetDigit(NatToString(n)) == Ok(n)
    ensures GetDigit(NatToString(n)).Ok? ==> n < 10
  {
    ParseIntRoundTrip(n);
  }

  /** A negative number is refused by both parsers. */
  lemma NegativeRefused(n: nat)
    requires n > 0
    ensures GetPosNumber("-" + NatToString(n)) == Raise(ArgumentTypeError)
    ensures GetDigit("-" + NatToString(n)) == Raise(ArgumentTypeError)
  {
    NatToStringRoundTrip(n);
    ParseNegative(NatToString(n));
  }

  /** A "-" before digits reads as the negated value. */
  lemma ParseNegative(ds: string)
    requires AllDigits(ds)
    ensures ParseInt("-" + ds) == Some(-(DigitsValue(ds) as int))
  {
    var s := "-" + ds;
    assert s[1..] == ds;
    assert DropSpace(s) == s;
    assert s[|s| - 1] == ds[|ds| - 1];
    assert DropTrailing(s) == s;
  }

  // ------------------------------------------------------ hex checks

  /** One of "0123456789abcdefABCDEF". */
  predicate IsHex(c: char)
  {
    ('0' <= c <= '9') || ('a' <= c <= 'f') || ('A' <= c <= 'F')
  }

  /** The non-hex characters of one string, in order. */
  function NonHex(s: string): (r: seq<char>)
    ensures forall c :: c in r ==> c in s && !IsHex(c)
    ensures r == [] <==> forall i :: 0 <= i < |s| ==> IsHex(s[i])
  {
    if s == [] then []
    else (if IsHex(s[0]) then [] else [s[0]]) + NonHex(s[1..])
  }

  /** `non_hex_chars_in_list`: every non-hex character of every string, in order, repeats kept. */
  function NonHexCharsInList(sList: seq<string>): (r: seq<char>)
  {
    if sList == [] then [] else NonHex(sList[0]) + NonHexCharsInList(sList[1..])
  }

  /** The list of non-hex characters is empty iff every string is all hex. */
  lemma {:induction false} NonHexEmptyIff(sList: seq<string>)
    ensures NonHexCharsInList(sList) == [] <==>
      forall k, i :: 0 <= k < |sList| && 0 <= i < |sList[k]| ==> IsHex(sList[k][i])
  {
    if sList != [] {
      NonHexEmptyIff(sList[1..]);
      if NonHexCharsInList(sList) == [] {
        forall k, i | 0 <= k < |sList| && 0 <= i < |sList[k]|
          ensures IsHex(sList[k][i])
        {
          if k > 0 {
            assert sList[k] == sList[1..][k - 1];
          }
        }
      } else if NonHex(sList[0]) == [] {
        var k, i :| 0 <= k < |sList[1..]| && 0 <= i < |sList[1..][k]| && !IsHex(sList[1..][k][i]);
        assert sList[k + 1][i] == sList[1..][k][i];
      }
    }
  }

  /** The characters of a joined list come in the order of the list: the check distributes over concatenation. */
  lemma {:induction false} NonHexConcat(a: seq<string>, b: seq<string>)
    ensures NonHexCharsInList(a + b) == NonHexCharsInList(a) + NonHexCharsInList(b)
  {
    if a != [] {
      assert (a + b)[1..] == a[1..] + b;
      NonHexConcat(a[1..], b);
    } else {
      assert a + b == b;
    }
  }
}
