/**
 * The text side of the html report: how a line of code becomes the text of
 * a table cell, how the document serializer writes that text, the
 * un-escaping that the report applies to the serialized document, and how
 * a browser shows the result.
 *
 * The serializer is BeautifulSoup's text escaping ("&", "<" and ">" become
 * entities). The browser side is `Decode`, which knows the five entities
 * that can occur here. A text is a sequence of blocks when it is built
 * piece by piece; `Concat` joins them.
 */
module HtmlText {
  import opened Strs
  import Utils

  /** The character a browser shows for "&nbsp;". */
  const Nbsp: char := '\U{00A0}'

  // ------------------------------------------------------------ blocks

  function Concat(bs: seq<string>): string
  {
    if bs == [] then [] else bs[0] + Concat(bs[1..])
  }

  lemma {:induction false} ConcatAppend(a: seq<string>, b: seq<string>)
    ensures Concat(a + b) == Concat(a) + Concat(b)
  {
    if a == [] {
      assert a + b == b;
    } else {
      assert (a + b)[1..] == a[1..] + b;
      ConcatAppend(a[1..], b);
    }
  }

  /** Blocks of one character each join to the characters themselves. */
  lemma {:induction false} ConcatSingles(s: string, bs: seq<string>)
    requires |bs| == |s| && forall i :: 0 <= i < |s| ==> bs[i] == [s[i]]
    ensures Concat(bs) == s
  {
    if s != [] {
      ConcatSingles(s[1..], bs[1..]);
      assert s == [s[0]] + s[1..];
    }
  }

  /** Every block equal to `pat` becomes `rep`. */
  function Swap(bs: seq<string>, pat: string, rep: string): (r: seq<string>)
    ensures |r| == |bs|
  {
    seq(|bs|, i requires 0 <= i < |bs| => if bs[i] == pat then rep else bs[i])
  }

  /**
   * A block that cannot take part in an occurrence of `pat` that it does not
   * wholly contain: the first character of `pat` occurs in it at most at its
   * start, and when it does, the block is `pat` or parts from it early.
   */
  predicate Separate(b: string, pat: string)
    requires |pat| > 0
  {
    && (forall i :: 1 <= i < |b| ==> b[i] != pat[0])
    && (|b| > 0 && b[0] == pat[0] ==> b == pat || exists j :: 0 < j < |b| && j < |pat| && b[j] != pat[j])
  }

  /** `replace` acts block by block on blocks that keep occurrences of the pattern apart. */
  lemma {:induction false} ReplaceBlocks(bs: seq<string>, pat: string, rep: string)
    requires |pat| > 0
    requires forall k :: 0 <= k < |bs| ==> Separate(bs[k], pat)
    ensures ReplaceAll(Concat(bs), pat, rep) == Concat(Swap(bs, pat, rep))
  {
    if bs != [] {
      assert Swap(bs, pat, rep) == [if bs[0] == pat then rep else bs[0]] + Swap(bs[1..], pat, rep);
      ReplaceBlocks(bs[1..], pat, rep);
      ReplaceBlock(bs[0], Concat(bs[1..]), pat, rep);
    }
  }

  /** One block in front of the rest of a text is replaced on its own. */
  lemma ReplaceBlock(b: string, rest: string, pat: string, rep: string)
    requires |pat| > 0 && Separate(b, pat)
    ensures ReplaceAll(b + rest, pat, rep) == (if b == pat then rep else b) + ReplaceAll(rest, pat, rep)
  {
    var s := b + rest;
    if b == [] {
      assert s == rest;
    } else if b[0] != pat[0] {
      assert pat[0] !in b by {
        forall i | 0 <= i < |b| ensures b[i] != pat[0] { }
      }
      ReplaceAfter(b, rest, pat, rep);
    } else if b == pat {
      assert s[..|pat|] == pat;
      assert s[|pat|..] == rest;
    } else {
      ReplaceBlockParts(b, rest, pat, rep);
    }
  }

  lemma ReplaceBlockParts(b: string, rest: string, pat: string, rep: string)
    requires |pat| > 0 && Separate(b, pat) && b != [] && b[0] == pat[0] && b != pat
    ensures ReplaceAll(b + rest, pat, rep) == b + ReplaceAll(rest, pat, rep)
  {
    SeparateParts(b, rest, pat);
    calc {
      ReplaceAll(b + rest, pat, rep);
      { ReplaceSkipFirst(b + rest, pat, rep); assert (b + rest)[1..] == b[1..] + rest; }
      [b[0]] + ReplaceAll(b[1..] + rest, pat, rep);
      { ReplaceAfter(b[1..], rest, pat, rep); }
      [b[0]] + (b[1..] + ReplaceAll(rest, pat, rep));
      { assert b == [b[0]] + b[1..]; }
      b + ReplaceAll(rest, pat, rep);
    }
  }

  /** A separate block that is not the pattern does not start an occurrence, and holds no later start of one. */
  lemma SeparateParts(b: string, rest: string, pat: string)
    requires |pat| > 0 && Separate(b, pat) && b != [] && b[0] == pat[0] && b != pat
    ensures var s := b + rest; s != [] && s[0] == b[0] && (|s| < |pat| || s[..|pat|] != pat)
    ensures pat[0] !in b[1..]
  {
    var s := b + rest;
    var j :| 0 < j < |b| && j < |pat| && b[j] != pat[j];
    if |s| >= |pat| {
      assert s[..|pat|][j] == b[j];
    }
    forall i | 0 <= i < |b[1..]| ensures b[1..][i] != pat[0] { assert b[1..][i] == b[i + 1]; }
  }

  /** A text that does not start with the pattern keeps its first character. */
  lemma ReplaceSkipFirst(s: string, pat: string, rep: string)
    requires |pat| > 0 && s != [] && (|s| < |pat| || s[..|pat|] != pat)
    ensures ReplaceAll(s, pat, rep) == [s[0]] + ReplaceAll(s[1..], pat, rep)
  {
    if |s| < |pat| {
      assert ReplaceAll(s[1..], pat, rep) == s[1..];
      assert s == [s[0]] + s[1..];
    }
  }

  // ------------------------------------------------------ code escaping

  /**
   * The text of a code cell: for a non-empty line the four chained
   * `replace` calls (" ", "<", ">", '"' into entities), for an empty line
   * "&nbsp;". An "&" in the code stays as it is.
   */
  function EscapeCode(code: string): string
  {
    if code == "" then "&nbsp;"
    else ReplaceAll(ReplaceAll(ReplaceAll(ReplaceAll(code, " ", "&nbsp;"), "<", "&lt;"), ">", "&gt;"), "\"", "&quot;")
  }

  /** What `EscapeCode` makes of one character. */
  function EscapeChar(c: char): string
  {
    if c == ' ' then "&nbsp;"
    else if c == '<' then "&lt;"
    else if c == '>' then "&gt;"
    else if c == '"' then "&quot;"
    else [c]
  }

  function CharBlocks(s: string, f: char -> string): (r: seq<string>)
    ensures |r| == |s| && forall i :: 0 <= i < |s| ==> r[i] == f(s[i])
  {
    seq(|s|, i requires 0 <= i < |s| => f(s[i]))
  }

  /** Replacing a one-character pattern is a substitution for each character. */
  lemma {:induction false} ReplaceChar(s: string, c: char, rep: string)
    ensures ReplaceAll(s, [c], rep) == Concat(CharBlocks(s, x => if x == c then rep else [x]))
  {
    var f := x => if x == c then rep else [x];
    if s != [] {
      ReplaceChar(s[1..], c, rep);
      assert CharBlocks(s, f) == [f(s[0])] + CharBlocks(s[1..], f);
      assert s[..1] == [s[0]];
    }
  }

  /** A one-character substitution applied to a text built of blocks acts on each block. */
  lemma {:induction false} ReplaceCharBlocks(bs: seq<string>, c: char, rep: string)
    ensures ReplaceAll(Concat(bs), [c], rep) == Concat(seq(|bs|, k requires 0 <= k < |bs| => ReplaceAll(bs[k], [c], rep)))
  {
    var g := k requires 0 <= k < |bs| => ReplaceAll(bs[k], [c], rep);
    if bs != [] {
      ReplaceCharBlocks(bs[1..], c, rep);
      var f := x => if x == c then rep else [x];
      ReplaceChar(bs[0] + Concat(bs[1..]), c, rep);
      ReplaceChar(bs[0], c, rep);
      ReplaceChar(Concat(bs[1..]), c, rep);
      CharBlocksAppend(bs[0], Concat(bs[1..]), f);
      assert seq(|bs|, g) == [g(0)] + seq(|bs| - 1, k requires 0 <= k < |bs| - 1 => ReplaceAll(bs[1..][k], [c], rep));
    }
  }

  lemma CharBlocksAppend(a: string, b: string, f: char -> string)
    ensures Concat(CharBlocks(a + b, f)) == Concat(CharBlocks(a, f)) + Concat(CharBlocks(b, f))
  {
    assert CharBlocks(a + b, f) == CharBlocks(a, f) + CharBlocks(b, f);
    ConcatAppend(CharBlocks(a, f), CharBlocks(b, f));
  }

  /** A text without the pattern's character is left alone. */
  lemma {:induction false} ReplaceAbsentChar(s: string, c: char, rep: string)
    requires c !in s
    ensures ReplaceAll(s, [c], rep) == s
  {
    if s != [] {
      assert s[..1] == [s[0]];
      ReplaceAbsentChar(s[1..], c, rep);
      assert s == [s[0]] + s[1..];
    }
  }

  /** The four replacements applied to one character. */
  function Chain(s: string): string
  {
    ReplaceAll(ReplaceAll(ReplaceAll(ReplaceAll(s, " ", "&nbsp;"), "<", "&lt;"), ">", "&gt;"), "\"", "&quot;")
  }

  lemma ChainChar(c: char)
    ensures Chain([c]) == EscapeChar(c)
  {
    ReplaceSingle(c, ' ', "&nbsp;");
    var s1 := ReplaceAll([c], " ", "&nbsp;");
    if c == ' ' {
      ChainRest(s1, true, true, true);
    } else {
      ReplaceSingle(c, '<', "&lt;");
      var s2 := ReplaceAll(s1, "<", "&lt;");
      if c == '<' {
        ChainRest(s2, false, true, true);
      } else {
        ReplaceSingle(c, '>', "&gt;");
        var s3 := ReplaceAll(s2, ">", "&gt;");
        if c == '>' {
          ChainRest(s3, false, false, true);
        } else {
          ReplaceSingle(c, '"', "&quot;");
        }
      }
    }
  }

  /** A one-character text is replaced iff it is the pattern. */
  lemma ReplaceSingle(x: char, c: char, rep: string)
    ensures ReplaceAll([x], [c], rep) == if x == c then rep else [x]
  {
    assert [x][..1] == [x] && [x][1..] == [];
  }

  /** The later replacements of the chain leave an entity alone. */
  lemma ChainRest(e: string, lt: bool, gt: bool, quot: bool)
    requires '<' !in e && '>' !in e && '"' !in e
    ensures lt ==> ReplaceAll(e, "<", "&lt;") == e
    ensures gt ==> ReplaceAll(e, ">", "&gt;") == e
    ensures quot ==> ReplaceAll(e, "\"", "&quot;") == e
  {
    ReplaceAbsentChar(e, '<', "&lt;");
    ReplaceAbsentChar(e, '>', "&gt;");
    ReplaceAbsentChar(e, '"', "&quot;");
  }

  lemma {:induction false} ChainBlocks(s: string)
    ensures Chain(s) == Concat(CharBlocks(s, EscapeChar))
  {
    if s != [] {
      var bs := CharBlocks(s, EscapeChar);
      calc {
        Chain(s);
        { assert [s[0]] + s[1..] == s; }
        Chain([s[0]] + s[1..]);
        { ChainAppend([s[0]], s[1..]); }
        Chain([s[0]]) + Chain(s[1..]);
        { ChainChar(s[0]); ChainBlocks(s[1..]); }
        EscapeChar(s[0]) + Concat(CharBlocks(s[1..], EscapeChar));
        { assert bs[1..] == CharBlocks(s[1..], EscapeChar); }
        Concat(bs);
      }
    }
  }

  lemma ChainAppend(a: string, b: string)
    ensures Chain(a + b) == Chain(a) + Chain(b)
  {
    ReplaceAppend(a, b, ' ', "&nbsp;");
    var a1, b1 := ReplaceAll(a, " ", "&nbsp;"), ReplaceAll(b, " ", "&nbsp;");
    ReplaceAppend(a1, b1, '<', "&lt;");
    var a2, b2 := ReplaceAll(a1, "<", "&lt;"), ReplaceAll(b1, "<", "&lt;");
    ReplaceAppend(a2, b2, '>', "&gt;");
    var a3, b3 := ReplaceAll(a2, ">", "&gt;"), ReplaceAll(b2, ">", "&gt;");
    ReplaceAppend(a3, b3, '"', "&quot;");
  }

  lemma ReplaceAppend(a: string, b: string, c: char, rep: string)
    ensures ReplaceAll(a + b, [c], rep) == ReplaceAll(a, [c], rep) + ReplaceAll(b, [c], rep)
  {
    var f := x => if x == c then rep else [x];
    ReplaceChar(a + b, c, rep);
    ReplaceChar(a, c, rep);
    ReplaceChar(b, c, rep);
    CharBlocksAppend(a, b, f);
  }

  /** A code cell holds no space, "<", ">" or '"': they all became entities. */
  lemma EscapeCodeClean(code: string)
    ensures var t := EscapeCode(code);
      forall i :: 0 <= i < |t| ==> t[i] != ' ' && t[i] != '<' && t[i] != '>' && t[i] != '"'
  {
    if code != "" {
      ChainBlocks(code);
      CleanBlocks(code);
    }
  }

  lemma {:induction false} CleanBlocks(s: string)
    ensures var t := Concat(CharBlocks(s, EscapeChar));
      forall i :: 0 <= i < |t| ==> t[i] != ' ' && t[i] != '<' && t[i] != '>' && t[i] != '"'
  {
    if s != [] {
      CleanBlocks(s[1..]);
      assert CharBlocks(s, EscapeChar) == [EscapeChar(s[0])] + CharBlocks(s[1..], EscapeChar);
      var e, t := EscapeChar(s[0]), Concat(CharBlocks(s, EscapeChar));
      forall i | 0 <= i < |t| ensures t[i] != ' ' && t[i] != '<' && t[i] != '>' && t[i] != '"'
      {
        if i >= |e| {
          assert t[i] == Concat(CharBlocks(s[1..], EscapeChar))[i - |e|];
        } else {
          assert t[i] == e[i];
        }
      }
    }
  }

  // ------------------------------------------------ serializer, browser

  /** How the document serializer writes one character of a text. */
  function SerializeChar(c: char): string
  {
    if c == '&' then "&amp;" else if c == '<' then "&lt;" else if c == '>' then "&gt;" else [c]
  }

  /** The serializer's escaping of a text: "&", "<" and ">" become entities. */
  function Serialize(t: string): string
  {
    Concat(CharBlocks(t, SerializeChar))
  }

  /**
   * The replacements the report applies to the serialized document: the
   * serializer wrote each pre-escaped entity with its "&" escaped, and
   * these put the four entities back.
   */
  function Unescape(h: string): string
  {
    ReplaceAll(ReplaceAll(ReplaceAll(ReplaceAll(h, "&amp;nbsp;", "&nbsp;"), "&amp;lt;", "&lt;"), "&amp;gt;", "&gt;"), "&amp;quot;", "&quot;")
  }

  /** What a browser shows for a serialized text, for the entities that occur here. */
  function Decode(s: string): string
    decreases |s|
  {
    if s == [] then []
    else if Utils.IsPrefix("&nbsp;", s) then [Nbsp] + Decode(s[6..])
    else if Utils.IsPrefix("&lt;", s) then "<" + Decode(s[4..])
    else if Utils.IsPrefix("&gt;", s) then ">" + Decode(s[4..])
    else if Utils.IsPrefix("&quot;", s) then "\"" + Decode(s[6..])
    else if Utils.IsPrefix("&amp;", s) then "&" + Decode(s[5..])
    else [s[0]] + Decode(s[1..])
  }

  /** The entities `Decode` knows, with the character each stands for. */
  predicate IsEntity(b: string)
  {
    b == "&nbsp;" || b == "&lt;" || b == "&gt;" || b == "&quot;" || b == "&amp;"
  }

  function EntityChar(b: string): char
  {
    if b == "&nbsp;" then Nbsp else if b == "&lt;" then '<' else if b == "&gt;" then '>'
    else if b == "&quot;" then '"' else '&'
  }

  /** A block a browser reads on its own: an entity, or one character other than "&". */
  predicate Readable(b: string)
  {
    IsEntity(b) || (|b| == 1 && b[0] != '&')
  }

  function ShownChar(b: string): char
    requires Readable(b)
  {
    if IsEntity(b) then EntityChar(b) else b[0]
  }

  lemma DecodeBlock(b: string, rest: string)
    requires Readable(b)
    ensures Decode(b + rest) == [ShownChar(b)] + Decode(rest)
  {
    var s := b + rest;
    if IsEntity(b) {
      DecodeEntity(b, rest);
    } else {
      assert s[0] == b[0];
      assert s[1..] == rest;
      assert forall e :: |e| > 0 && e[0] == '&' ==> !Utils.IsPrefix(e, s);
    }
  }

  lemma DecodeEntity(b: string, rest: string)
    requires IsEntity(b)
    ensures Decode(b + rest) == [EntityChar(b)] + Decode(rest)
  {
    var s := b + rest;
    assert s[..|b|] == b && s[|b|..] == rest && s[1] == b[1];
    assert forall e :: |e| > 1 && e[1] != b[1] ==> !Utils.IsPrefix(e, s) by {
      forall e | |e| > 1 && e[1] != b[1] ensures !Utils.IsPrefix(e, s) {
        if |e| <= |s| { assert s[..|e|][1] == s[1]; }
      }
    }
    assert Utils.IsPrefix(b, s);
  }

  /** A browser shows a text of readable blocks one character per block. */
  lemma {:induction false} DecodeBlocks(bs: seq<string>)
    requires forall k :: 0 <= k < |bs| ==> Readable(bs[k])
    ensures Decode(Concat(bs)) == seq(|bs|, k requires 0 <= k < |bs| => ShownChar(bs[k]))
  {
    if bs != [] {
      DecodeBlocks(bs[1..]);
      DecodeBlock(bs[0], Concat(bs[1..]));
    }
  }

  /** Whatever text a cell holds, a browser shows it unchanged once serialized. */
  lemma SerializeRoundTrip(t: string)
    ensures Decode(Serialize(t)) == t
  {
    var bs := CharBlocks(t, SerializeChar);
    DecodeBlocks(bs);
  }

  // ---------------------------------------------------------- a code cell

  /** A code line as it is meant to be seen: spaces do not break, and an empty line shows one such space. */
  function Visible(code: string): (v: string)
    ensures |v| == if code == "" then 1 else |code|
  {
    if code == "" then [Nbsp]
    else seq(|code|, i requires 0 <= i < |code| => if code[i] == ' ' then Nbsp else code[i])
  }

  /** What the browser shows for a code cell as the report builds it. */
  function ShownCode(code: string): string
  {
    Decode(Unescape(Serialize(EscapeCode(code))))
  }

  /** The serialized form of each escaped character: an entity's "&" itself escaped, any other character as it is. */
  function Doubled(c: char): string
  {
    if c == ' ' then "&amp;nbsp;"
    else if c == '<' then "&amp;lt;"
    else if c == '>' then "&amp;gt;"
    else if c == '"' then "&amp;quot;"
    else [c]
  }

  lemma SerializeAppend(a: string, b: string)
    ensures Serialize(a + b) == Serialize(a) + Serialize(b)
  {
    CharBlocksAppend(a, b, SerializeChar);
  }

  /** A text without "&", "<" or ">" is written as it is. */
  lemma SerializePlain(t: string)
    requires '&' !in t && '<' !in t && '>' !in t
    ensures Serialize(t) == t
  {
    var bs := CharBlocks(t, SerializeChar);
    forall i | 0 <= i < |t| ensures bs[i] == [t[i]] {
      assert t[i] in t;
    }
    ConcatSingles(t, bs);
  }

  /** An entity is written with its "&" escaped. */
  lemma SerializeEntity(rest: string)
    requires '&' !in rest && '<' !in rest && '>' !in rest
    ensures Serialize("&" + rest) == "&amp;" + rest
  {
    SerializeAppend("&", rest);
    assert CharBlocks("&", SerializeChar) == ["&amp;"];
    assert Concat(["&amp;"]) == "&amp;" + Concat([]);
    SerializePlain(rest);
  }

  lemma SerializeEscapeChar(c: char)
    requires c != '&'
    ensures Serialize(EscapeChar(c)) == Doubled(c)
  {
    if c == ' ' {
      assert EscapeChar(c) == "&" + "nbsp;";
      SerializeEntity("nbsp;");
    } else if c == '<' {
      assert EscapeChar(c) == "&" + "lt;";
      SerializeEntity("lt;");
    } else if c == '>' {
      assert EscapeChar(c) == "&" + "gt;";
      SerializeEntity("gt;");
    } else if c == '"' {
      assert EscapeChar(c) == "&" + "quot;";
      SerializeEntity("quot;");
    } else {
      assert CharBlocks([c], SerializeChar) == [[c]];
      assert Concat([[c]]) == [c] + Concat([]);
    }
  }

  /** The serializer acts on the escaped characters one at a time. */
  lemma {:induction false} SerializeBlocks(s: string)
    requires '&' !in s
    ensures Serialize(Concat(CharBlocks(s, EscapeChar))) == Concat(CharBlocks(s, Doubled))
  {
    if s != [] {
      var rest := Concat(CharBlocks(s[1..], EscapeChar));
      assert s[0] in s;
      calc {
        Serialize(Concat(CharBlocks(s, EscapeChar)));
        { assert CharBlocks(s, EscapeChar)[1..] == CharBlocks(s[1..], EscapeChar); }
        Serialize(EscapeChar(s[0]) + rest);
        { SerializeAppend(EscapeChar(s[0]), rest); }
        Serialize(EscapeChar(s[0])) + Serialize(rest);
        { SerializeEscapeChar(s[0]); SerializeBlocks(s[1..]); }
        Doubled(s[0]) + Concat(CharBlocks(s[1..], Doubled));
        { assert CharBlocks(s, Doubled)[1..] == CharBlocks(s[1..], Doubled); }
        Concat(CharBlocks(s, Doubled));
      }
    }
  }

  /** The blocks after the first `n` un-escaping steps, for one character. */
  function Stage(c: char, n: nat): string
  {
    if c == ' ' then (if n >= 1 then "&nbsp;" else "&amp;nbsp;")
    else if c == '<' then (if n >= 2 then "&lt;" else "&amp;lt;")
    else if c == '>' then (if n >= 3 then "&gt;" else "&amp;gt;")
    else if c == '"' then (if n >= 4 then "&quot;" else "&amp;quot;")
    else [c]
  }

  /** The patterns of the un-escaping steps, and what each becomes. */
  function StepPattern(n: nat): string
    requires 1 <= n <= 4
  {
    ["&amp;nbsp;", "&amp;lt;", "&amp;gt;", "&amp;quot;"][n - 1]
  }

  function StepReplacement(n: nat): string
    requires 1 <= n <= 4
  {
    ["&nbsp;", "&lt;", "&gt;", "&quot;"][n - 1]
  }

  lemma StageStep(c: char, n: nat)
    requires c != '&' && 1 <= n <= 4
    ensures Separate(Stage(c, n - 1), StepPattern(n))
    ensures (if Stage(c, n - 1) == StepPattern(n) then StepReplacement(n) else Stage(c, n - 1)) == Stage(c, n)
  {
    var b, p := Stage(c, n - 1), StepPattern(n);
    if |b| > 1 {
      assert b[1] == 'n' || b[1] == 'l' || b[1] == 'g' || b[1] == 'q' || b[1] == 'a';
      if b[1] == 'a' && b != p {
        assert b[5] != p[5];
      }
    }
  }

  lemma UnescapeStep(s: string, n: nat)
    requires '&' !in s && 1 <= n <= 4
    ensures ReplaceAll(Concat(CharBlocks(s, c => Stage(c, n - 1))), StepPattern(n), StepReplacement(n))
         == Concat(CharBlocks(s, c => Stage(c, n)))
  {
    var bs := CharBlocks(s, c => Stage(c, n - 1));
    forall k | 0 <= k < |bs| ensures Separate(bs[k], StepPattern(n)) {
      assert s[k] in s;
      StageStep(s[k], n);
    }
    ReplaceBlocks(bs, StepPattern(n), StepReplacement(n));
    forall k | 0 <= k < |bs|
      ensures Swap(bs, StepPattern(n), StepReplacement(n))[k] == CharBlocks(s, c => Stage(c, n))[k]
    {
      assert s[k] in s;
      StageStep(s[k], n);
    }
    assert Swap(bs, StepPattern(n), StepReplacement(n)) == CharBlocks(s, c => Stage(c, n));
  }

  /**
   * For a line without "&", the browser shows the line as meant: the
   * entities written into the cell, escaped again by the serializer, are
   * put back by the un-escaping and then read as the characters they stand for.
   */
  lemma ShownCodeWithoutAmpersand(code: string)
    requires '&' !in code
    ensures ShownCode(code) == Visible(code)
  {
    if code == "" {
      ShownEmptyCode();
    } else {
      var bs := CharBlocks(code, c => Stage(c, 4));
      forall k | 0 <= k < |bs| ensures Readable(bs[k]) && ShownChar(bs[k]) == Visible(code)[k] {
        assert code[k] in code;
      }
      calc {
        ShownCode(code);
        Decode(Unescape(Serialize(Chain(code))));
        { ChainBlocks(code); }
        Decode(Unescape(Serialize(Concat(CharBlocks(code, EscapeChar)))));
        { SerializeBlocks(code); }
        Decode(Unescape(Concat(CharBlocks(code, Doubled))));
        { UnescapeAll(code); }
        Decode(Concat(bs));
        { DecodeBlocks(bs); }
        seq(|bs|, k requires 0 <= k < |bs| => ShownChar(bs[k]));
        Visible(code);
      }
    }
  }

  /** An empty line shows one non-breaking space. */
  lemma ShownEmptyCode()
    ensures ShownCode("") == [Nbsp]
  {
    var bs := CharBlocks(" ", c => Stage(c, 4));
    calc {
      ShownCode("");
      Decode(Unescape(Serialize("&nbsp;")));
      { assert EscapeChar(' ') == "&nbsp;"; SerializeEscapeChar(' '); }
      Decode(Unescape(Doubled(' ')));
      { assert CharBlocks(" ", Doubled) == [Doubled(' ')];
        assert Concat([Doubled(' ')]) == Doubled(' ') + Concat([]); }
      Decode(Unescape(Concat(CharBlocks(" ", Doubled))));
      { UnescapeAll(" "); }
      Decode(Concat(bs));
      { DecodeBlocks(bs); }
      seq(|bs|, k requires 0 <= k < |bs| => ShownChar(bs[k]));
    }
  }

  lemma UnescapeAll(s: string)
    requires '&' !in s
    ensures Unescape(Concat(CharBlocks(s, Doubled))) == Concat(CharBlocks(s, c => Stage(c, 4)))
  {
    assert CharBlocks(s, Doubled) == CharBlocks(s, c => Stage(c, 0));
    UnescapeStep(s, 1);
    UnescapeStep(s, 2);
    UnescapeStep(s, 3);
    UnescapeStep(s, 4);
  }

  /**
   * A line that holds the text "&lt;" is shown as "<": its "&" was not
   * escaped, so the un-escaping turns the serializer's "&amp;lt;" back into
   * an entity.
   */
  lemma ShownCodeAmpersandExample()
    ensures EscapeCode("&lt;") == "&lt;"
    ensures ShownCode("&lt;") == "<"
    ensures Visible("&lt;") == "&lt;"
  {
    EscapeAmpersandExample();
    SerializeAmpersandExample();
    UnescapeAmpersandExample();
    DecodeLtExample();
    VisibleUnchanged("&lt;");
  }

  lemma SerializeAmpersandExample()
    ensures Serialize("&lt;") == "&amp;lt;"
  {
    assert "&lt;" == "&" + "lt;";
    SerializeEntity("lt;");
    assert "&amp;" + "lt;" == "&amp;lt;";
  }

  lemma DecodeLtExample()
    ensures Decode("&lt;") == "<"
  {
    DecodeEntity("&lt;", "");
    assert "&lt;" + "" == "&lt;";
  }

  /** A line without spaces is meant to be seen as it is. */
  lemma VisibleUnchanged(code: string)
    requires code != "" && ' ' !in code
    ensures Visible(code) == code
  {
    forall i | 0 <= i < |code| ensures Visible(code)[i] == code[i] {
      assert code[i] in code;
    }
  }

  lemma EscapeAmpersandExample()
    ensures EscapeCode("&lt;") == "&lt;"
  {
    ReplaceAbsentChar("&lt;", ' ', "&nbsp;");
    ReplaceAbsentChar("&lt;", '<', "&lt;");
    ReplaceAbsentChar("&lt;", '>', "&gt;");
    ReplaceAbsentChar("&lt;", '"', "&quot;");
  }

  lemma UnescapeAmpersandExample()
    ensures Unescape("&amp;lt;") == "&lt;"
  {
    UnescapeAll("<");
    assert CharBlocks("<", Doubled) == ["&amp;lt;"];
    assert CharBlocks("<", c => Stage(c, 4)) == ["&lt;"];
    assert Concat(["&amp;lt;"]) == "&amp;lt;" + Concat([]);
    assert Concat(["&lt;"]) == "&lt;" + Concat([]);
  }

  /**
   * The cell text that shows a code line as meant: the line itself, with
   * non-breaking spaces, left to the serializer to escape.
   */
  function CodeText(code: string): (t: string)
    ensures Decode(Serialize(t)) == Visible(code)
  {
    SerializeRoundTrip(Visible(code));
    Visible(code)
  }
}
