/**
 * The ids that tie the parts of the html report together: the id of a
 * blame table for one file at one commit, the radio button that selects it,
 * the tab and pane of a file, and the server's reading of a table id.
 */
module HtmlIds {
  import opened Strs
  import opened Errors
  import Utils

  // ------------------------------------------------------ table ids

  /** `f"file-{file_nr}-sha-{sha_nr}"`. */
  function TableId(fileNr: nat, shaNr: nat): string
  {
    "file-" + NatToString(fileNr) + "-sha-" + NatToString(shaNr)
  }

  /** `f"button-file-{blame_tab_index}-sha-{sha_nr}"`: the id of a radio button, also the `for` of its label. */
  function ButtonId(tabIndex: nat, shaNr: nat): (id: string)
    ensures id == "button-" + TableId(tabIndex, shaNr)
  {
    "button-file-" + NatToString(tabIndex) + "-sha-" + NatToString(shaNr)
  }

  /** The digits at the start of a text. */
  function LeadingDigits(s: string): (ds: string)
    ensures |ds| <= |s| && ds == s[..|ds|]
    ensures forall i :: 0 <= i < |ds| ==> IsDigit(ds[i])
    ensures |ds| < |s| ==> !IsDigit(s[|ds|])
  {
    if s != [] && IsDigit(s[0]) then [s[0]] + LeadingDigits(s[1..]) else []
  }

  /**
   * `handle_load_table`'s `re.match(r"file-(\d+)-sha-(\d+)", table_id)`:
   * the two numbers of an id that starts with that shape, whatever follows.
   */
  function ParseTableId(s: string): (r: Option<(nat, nat)>)
    ensures r.Some? ==> Utils.IsPrefix("file-", s)
  {
    if !Utils.IsPrefix("file-", s) then None
    else
      var d1 := LeadingDigits(s[5..]);
      var rest := s[5 + |d1|..];
      if d1 == "" || !Utils.IsPrefix("-sha-", rest) then None
      else
        var d2 := LeadingDigits(rest[5..]);
        if d2 == "" then None else Some((DigitsValue(d1), DigitsValue(d2)))
  }

  lemma {:induction false} LeadingDigitsOf(ds: string, rest: string)
    requires forall i :: 0 <= i < |ds| ==> IsDigit(ds[i])
    requires rest == [] || !IsDigit(rest[0])
    ensures LeadingDigits(ds + rest) == ds
  {
    if ds != [] {
      assert (ds + rest)[1..] == ds[1..] + rest;
      LeadingDigitsOf(ds[1..], rest);
      assert ds == [ds[0]] + ds[1..];
    } else {
      assert ds + rest == rest;
    }
  }

  /** Every table id the report builds reads back as the numbers it was built from. */
  lemma TableIdRoundTrip(fileNr: nat, shaNr: nat)
    ensures ParseTableId(TableId(fileNr, shaNr)) == Some((fileNr, shaNr))
  {
    NatToStringRoundTrip(fileNr);
    NatToStringRoundTrip(shaNr);
    ParseShape(NatToString(fileNr), NatToString(shaNr));
  }

  /** "file-", digits, "-sha-", digits reads as the values of the two digit strings. */
  lemma ParseShape(d1: string, d2: string)
    requires AllDigits(d1) && AllDigits(d2)
    ensures ParseTableId("file-" + d1 + "-sha-" + d2) == Some((DigitsValue(d1), DigitsValue(d2)))
  {
    var s := "file-" + d1 + "-sha-" + d2;
    assert s[..5] == "file-";
    assert s[5..] == d1 + ("-sha-" + d2);
    LeadingDigitsOf(d1, "-sha-" + d2);
    var rest := s[5 + |d1|..];
    assert rest == "-sha-" + d2;
    assert rest[..5] == "-sha-";
    assert rest[5..] == d2 + [];
    LeadingDigitsOf(d2, []);
  }

  /** A radio button's id, less its "button-" prefix, is the id of the table it selects. */
  lemma ButtonIdNamesTable(tabIndex: nat, shaNr: nat)
    ensures var b := ButtonId(tabIndex, shaNr);
      Utils.IsPrefix("button-", b) && ParseTableId(b[7..]) == Some((tabIndex, shaNr))
  {
    var b := ButtonId(tabIndex, shaNr);
    assert b[7..] == TableId(tabIndex, shaNr);
    TableIdRoundTrip(tabIndex, shaNr);
  }

  /** Ids that do not start with "file-" are refused, and so is one without a second number. */
  lemma ParseTableIdRefuses(fileNr: nat)
    ensures ParseTableId("") == None
    ensures ParseTableId("table-1") == None
    ensures ParseTableId("file-" + NatToString(fileNr) + "-sha-") == None
  {
    var d1 := NatToString(fileNr);
    NatToStringRoundTrip(fileNr);
    var s := "file-" + d1 + "-sha-";
    assert s[..5] == "file-";
    assert s[5..] == d1 + "-sha-";
    LeadingDigitsOf(d1, "-sha-");
    var rest := s[5 + |d1|..];
    assert rest == "-sha-";
    assert LeadingDigits(rest[5..]) == "";
  }

  // --------------------------------------------------------- tab ids

  /** `s.replace(c, d)` for single characters: each `c` becomes `d`. */
  function ReplaceChar(s: string, c: char, d: char): (r: string)
    ensures |r| == |s| && forall i :: 0 <= i < |s| ==> r[i] == if s[i] == c then d else s[i]
  {
    if s == [] then [] else [if s[0] == c then d else s[0]] + ReplaceChar(s[1..], c, d)
  }

  lemma {:induction false} ReplaceCharAgrees(s: string, c: char, d: char)
    ensures ReplaceAll(s, [c], [d]) == ReplaceChar(s, c, d)
  {
    if s != [] {
      assert s[..1] == [s[0]];
      ReplaceCharAgrees(s[1..], c, d);
    }
  }

  /** `rel_fstr.replace(".", "_").replace("/", "_")`: an id without "." or "/", one character per character of the name. */
  function SafeId(rel: string): (id: string)
    ensures |id| == |rel|
    ensures forall i :: 0 <= i < |id| ==> id[i] == if rel[i] == '.' || rel[i] == '/' then '_' else rel[i]
    ensures '.' !in id && '/' !in id
  {
    ReplaceCharAgrees(rel, '.', '_');
    ReplaceCharAgrees(ReplaceChar(rel, '.', '_'), '/', '_');
    ReplaceAll(ReplaceAll(rel, ".", "_"), "/", "_")
  }

  /** Two names that differ only in "." against "_" get the same tab id. */
  lemma SafeIdCollides()
    ensures SafeId("a.py") == SafeId("a_py") == "a_py"
  {
  }

  /** The nav button of a tab: its id, the pane it shows and its text. */
  datatype NavTab = NavTab(id: string, target: string, text: string)

  /** `_new_nav_tab` of repo_html.py. */
  function NewNavTab(rel: string): (t: NavTab)
    ensures t.target == "#" + TabPaneId(rel) && t.text == rel
  {
    var safe := SafeId(rel);
    NavTab(safe + "-tab", "#" + safe, rel)
  }

  /** `_new_tab_pane` of repo_html.py: the id of the pane of a file. */
  function TabPaneId(rel: string): string
  {
    SafeId(rel)
  }

  /** `_new_nav_tab` of html.py, which uses the name as the id as it is. */
  function NewNavTabPlain(rel: string): (t: NavTab)
    ensures t.target == "#" + rel
  {
    NavTab(rel + "-tab", "#" + rel, rel)
  }

  /** The two versions make the same tab for a name without "." or "/". */
  lemma NavTabsAgree(rel: string)
    requires '.' !in rel && '/' !in rel
    ensures NewNavTab(rel) == NewNavTabPlain(rel)
  {
    assert SafeId(rel) == rel by {
      forall i | 0 <= i < |rel| ensures SafeId(rel)[i] == rel[i] { assert rel[i] in rel; }
    }
  }
}
