/**
 * The Dear PyGui front end's base: the view/format check boxes that exclude
 * each other, the check that a subfolder exists in the repository's tree,
 * the output path shown for the inputs, and the translation of the window's
 * values into run options (`set_args`).
 */
module DpgBase {
  import opened Errors
  import opened Strs
  import opened PyValues
  import Seqs
  import GuiFilters
  import CliArguments

  // ------------------------------------------------ paths

  /**
   * The text of `Path(parent) / name`: an empty or "." name leaves the
   * parent, an absolute name replaces it, the current folder "." gives way
   * to the name, and otherwise a single "/" separates the two.
   */
  function PathJoin(parent: string, name: string): string
  {
    if name == "" || name == "." then parent
    else if name[0] == '/' then name
    else if parent == "." then name
    else if parent != "" && parent[|parent| - 1] == '/' then parent + name
    else parent + "/" + name
  }

  /** The index of the last "/" of `r`, if any. */
  function LastSlash(r: string): (k: Option<nat>)
    ensures k.Some? ==> k.value < |r| && r[k.value] == '/' && forall i :: k.value < i < |r| ==> r[i] != '/'
    ensures k.None? ==> forall i :: 0 <= i < |r| ==> r[i] != '/'
  {
    if r == [] then None
    else if r[|r| - 1] == '/' then Some(|r| - 1)
    else LastSlash(r[..|r| - 1])
  }

  /** The last "/" of `a + "/" + b` is the one put in, when `b` has none. */
  lemma {:induction false} LastSlashBefore(a: string, b: string)
    requires forall i :: 0 <= i < |b| ==> b[i] != '/'
    ensures LastSlash(a + "/" + b) == Some(|a|)
  {
    if b != [] {
      var r := a + "/" + b;
      assert r[..|r| - 1] == a + "/" + b[..|b| - 1];
      LastSlashBefore(a, b[..|b| - 1]);
    }
  }

  /** `(str(path.parent), path.name)` of a path's text: "." is the parent of a bare name. */
  function PathSplit(r: string): (parentName: (string, string))
  {
    match LastSlash(r)
    case None => (".", r)
    case Some(k) => (if k == 0 then "/" else r[..k], r[k + 1..])
  }

  /** The text of a folder as `pathlib` prints it: not empty, and ending in "/" only for the root. */
  predicate FolderText(parent: string)
  {
    parent == "/" || (parent != "" && parent[|parent| - 1] != '/')
  }

  /** Joining a plain file name to a folder can be undone: the result's parent is the folder, its name the file name. */
  lemma JoinSplits(parent: string, name: string)
    requires FolderText(parent) && name != "" && name != "." && forall i :: 0 <= i < |name| ==> name[i] != '/'
    ensures PathSplit(PathJoin(parent, name)) == (parent, name)
  {
    var r := PathJoin(parent, name);
    if parent == "." {
      assert LastSlash(r).None?;
    } else if parent == "/" {
      assert r == "" + "/" + name;
      LastSlashBefore("", name);
      assert r[1..] == name;
    } else {
      assert r == parent + "/" + name;
      LastSlashBefore(parent, name);
      assert r[..|parent|] == parent && r[|parent| + 1..] == name;
    }
  }

  // ------------------------------------------------ view/format boxes

  /** The check box that was clicked. */
  datatype RadioKey = AutoKey | DynamicKey | HtmlKey | ExcelKey | OtherKey

  /** The four view and format check boxes of the window. */
  class ViewFormatButtons {
    var auto: bool
    var dynamicBlameHistory: bool
    var html: bool
    var excel: bool

    constructor(auto: bool, dynamicBlameHistory: bool, html: bool, excel: bool)
      ensures this.auto == auto && this.dynamicBlameHistory == dynamicBlameHistory
      ensures this.html == html && this.excel == excel
    {
      this.auto := auto;
      this.dynamicBlameHistory := dynamicBlameHistory;
      this.html := html;
      this.excel := excel;
    }

    /** Dynamic blame history is never checked together with auto view or a file format. */
    predicate Consistent()
      reads this
    {
      !(dynamicBlameHistory && (auto || html || excel))
    }

    /**
     * `process_view_format_radio_buttons`: dynamic blame history clears
     * auto, html and excel; auto, html or excel clears dynamic blame history;
     * any other key changes nothing. After any of the four, the boxes are
     * consistent, whatever they were before.
     */
    method Process(key: RadioKey)
      modifies this
      ensures key == DynamicKey ==>
        !auto && !html && !excel && dynamicBlameHistory == old(dynamicBlameHistory)
      ensures key in {AutoKey, HtmlKey, ExcelKey} ==>
        !dynamicBlameHistory && auto == old(auto) && html == old(html) && excel == old(excel)
      ensures key == OtherKey ==>
        auto == old(auto) && dynamicBlameHistory == old(dynamicBlameHistory) && html == old(html) && excel == old(excel)
      ensures key != OtherKey || old(Consistent()) ==> Consistent()
    {
      match key
      case AutoKey => dynamicBlameHistory := false;
      case DynamicKey =>
        auto := false;
        html := false;
        excel := false;
      case HtmlKey => dynamicBlameHistory := false;
      case ExcelKey => dynamicBlameHistory := false;
      case OtherKey =>
    }
  }

  // --------------------------------------------------------- subfolder

  /** A split that yields one piece yields the whole string. */
  lemma SplitSingle(s: string, sep: string)
    requires |sep| > 0 && |SplitOn(s, sep)| == 1
    ensures SplitOn(s, sep) == [s]
  {
  }

  /**
   * The components of a subfolder as `check_subfolder` walks them: split at
   * "/", without one empty first and one empty last component. The last
   * component is always there to be tested, so the walk never indexes an
   * empty list.
   */
  function SubfolderParts(subfolder: string): (parts: seq<string>)
    requires subfolder != ""
    ensures var all := SplitOn(subfolder, "/");
      && |parts| <= |all|
      && (exists lo, hi :: 0 <= lo <= 1 && |all| - 1 <= hi <= |all| && lo <= hi && parts == all[lo..hi])
  {
    var all := SplitOn(subfolder, "/");
    if all[0] == "" && |all| == 1 then
      SplitSingle(subfolder, "/");
      assert false; []
    else
      var front := if all[0] == "" then all[1..] else all;
      var lo := if all[0] == "" then 1 else 0;
      var hi := if front[|front| - 1] == "" then |all| - 1 else |all|;
      assert all[lo..hi] == if front[|front| - 1] == "" then front[..|front| - 1] else front;
      if front[|front| - 1] == "" then front[..|front| - 1] else front
  }

  /** A single name is one component. */
  lemma SubfolderOfName(name: string)
    requires name != "" && '/' !in name
    ensures SubfolderParts(name) == [name]
  {
    SplitAbsent(name, "/", 0);
  }

  /** One leading and one trailing slash around a name are stripped. */
  lemma SubfolderOfSlashedName(name: string)
    requires name != "" && '/' !in name
    ensures SubfolderParts("/" + name + "/") == [name]
  {
    var s := "/" + name + "/";
    assert s == "" + "/" + (name + "/");
    SplitFirst("", "/", name + "/");
    assert name + "/" == name + ['/'] + "";
    SplitAtChar(name, '/', "");
    var all := SplitOn(s, "/");
    assert all == ["", name, ""];
    assert all[1..][..1] == [name];
  }

  /**
   * The subfolder exists in the tree: it is empty, or every prefix of its
   * components names a tree (a directory). `entries` maps each path of the
   * tree, as components, to whether it is a tree.
   */
  predicate SubfolderExists(subfolder: string, entries: map<seq<string>, bool>)
  {
    subfolder == "" ||
    var parts := SubfolderParts(subfolder);
    forall k :: 1 <= k <= |parts| ==> parts[..k] in entries && entries[parts[..k]]
  }

  // -------------------------------------------------------- run options

  /** The view a run is started with. */
  datatype View = AutoView | DynamicView | NoView

  /** The options `set_args` builds from the window's values. */
  datatype GuiArgs = GuiArgs(
    attrs: map<string, Value>,
    multithread: bool,
    fix: string,
    view: View,
    nFiles: int,
    fileFormats: seq<string>,
    since: string,
    until: string)

  /** The schema properties `set_args` does not copy directly from the window. */
  const SetSeparately: set<string> :=
    {"profile", "fix", "n_files", "view", "file_formats", "since", "until", "multithread", "gui_settings_full_path"}

  /** The fix radio buttons: prefix wins over postfix, which wins over nofix. */
  function FixChoice(prefix: bool, postfix: bool): (fix: string)
    ensures fix in {"prefix", "postfix", "nofix"}
    ensures fix == "prefix" <==> prefix
    ensures fix == "postfix" <==> !prefix && postfix
  {
    if prefix then "prefix" else if postfix then "postfix" else "nofix"
  }

  /** Setting the button of a fix value and reading the buttons back gives that value. */
  lemma FixChoiceRoundTrip(fix: string)
    requires fix in {"prefix", "postfix", "nofix"}
    ensures FixChoice(fix == "prefix", fix == "postfix") == fix
  {
  }

  /** The view check boxes: auto wins over dynamic blame history, which wins over none. */
  function ViewChoice(auto: bool, dynamicBlameHistory: bool): (view: View)
    ensures view == AutoView <==> auto
    ensures view == DynamicView <==> !auto && dynamicBlameHistory
  {
    if auto then AutoView else if dynamicBlameHistory then DynamicView else NoView
  }

  /** Checking the box of a view and reading the boxes back gives that view. */
  lemma ViewChoiceRoundTrip(view: View)
    ensures ViewChoice(view == AutoView, view == DynamicView) == view
  {
  }

  /** `0 if not v else int(v)`: the file count entry. */
  function NFilesEntry(v: Value): (r: Result<int>)
    ensures !Truthy(v) ==> r == Ok(0)
    ensures r.Raise? ==> r.error == ValueError || r.error == TypeError
    ensures v.Str? && AllDigits(v.s) ==> r == Ok(DigitsValue(v.s))
  {
    if !Truthy(v) then Ok(0)
    else match v
      case Str(s) =>
        assert AllDigits(s) ==> ParseInt(s) == Some(DigitsValue(s)) by {
          if AllDigits(s) { ParseDigits(s); }
        }
        (match ParseInt(s) case Some(n) => Ok(n) case None => Raise(ValueError))
      case Int(i) => Ok(i)
      case Bool(b) => Ok(1)
      case _ => Raise(TypeError)
  }

  /** The field `process_n_files` leaves behind always reads back as the count it stored. */
  lemma NFilesEntryOfFiltered(typed: string)
    ensures NFilesEntry(Str(GuiFilters.FilteredNFiles(typed))) == Ok(GuiFilters.NFilesOf(typed))
  {
    var f := GuiFilters.FilteredNFiles(typed);
    if f != "" {
      assert AllDigits(f);
    }
  }

  /**
   * A since or until entry: nothing to set when it is empty; otherwise a
   * date that reads as `%Y-%m-%d`, written back in that format; anything
   * else stops `set_args`.
   */
  function DateEntry(v: Value): (r: Result<Option<string>>)
    ensures !Truthy(v) ==> r == Ok(None)
    ensures Truthy(v) && r.Ok? ==> r.value.Some?
    ensures r.Ok? && r.value.Some? ==> CliArguments.IsIsoDate(r.value.value)
  {
    if !Truthy(v) then Ok(None)
    else match v
      case Str(s) =>
        (match CliArguments.ValidDatetime(s)
         case Ok(t) => Ok(Some(t))
         case Raise(_) => Raise(ValueError))
      case _ => Raise(TypeError)
  }

  /** A date already in `%Y-%m-%d` form is taken as it is. */
  lemma DateEntryOfIsoDate(t: string)
    requires CliArguments.IsIsoDate(t)
    ensures DateEntry(Str(t)) == Ok(Some(t))
  {
    CliArguments.IsoDateAccepted(t);
  }

  /** The schema loop of `set_args`: every property not set separately is copied, an array one split at commas. */
  function CopiedAttrs(attrs: map<string, Value>, values: map<string, Value>, schema: seq<(string, bool)>,
                       split: Value -> seq<string>): (r: map<string, Value>)
    requires forall i :: 0 <= i < |schema| && schema[i].0 !in SetSeparately ==> schema[i].0 in values
    decreases |schema|
  {
    if schema == [] then attrs
    else
      var (key, isArray) := schema[0];
      var next := if key in SetSeparately then attrs
                  else attrs[key := if isArray then List(split(values[key])) else values[key]];
      CopiedAttrs(next, values, schema[1..], split)
  }

  /**
   * The copy sets exactly the properties of the schema not set separately,
   * each to its window value (the last schema entry for a key wins), and
   * leaves every other attribute as it was.
   */
  lemma {:induction false} CopiedAttrsSpec(attrs: map<string, Value>, values: map<string, Value>,
                                           schema: seq<(string, bool)>, split: Value -> seq<string>, key: string)
    requires forall i :: 0 <= i < |schema| && schema[i].0 !in SetSeparately ==> schema[i].0 in values
    decreases |schema|
    ensures var r := CopiedAttrs(attrs, values, schema, split);
      && (key in r <==> key in attrs || (key !in SetSeparately && exists i :: 0 <= i < |schema| && schema[i].0 == key))
      && (key in SetSeparately || (forall i :: 0 <= i < |schema| ==> schema[i].0 != key) ==>
            (key in attrs ==> key in r && r[key] == attrs[key]))
  {
    if schema != [] {
      var (k, isArray) := schema[0];
      var next := if k in SetSeparately then attrs
                  else attrs[k := if isArray then List(split(values[k])) else values[k]];
      CopiedAttrsSpec(next, values, schema[1..], split, key);
      if key !in SetSeparately && exists i :: 0 <= i < |schema| && schema[i].0 == key {
        var i :| 0 <= i < |schema| && schema[i].0 == key;
        if i > 0 {
          assert schema[1..][i - 1].0 == key;
        }
      }
      if exists i :: 0 <= i < |schema[1..]| && schema[1..][i].0 == key {
        var i :| 0 <= i < |schema[1..]| && schema[1..][i].0 == key;
        assert schema[i + 1].0 == key;
      }
    }
  }

  /**
   * The window's values as `set_args` reads them: the entries of the schema
   * properties and of the file format check boxes, and the entries it reads
   * on their own.
   */
  datatype WindowValues = WindowValues(
    entries: map<string, Value>,
    prefix: Value,
    postfix: Value,
    auto: Value,
    dynamicBlameHistory: Value,
    nFiles: Value,
    since: Value,
    until: Value)

  /** The window has an entry for every schema property copied and every file format. */
  predicate HasEntries(w: WindowValues, schema: seq<(string, bool)>, fileFormats: seq<string>)
  {
    && (forall i :: 0 <= i < |schema| && schema[i].0 !in SetSeparately ==> schema[i].0 in w.entries)
    && (forall i :: 0 <= i < |fileFormats| ==> fileFormats[i] in w.entries)
  }

  /** The file formats whose check box is set, in the order of `fileFormats`. */
  function ChosenFormats(values: map<string, Value>, fileFormats: seq<string>): (r: seq<string>)
    requires forall i :: 0 <= i < |fileFormats| ==> fileFormats[i] in values
    ensures forall f :: f in r <==> f in fileFormats && Truthy(values[f])
  {
    Seqs.Filter(fileFormats, (f: string) => f in values && Truthy(values[f]))
  }

  /** Filtering one more element at the end. */
  lemma {:induction false} FilterSnoc<T(!new)>(xs: seq<T>, x: T, p: T -> bool)
    ensures Seqs.Filter(xs + [x], p) == Seqs.Filter(xs, p) + (if p(x) then [x] else [])
  {
    if xs != [] {
      FilterSnoc(xs[1..], x, p);
      assert (xs + [x])[1..] == xs[1..] + [x];
    } else {
      assert Seqs.Filter([x], p) == (if p(x) then [x] else []) + Seqs.Filter([], p);
    }
  }

  /** The chosen formats keep the order of `fileFormats` and repeat none when it repeats none. */
  lemma {:induction false} ChosenFormatsDistinct(values: map<string, Value>, fileFormats: seq<string>)
    requires forall i :: 0 <= i < |fileFormats| ==> fileFormats[i] in values
    requires GuiFilters.Distinct(fileFormats)
    ensures GuiFilters.Distinct(ChosenFormats(values, fileFormats))
  {
    if fileFormats != [] {
      var rest := fileFormats[1..];
      assert forall i, j :: 0 <= i < j < |rest| ==> rest[i] == fileFormats[i + 1] && rest[j] == fileFormats[j + 1];
      ChosenFormatsDistinct(values, rest);
      assert fileFormats[0] !in rest;
    }
  }

  /** The state of the Dear PyGui window that the modelled handlers read and write. */
  class DPGBase {
    var inputFstrs: seq<string>
    var inputFstrMatches: seq<string>
    var inputRepoPath: Option<string>
    var fix: string
    var outfileBase: string
    var subfolder: string
    var subfolderValid: bool
    var multithread: bool
    var args: GuiArgs

    constructor(multithread: bool, defaults: GuiArgs)
      ensures inputFstrs == [] && inputFstrMatches == [] && inputRepoPath == None
      ensures fix == "prefix" && outfileBase == "gitinspect" && subfolder == "" && subfolderValid
      ensures this.multithread == multithread && args == defaults
    {
      inputFstrs := [];
      inputFstrMatches := [];
      inputRepoPath := None;
      fix := "prefix";
      outfileBase := "gitinspect";
      subfolder := "";
      subfolderValid := true;
      this.multithread := multithread;
      args := defaults;
    }

    /** The folder of the output file: the single repository's parent folder, or `ParentHint`. */
    function OutParent(parentOf: string -> string): string
      reads this
    {
      if inputRepoPath.Some? then parentOf(inputRepoPath.value) else GuiFilters.ParentHint
    }

    /** The output file's name, with the repository's stem (or the hint) put in as `fix` says. */
    function OutName(stemOf: string -> string): string
      reads this
    {
      GuiFilters.RenameFile(fix, outfileBase, if inputRepoPath.Some? then Some(stemOf(inputRepoPath.value)) else None)
    }

    /**
     * `get_outfile_path`: "." (the text of an empty path) without inputs or
     * matches; otherwise the renamed file joined by `pathlib` to the single
     * repository's parent folder, or to `ParentHint`. `parentOf` is
     * `str(path.parent)` and `stemOf` is `path.stem`.
     */
    function OutfilePath(parentOf: string -> string, stemOf: string -> string): (r: string)
      reads this
      ensures inputFstrs == [] || inputFstrMatches == [] ==> r == "."
      ensures inputFstrs != [] && inputFstrMatches != [] ==> r == PathJoin(OutParent(parentOf), OutName(stemOf))
      ensures inputFstrs != [] && inputFstrMatches != [] && FolderText(OutParent(parentOf))
              && OutName(stemOf) != "" && OutName(stemOf) != "." && (forall i :: 0 <= i < |OutName(stemOf)| ==> OutName(stemOf)[i] != '/')
              ==> PathSplit(r) == (OutParent(parentOf), OutName(stemOf))
    {
      if inputFstrs == [] || inputFstrMatches == [] then "."
      else
        var name := OutName(stemOf);
        var parent := OutParent(parentOf);
        if FolderText(parent) && name != "" && name != "." && (forall i :: 0 <= i < |name| ==> name[i] != '/') then
          JoinSplits(parent, name);
          PathJoin(parent, name)
        else
          PathJoin(parent, name)
    }

    /**
     * `check_subfolder`: an empty subfolder is valid; otherwise its
     * components are looked up one level at a time in the tree of the head
     * commit, and the walk stops at the first that is missing or not a tree.
     */
    method CheckSubfolder(entries: map<seq<string>, bool>)
      modifies this
      ensures subfolderValid == SubfolderExists(subfolder, entries)
      ensures inputFstrs == old(inputFstrs) && inputFstrMatches == old(inputFstrMatches) && inputRepoPath == old(inputRepoPath)
      ensures fix == old(fix) && outfileBase == old(outfileBase) && subfolder == old(subfolder)
      ensures multithread == old(multithread) && args == old(args)
    {
      if subfolder == "" {
        subfolderValid := true;
        return;
      }
      var parts := SubfolderParts(subfolder);
      var exists_ := true;
      var i := 0;
      while i < |parts|
        invariant 0 <= i <= |parts| && exists_
        invariant forall k :: 1 <= k <= i ==> parts[..k] in entries && entries[parts[..k]]
      {
        var path := parts[..i + 1];
        if path !in entries || !entries[path] {
          exists_ := false;
          break;
        }
        i := i + 1;
      }
      subfolderValid := exists_;
    }

    /** `set_args`, one assignment at a time; its outcome is `SetArgsOf`. */
    method SetArgs(w: WindowValues, schema: seq<(string, bool)>, split: Value -> seq<string>,
                   fileFormats: seq<string>, defaults: GuiArgs)
      returns (r: Result<bool>)
      requires HasEntries(w, schema, fileFormats)
      modifies this
      ensures (args, r) == SetArgsOf(w, schema, split, fileFormats, defaults, multithread)
      ensures multithread == old(multithread) && subfolder == old(subfolder) && subfolderValid == old(subfolderValid)
      ensures inputFstrs == old(inputFstrs) && inputFstrMatches == old(inputFstrMatches) && inputRepoPath == old(inputRepoPath)
      ensures fix == old(fix) && outfileBase == old(outfileBase)
    {
      var attrs := CopyAttrs(defaults.attrs, w.entries, schema, split);
      args := defaults.(attrs := attrs, multithread := multithread);
      args := args.(fix := FixChoice(Truthy(w.prefix), Truthy(w.postfix)));
      args := args.(view := ViewChoice(Truthy(w.auto), Truthy(w.dynamicBlameHistory)));
      var n := NFilesEntry(w.nFiles);
      if n.Raise? {
        return Raise(n.error);
      }
      args := args.(nFiles := n.value);
      var chosen := Formats(w.entries, fileFormats);
      args := args.(fileFormats := chosen);
      var done;
      args, done := ApplyDates(args, w.since, w.until);
      r := Ok(done);
    }
  }

  /**
   * The options `set_args` leaves behind and how it ends. The schema
   * properties are copied, fix and view follow their priorities, the file
   * count is read, the chosen file formats are listed, and the since and
   * until dates are checked; a date that does not read stops early
   * (`Ok(false)`, the options left as far as they got). An unreadable file
   * count raises.
   */
  function SetArgsOf(w: WindowValues, schema: seq<(string, bool)>, split: Value -> seq<string>,
                     fileFormats: seq<string>, defaults: GuiArgs, multithread: bool): (out: (GuiArgs, Result<bool>))
    requires HasEntries(w, schema, fileFormats)
  {
    var a0 := defaults.(attrs := CopiedAttrs(defaults.attrs, w.entries, schema, split), multithread := multithread,
                        fix := FixChoice(Truthy(w.prefix), Truthy(w.postfix)),
                        view := ViewChoice(Truthy(w.auto), Truthy(w.dynamicBlameHistory)));
    var n := NFilesEntry(w.nFiles);
    if n.Raise? then (a0, Raise(n.error))
    else
      var a1 := a0.(nFiles := n.value, fileFormats := ChosenFormats(w.entries, fileFormats));
      var (a2, done) := DatesApplied(a1, w.since, w.until);
      (a2, Ok(done))
  }

  /**
   * The since and until entries in turn: each date entered replaces the
   * option; the first that does not read stops (`false`), leaving the rest
   * as it was. Nothing but the two dates changes.
   */
  function DatesApplied(a: GuiArgs, since: Value, until: Value): (out: (GuiArgs, bool))
    ensures out.1 <==> DateEntry(since).Ok? && DateEntry(until).Ok?
    ensures out.0.(since := a.since, until := a.until) == a
    ensures out.1 ==> (Truthy(since) ==> CliArguments.IsIsoDate(out.0.since)) && (!Truthy(since) ==> out.0.since == a.since)
    ensures out.1 ==> (Truthy(until) ==> CliArguments.IsIsoDate(out.0.until)) && (!Truthy(until) ==> out.0.until == a.until)
  {
    var s := DateEntry(since);
    if s.Raise? then (a, false)
    else
      var a1 := if s.value.Some? then a.(since := s.value.value) else a;
      var u := DateEntry(until);
      if u.Raise? then (a1, false)
      else (if u.value.Some? then a1.(until := u.value.value) else a1, true)
  }

  /** The date loop of `set_args`. */
  method ApplyDates(a: GuiArgs, since: Value, until: Value) returns (out: GuiArgs, done: bool)
    ensures (out, done) == DatesApplied(a, since, until)
  {
    out := a;
    var s := DateEntry(since);
    if s.Raise? {
      return out, false;
    }
    if s.value.Some? {
      out := out.(since := s.value.value);
    }
    var u := DateEntry(until);
    if u.Raise? {
      return out, false;
    }
    if u.value.Some? {
      out := out.(until := u.value.value);
    }
    done := true;
  }

  /** `set_args` copies the schema properties and sets fix and view by their priorities, whatever follows. */
  lemma SetArgsChoices(w: WindowValues, schema: seq<(string, bool)>, split: Value -> seq<string>,
                       fileFormats: seq<string>, defaults: GuiArgs, multithread: bool)
    requires HasEntries(w, schema, fileFormats)
    ensures var a := SetArgsOf(w, schema, split, fileFormats, defaults, multithread).0;
      && a.attrs == CopiedAttrs(defaults.attrs, w.entries, schema, split)
      && a.multithread == multithread
      && a.fix == FixChoice(Truthy(w.prefix), Truthy(w.postfix))
      && a.view == ViewChoice(Truthy(w.auto), Truthy(w.dynamicBlameHistory))
  {
  }

  /**
   * `set_args` raises exactly when the file count does not read; otherwise
   * it sets the count and the chosen formats, and finishes exactly when both
   * dates read, with each date entered in `%Y-%m-%d` form and each left
   * empty at its default.
   */
  lemma SetArgsCountAndDates(w: WindowValues, schema: seq<(string, bool)>, split: Value -> seq<string>,
                             fileFormats: seq<string>, defaults: GuiArgs, multithread: bool)
    requires HasEntries(w, schema, fileFormats)
    ensures var (a, r) := SetArgsOf(w, schema, split, fileFormats, defaults, multithread);
      && (r.Raise? <==> NFilesEntry(w.nFiles).Raise?)
      && (r.Raise? ==> r.error == NFilesEntry(w.nFiles).error)
      && (r.Ok? ==> a.nFiles == NFilesEntry(w.nFiles).value && a.fileFormats == ChosenFormats(w.entries, fileFormats))
      && (r.Ok? ==> (r.value <==> DateEntry(w.since).Ok? && DateEntry(w.until).Ok?))
      && (r == Ok(true) ==> (Truthy(w.since) ==> CliArguments.IsIsoDate(a.since)) && (!Truthy(w.since) ==> a.since == defaults.since))
      && (r == Ok(true) ==> (Truthy(w.until) ==> CliArguments.IsIsoDate(a.until)) && (!Truthy(w.until) ==> a.until == defaults.until))
  {
  }

  /** The schema loop of `set_args`, one property at a time. */
  method CopyAttrs(base: map<string, Value>, values: map<string, Value>, schema: seq<(string, bool)>,
                   split: Value -> seq<string>) returns (attrs: map<string, Value>)
    requires forall i :: 0 <= i < |schema| && schema[i].0 !in SetSeparately ==> schema[i].0 in values
    ensures attrs == CopiedAttrs(base, values, schema, split)
  {
    attrs := base;
    for i := 0 to |schema|
      invariant CopiedAttrs(attrs, values, schema[i..], split) == CopiedAttrs(base, values, schema, split)
    {
      assert schema[i..][1..] == schema[i + 1..];
      var (key, isArray) := schema[i];
      if key !in SetSeparately {
        attrs := attrs[key := if isArray then List(split(values[key])) else values[key]];
      }
    }
  }

  /** The file formats loop of `set_args`. */
  method Formats(values: map<string, Value>, fileFormats: seq<string>) returns (chosen: seq<string>)
    requires forall i :: 0 <= i < |fileFormats| ==> fileFormats[i] in values
    ensures chosen == ChosenFormats(values, fileFormats)
  {
    chosen := [];
    for i := 0 to |fileFormats|
      invariant chosen == Seqs.Filter(fileFormats[..i], (f: string) => f in values && Truthy(values[f]))
    {
      FilterSnoc(fileFormats[..i], fileFormats[i], (f: string) => f in values && Truthy(values[f]));
      assert fileFormats[..i + 1] == fileFormats[..i] + [fileFormats[i]];
      if Truthy(values[fileFormats[i]]) {
        chosen := chosen + [fileFormats[i]];
      }
    }
    assert fileFormats[..|fileFormats|] == fileFormats;
  }
}
