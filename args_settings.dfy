/**
 * The option records of `args_settings.py`: `Args`, its extension
 * `Settings` (what the settings file holds) and `CLIArgs` (what the command
 * line holds). The source reads and writes their fields by name with
 * `setattr`, `asdict` and `vars`, so each record is modelled by its fields
 * as a map from field name to value.
 */
module ArgsSettings {
  import opened Errors
  import opened PyValues
  import Seqs

  const Auto := "auto"
  const AvailableFormats: seq<string> := ["html", "excel"]
  const DefaultExtensions: seq<string> :=
    ["c", "cc", "cif", "cpp", "glsl", "h", "hh", "hpp", "java", "js", "py", "rb", "sql"]

  /** The fields of `Args`, in the order they are declared. */
  const ArgsFields: seq<string> := [
    "col_percent", "profile", "input_fstrs", "outfile_base", "fix", "depth", "format",
    "scaled_percentages", "hide_blame_exclusions", "blame_skip", "subfolder", "n_files",
    "include_files", "show_renames", "extensions", "deletions", "whitespace", "empty_lines",
    "comments", "viewer", "copy_move", "verbosity", "dry_run", "multi_thread", "multi_core",
    "since", "until", "ex_files", "ex_authors", "ex_emails", "ex_revisions", "ex_messages"]

  /** The fields of `KeysArgs` in `keys.py`, whose values are their own names. */
  const KeysArgsFields: seq<string> := [
    "col_percent", "profile", "input_fstrs", "outfile_base", "fix", "depth", "format",
    "scaled_percentages", "hide_blame_exclusions", "blame_skip", "subfolder", "n_files",
    "include_files", "show_renames", "extensions", "deletions", "whitespace", "empty_lines",
    "comments", "viewer", "copy_move", "verbosity", "dry_run", "multi_thread", "multi_core",
    "since", "until", "ex_files", "ex_authors", "ex_emails", "ex_revisions", "ex_messages"]

  const SettingsFields: seq<string> := ArgsFields + ["gui_settings_full_path"]
  const CliFields: seq<string> := ArgsFields + ["gui", "show", "save", "save_as", "load", "reset"]

  /**
   * The properties of `SETTINGS_SCHEMA` in their order, each with whether
   * its type is "array".
   */
  const Schema: seq<(string, bool)> := [
    ("col_percent", false), ("profile", false), ("input_fstrs", true), ("format", true),
    ("extensions", true), ("fix", false), ("outfile_base", false), ("depth", false),
    ("scaled_percentages", false), ("n_files", false), ("include_files", true),
    ("hide_blame_exclusions", false), ("blame_skip", false), ("show_renames", false),
    ("gui_settings_full_path", false), ("subfolder", false), ("deletions", false),
    ("whitespace", false), ("empty_lines", false), ("comments", false), ("viewer", false),
    ("copy_move", false), ("verbosity", false), ("dry_run", false), ("multi_thread", false),
    ("multi_core", false), ("since", false), ("until", false), ("ex_authors", true),
    ("ex_emails", true), ("ex_files", true), ("ex_messages", true), ("ex_revisions", true)]

  /** The default of each field of `Args`, `Settings` and `CLIArgs`. */
  function DefaultOf(name: string): Value
  {
    match name
    case "col_percent" => Int(80)
    case "outfile_base" => Str("gitinspect")
    case "fix" => Str("prefix")
    case "depth" => Int(5)
    case "format" => List([Auto])
    case "n_files" => Int(5)
    case "viewer" => Str(Auto)
    case "copy_move" => Int(2)
    case "multi_thread" => Bool(true)
    case "profile" => Int(0)
    case "verbosity" => Int(0)
    case "dry_run" => Int(0)
    case "subfolder" => Str("")
    case "since" => Str("")
    case "until" => Str("")
    case "save_as" => Str("")
    case "load" => Str("")
    case "input_fstrs" => List([])
    case "include_files" => List([])
    case "extensions" => List([])
    case "ex_files" => List([])
    case "ex_authors" => List([])
    case "ex_emails" => List([])
    case "ex_revisions" => List([])
    case "ex_messages" => List([])
    case _ => Bool(false)
  }

  /** A fresh record with the given fields, each at its default. */
  function Defaults(fields: seq<string>): (m: map<string, Value>)
    ensures forall k :: k in m <==> k in fields
  {
    map k | k in fields :: DefaultOf(k)
  }

  // ------------------------------------------------------- Args.__post_init__

  /** `__post_init__`: an `AssertionError` unless `Args` and `KeysArgs` have the same field names. */
  function PostInit(argsFields: seq<string>, keysFields: seq<string>): (r: Result<()>)
    ensures r.Ok? <==> forall k :: k in argsFields <==> k in keysFields
    ensures r.Raise? ==> r.error == AssertionError
  {
    if (forall k :: k in argsFields ==> k in keysFields) && (forall k :: k in keysFields ==> k in argsFields) then Ok(())
    else Raise(AssertionError)
  }

  /** Constructing an `Args` passes its own check. */
  lemma ArgsMatchKeys()
    ensures PostInit(ArgsFields, KeysArgsFields) == Ok(())
  {
    assert ArgsFields == KeysArgsFields;
  }

  // ------------------------------------------------------------ validate_format

  /** The format list after `validate_format`. */
  function ValidatedFormat(format: seq<string>): (r: seq<string>)
    ensures r != []
    ensures Auto in r ==> r == [Auto]
    ensures Auto !in format && format != [] ==> r == format
    ensures format == [Auto] ==> r == format
  {
    if |format| == 0 || (Auto in format && |format| > 1) then [Auto] else format
  }

  /** Validating twice is validating once. */
  lemma ValidateFormatIdempotent(format: seq<string>)
    ensures ValidatedFormat(ValidatedFormat(format)) == ValidatedFormat(format)
  {
  }

  // ------------------------------------------------------------- from_values_dict

  /**
   * The schema loop of `from_values_dict`: every schema property the GUI
   * values hold is copied, an array one split at commas (`split`).
   */
  function CopyValues(attrs: map<string, Value>, values: map<string, Value>, schema: seq<(string, bool)>,
                      split: Value -> seq<string>): map<string, Value>
    decreases |schema|
  {
    if schema == [] then attrs
    else
      var (key, isArray) := schema[0];
      var next := if key in values then attrs[key := if isArray then List(split(values[key])) else values[key]] else attrs;
      CopyValues(next, values, schema[1..], split)
  }

  /** Copying properties that are already fields adds no field. */
  lemma {:induction false} CopyValuesKeys(attrs: map<string, Value>, values: map<string, Value>, schema: seq<(string, bool)>,
                                          split: Value -> seq<string>)
    requires forall i :: 0 <= i < |schema| ==> schema[i].0 in attrs
    ensures CopyValues(attrs, values, schema, split).Keys == attrs.Keys
    decreases |schema|
  {
    if schema != [] {
      var (key, isArray) := schema[0];
      var next := if key in values then attrs[key := if isArray then List(split(values[key])) else values[key]] else attrs;
      assert forall i :: 0 <= i < |schema[1..]| ==> schema[1..][i] == schema[i + 1];
      CopyValuesKeys(next, values, schema[1..], split);
    }
  }

  /**
   * The fix the GUI values choose: prefix before postfix before nofix, and
   * none when no flag is set. A flag that is looked at and missing is a
   * `KeyError`.
   */
  function FixOf(values: map<string, Value>): (r: Result<Option<string>>)
    ensures r == Ok(Some("prefix")) <==> "prefix" in values && Truthy(values["prefix"])
    ensures r == Ok(Some("postfix")) <==>
      "prefix" in values && !Truthy(values["prefix"]) && "postfix" in values && Truthy(values["postfix"])
    ensures r == Ok(Some("nofix")) <==>
      "prefix" in values && !Truthy(values["prefix"]) && "postfix" in values && !Truthy(values["postfix"])
      && "nofix" in values && Truthy(values["nofix"])
    ensures r == Ok(None) <==>
      "prefix" in values && !Truthy(values["prefix"]) && "postfix" in values && !Truthy(values["postfix"])
      && "nofix" in values && !Truthy(values["nofix"])
    ensures r.Raise? ==> r.error == KeyError
  {
    if "prefix" !in values then Raise(KeyError)
    else if Truthy(values["prefix"]) then Ok(Some("prefix"))
    else if "postfix" !in values then Raise(KeyError)
    else if Truthy(values["postfix"]) then Ok(Some("postfix"))
    else if "nofix" !in values then Raise(KeyError)
    else if Truthy(values["nofix"]) then Ok(Some("nofix"))
    else Ok(None)
  }

  /** The formats whose GUI flag is set, in the order of `formats`; a missing flag is a `KeyError`. */
  function FormatsOf(values: map<string, Value>, formats: seq<string>): (r: Result<seq<string>>)
    ensures r.Ok? <==> forall f :: f in formats ==> f in values
    ensures r.Raise? ==> r.error == KeyError
  {
    if formats == [] then Ok([])
    else if formats[0] !in values then Raise(KeyError)
    else match FormatsOf(values, formats[1..])
      case Raise(e) => Raise(e)
      case Ok(rest) => Ok(if Truthy(values[formats[0]]) then [formats[0]] + rest else rest)
  }

  /**
   * `Settings.from_values_dict` on a fresh record `base` and the schema
   * properties `schema` (`Schema`): the record the GUI values describe.
   */
  function FromValues(values: map<string, Value>, split: Value -> seq<string>, schema: seq<(string, bool)>,
                      base: map<string, Value>): (r: Result<map<string, Value>>)
    ensures r.Raise? ==> r.error == KeyError
    ensures r.Ok? <==> FixOf(values).Ok? && FormatsOf(values, AvailableFormats).Ok?
  {
    var copied := CopyValues(base, values, schema, split);
    match FixOf(values)
    case Raise(e) => Raise(e)
    case Ok(fix) =>
      var fixed := if fix.Some? then copied["fix" := Str(fix.value)] else copied;
      match FormatsOf(values, AvailableFormats)
      case Raise(e) => Raise(e)
      case Ok(formats) => Ok(fixed["format" := List(formats)])
  }

  /** Every schema property is a field of `Settings`. */
  lemma SettingsHoldSchema()
    ensures forall i :: 0 <= i < |Schema| ==> Schema[i].0 in SettingsFields
  {
    forall i | 0 <= i < 11 ensures Schema[i].0 in SettingsFields {
      SchemaFront(i);
    }
    forall i | 11 <= i < 22 ensures Schema[i].0 in SettingsFields {
      SchemaMiddle(i);
    }
    forall i | 22 <= i < |Schema| ensures Schema[i].0 in SettingsFields {
      SchemaBack(i);
    }
  }

  /** The fix and the format are fields of `Settings`. */
  lemma FixAndFormatAreFields()
    ensures "fix" in SettingsFields && "format" in SettingsFields
  {
    assert SettingsFields[4] == "fix" && SettingsFields[6] == "format";
  }

  lemma SchemaFront(i: nat)
    requires i < 11
    ensures Schema[i].0 in SettingsFields
  {
  }

  lemma SchemaMiddle(i: nat)
    requires 11 <= i < 22
    ensures Schema[i].0 in SettingsFields
  {
  }

  lemma SchemaBack(i: nat)
    requires 22 <= i < |Schema|
    ensures Schema[i].0 in SettingsFields
  {
  }

  /**
   * On a record that has every schema property as a field (a fresh
   * `Settings`, by `SettingsHoldSchema`), the result has the same fields
   * and no others; its fix is the one the flags choose (else what was
   * copied), and its formats are the available formats whose flag is set,
   * in their order.
   */
  lemma FromValuesFields(values: map<string, Value>, split: Value -> seq<string>, schema: seq<(string, bool)>,
                         base: map<string, Value>)
    requires FromValues(values, split, schema, base).Ok?
    requires "fix" in base && "format" in base
    requires forall i :: 0 <= i < |schema| ==> schema[i].0 in base
    ensures var r := FromValues(values, split, schema, base).value;
      && r.Keys == base.Keys
      && (FixOf(values).value.Some? ==> r["fix"] == Str(FixOf(values).value.value))
      && r["format"] == List(Seqs.Filter(AvailableFormats, (f: string) => f in values && Truthy(values[f])))
  {
    CopyValuesKeys(base, values, schema, split);
    FormatsOfFilter(values, AvailableFormats);
  }

  /** The formats kept are the available ones whose flag is set, in their order. */
  lemma {:induction false} FormatsOfFilter(values: map<string, Value>, formats: seq<string>)
    requires FormatsOf(values, formats).Ok?
    ensures FormatsOf(values, formats).value == Seqs.Filter(formats, (f: string) => f in values && Truthy(values[f]))
  {
    if formats != [] {
      FormatsOfFilter(values, formats[1..]);
    }
  }

  // ---------------------------------------------------- create_from_settings_dict

  /**
   * The schema loop of `create_from_settings_dict`: each property is taken
   * from the dictionary (a `KeyError` when missing), except that extensions
   * equal to the default list are stored as "".
   */
  function FromSettingsDict(attrs: map<string, Value>, d: map<string, Value>, schema: seq<(string, bool)>): (r: Result<map<string, Value>>)
    ensures r.Ok? <==> forall i :: 0 <= i < |schema| ==> schema[i].0 in d
    ensures r.Raise? ==> r.error == KeyError
    decreases |schema|
  {
    if schema == [] then Ok(attrs)
    else
      var key := schema[0].0;
      if key !in d then Raise(KeyError)
      else
        var r := FromSettingsDict(attrs[key := SettingValue(d, key)], d, schema[1..]);
        assert r.Ok? <==> forall i :: 0 <= i < |schema| ==> schema[i].0 in d by {
          assert forall i :: 0 < i < |schema| ==> schema[i] == schema[1..][i - 1];
        }
        r
  }

  /** The value a settings property gets: the dictionary's, except extensions equal to the default become "". */
  function SettingValue(d: map<string, Value>, key: string): Value
    requires key in d
  {
    if key == "extensions" && d[key] == List(DefaultExtensions) then Str("") else d[key]
  }

  /** The properties set are those of the attributes and of the schema. */
  lemma {:induction false} FromSettingsDictKeys(attrs: map<string, Value>, d: map<string, Value>, schema: seq<(string, bool)>)
    requires FromSettingsDict(attrs, d, schema).Ok?
    ensures FromSettingsDict(attrs, d, schema).value.Keys == attrs.Keys + (set i | 0 <= i < |schema| :: schema[i].0)
    decreases |schema|
  {
    if schema != [] {
      var key := schema[0].0;
      FromSettingsDictKeys(attrs[key := SettingValue(d, key)], d, schema[1..]);
      assert (set i | 0 <= i < |schema| :: schema[i].0) == {key} + (set i | 0 <= i < |schema[1..]| :: schema[1..][i].0) by {
        forall i | 0 <= i < |schema|
          ensures schema[i].0 in {key} + (set i | 0 <= i < |schema[1..]| :: schema[1..][i].0)
        {
          if i > 0 {
            assert schema[1..][i - 1].0 == schema[i].0;
          }
        }
      }
    }
  }

  /** Every property of the schema holds the dictionary's value, extensions equal to the default as "". */
  lemma {:induction false} FromSettingsDictValues(attrs: map<string, Value>, d: map<string, Value>, schema: seq<(string, bool)>)
    requires FromSettingsDict(attrs, d, schema).Ok?
    ensures var r := FromSettingsDict(attrs, d, schema).value;
      forall i :: 0 <= i < |schema| ==> schema[i].0 in d && schema[i].0 in r && r[schema[i].0] == SettingValue(d, schema[i].0)
    decreases |schema|
  {
    if schema != [] {
      var key := schema[0].0;
      FromSettingsDictValues(attrs[key := SettingValue(d, key)], d, schema[1..]);
      FromSettingsDictKept(attrs[key := SettingValue(d, key)], d, schema[1..], key);
      assert forall i :: 0 < i < |schema| ==> schema[i] == schema[1..][i - 1];
    }
  }

  /** An attribute the schema does not name keeps its value. */
  lemma {:induction false} FromSettingsDictKept(attrs: map<string, Value>, d: map<string, Value>, schema: seq<(string, bool)>, k: string)
    requires FromSettingsDict(attrs, d, schema).Ok?
    ensures var r := FromSettingsDict(attrs, d, schema).value;
      k in attrs && (forall i :: 0 <= i < |schema| ==> schema[i].0 != k) ==> k in r && r[k] == attrs[k]
    decreases |schema|
  {
    if schema != [] {
      var key := schema[0].0;
      FromSettingsDictKept(attrs[key := SettingValue(d, key)], d, schema[1..], k);
      assert forall i :: 0 < i < |schema| ==> schema[i] == schema[1..][i - 1];
    }
  }

  // ------------------------------------------------------------------- records

  /** An `Args` record. */
  class Args {
    var attrs: map<string, Value>

    /** `Args()`: every field at its default, after the field check. */
    constructor ()
      ensures attrs == Defaults(ArgsFields)
    {
      attrs := Defaults(ArgsFields);
    }
  }

  /** A `Settings` record. */
  class Settings {
    var attrs: map<string, Value>

    constructor ()
      ensures attrs == Defaults(SettingsFields)
    {
      attrs := Defaults(SettingsFields);
    }

    /**
     * `validate_format` on a record whose format is a list: an empty list,
     * or one holding "auto" and more, becomes ["auto"]; nothing else changes.
     */
    method ValidateFormat()
      requires "format" in attrs && attrs["format"].List?
      modifies this
      ensures attrs == old(attrs)["format" := List(ValidatedFormat(old(attrs)["format"].items))]
    {
      var format := attrs["format"].items;
      if |format| == 0 || (Auto in format && |format| > 1) {
        attrs := attrs["format" := List([Auto])];
      }
    }

    /** `from_values_dict` over the schema properties `schema` (`Schema`): the loop over them, then the fix and the formats. */
    static method FromValuesDict(values: map<string, Value>, split: Value -> seq<string>, schema: seq<(string, bool)>)
      returns (r: Result<Settings>)
      ensures r.Ok? <==> FromValues(values, split, schema, Defaults(SettingsFields)).Ok?
      ensures r.Raise? ==> r.error == KeyError
      ensures r.Ok? ==> fresh(r.value) && r.value.attrs == FromValues(values, split, schema, Defaults(SettingsFields)).value
    {
      var settings := new Settings();
      ghost var base := settings.attrs;
      var i := 0;
      while i < |schema|
        invariant 0 <= i <= |schema|
        invariant CopyValues(settings.attrs, values, schema[i..], split) == CopyValues(base, values, schema, split)
      {
        var (key, isArray) := schema[i];
        if key in values {
          settings.attrs := settings.attrs[key := if isArray then List(split(values[key])) else values[key]];
        }
        assert schema[i..][1..] == schema[i + 1..];
        i := i + 1;
      }
      var fix := FixOf(values);
      if fix.Raise? {
        return Raise(fix.error);
      }
      if fix.value.Some? {
        settings.attrs := settings.attrs["fix" := Str(fix.value.value)];
      }
      var formats := Formats(values, AvailableFormats);
      if formats.Raise? {
        return Raise(formats.error);
      }
      settings.attrs := settings.attrs["format" := List(formats.value)];
      r := Ok(settings);
    }

    /** `create_from_settings_dict` over the schema properties `schema` (`Schema`): every one taken from `d`. */
    static method CreateFromSettingsDict(d: map<string, Value>, schema: seq<(string, bool)>) returns (r: Result<Settings>)
      ensures r.Ok? <==> FromSettingsDict(Defaults(SettingsFields), d, schema).Ok?
      ensures r.Raise? ==> r.error == KeyError
      ensures r.Ok? ==> fresh(r.value) && r.value.attrs == FromSettingsDict(Defaults(SettingsFields), d, schema).value
    {
      var settings := new Settings();
      ghost var base := settings.attrs;
      var i := 0;
      while i < |schema|
        invariant 0 <= i <= |schema|
        invariant FromSettingsDict(settings.attrs, d, schema[i..]) == FromSettingsDict(base, d, schema)
      {
        var key := schema[i].0;
        assert schema[i..][1..] == schema[i + 1..];
        if key !in d {
          return Raise(KeyError);
        }
        var v := if key == "extensions" && d[key] == List(DefaultExtensions) then Str("") else d[key];
        settings.attrs := settings.attrs[key := v];
        i := i + 1;
      }
      r := Ok(settings);
    }
  }

  /** `kept` in front of the result of the rest. */
  function Prepend(kept: seq<string>, r: Result<seq<string>>): Result<seq<string>>
  {
    match r
    case Ok(rest) => Ok(kept + rest)
    case Raise(e) => Raise(e)
  }

  /** The format loop of `from_values_dict`. */
  method Formats(values: map<string, Value>, formats: seq<string>) returns (r: Result<seq<string>>)
    ensures r == FormatsOf(values, formats)
  {
    var kept: seq<string> := [];
    var j := 0;
    assert formats[0..] == formats;
    assert FormatsOf(values, formats).Ok? ==> [] + FormatsOf(values, formats).value == FormatsOf(values, formats).value;
    while j < |formats|
      invariant 0 <= j <= |formats|
      invariant FormatsOf(values, formats) == Prepend(kept, FormatsOf(values, formats[j..]))
    {
      var fmt := formats[j];
      assert formats[j..][1..] == formats[j + 1..];
      if fmt !in values {
        return Raise(KeyError);
      }
      ghost var rest := FormatsOf(values, formats[j + 1..]);
      if Truthy(values[fmt]) {
        assert rest.Ok? ==> kept + ([fmt] + rest.value) == (kept + [fmt]) + rest.value;
        kept := kept + [fmt];
      }
      j := j + 1;
    }
    assert formats[j..] == [] && kept + [] == kept;
    return Ok(kept);
  }

  // ------------------------------------------------------ update_with_namespace

  /** The keys of a namespace, in order. */
  function Keys(ns: seq<(string, Value)>): seq<string>
  {
    seq(|ns|, i requires 0 <= i < |ns| => ns[i].0)
  }

  /**
   * The loop of `update_with_namespace`: every key must be a field (an
   * `AssertionError` for the first that is not, after the keys before it
   * have been copied), and only values that are not `None` are copied.
   */
  function Update(attrs: map<string, Value>, ns: seq<(string, Value)>): (r: (map<string, Value>, Result<()>))
    ensures r.0.Keys == attrs.Keys
    ensures r.1.Ok? <==> forall i :: 0 <= i < |ns| ==> ns[i].0 in attrs
    ensures r.1.Raise? ==> r.1.error == AssertionError
    decreases |ns|
  {
    if ns == [] then (attrs, Ok(()))
    else
      var (key, v) := ns[0];
      if key !in attrs then (attrs, Raise(AssertionError))
      else
        var r := Update(if v != NoneValue then attrs[key := v] else attrs, ns[1..]);
        assert r.1.Ok? <==> forall i :: 0 <= i < |ns| ==> ns[i].0 in attrs by {
          assert forall i :: 0 < i < |ns| ==> ns[i] == ns[1..][i - 1];
        }
        r
  }

  /**
   * With distinct keys that are all fields, each namespace value that is
   * not `None` replaces its field, and every other field keeps its value.
   */
  lemma {:induction false} UpdateOverlays(attrs: map<string, Value>, ns: seq<(string, Value)>)
    requires forall i, j :: 0 <= i < j < |ns| ==> ns[i].0 != ns[j].0
    requires forall i :: 0 <= i < |ns| ==> ns[i].0 in attrs
    ensures forall i :: 0 <= i < |ns| ==>
      Update(attrs, ns).0[ns[i].0] == if ns[i].1 != NoneValue then ns[i].1 else attrs[ns[i].0]
    ensures forall k :: k in attrs && k !in Keys(ns) ==> Update(attrs, ns).0[k] == attrs[k]
    decreases |ns|
  {
    if ns != [] {
      var (key, v) := ns[0];
      var next := if v != NoneValue then attrs[key := v] else attrs;
      UpdateOverlays(next, ns[1..]);
      assert Update(attrs, ns) == Update(next, ns[1..]);
      assert forall i :: 0 < i < |ns| ==> ns[i] == ns[1..][i - 1];
      forall k | k in attrs && k !in Keys(ns) ensures Update(attrs, ns).0[k] == attrs[k] {
        assert k != key by { assert Keys(ns)[0] == key; }
        assert k !in Keys(ns[1..]) by {
          forall j | 0 <= j < |ns[1..]| ensures Keys(ns[1..])[j] != k {
            assert Keys(ns)[j + 1] == Keys(ns[1..])[j];
          }
        }
      }
    }
  }

  /**
   * The first step of `update_with_namespace`: an empty `input_fstrs` list
   * counts as not given. A namespace without `input_fstrs` is an
   * `AttributeError`.
   */
  function EmptyInputAsNone(ns: seq<(string, Value)>): (r: Result<seq<(string, Value)>>)
    ensures r.Ok? <==> "input_fstrs" in Keys(ns)
    ensures r.Ok? ==> Keys(r.value) == Keys(ns)
    ensures r.Ok? ==> forall i :: 0 <= i < |ns| ==>
      r.value[i] == if ns[i] == ("input_fstrs", List([])) then ("input_fstrs", NoneValue) else ns[i]
  {
    if "input_fstrs" !in Keys(ns) then Raise(AttributeError)
    else
      var r := seq(|ns|, i requires 0 <= i < |ns| => if ns[i] == ("input_fstrs", List([])) then ("input_fstrs", NoneValue) else ns[i]);
      assert Keys(r) == Keys(ns);
      Ok(r)
  }

  /** A `CLIArgs` record. */
  class CLIArgs {
    var attrs: map<string, Value>

    constructor ()
      ensures attrs == Defaults(CliFields)
    {
      attrs := Defaults(CliFields);
    }

    /**
     * `update_with_namespace` with the namespace as its (name, value) pairs
     * in order; the logging it does is left out.
     */
    method UpdateWithNamespace(namespace: seq<(string, Value)>) returns (r: Result<()>)
      modifies this
      ensures EmptyInputAsNone(namespace).Raise? ==> r == Raise(AttributeError) && attrs == old(attrs)
      ensures EmptyInputAsNone(namespace).Ok? ==>
        var (next, outcome) := Update(old(attrs), EmptyInputAsNone(namespace).value);
        attrs == next && r == outcome
    {
      var normal := EmptyInputAsNone(namespace);
      if normal.Raise? {
        return Raise(AttributeError);
      }
      var ns := normal.value;
      var i := 0;
      while i < |ns|
        invariant 0 <= i <= |ns|
        invariant Update(attrs, ns[i..]) == Update(old(attrs), ns)
      {
        var (key, v) := ns[i];
        assert ns[i..][1..] == ns[i + 1..];
        if key !in attrs {
          return Raise(AssertionError);
        }
        if v != NoneValue {
          attrs := attrs[key := v];
        }
        i := i + 1;
      }
      r := Ok(());
    }

    /** `create_args` over the fields `fields` of `Args` (`ArgsFields`): a new `Args` holding this record's value of each. */
    method CreateArgs(fields: seq<string>) returns (args: Args)
      ensures fresh(args)
      ensures args.attrs == CreatedArgs(attrs, Defaults(ArgsFields), fields)
    {
      args := new Args();
      var copied := CopyFields(attrs, args.attrs, fields);
      args.attrs := copied;
    }
  }

  /** The loop of `create_args`: each of `fields` that both records have is copied into `base`. */
  method CopyFields(cli: map<string, Value>, base: map<string, Value>, fields: seq<string>) returns (copied: map<string, Value>)
    ensures copied == CreatedArgs(cli, base, fields)
  {
    copied := base;
    var i := 0;
    while i < |fields|
      invariant 0 <= i <= |fields|
      invariant copied.Keys == base.Keys
      invariant forall k :: k in copied ==> copied[k] == if k in fields[..i] && k in cli then cli[k] else base[k]
    {
      var name := fields[i];
      if name in cli && name in copied {
        copied := copied[name := cli[name]];
      }
      assert fields[..i + 1] == fields[..i] + [name];
      i := i + 1;
    }
    assert fields[..i] == fields;
  }

  /**
   * The fields `create_args` gives the new `Args` record `base`: each of
   * `fields` that both records have is taken from the `CLIArgs` record.
   */
  function CreatedArgs(cli: map<string, Value>, base: map<string, Value>, fields: seq<string>): (r: map<string, Value>)
    ensures r.Keys == base.Keys
    ensures forall k :: k in r && k in cli && k in fields ==> r[k] == cli[k]
    ensures forall k :: k in r && (k !in cli || k !in fields) ==> r[k] == base[k]
  {
    map k | k in base :: if k in fields && k in cli then cli[k] else base[k]
  }

  /** A `CLIArgs` record has every `Args` field, so `create_args` copies them all. */
  lemma CreateArgsCopiesAll(cli: map<string, Value>)
    requires forall k :: k in CliFields ==> k in cli
    ensures var r := CreatedArgs(cli, Defaults(ArgsFields), ArgsFields);
      (forall k :: k in r <==> k in ArgsFields) && forall k :: k in ArgsFields ==> r[k] == cli[k]
  {
    assert forall k :: k in ArgsFields ==> k in CliFields;
  }
}
