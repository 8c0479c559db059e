/**
 * The runner's option gate and option normalisation: the checks that decide
 * whether a run may start at all, and the defaults filled in before it does.
 */
module GiRunner {
  import opened Errors
  import Utils

  /** At most this many repositories are opened in browser tabs at once. */
  const MaxBrowserTabs: nat := 10
  /** The output file base used when none is given. */
  const DefaultFileBase: string := "gitinspect"
  /** The fix value that writes output files without repository names. */
  const NoFix: string := "nofix"

  /** The blame history option: `none`, `static` or `dynamic`. */
  datatype History = NoHistory | Static | Dynamic

  /** The options the runner reads and rewrites. */
  datatype RunnerArgs = RunnerArgs(
    blameHistory: History,
    formats: seq<string>,
    fix: string,
    view: bool,
    dryRun: int,
    exRevisions: seq<string>,
    copyMove: int,
    includeFiles: seq<string>,
    outfileBase: string,
    subfolder: string,
    inputFstrs: seq<string>,
    exFiles: seq<string>,
    verbosity: Option<int>)

  /** Every excluded revision consists of hex digits only. */
  predicate AllHex(revisions: seq<string>)
  {
    forall k, i :: 0 <= k < |revisions| && 0 <= i < |revisions[k]| ==> Utils.IsHex(revisions[k][i])
  }

  /**
   * The options a run accepts, stated as one conjunction of independent
   * conditions; the order in which the runner tests them does not matter.
   */
  predicate Acceptable(a: RunnerArgs, lenRepos: nat)
  {
    && !(a.blameHistory == Static && a.formats != [] && a.formats != ["html"])
    && !(a.blameHistory == Dynamic && a.formats != [])
    && lenRepos > 0
    && !(lenRepos > 1 && a.fix == NoFix)
    && !(a.formats == [] && a.view && lenRepos > MaxBrowserTabs && a.dryRun == 0)
    && !(!a.view && a.formats == [] && a.dryRun == 0)
    && AllHex(a.exRevisions)
  }

  /**
   * `_check_options`: the early-return chain of the runner, in its own order,
   * including the second multi-repository nofix test.
   */
  function CheckOptions(a: RunnerArgs, lenRepos: nat): (ok: bool)
    ensures ok <==> Acceptable(a, lenRepos)
  {
    Utils.NonHexEmptyIff(a.exRevisions);
    if a.blameHistory == Static && a.formats != [] && a.formats != ["html"] then false
    else if a.blameHistory == Dynamic && a.formats != [] then false
    else if lenRepos == 0 then false
    else if lenRepos > 1 && a.fix == NoFix then false
    else if a.formats == [] && a.view && lenRepos > 1 && a.dryRun == 0 && lenRepos > MaxBrowserTabs then false
    else if lenRepos > 1 && a.fix == NoFix && a.formats != [] then false
    else if !a.view && a.formats == [] && a.dryRun == 0 then false
    else if Utils.NonHexCharsInList(a.exRevisions) != [] then false
    else true
  }

  /**
   * The multi-repository nofix test with file output is never the one that
   * rejects: whenever it holds, the earlier nofix test has already refused.
   */
  lemma FileNofixCheckUnreachable(a: RunnerArgs, lenRepos: nat)
    requires lenRepos > 1 && a.fix == NoFix && a.formats != []
    ensures !CheckOptions(a, lenRepos)
    ensures !CheckOptions(a.(formats := []), lenRepos)
  {
  }

  /** An accepted run either writes a file, or views at most ten repositories, or is a dry run. */
  lemma AcceptedRunHasAnOutlet(a: RunnerArgs, lenRepos: nat)
    requires CheckOptions(a, lenRepos)
    ensures a.formats != [] || a.dryRun != 0 || (a.view && 1 <= lenRepos <= MaxBrowserTabs)
    ensures a.blameHistory == Dynamic ==> a.formats == []
    ensures a.fix == NoFix ==> lenRepos == 1
  {
  }

  /** `to_posix_fstrs`: the conversion applied to every path of a list. */
  function PosixAll(toPosix: string -> string, fstrs: seq<string>): (r: seq<string>)
    ensures |r| == |fstrs|
    ensures forall i :: 0 <= i < |fstrs| ==> r[i] == toPosix(fstrs[i])
  {
    seq(|fstrs|, i requires 0 <= i < |fstrs| => toPosix(fstrs[i]))
  }

  /**
   * The options after `_set_options`. The path conversion and the default
   * verbosity are parameters: they come from outside the runner.
   */
  function Normalized(a: RunnerArgs, toPosix: string -> string, defaultVerbosity: int): (r: RunnerArgs)
    ensures r.includeFiles != []
    ensures a.includeFiles == [] ==> r.includeFiles == [toPosix("*")]
    ensures a.includeFiles != [] ==> r.includeFiles == PosixAll(toPosix, a.includeFiles)
    ensures a.outfileBase == "" ==> r.outfileBase == toPosix(DefaultFileBase)
    ensures a.outfileBase != "" ==> r.outfileBase == toPosix(a.outfileBase)
    ensures r.copyMove == (if a.dryRun == 1 then 0 else a.copyMove)
    ensures r.verbosity.Some?
    ensures a.verbosity.Some? ==> r.verbosity == a.verbosity
    ensures a.verbosity.None? ==> r.verbosity == Some(defaultVerbosity)
    ensures r.inputFstrs == PosixAll(toPosix, a.inputFstrs) && r.exFiles == PosixAll(toPosix, a.exFiles)
    ensures r.subfolder == toPosix(a.subfolder)
    ensures r.(copyMove := a.copyMove, includeFiles := a.includeFiles, outfileBase := a.outfileBase,
               subfolder := a.subfolder, inputFstrs := a.inputFstrs, exFiles := a.exFiles,
               verbosity := a.verbosity) == a
  {
    a.(copyMove := if a.dryRun == 1 then 0 else a.copyMove,
       includeFiles := PosixAll(toPosix, if a.includeFiles != [] then a.includeFiles else ["*"]),
       outfileBase := toPosix(if a.outfileBase != "" then a.outfileBase else DefaultFileBase),
       subfolder := toPosix(a.subfolder),
       inputFstrs := PosixAll(toPosix, a.inputFstrs),
       exFiles := PosixAll(toPosix, a.exFiles),
       verbosity := if a.verbosity.None? then Some(defaultVerbosity) else a.verbosity)
  }

  /** Normalising leaves every option the gate reads untouched, so the verdict is the same. */
  lemma NormalizedKeepsVerdict(a: RunnerArgs, toPosix: string -> string, defaultVerbosity: int, lenRepos: nat)
    ensures CheckOptions(Normalized(a, toPosix, defaultVerbosity), lenRepos) == CheckOptions(a, lenRepos)
  {
    var r := Normalized(a, toPosix, defaultVerbosity);
    assert r.exRevisions == a.exRevisions && r.formats == a.formats && r.view == a.view;
  }

  /** Converting a list twice with an idempotent conversion is converting it once. */
  lemma PosixAllIdempotent(toPosix: string -> string, fstrs: seq<string>)
    requires forall s :: toPosix(toPosix(s)) == toPosix(s)
    ensures PosixAll(toPosix, PosixAll(toPosix, fstrs)) == PosixAll(toPosix, fstrs)
  {
    var once := PosixAll(toPosix, fstrs);
    var twice := PosixAll(toPosix, once);
    assert forall i :: 0 <= i < |fstrs| ==> twice[i] == toPosix(toPosix(fstrs[i])) == once[i];
  }

  /**
   * With a path conversion that is idempotent and keeps non-empty paths
   * non-empty, normalising twice gives the same options as normalising once.
   */
  lemma NormalizedIdempotent(a: RunnerArgs, toPosix: string -> string, defaultVerbosity: int)
    requires forall s :: toPosix(toPosix(s)) == toPosix(s)
    requires forall s :: s != "" ==> toPosix(s) != ""
    ensures Normalized(Normalized(a, toPosix, defaultVerbosity), toPosix, defaultVerbosity)
         == Normalized(a, toPosix, defaultVerbosity)
  {
    var once := Normalized(a, toPosix, defaultVerbosity);
    PosixAllIdempotent(toPosix, if a.includeFiles != [] then a.includeFiles else ["*"]);
    PosixAllIdempotent(toPosix, a.inputFstrs);
    PosixAllIdempotent(toPosix, a.exFiles);
    assert DefaultFileBase != "";
    assert once.outfileBase != "";
  }

  /** The runner, holding the options it checks and rewrites in place. */
  class GIRunner {
    var args: RunnerArgs

    constructor(args: RunnerArgs)
      ensures this.args == args
    {
      this.args := args;
    }

    /** `_check_options` on the runner's current options. */
    method CheckOptionsNow(lenRepos: nat) returns (ok: bool)
      ensures ok <==> Acceptable(args, lenRepos)
    {
      ok := CheckOptions(args, lenRepos);
    }

    /** `_set_options`: fills in the defaults and converts every path, one assignment at a time. */
    method SetOptions(toPosix: string -> string, defaultVerbosity: int)
      modifies this
      ensures args == Normalized(old(args), toPosix, defaultVerbosity)
    {
      if args.dryRun == 1 {
        args := args.(copyMove := 0);
      }
      args := args.(includeFiles := if args.includeFiles != [] then args.includeFiles else ["*"]);
      args := args.(outfileBase := if args.outfileBase != "" then args.outfileBase else DefaultFileBase);
      args := args.(inputFstrs := PosixAll(toPosix, args.inputFstrs));
      args := args.(outfileBase := toPosix(args.outfileBase));
      args := args.(subfolder := toPosix(args.subfolder));
      args := args.(includeFiles := PosixAll(toPosix, args.includeFiles));
      args := args.(exFiles := PosixAll(toPosix, args.exFiles));
      if args.verbosity.None? {
        args := args.(verbosity := Some(defaultVerbosity));
      }
    }
  }
}
