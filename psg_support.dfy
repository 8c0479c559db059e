/**
 * The state behind the PySimpleGUI window and the handlers that keep it in
 * step with what the user types: the file count, the column size, the input
 * patterns and the output file name shown for them. Globbing, the git
 * repository test and the path splitting of `pathlib` are parameters.
 */
module PsgSupport {
  import opened Errors
  import Strs
  import GuiFilters

  /** Exactly one directory matched, and it is a git repository. */
  predicate SingleRepo(matches: seq<string>, isGitRepo: string -> bool)
  {
    |matches| == 1 && isGitRepo(matches[0])
  }

  /**
   * The output file shown by `update_outfile_str`: nothing without patterns
   * or matches; otherwise the renamed file, in the single repository's
   * parent folder, or right after `ParentHint` with no separator.
   * `parentOf` and `stemOf` are `str(path.parent)` and `path.stem`.
   */
  function OutfileStr(inputPatterns: seq<string>, inputFstrs: seq<string>, inputRepoPath: Option<string>,
                      fix: string, outfileBase: string,
                      parentOf: string -> string, stemOf: string -> string): (r: string)
    ensures r == "" <==> inputPatterns == [] || inputFstrs == []
    ensures r != "" && inputRepoPath.None? ==>
      r == GuiFilters.ParentHint + GuiFilters.RenameFile(fix, outfileBase, None)
    ensures r != "" && inputRepoPath.Some? ==>
      r == parentOf(inputRepoPath.value) + "/" + GuiFilters.RenameFile(fix, outfileBase, Some(stemOf(inputRepoPath.value)))
  {
    if inputPatterns == [] || inputFstrs == [] then ""
    else
      match inputRepoPath
      case Some(p) => parentOf(p) + "/" + GuiFilters.RenameFile(fix, outfileBase, Some(stemOf(p)))
      case None => GuiFilters.ParentHint + GuiFilters.RenameFile(fix, outfileBase, None)
  }

  /** With patterns given, the match list is empty exactly when some pattern matches no directory. */
  lemma {:induction false} DirMatchesEmptyIff(patterns: seq<string>, dirsOf: string -> seq<string>)
    requires patterns != []
    ensures GuiFilters.DirMatchesOf(patterns, dirsOf) == [] <==> !GuiFilters.AllMatch(patterns, dirsOf)
  {
    if GuiFilters.AllMatch(patterns, dirsOf) {
      var d := dirsOf(patterns[0])[0];
      GuiFilters.DirMatchesExactly(patterns, dirsOf, d);
    }
  }

  /** The window's state: `GUIState`. */
  class GUIState {
    var colPercent: int
    var inputPatterns: seq<string>
    var inputFstrs: seq<string>
    var inputRepoPath: Option<string>
    var fix: string
    var outfileBase: string
    var nFiles: int

    constructor(colPercent: int)
      ensures this.colPercent == colPercent
      ensures inputPatterns == [] && inputFstrs == [] && inputRepoPath == None
      ensures fix == "prefix" && outfileBase == "gitinspect" && nFiles == 0
    {
      this.colPercent := colPercent;
      inputPatterns := [];
      inputFstrs := [];
      inputRepoPath := None;
      fix := "prefix";
      outfileBase := "gitinspect";
      nFiles := 0;
    }

    /**
     * `process_n_files`: writes the digits of the typed text, without
     * leading zeros, back to the field and stores their value (0 when none).
     */
    method ProcessNFiles(nFilesStr: string) returns (shown: string)
      modifies this
      ensures shown == GuiFilters.FilteredNFiles(nFilesStr)
      ensures nFiles == GuiFilters.NFilesOf(nFilesStr)
      ensures colPercent == old(colPercent) && inputPatterns == old(inputPatterns) && inputFstrs == old(inputFstrs)
      ensures inputRepoPath == old(inputRepoPath) && fix == old(fix) && outfileBase == old(outfileBase)
    {
      shown := GuiFilters.FilteredNFiles(nFilesStr);
      nFiles := if shown != "" then Strs.DigitsValue(shown) else 0;
    }

    /** `update_col_percent`: the column is resized only when the percentage changes. */
    method UpdateColPercent(percent: int) returns (resized: bool)
      modifies this
      ensures resized <==> old(colPercent) != percent
      ensures colPercent == percent
      ensures inputPatterns == old(inputPatterns) && inputFstrs == old(inputFstrs) && nFiles == old(nFiles)
      ensures inputRepoPath == old(inputRepoPath) && fix == old(fix) && outfileBase == old(outfileBase)
    {
      resized := false;
      if colPercent != percent {
        colPercent := percent;
        resized := true;
      }
    }

    /**
     * `process_input_patterns`: matches the patterns to directories, records
     * the single repository if there is one, and reports which options stay
     * enabled and the output file shown.
     */
    method ProcessInputPatterns(dirsOf: string -> seq<string>, isGitRepo: string -> bool,
                                parentOf: string -> string, stemOf: string -> string)
      returns (nofixEnabled: bool, depthEnabled: bool, outfile: string)
      modifies this
      ensures inputFstrs == (if inputPatterns == [] then [] else GuiFilters.DirMatchesOf(inputPatterns, dirsOf))
      ensures inputRepoPath == (if SingleRepo(inputFstrs, isGitRepo) then Some(inputFstrs[0]) else None)
      ensures nofixEnabled <==> inputPatterns == [] || SingleRepo(inputFstrs, isGitRepo)
      ensures depthEnabled <==> inputRepoPath.None?
      ensures outfile == OutfileStr(inputPatterns, inputFstrs, inputRepoPath, fix, outfileBase, parentOf, stemOf)
      ensures colPercent == old(colPercent) && inputPatterns == old(inputPatterns) && nFiles == old(nFiles)
      ensures fix == old(fix) && outfileBase == old(outfileBase)
    {
      if inputPatterns == [] {
        inputFstrs := [];
        inputRepoPath := None;
        nofixEnabled, depthEnabled := true, true;
      } else {
        var matches, _ := GuiFilters.DirMatches(inputPatterns, dirsOf);
        inputFstrs := matches;
        if |matches| == 1 && isGitRepo(matches[0]) {
          inputRepoPath := Some(matches[0]);
          nofixEnabled, depthEnabled := true, false;
        } else {
          inputRepoPath := None;
          nofixEnabled, depthEnabled := false, true;
        }
      }
      outfile := OutfileStr(inputPatterns, inputFstrs, inputRepoPath, fix, outfileBase, parentOf, stemOf);
    }
  }

  /**
   * After non-empty patterns are processed, an output file is shown exactly
   * when every pattern matched a directory.
   */
  lemma OutfileShownIff(inputPatterns: seq<string>, dirsOf: string -> seq<string>, isGitRepo: string -> bool,
                        fix: string, outfileBase: string, parentOf: string -> string, stemOf: string -> string)
    requires inputPatterns != []
    ensures var fstrs := GuiFilters.DirMatchesOf(inputPatterns, dirsOf);
      var repo := if SingleRepo(fstrs, isGitRepo) then Some(fstrs[0]) else None;
      (OutfileStr(inputPatterns, fstrs, repo, fix, outfileBase, parentOf, stemOf) != ""
       <==> GuiFilters.AllMatch(inputPatterns, dirsOf))
  {
    DirMatchesEmptyIff(inputPatterns, dirsOf);
  }
}
