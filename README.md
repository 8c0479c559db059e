# gitinspectorgui core, modelled in Dafny

gitinspectorgui reads the history of one or more git repositories. It works out, per author and per file, how many lines, insertions, deletions and commits each has, and which author last changed every line of the current code (the blame). It writes the result as html or Excel reports, or serves the report from a small local web server. It is driven from the command line or from one of two GUIs.

This project models the deterministic core of that program: the data it computes and lays out, and the rules it checks. Each group below is one Dafny module, in one file:

- **Label truncation** (`Truncation`): `string2truncated`. This function appears, identical, in outbase.py, blame_rows.py, shared_blame.py and repo_blame_rows.py, so one model serves all four. It shortens tab and sheet names to a maximum length and numbers colliding names.
- **Column headers** (`Headers`): the header builders of outbase.py, stat_rows.py and repo_rows.py.
- **Blame rows** (`BlameRows`, `BlameOptions`, `BlameCounts`, `BlameHistory`): the blame table of each file, the options passed to git blame, the blame line counts, and the blame history over earlier commits.
- **Commit history** (`CommitTree`, `CommitWalk`, `CommitGroups`, `LogParser`):
  - tree lookups and the tree walk;
  - commit numbering and the `--since`/`--until` window;
  - grouping of commit records and `reduce_commits`;
  - the two `git log` parsers of stats_reader.py.
- **Statistics tables** (`StatTables`, `Repo`, `StatRows`): the author/file tables with their "*" totals, the numbering of commits and authors, and the rows of the report tables.
- **Renderers** (`Excel`, `HtmlIds`, `HtmlRender`, `HtmlText`): the Excel worksheet cursor and sheets, the ids of the html report, its tables and tabs, and the escaping of code text.
- **Report server** (`HtmlServer`): request routing, the shutdown check and table loading.
- **Validators and normalisers** (`Utils`, `CliArguments`, `ArgsSettings`, `GiRunner`, `GuiFilters`, `PsgSupport`, `DpgBase`): the option parsers and checks, and the GUI input filters.
- **Shared support** (`Errors`, `Strs`, `Seqs`, `Values`):
  - Python's exceptions become `Result` values: `Ok(v)` or `Raise(e)`;
  - Python's string operations are written out;
  - an option value is one of `None`, a boolean, an integer, a string or a list.

State follows the source's own form.
- Objects whose methods update their fields are classes: `Excel.TableSheet`, `Repo.GIRepo`, `GiRunner.GIRunner`, `PsgSupport.GUIState`, `DpgBase.DPGBase` and others. Each method is proved against a specification function.
- Loops that fill lists and dicts are methods with loop invariants.
- Pure expressions and recursions are functions.

A Python dict keeps its insertion order. The model keeps that order wherever the source relies on it.

Some things the source reaches are outside the model: git, BeautifulSoup, xlsxwriter, the GUI widgets and the file system. Their results come in as parameters, or the calls made to them are recorded as values. The browser-side JavaScript of the report is not part of this model.

Notes on the source:
- The Dear PyGui front end shows "." as the output path when there is no input. The PySimpleGUI front end shows "".
- `GIRunner` reads `blame_history`, `formats`, `view` and `multicore`. The `Args` of args_settings.py does not declare these; it has `format` and `multi_core`. `GiRunner.RunnerArgs` therefore holds exactly the options the runner reads.
- The two html modules cut tab names differently. repo_html.py cuts them at 160 characters, and `HtmlRender` follows it. html.py cuts them at 40.

## Model

| member | source | states |
|---|---|---|
| `Truncation.String2Truncated` | src/gigui/output/outbase.py:207-305 | The keys are exactly the inputs; a name of at most `maxLength` characters maps to itself; a longer name maps to ".." plus a tail of itself, possibly followed by "-n"; no value is longer than `maxLength`; the i-th distinct long name maps to the i-th final label. It succeeds whenever `maxLength` leaves room for "..", "-" and the largest number. Every long name's value has exactly `maxLength` characters when each collision group has fewer than ten members. |
| `Truncation.String2TruncatedAsWritten` | src/gigui/output/outbase.py:282-294 | As written, it raises AssertionError exactly when some numbered label is not exactly `maxLength` characters long. Otherwise the keys are the inputs and each long name maps to its final label. |
| `Truncation.SplitLongNames` | src/gigui/output/outbase.py:265-274 | The first loop: the long names in first-occurrence order, each with its last `maxLength - 2` characters. |
| `Truncation.LongNamesMembers` | src/gigui/output/outbase.py:270-274 | A string is a key of `org2trunc` iff it is an input longer than `maxLength`. |
| `Truncation.LongNamesDistinct` | src/gigui/output/outbase.py:266-274 | No long name is listed twice (dict keys). |
| `Truncation.InitialTrunc` | src/gigui/output/outbase.py:274 | The first cut is a tail of the name, with `maxLength - 2` characters. |
| `Truncation.Shorten` | src/gigui/output/outbase.py:235-243 | A colliding value is cut only from the front (the result is a tail of it). |
| `Truncation.TruncateEntry` | src/gigui/output/outbase.py:234-245 | One entry after a `truncate` pass is a tail of the entry before it. |
| `Truncation.Truncate` | src/gigui/output/outbase.py:227-246 | The loop computes one `truncate` pass over all values (`Step`). |
| `Truncation.StepShrinks` | src/gigui/output/outbase.py:276-279 | A pass that changes anything strictly shortens the total length, so the `while` loop ends. |
| `Truncation.Fixpoint` | src/gigui/output/outbase.py:276-279 | The loop's final map is unchanged by another pass, and each value is a tail of its starting value. |
| `Truncation.RepeatTruncate` | src/gigui/output/outbase.py:276-279 | The `while new_org2trunc != org2trunc` loop ends with the fixpoint of the first cuts. |
| `Truncation.StepKeepsCut` | src/gigui/output/outbase.py:231-246 | A pass keeps every value either at its first cut or no shorter than the room its group leaves, because groups only grow. |
| `Truncation.Number` | src/gigui/output/outbase.py:248-263 | The loop with `seen2i` builds exactly the labels: ".." plus the value, plus "-k" for the k-th member of a colliding group. |
| `Truncation.GroupNumberedInOrder` | src/gigui/output/outbase.py:248-263 | Two equal values i < j form a colliding group. i gets number (members before i) + 1, which is smaller than j's; the numbers lie between 1 and the group's size; the two labels differ. |
| `Truncation.GroupLabel` | src/gigui/output/outbase.py:255-260 | A member of a colliding group is labelled ".." + value + "-" + its 1-based position in the group. |
| `Truncation.NumberedLabelsDiffer` | src/gigui/output/outbase.py:260 | Different numbers give different labels for the same value. |
| `Truncation.FinalLabelsAreShortenings` | src/gigui/output/outbase.py:239-262 | Every final label is ".." plus a tail of its long name, possibly followed by "-n". |
| `Truncation.LabelsFit` | src/gigui/output/outbase.py:236-238 | At a fixpoint of first-cut values, every label fits in `maxLength` if the longest possible number fits. |
| `Truncation.FinalLabelsFit` | src/gigui/output/outbase.py:296-297 | With room for "..", "-" and the digits of the input count, every final label passes `len(trunc) <= max_length`. |
| `Truncation.LabelLength` | src/gigui/output/outbase.py:236-262 | A lone label has exactly `maxLength` characters. A grouped label has `maxLength` minus the digits of the group size plus the digits of its own number. |
| `Truncation.FinalLabelsExactIff` | src/gigui/output/outbase.py:284-285 | The exact-length assertion holds iff every group of colliding cut values has fewer than ten members. |
| `Truncation.FewLongNamesAreExact` | src/gigui/output/outbase.py:284-285 | With fewer than ten long names, and `max_length` at least 3 plus the digits of the number of names, the exact-length assertion holds. |
| `Truncation.SharedTailsBreakExactLength` | src/gigui/output/outbase.py:284-285 | Ten or more distinct long names that share their last `maxLength - 2` characters make the exact-length assertion fail. |
| `Truncation.BuildMap` | src/gigui/output/outbase.py:282-294 | The returned dict: its keys are exactly the inputs; long name i maps to label i; each short name maps to itself. |
| `Truncation.AddShortNames` | src/gigui/output/outbase.py:288-289 | Adds every short name mapped to itself and leaves the long names' entries alone. |
| `Truncation.AllFit` | src/gigui/output/outbase.py:296-297 | The assertion loop passes iff every label has at most `maxLength` characters. |
| `Truncation.AllExact` | src/gigui/output/outbase.py:284-285 | The assertion loop passes iff every label has exactly `maxLength` characters. |
| `Truncation.Count` | src/gigui/output/outbase.py:231 | `Counter(...)[v]` never exceeds the number of values. |
| `Truncation.DropFront` | src/gigui/output/outbase.py:241 | `s[k:]` is a tail of `s` with max(0, len(s) - k) characters. |
| `Headers.OutbaseColumns` | src/gigui/output/outbase.py:14-43 | `header_stat` has "Deletions" iff the flag is set, never "Empty", and always ends in "Age Y:M:D". The authors header has "Deletions" iff deletions is on and scaling is off; with both on, that column is titled "". |
| `Headers.OutbaseBlankDeletionsTitle` | src/gigui/output/outbase.py:40 | With both scaling and deletions on, outbase.py's authors header titles the next-to-last column "". stat_rows.py titles it "Deletions", so the two headers differ. |
| `Headers.HeaderBlamesShape` | src/gigui/output/outbase.py:58-68 | `header_blames` has eight columns: the SHA is fifth, the line number seventh and "Code" last. |
| `Headers.StatHtmlInsertsEmpty` | src/gigui/output/stat_rows.py:23-51 | In html, each of the three person/file headers is the plain one with "Empty" inserted at column 2. |
| `Headers.StatColumns` | src/gigui/output/stat_rows.py:12-39 | In the stat_rows.py authors header, "Empty" appears iff html, "Deletions" iff deletions, and "% Scaled Lines" iff scaled. |
| `Headers.StatPairColumns` | src/gigui/output/stat_rows.py:44-51 | The authors-files and files-authors headers hold "Empty" iff html. |
| `Headers.StatAgreesWithOutbase` | src/gigui/output/stat_rows.py:12-55 | Without html, stat_rows.py builds the same headers as outbase.py, except the scaled authors header with deletions on. |
| `Headers.RepoColumns` | src/gigui/output/repo_rows.py:8-65 | `_header_stat` has "Deletions" iff deletions and ends in "Age Y:M:D". The authors header has "Empty" iff html, "Deletions" iff deletions and "% Scaled Lines" iff scaled. The pair headers have "Empty" iff html. |
| `Headers.RepoScaledInsertsTwoColumns` | src/gigui/output/repo_rows.py:11-30 | Scaling inserts "% Scaled Lines" and "% Scaled Insertions" right after "% Insertions" and leaves every other column in place. |
| `Headers.RepoHtmlInsertsEmpty` | src/gigui/output/repo_rows.py:8-42 | In html, the RepoRows authors, authors-files and files-authors headers are the plain ones with "Empty" at column 2. |
| `BlameRows.ShortSha` | src/gigui/output/blame_rows.py:66 | `sha_long[:7]` is a prefix of the SHA with at most 7 characters. |
| `BlameRows.BlameItems` | src/gigui/output/blame_rows.py:51 | `zip(b.lines, b.is_comment_lines)` yields as many pairs as the shorter list has. |
| `BlameRows.RowsOf` | src/gigui/output/blame_rows.py:47-75 | The generator loop always yields as many is-comment flags as rows. |
| `BlameRows.RowsMatchLines` | src/gigui/output/blame_rows.py:47-75 | Row j holds the author, date, message, short SHA, commit number and code of the line its number names. That line was kept. |
| `BlameRows.RowsIncreasing` | src/gigui/output/blame_rows.py:47-75 | `line_nr` goes up by one for every processed line, whether or not a row is emitted, so emitted line numbers strictly increase. |
| `BlameRows.RowsComplete` | src/gigui/output/blame_rows.py:52-74 | Every line that is not omitted gets a row carrying its own line number. |
| `BlameRows.HtmlKeepsEveryLine` | src/gigui/output/blame_rows.py:56-60 | With `html` on, the hide-exclusions generators emit a row for every line: row j is line j + 1. |
| `BlameRows.RowIds` | src/gigui/output/blame_rows.py:62 | A row's id is 0 when the variant zeroes the line, and the author's number otherwise. Hide-exclusions zeroes excluded comments and excluded authors, but not excluded empty lines. Omit-exclusions zeroes every excluded line. REMOVE zeroes excluded comments and excluded empty lines. |
| `BlameRows.RaisesIffAuthorUnnumbered` | src/gigui/output/blame_rows.py:62 | The generator raises KeyError exactly when a line is kept, its id is not zeroed, and its author has no number. |
| `BlameRows.RowsOfStep` | src/gigui/output/blame_rows.py:52-74 | One more line raises iff its author is missing. Otherwise it appends exactly its own row, unless the line is omitted. |
| `BlameRows.AddLine` | src/gigui/output/blame_rows.py:52-74 | One pass of the inner loop appends the line's row iff it is kept and advances the line number by one. |
| `BlameRows.AddHunk` | src/gigui/output/blame_rows.py:50-74 | The inner `zip` loop over one hunk extends the rows exactly as the specification function does for that hunk's lines. |
| `BlameRows.GetRows` | src/gigui/output/blame_rows.py:49-75 | The loop over the hunks, with its running line number, yields exactly the specified rows, or KeyError. |
| `BlameRows.MissingSpreads` | src/gigui/output/blame_rows.py:62 | A line whose author has no number in the leading hunks also lacks one in the whole file. |
| `BlameRows.NumberAuthors` | src/gigui/output/blame_rows.py:39-46 | The numbering loop builds exactly the author-number map. |
| `BlameRows.AuthorNumbersKeys` | src/gigui/output/blame_rows.py:39-46 | The keys of `author2nr` are exactly the authors in `blame_authors`. |
| `BlameRows.AuthorNumberAt` | src/gigui/output/blame_rows.py:39-46 | In a list without repeats, an included author gets 1 + the number of included authors before it. Any other author gets 0. |
| `BlameRows.AuthorNumbersRange` | src/gigui/output/blame_rows.py:39-46 | Included authors are numbered 1 to the number of included entries. Everybody else gets 0. |
| `BlameRows.GetBlameRows` | src/gigui/output/blame_rows.py:32-75 | `BlameBaseRows.get_blame_rows`: the author numbering, then the hide-exclusions loop. Omission needs `blame_hide_exclusions` and not `html`. |
| `BlameRows.OutBlamesFile` | src/gigui/blame.py:197-236 | `_out_blames_fstr`: every excluded line gets id 0, and `blame_omit_exclusions` drops it. |
| `BlameRows.RepoGetBlameRows` | src/gigui/output/repo_blame_rows.py:32-66 | With the SHA read from the blame's `sha_short`: a line is dropped iff `blame_exclusions == REMOVE` and it is an excluded comment, an excluded empty line or by an author in `ex_authors`. Excluded authors keep their `author2nr` number. |
| `BlameRows.FirstKept` | src/gigui/output/repo_blame_rows.py:39-47 | Finds the first line the loop does not omit. There is none iff every line is omitted. |
| `BlameRows.RepoGetBlameRowsAsWritten` | src/gigui/output/repo_blame_rows.py:51-59 | As written, the loop returns normally iff every line is omitted, and then with no rows. Otherwise the first kept line raises KeyError for an author without a number, else AttributeError. |
| `BlameRows.AsWrittenNeverRows` | src/gigui/output/repo_blame_rows.py:58 | Wherever the corrected generator returns rows, the code as written raises AttributeError. Where the code as written returns, the corrected generator has no rows either. |
| `BlameRows.AsWrittenRaisesOnOneLine` | src/gigui/output/repo_blame_rows.py:58 | One kept code line of a numbered author: the corrected generator gives its row with the SHA cut to 7 characters, and the code as written raises AttributeError. |
| `BlameRows.Lookup` | src/gigui/output/repo_blame_rows.py:11 | The dict lookup succeeds iff the key is present and then gives its value. A missing key is a KeyError. |
| `BlameRows.GetFileBlameRows` | src/gigui/output/repo_blame_rows.py:10-20 | `get_fstr_blame_rows` and `get_fr_sha_blame_rows` look the blames up (KeyError if absent) and then run the generator. |
| `BlameRows.GetFileTable` | src/gigui/output/shared_blame.py:36-46 | The loop over `sorted_fstrs` builds exactly the ordered table the specification function defines, or the first KeyError. |
| `BlameRows.TableStaysRaised` | src/gigui/output/shared_blame.py:40-41 | Once one file raises, the whole `get_fstr2blame_rows` call raises. |
| `BlameRows.TableKeepsFilesWithRows` | src/gigui/output/shared_blame.py:40-45 | A file is in the result iff it is listed and has at least one row, and it maps to its own rows. |
| `BlameRows.TableOrderListsFiles` | src/gigui/output/shared_blame.py:39-46 | The dict's key order lists exactly its files, each once. |
| `BlameRows.OkTableHasOkFiles` | src/gigui/output/shared_blame.py:40-41 | When the table is built, every listed file's own rows were built without error. |
| `BlameRows.MultiRootBlameRows.constructor` | src/gigui/output/shared_blame.py:99-111 | It starts with `sorted_fstrs` unset and an empty `_blame_authors`. |
| `BlameRows.MultiRootBlameRows.SetSortedFstrs` | src/gigui/output/shared_blame.py:113-114 | It sets `sorted_fstrs` and changes nothing else. |
| `BlameRows.MultiRootBlameRows.GetFstr2BlameRows` | src/gigui/output/shared_blame.py:116-173 | Called before `set_sorted_fstrs`, it raises AttributeError. Otherwise it returns the ordered table built with the empty author list. |
| `BlameRows.EmptyAuthorListRaises` | src/gigui/output/shared_blame.py:111-161 | With `MultiRootBlameRows`' empty author list, one kept code line by a non-excluded author raises KeyError. |
| `BlameRows.KnownAuthorsNeverRaise` | src/gigui/output/shared_blame.py:57-64 | When every hunk's author is in `blame_authors`, the generator never raises. |
| `BlameRows.FlattenAuthors` | src/gigui/output/shared_blame.py:67-69 | Every processed line carries the canonical author of the hunk it came from. |
| `BlameOptions.IgnoreRevs` | src/gigui/blame.py:125-126 | One `--ignore-rev` per excluded short SHA. |
| `BlameOptions.IgnoreRevsMeaning` | src/gigui/blame.py:125-126 | The ignore options are exactly `--ignore-rev` for the excluded SHAs: every excluded SHA has one, and no other SHA does. |
| `BlameOptions.GetBlameOpts` | src/gigui/blame.py:113-130 | Appending copy/move, `--since`, `-w`, the `--ignore-rev`s and the ignore-revs file in that order gives the specified list. A copy/move level without a key raises KeyError. |
| `BlameOptions.CopyMoveOnly` | src/gigui/blame.py:113-120 | The copy/move level contributes only -M and -C options. |
| `BlameOptions.BlameOptsMeaning` | src/gigui/blame_reader.py:85-102 | The options are built iff the copy/move level is 0..4; any other level is a KeyError. The list starts with the copy/move options. It has `-w` iff whitespace is off, `--since` iff a date is set, and an `--ignore-rev` for exactly the excluded SHAs. |
| `BlameOptions.OptsParts` | src/gigui/blame_reader.py:92-102 | In the appended list each kind of option comes only from its own step. |
| `BlameOptions.BlameFlagsMeaning` | src/gigui/repo_blame.py:55-66 | IGNORE_WHITESPACE is set iff `whitespace` is off. Levels 1..4 add exactly one tracking flag; any other level adds none. |
| `BlameOptions.NewestCommit` | src/gigui/repo_blame.py:51-53 | An empty start SHA selects `newest_id`; otherwise the id mapped from the short SHA is used. An unknown short SHA is a KeyError. |
| `BlameOptions.SetShaLong2Nr` | src/gigui/blame.py:103-110 | The loop numbers the commits 1, 2, ... in oldest-first order. |
| `BlameOptions.SetSha2Nr` | src/gigui/blame_reader.py:73-80 | The loop gives the newest commit `len(commits)` and each older one one less. |
| `BlameOptions.NumberUpAt` | src/gigui/blame.py:103-110 | With distinct SHAs, exactly the listed commits are numbered and the k-th oldest is number k + 1. |
| `BlameOptions.NumberDownAt` | src/gigui/blame_reader.py:73-80 | With distinct SHAs, exactly the listed commits are numbered and the k-th newest is `len(commits) - k`, so the oldest is 1. |
| `BlameCounts.CountBlankBound` | src/gigui/blame_reader.py:201-205 | The blank-line count is at most the number of lines, and equals it iff every line is blank. |
| `BlameCounts.LineCountMeaning` | src/gigui/blame_reader.py:196-208 | line_count = total − (comment lines unless `comments`) − (blank lines unless `empty_lines`). It is never above the total, and it is the total when both settings count. With comments counted it is never negative, and with empty lines excluded it is 0 iff every line is blank. |
| `BlameCounts.FileEntries` | src/gigui/blame_reader.py:191-192 | The inner loop visits one entry per blame of the file. |
| `BlameCounts.FoldRaisesKeyError` | src/gigui/blame_reader.py:211-215 | The only failure of the counting loop is a KeyError on `target`. |
| `BlameCounts.FoldStaysRaised` | src/gigui/blame_reader.py:190-215 | Once a hunk raises, the whole loop raises. |
| `BlameCounts.EntriesPrefix` | src/gigui/blame_reader.py:190-192 | The hunks of the first files are a prefix of the hunks of all files. |
| `BlameCounts.EntriesStayRaised` | src/gigui/blame_reader.py:191 | A file missing from `fstr2blames` makes the whole update raise. |
| `BlameCounts.CountedRaises` | src/gigui/blame_reader.py:190-215 | A KeyError while the first files are counted is the outcome of the whole update. |
| `BlameCounts.FoldSnoc` | src/gigui/blame_reader.py:192-215 | One more hunk either keeps an earlier failure or applies the loop body to the state so far. |
| `BlameCounts.AddEntry` | src/gigui/blame_reader.py:193-215 | The inner loop body for one hunk takes the state to the one the specification gives for one more hunk. |
| `BlameCounts.FoldPrefixRaised` | src/gigui/blame_reader.py:190-215 | A failure on a prefix of the hunks is the result of the whole loop. |
| `BlameCounts.AddFile` | src/gigui/blame_reader.py:191-215 | The inner loop over one file's blames gives the specified state after that file's hunks. |
| `BlameCounts.CountLines` | src/gigui/blame_reader.py:187-215 | The two nested loops give exactly the specified table and author counts, or KeyError. |
| `BlameCounts.AddBlameEffect` | src/gigui/blame_reader.py:210-215 | One hunk of a person who is not filter-matched adds its count to the author's file cell, the author's "*" cell and the "*"/"*" cell. No other cell changes. A filter-matched person changes no cell. |
| `BlameCounts.AddBlameCountCell` | src/gigui/blame_reader.py:194-209 | One hunk adds its count to `author2line_count[author]` (which starts at 0). No other author's count changes. |
| `BlameCounts.FoldTotals` | src/gigui/blame_reader.py:209-215 | After the loops, `author2line_count[a]` grew by the sum over a's hunks, filter-matched or not. Each cell of `target` grew by the counts of the unmatched hunks it collects: the author's file cell, the author's "*" cell and the "*"/"*" cell. |
| `BlameCounts.AddBlameCounts` | src/gigui/blame_reader.py:194-209 | One hunk leaves its author in `author2line_count` with its count added, and inserts new keys in order. |
| `BlameCounts.FoldOrder` | src/gigui/blame_reader.py:194-216 | The key order of `author2line_count` lists its keys, each once. |
| `BlameCounts.HasAuthorSnoc` | src/gigui/blame_reader.py:193-194 | Some hunk of the longer list is by `a` iff one of the shorter list is or the last one is. |
| `BlameCounts.FoldAuthors` | src/gigui/blame_reader.py:194-196 | `author2line_count` has exactly the authors of the hunks, filter-matched or not. |
| `BlameCounts.UnknownAuthorRaises` | src/gigui/blame_reader.py:211 | A hunk of an unmatched author who has no row in `target` raises KeyError. |
| `BlameCounts.AddBlameUnknown` | src/gigui/blame_reader.py:211 | The loop body raises for an unmatched author missing from `target`. |
| `BlameCounts.KeysKept` | src/gigui/blame_reader.py:210-215 | The update never adds or removes an author of `target`. |
| `BlameCounts.KnownAuthorsCount` | src/gigui/blame_reader.py:210-215 | With a "*"/"*" cell, a "*" cell for every author and every unmatched author present, the update cannot fail, and every author keeps a "*" cell. |
| `BlameCounts.AddBlameKnown` | src/gigui/blame_reader.py:210-215 | Under those conditions one hunk cannot fail and keeps them. |
| `BlameCounts.InsertDescPerm` | src/gigui/blame_reader.py:217 | Inserting an author into the ranking adds exactly that author. |
| `BlameCounts.InsertDescElems` | src/gigui/blame_reader.py:217 | The insertion adds one element and keeps all the others. |
| `BlameCounts.InsertDescSorted` | src/gigui/blame_reader.py:217 | Inserting into a list in descending order of count keeps it in that order. |
| `BlameCounts.HeadThenDescending` | src/gigui/blame_reader.py:217 | A head with the largest count, followed by a descending list, is descending. |
| `BlameCounts.SortDescMeaning` | src/gigui/blame_reader.py:216-218 | `sorted(..., reverse=True)` by count lists the same authors, in descending order of count. |
| `BlameCounts.BlameReader.constructor` | src/gigui/blame_reader.py:181-189 | The counting starts with the reader's files, its blames and no ranked authors. |
| `BlameCounts.BlameReader.UpdateAuthor2Fstr2Fstat` | src/gigui/blame_reader.py:181-219 | It returns the updated table and sets `blame_authors` to the authors in descending count order. It succeeds iff the specified update does. On a KeyError the ranked authors are left as they were. The files and blames never change. |
| `BlameHistory.RFind` | src/gigui/repo_blame.py:79 | The index of the last occurrence of the character, or -1 when it does not occur. |
| `BlameHistory.ExtensionMeaning` | src/gigui/repo_blame.py:79-80 | A non-empty extension is the text after the file name's last ".", without the dot. It holds no "/" and no ".", and the dot is not the name's first character. |
| `BlameHistory.ExtensionOf` | src/gigui/repo_blame.py:79-80 | Conversely, `name.ext` with a non-empty name part has extension `ext`. |
| `BlameHistory.SliceBound` | src/gigui/repo_blame.py:112-117 | A Python slice bound lies within the list and is unchanged when it is already in range. |
| `BlameHistory.HunkLinesMeaning` | src/gigui/repo_blame.py:112-117 | `file_lines[start−1 : start−1+lines_in_hunk]` is a run of consecutive file lines. A hunk inside the file gets exactly its lines. A hunk that starts past the end, or has no lines, gets none. |
| `BlameHistory.PathIndex` | src/gigui/repo_blame.py:87-90 | The loop over the tree breaks at the first file whose path equals `fstr`, or finds none. |
| `BlameHistory.HunkBlamesMeaning` | src/gigui/repo_blame.py:103-136 | Each hunk becomes, in order, the `Blame` of its final commit with its slice of the file's lines. A commit without a number raises KeyError. |
| `BlameHistory.ProcessedMeaning` | src/gigui/repo_blame.py:75-136 | An unknown commit SHA is a KeyError. A file missing from the commit's tree, or with empty data, raises FileNotFoundError. Otherwise every hunk becomes a blame, and an unnumbered hunk commit is a KeyError. |
| `BlameHistory.ProcessGitBlames` | src/gigui/repo_blame.py:75-136 | The method, with its two loops, returns exactly the specified blames or exception. |
| `BlameHistory.HunkBlamesStayRaised` | src/gigui/repo_blame.py:103-135 | The first hunk that raises decides the result. |
| `BlameHistory.HistoryAsWrittenMissesRenamed` | src/gigui/repo_blame.py:239-244 | As written, the history looks `root_fstr` up in an older commit's tree. A commit where the file had another name therefore raises FileNotFoundError. |
| `BlameHistory.HistoryReadsBlamedFile` | src/gigui/repo_blame.py:239-245 | Corrected, the file under its older name is read and every hunk yields a blame. |
| `BlameHistory.RenamedFileExample` | src/gigui/repo_blame.py:235-245 | A file renamed from "old.py" to "new.py" fails as written and succeeds corrected. |
| `BlameHistory.FoldRSnoc` | src/gigui/repo_blame.py:231-245 | One more loop iteration keeps an earlier exception or applies the body. |
| `BlameHistory.FoldRStaysRaised` | src/gigui/repo_blame.py:231-245 | The first exception of a loop ends it. |
| `BlameHistory.PutFoldMeaning` | src/gigui/repo_blame.py:236-245 | A loop that stores each SHA's blames succeeds iff every value it computes does. It adds exactly the SHAs it does not skip, each with its value, and other keys keep theirs. A failure is the exception of one computed value. |
| `BlameHistory.AddShas` | src/gigui/repo_blame.py:236-245 | The loop over one file's SHAs stores each SHA's blames, except the skipped head of the root. |
| `BlameHistory.ShasOf` | src/gigui/repo_blame.py:235 | A file's SHA list is found iff the file is among the root's files. |
| `BlameHistory.ListedSnoc` | src/gigui/repo_blame.py:235-238 | A SHA is listed by the root's files iff it is listed by the earlier files or by the last one. |
| `BlameHistory.PairFoldOk` | src/gigui/repo_blame.py:235-245 | The loop over a root's files succeeds iff every blame it computes does. |
| `BlameHistory.PairFoldMeaning` | src/gigui/repo_blame.py:235-245 | After that loop, every listed SHA is present with the blames of a file that lists it. Unlisted keys keep their value. |
| `BlameHistory.PairLast` | src/gigui/repo_blame.py:235-245 | The step for the last file of the root. |
| `BlameHistory.RootHistoryMeaning` | src/gigui/repo_blame.py:232-245 | A root missing from `fr2f2sha_shorts` or from its own file list is a KeyError, and one without SHAs is an IndexError. Otherwise the root's history holds the head SHA (`[0]`) and exactly the listed SHAs. The head reuses the HEAD blames unless another file lists it too. |
| `BlameHistory.StaticHistoryMeaning` | src/gigui/repo_blame.py:230-245 | The STATIC history adds every root with its history and keeps other entries. It fails iff some root's history fails, with that root's exception. |
| `BlameHistory.RepoBlameHistory.constructor` | src/gigui/repo_blame.py:221-224 | `fstr2sha2blames` starts empty. |
| `BlameHistory.RepoBlameHistory.RootBlameHistory` | src/gigui/repo_blame.py:232-245 | The body of the loop over the roots computes exactly one root's specified history. |
| `BlameHistory.RepoBlameHistory.RunBlameHistory` | src/gigui/repo_blame.py:226-245 | With the corrected file lookup: for STATIC, `fstr2sha2blames` becomes the specified history of every root, or the method fails with the first root's exception. Any other setting changes nothing. |
| `BlameHistory.ShaIndex` | src/gigui/repo_blame.py:271-273 | The loop returns at the first file whose SHA list contains the SHA, or finds none. |
| `BlameHistory.FileForShaShort` | src/gigui/repo_blame.py:268-274 | It returns the first file of the root whose SHAs contain the SHA. If no file does, it raises ValueError; an unknown root is a KeyError. |
| `BlameHistory.ReaderAsWrittenRaises` | src/gigui/blame_reader.py:237-246 | As written, `run` stores into `fstr2sha2blames[fstr]` before that dict exists, so the first file raises KeyError. |
| `BlameHistory.ReaderFileMeaning` | src/gigui/blame_reader.py:244-250 | Corrected, a file's history holds exactly its SHAs, each with the blames at that SHA. The head is re-read. An unknown file is a KeyError and one without SHAs an IndexError. |
| `BlameHistory.ReaderHistoryMeaning` | src/gigui/blame_reader.py:240-250 | The corrected `run` adds every file with its history, and fails iff some file's history fails. |
| `BlameHistory.BlameHistoryReader.constructor` | src/gigui/blame_reader.py:226-237 | It starts with an empty `fstr2sha2blames`. |
| `BlameHistory.BlameHistoryReader.Run` | src/gigui/blame_reader.py:240-250 | The corrected loop leaves `fstr2sha2blames` as the specified history, or fails with the first file's exception. |
| `BlameHistory.RenamedMeaning` | src/gigui/repo_blame.py:170-178 | Renaming authors keeps the number of blames and every field but the author. Renaming twice equals renaming once when the database's names are final. |
| `BlameHistory.RenameAuthors` | src/gigui/repo_blame.py:173-177 | The inner rebuild loop appends each blame with its author renamed. |
| `BlameHistory.RepoBlame.constructor` | src/gigui/repo_blame.py:40-46 | `fstr2blames` starts empty. |
| `BlameHistory.RepoBlame.RunBlame` | src/gigui/repo_blame.py:147-178 | The single-threaded `run_blame` succeeds iff every file's blames can be read, and otherwise fails with one file's exception. Afterwards `fstr2blames` has keys exactly `all_fstrs`, each with its blames and the authors renamed. |
| `CommitTree.GetBlobAgrees` | src/gigui/repo_reader.py:396-424 | `get_blob_from_tree` returns a blob exactly when `file_in_tree` is true for the same parts. What it returns is a blob named by the last part. Empty parts give False/None. |
| `CommitTree.FoundIsTraversed` | src/gigui/repo_reader.py:411-424 | A blob that `get_blob_from_tree` finds is also listed by `_traverse_tree`, under the "/"-joined path. |
| `CommitTree.TraverseMeaning` | src/gigui/repo_reader.py:169-177 | `_traverse_tree` lists no sub-tree. Under a non-empty base every path starts with the base and "/"; at the top level no path gets a leading slash. |
| `CommitTree.LastDotPart` | src/gigui/repo_reader.py:161 | `fstr.split(".")[-1]` is the text after the last "." (no "." in it), or the whole path when it has no ".". |
| `CommitTree.FilesSizes` | src/gigui/repo_reader.py:179-198 | It lists, with their sizes, only blobs of the walk that are in the subfolder, have a wanted extension and match no exclude pattern. |
| `CommitTree.SortBySize` | src/gigui/repo_reader.py:226-228 | The stable sort by descending size keeps the same files, in descending size order. |
| `CommitTree.BiggestFilesMeaning` | src/gigui/repo_reader.py:225-230 | `n <= 0` fails the assertion. Otherwise at most `n` files are chosen, biggest first, and no file left out is bigger than a chosen one. |
| `CommitTree.PatternFiles` | src/gigui/repo_reader.py:156-166 | The comprehension keeps at most the walk's entries. |
| `CommitTree.PatternFilesMeaning` | src/gigui/repo_reader.py:156-166 | Every chosen path is a blob of the walk in the subfolder, with a wanted extension, matching no exclude pattern and matching some include pattern. |
| `CommitTree.WorktreeFilesMeaning` | src/gigui/repo_reader.py:151-167 | Include patterns take priority: with patterns the choice never fails and ignores `n_files`. Without them it is the biggest-files choice. |
| `CommitTree.InitialInsertionsMeaning` | src/gigui/repo_base.py:372-378 | For an initial commit, repo_base.py counts the pieces of `split("\n")`, less one when the text ends in "\n": the number of lines of a non-empty text, and 1 for an empty one. repo_reader.py:346 counts the pieces alone, one more when the text ends in "\n". |
| `CommitTree.SumOfUpdate` | src/gigui/repo_reader.py:248-249 | Setting an uncounted file leaves the sum over the counted files unchanged. |
| `CommitTree.AddCountSum` | src/gigui/repo_reader.py:248-249 | Counting one more file keeps "*" equal to the sum of the counted files. |
| `CommitTree.FirstBlob` | src/gigui/repo_reader.py:238-243 | The first blob the walk lists under `fstr` is a blob. |
| `CommitTree.FirstBlobMeaning` | src/gigui/repo_reader.py:238-243 | A first blob exists iff the walk lists `fstr` as a blob, and it is the earliest such entry. |
| `CommitTree.CountedFilesAdd` | src/gigui/repo_reader.py:239-243 | A file counted at item `i` joins the counted files. |
| `CommitTree.CountedValuesAdd` | src/gigui/repo_reader.py:245-248 | The file counted at item `i` gets the piece count of that blob; the others keep theirs. |
| `CommitTree.LineCountsAdd` | src/gigui/repo_reader.py:238-249 | A loop turn that counts a new file keeps the map in step with the walk. |
| `CommitTree.LineCountsSkip` | src/gigui/repo_reader.py:239-243 | A loop turn that counts nothing keeps the map in step with the walk. |
| `CommitTree.LineCounts` | src/gigui/repo_reader.py:236-249 | Corrected, with the blob test read as `type_str == "blob"`: the keys are "*" plus exactly the listed files found as blobs. Each gets the `split("\n")` piece count of its first blob, and "*" is the sum of the per-file counts. |
| `CommitTree.LineCountsAsWritten` | src/gigui/repo_reader.py:236-249 | As written, `blob.type == "blob"` compares pygit2's integer type code with a string and never holds: the map is only "*" at 0. |
| `CommitTree.AsWrittenCountsNoFile` | src/gigui/repo_reader.py:240 | A HEAD tree with one listed, empty file: the corrected count gives it one line, and its type code is not the string "blob". |
| `CommitWalk.NumberedByPosition` | src/gigui/repo_base.py:110-124 | Commits are numbered 1..n in the order of the REVERSE walk, oldest first: number `k` is the k-th commit of the walk. |
| `CommitWalk.NumbersMapBack` | src/gigui/repo_base.py:113-124 | Every commit's short SHA and id get a number, and that number maps back to a commit with that short SHA or id. |
| `CommitWalk.IdsAgreeWithNumbers` | src/gigui/repo_base.py:117-122 | `sha_short2id` and `id2sha_short` have the same keys as the number maps, and they link a short SHA and an id that carry the same number. |
| `CommitWalk.ShortNumbersInverse` | src/gigui/repo_base.py:119-120 | With distinct short SHAs, `sha_short2nr` undoes `nr2sha_short`. |
| `CommitWalk.IdNumbersInverse` | src/gigui/repo_base.py:121-122 | With distinct ids, `id2nr` undoes `nr2id`. |
| `CommitWalk.NumbersInverse` | src/gigui/repo_base.py:117-122 | With distinct ids, the number maps and the id maps are mutual inverses. |
| `CommitWalk.NumberCommits` | src/gigui/repo_base.py:110-129 | The loop builds exactly the specified numbering. `head_commit` is `nr2commit[n]`, the last commit of the REVERSE walk, and `initial_commit` is `nr2commit[1]`. An empty walk makes the lookup a KeyError. |
| `CommitWalk.AsWrittenIgnoresSince` | src/gigui/repo_base.py:159-177 | As written, `previous_commit` is set only for commits after `--until`. Without `--until` the oldest commit is therefore never set, and the initial commit is used whatever `--since` says. |
| `CommitWalk.OldestNewerThanNewest` | src/gigui/repo_base.py:164-177 | Commits at 10, 8 and 5 with `--until` 9 and `--since` 6: the loop as written picks commit 10 as oldest, which is newer than the newest (8). |
| `CommitWalk.ScanMeaning` | src/gigui/repo_base.py:159-177 | Corrected, with `previous_commit` updated at every step: the newest is set iff some commit is not after `until`, and it is the first such commit. The oldest is set iff the loop stops, at the first commit not after `until` but older than `since`, and that commit is not the first of the walk. The oldest is then the commit just before it. |
| `CommitWalk.OldestNotNewer` | src/gigui/repo_base.py:159-177 | Corrected, over a walk newest first with some commit in the date range: a newest commit is found, and the oldest commit is never newer than it. |
| `CommitWalk.SetNewestOldest` | src/gigui/repo_base.py:159-177 | The corrected loop falls back to the head for the newest id and to the initial commit for the oldest id. |
| `CommitWalk.FirstPassMeaning` | src/gigui/repo_base.py:290-305 | Every kept (short SHA, date) is a commit in the date range that no exclusion removes. Every excluded short SHA is that of a commit in range that `--ex-revision` or `--ex-message` removes. |
| `CommitWalk.FirstPassComplete` | src/gigui/repo_base.py:290-310 | Conversely, an in-range commit that the walk reaches is kept with its date when no exclusion applies. When one applies, its short SHA is excluded. |
| `CommitWalk.InsertBy` | src/gigui/repo_base.py:312 | Inserting adds exactly one element. |
| `CommitWalk.SortBy` | src/gigui/repo_base.py:312 | `list.sort(key=...)` is a permutation of its input. |
| `CommitWalk.InsertByOrdered` | src/gigui/repo_base.py:312 | Inserting into a list ordered by key keeps it ordered. |
| `CommitWalk.SortByMeaning` | src/gigui/repo_base.py:312 | The sorted list is in ascending order of key. |
| `CommitWalk.SortByDate` | src/gigui/repo_base.py:312 | `commits.sort(key=lambda x: x.date)` gives the stable sort by date. |
| `CommitWalk.FirstPassTurn` | src/gigui/repo_base.py:291-310 | One loop turn either stops at a commit before `since` or extends the kept list and the excluded set exactly as the rest of the walk specifies. |
| `CommitWalk.FirstPass` | src/gigui/repo_base.py:284-314 | The kept commits, sorted by ascending date, and the excluded short SHAs are exactly the specified ones. |
| `CommitGroups.GroupedLast` | src/gigui/repo_reader.py:449-467 | After a record is grouped, the last group has that record's file and author. |
| `CommitGroups.GroupedMergesIff` | src/gigui/repo_reader.py:449-467 | A record adds no group iff the previous record has its file and author. The first record always starts a group. |
| `CommitGroups.GroupedRunsDiffer` | src/gigui/repo_reader.py:449-467 | Neighbouring groups never share both file and author. |
| `CommitGroups.MergeRunsDiffer` | src/gigui/repo_reader.py:449-467 | One grouping step keeps neighbouring groups apart. |
| `CommitGroups.StatsFirstTwoApart` | src/gigui/stats_reader.py:317-335 | stats_reader.py's `len(commits) > 1` test keeps the first two records of one file and author as two groups, where repo_reader.py's test merges them. |
| `CommitGroups.GroupedTotals` | src/gigui/repo_reader.py:454-466 | Whatever the merge test, the groups' insertions, deletions and date sums (timestamp × insertions) add up to those of the records, and their SHAs are exactly the records'. |
| `CommitGroups.MergeTotals` | src/gigui/repo_reader.py:454-466 | One grouping step adds the record's numbers and SHA to the totals. |
| `CommitGroups.AddShaMeaning` | src/gigui/repo_reader.py:440-447 | Filing one record adds its SHA to `fr2f2a2sha_short_set[root][fstr][author]` and changes nothing else. |
| `CommitGroups.AddShasMeaning` | src/gigui/repo_reader.py:431-447 | After filing, a SHA is present under root, file and author iff it was before or some record under that root, file and author has it. |
| `CommitGroups.SnocSteps` | src/gigui/repo_reader.py:431-467 | Grouping and filing one more record is one more step of each. |
| `CommitGroups.TrimFrom` | src/gigui/repo_reader.py:300-303 | The inner `while` only pops from `commit_groups2`, so what remains is a prefix of it. The corrected loop never fails. |
| `CommitGroups.Popped` | src/gigui/repo_reader.py:300-303 | The corrected loop pops at most what is left of either list. |
| `CommitGroups.TrimMeaning` | src/gigui/repo_reader.py:300-303 | The popped groups are an end that `commit_groups2` shares with `commit_groups1`, compared from the back. |
| `CommitGroups.TrimMaximal` | src/gigui/repo_reader.py:301 | The shared end is the longest one: the next pair compared differs, or one side is used up. |
| `CommitGroups.TrimAsWrittenMeaning` | src/gigui/repo_reader.py:300-303 | As written, the loop raises IndexError iff `commit_groups1` runs out while it is a proper suffix of `commit_groups2`. Otherwise it agrees with the corrected loop. |
| `CommitGroups.TrimAll` | src/gigui/repo_reader.py:298-303 | Trimming every later list keeps the keys of `fstr2commit_groups`. The corrected loop never fails. |
| `CommitGroups.Reduce` | src/gigui/repo_reader.py:293-303 | The `while fstrs` loop keeps the keys. Corrected, it never fails. |
| `CommitGroups.TrimAllMeaning` | src/gigui/repo_reader.py:298-303 | Every list stays a prefix of its original, and lists not named are left alone. |
| `CommitGroups.ReduceMeaning` | src/gigui/repo_reader.py:288-303 | `reduce_commits` only pops list ends, so every list stays a prefix of its original. Lists of files it is not given stay as they were. |
| `CommitGroups.ReduceKeepsTaken` | src/gigui/repo_reader.py:293-298 | A list is never changed after it has been taken as `fstr1`: later passes touch only the names before it. |
| `CommitGroups.ExampleTakeC` | src/gigui/repo_reader.py:298-303 | Taking c = [s, q, r]: b = [p, q, r] loses q and r, and a = [x, p] is kept. |
| `CommitGroups.ExampleTakeB` | src/gigui/repo_reader.py:298-303 | Taking b = [p]: a = [x, p] loses p, and the loop as written then reads `[p][-2]`. |
| `CommitGroups.ReduceAsWrittenRaises` | src/gigui/repo_reader.py:288-303 | For a = [x, p], b = [p, q, r] and c = [s, q, r], `reduce_commits` as written raises IndexError. The corrected loop succeeds. |
| `CommitGroups.ExampleOrder` | src/gigui/repo_reader.py:292 | The stable sort by list length orders that example a, b, c. |
| `CommitGroups.TrimList` | src/gigui/repo_reader.py:300-303 | The innermost loop, with the corrected bound, gives the corrected trim. |
| `CommitGroups.AddRecord` | src/gigui/repo_reader.py:449-467 | One step of the grouping loop merges or appends as specified. |
| `CommitGroups.CommitReader.constructor` | src/gigui/repo_reader.py:45-105 | The SHA sets and commit-group lists start empty. |
| `CommitGroups.CommitReader.FileSha` | src/gigui/repo_reader.py:440-447 | Creating missing levels and adding the SHA yields the specified filing. The groups are unchanged. |
| `CommitGroups.CommitReader.ProcessCommitData` | src/gigui/repo_reader.py:427-468 | It returns the grouping of the flattened records and files every record's SHA under the root. |
| `CommitGroups.CommitReader.ProcessCommitDatas` | src/gigui/repo_reader.py:432-467 | One list of records extends the groups and the filed SHAs by exactly those records. |
| `CommitGroups.CommitReader.ReduceCommits` | src/gigui/repo_reader.py:288-303 | With the corrected bound, `fstr2commit_groups` becomes the specified reduction over the names sorted by list length. The filed SHAs are unchanged. |
| `CommitGroups.CommitReader.TrimOthers` | src/gigui/repo_reader.py:298-303 | The `for fstr2` loop trims every named list against `commit_groups1`. |
| `CommitGroups.CommitReader.SetFstr2Commits` | src/gigui/repo_reader.py:285-321 | The single-threaded path groups every file's records, then reduces. The filed SHAs are those of all records. |
| `CommitGroups.Filled` | src/gigui/repo_reader.py:316-320 | After the loop, every file has a list and other keys are kept. |
| `CommitGroups.FilledKeys` | src/gigui/repo_reader.py:316-320 | Each file's list is the grouping of its own records. Files not looped over keep theirs. |
| `LogParser.SinceUntilMeaning` | src/gigui/stats_reader.py:168-178 | `--since` is passed iff `since` is set and `--until` iff `until` is set. Each appears once, `--since` first, and nothing else is passed. |
| `LogParser.ThenAssoc` | src/gigui/stats_reader.py:201-224 | Collecting the outcomes of consecutive parts of the log is associative, so the loop can be read one record at a time. |
| `LogParser.FirstPassStep` | src/gigui/stats_reader.py:201-224 | A skipped or excluded turn consumes between 1 and all remaining lines, and an accepted record needs six lines. A blank line is skipped. `pop(0)` from an exhausted list raises IndexError, and a timestamp that is not a number raises ValueError. |
| `LogParser.FiledSnoc` | src/gigui/stats_reader.py:223-224 | Filing one more commit puts it under its short and long SHA over what was there. |
| `LogParser.FiledMeaning` | src/gigui/stats_reader.py:223-224 | Every accepted commit is found under both its SHAs; the last one filed is found as itself. Every entry is an old one or a filed commit under one of its own SHAs. |
| `LogParser.FirstPassRecord` | src/gigui/stats_reader.py:201-224 | One well-formed record at the front of the log is read as that record's commit or exclusion, and the loop continues after it. |
| `LogParser.FirstPassRoundTrip` | src/gigui/stats_reader.py:201-224 | Reading the log of well-formed six-line records gives each record's commit or exclusion, in order, with no error. This always holds when an excluded record is skipped whole. As written it holds only when no record is excluded by SHA. |
| `LogParser.FirstPassExcludedRaises` | src/gigui/stats_reader.py:205-210 | As written, a record excluded by SHA consumes only its two hash lines. The timestamp line is then read as the next long SHA, and the author as a timestamp: `int("Alice")` raises ValueError. Skipping the whole record reads the log correctly. |
| `LogParser.ExampleRevs` | src/gigui/stats_reader.py:207 | "aaaa" is excluded by the rev "aaaa" and "100" is not. |
| `LogParser.ExampleAuthorNotNumber` | src/gigui/stats_reader.py:210 | `int("Alice")` raises ValueError. |
| `LogParser.RenamePlain` | src/gigui/stats_reader.py:277-280 | A path without "=>" is its own file name. |
| `LogParser.RenameWhole` | src/gigui/stats_reader.py:308-315 | "before => after" without braces names the file `after`. |
| `LogParser.RenameBraces` | src/gigui/stats_reader.py:281-307 | "pre{before => after}suf" names "pre" + "after" + "suf", with every "//" collapsed to "/". |
| `LogParser.RenameIntoDirectory` | src/gigui/stats_reader.py:290-307 | `src/gigui/{ => gi}/gitinspector.py` names `src/gigui/gi/gitinspector.py`, for any directory, sub-directory and file name. |
| `LogParser.ReplaceSingleSlash` | src/gigui/stats_reader.py:307 | A single "/" before a name is not collapsed. |
| `LogParser.RenameOutOfDirectory` | src/gigui/stats_reader.py:297-307 | A move out of a directory, `dir/{moved => }/name`, names `dir/name`: the "//" left by the empty new part is collapsed. |
| `LogParser.NumstatStep` | src/gigui/stats_reader.py:258-336 | One turn of the loop consumes at least one line. A blank line is passed over. A header that is not two words raises ValueError. A missing author line raises IndexError. A missing stat line ends the loop. An excluded SHA, a filter-matched author or an empty stat line produces no group. |
| `LogParser.DigitsAreWord` | src/gigui/stats_reader.py:272 | The digits of a number contain no whitespace, so `split()` keeps them as one word. |
| `LogParser.HeaderWords` | src/gigui/stats_reader.py:262 | The header "sha timestamp" splits into its SHA and its timestamp. |
| `LogParser.StatWords` | src/gigui/stats_reader.py:272-275 | The stat line splits into its two counts and its path words. |
| `LogParser.StatRecordOf` | src/gigui/stats_reader.py:272-315 | The stat line of a well-formed entry gives that entry's record. |
| `LogParser.NumstatEntryStep` | src/gigui/stats_reader.py:258-336 | One well-formed entry at the front of the log is read as that entry's record, if any, and the loop continues after it. |
| `LogParser.NumstatRoundTrip` | src/gigui/stats_reader.py:255-336 | Reading the log of well-formed entries gives, in order, the record of every entry that is neither excluded nor filtered out. This always holds when an excluded record is skipped whole. As written it holds only when no SHA is excluded. |
| `LogParser.ExpectedCons` | src/gigui/stats_reader.py:258-336 | The records expected from a log are those of its first entry followed by those of the rest. |
| `LogParser.NumstatExcludedRaises` | src/gigui/stats_reader.py:262-265 | As written, an excluded SHA leaves its author line to be read as the next header. A one-word author is not "sha timestamp", so unpacking it raises ValueError. Skipping the whole record reads the log correctly. |
| `LogParser.NumstatFirstTwoApart` | src/gigui/stats_reader.py:317-321 | As written, the first two commits of one author to one file stay two groups. The corrected merge test (`commits` non-empty) joins them. |
| `LogParser.ExampleHeaderWords` | src/gigui/stats_reader.py:262 | The example header line splits into two words. |
| `LogParser.ExampleAuthorWords` | src/gigui/stats_reader.py:262 | The example author line is a single word. |
| `LogParser.CommitLinesOf` | src/gigui/stats_reader.py:255-336 | When the records parse, the groups are their grouping: with stats_reader.py's `len(commits) > 1` test as written, with the `commits` test corrected. |
| `LogParser.ReadFirstPassTurn` | src/gigui/stats_reader.py:202-224 | One turn of the first-pass loop does what the specification's turn does and says where the next turn starts. |
| `LogParser.ReadNumstatTurn` | src/gigui/stats_reader.py:259-335 | One turn of the numstat loop does what the specification's turn does and says where the next turn starts. |
| `LogParser.LogReader.constructor` | src/gigui/stats_reader.py:180-182 | It starts with no recorded `add_person` calls and an empty `sha2commit`. |
| `LogParser.LogReader.GetCommitsFirstPass` | src/gigui/stats_reader.py:180-228 | With the whole excluded record skipped, it files every accepted commit under both SHAs and records `add_person` for it. At the end the commits are sorted by ascending date. A malformed log raises the parser's error. |
| `LogParser.LogReader.AddCommit` | src/gigui/stats_reader.py:220-224 | `add_person` is recorded, and the commit is filed under its short and long SHA. |
| `LogParser.LogReader.ProcessCommitLines` | src/gigui/stats_reader.py:255-336 | With the corrected merge test and the whole excluded record skipped, it returns the grouping of the log's records, or the parser's exception. |
| `StatTables.PutTwice` | src/gigui/repo.py:239-241 | Assigning a dict key twice is assigning it the second value. |
| `StatTables.PutKeyed` | src/gigui/repo.py:239-241 | Assigning a key keeps a dict's key order listing each key once. |
| `StatTables.FileVisitsIn` | src/gigui/repo.py:235 | Every visit of a file belongs to that file and one of its commit groups. |
| `StatTables.Visits` | src/gigui/repo.py:234-235 | The loops visit the files' commit groups file by file, one visit per group. |
| `StatTables.InitTable` | src/gigui/repo.py:228-232 | Before the loops the table has "*" and every included author, each with a "*" file. |
| `StatTables.AddGroup` | src/gigui/repo.py:236-241 | The inner loop body adds the group to the "*"/"*" entry, the author's "*" entry and the author's file entry, which it creates when missing. |
| `StatTables.Built` | src/gigui/repo.py:234-241 | After the loops the table keeps the authors it started with. |
| `StatTables.InitTableRows` | src/gigui/repo.py:228-232 | Every row before the loops is `{"*": FileStat("*")}`. |
| `StatTables.InitTableKeys` | src/gigui/repo.py:228-232 | The keys before the loops start with "*", each once. They are just "*" iff no author other than "*" is included. |
| `StatTables.TotalNone` | src/gigui/repo.py:228-232 | With no group counted, every total is zero. |
| `StatTables.TotalSnoc` | src/gigui/repo.py:236-241 | The totals after one more group add that group's numbers where it belongs. |
| `StatTables.AddGroupRows` | src/gigui/repo.py:236-241 | One group of author `x` in file `f` changes only the rows "*" and `x`. |
| `StatTables.AddGroupEntry` | src/gigui/repo.py:236-241 | One entry after one more group: it grows by the group iff the group counts towards it. |
| `StatTables.AddGroupKey` | src/gigui/repo.py:239-240 | An author row has a file key after one more group iff it had it before or the group adds it. |
| `StatTables.AddGroupTallied` | src/gigui/repo.py:236-241 | One more group keeps every entry equal to the sum of the groups it collects. |
| `StatTables.BuiltMeaning` | src/gigui/repo.py:228-241 | The table's keys are exactly "*" and the included authors. Entry `[a][f]` exists iff `a` has a group in `f`, and it is the sum of those groups. `[a]["*"]` sums all of a's groups and `["*"]["*"]` sums every group. |
| `StatTables.AddVisit` | src/gigui/repo.py:236-241 | The inner loop body gives the specified table after one more group. |
| `StatTables.FileVisitsSnoc` | src/gigui/repo.py:235 | The visits of a file's groups grow by one visit per group. |
| `StatTables.BuiltSnoc` | src/gigui/repo.py:234-241 | One more group after the groups visited so far is one more step of the table. |
| `StatTables.AddFile` | src/gigui/repo.py:235-241 | The inner loop over one file's groups gives the specified table after that file. |
| `StatTables.NewTable` | src/gigui/repo.py:228-232 | The first loop builds exactly the starting table. |
| `StatTables.VisitsKnown` | src/gigui/repo.py:234-238 | The groups of the first files have known authors when all files' groups do. |
| `StatTables.GroupAuthorsKnown` | src/gigui/repo.py:235-238 | It reports whether every group of a file has an author with a row, so the `target[author]` lookups succeed. |
| `StatTables.UnknownFile` | src/gigui/repo.py:235-238 | A file missing from `fstr2commit_groups`, or one with a group of an unknown author, makes the whole call raise. |
| `StatTables.KnownSnoc` | src/gigui/repo.py:234-238 | One more file with known groups keeps all groups known, and its visits follow those before it. |
| `StatTables.GetAuthor2Fstr2Fstat` | src/gigui/repo.py:223-242 | It succeeds iff every file is in `fstr2commit_groups` and every group's canonical author has a row. It then returns the specified table of all groups; otherwise it raises KeyError. |
| `StatTables.AddRowKeys` | src/gigui/repo.py:256-260 | One author's row adds an entry for each of its files other than "*". |
| `StatTables.AddRowEffect` | src/gigui/repo.py:256-261 | One author's row adds its stat to each of its files other than "*", once, and leaves every other entry. |
| `StatTables.FileSumsSnoc` | src/gigui/repo.py:252-261 | The file sums after one more author. |
| `StatTables.FileSumsMeaning` | src/gigui/repo.py:249-261 | `get_fstr2fstat["*"]` is author "*"'s "*" entry. Every other file is present iff some non-"*" author has an entry for it, and its stat is the sum of those entries. |
| `StatTables.ColumnNone` | src/gigui/repo.py:256-261 | A file that no non-"*" author has gets no sum. |
| `StatTables.AddAuthorFiles` | src/gigui/repo.py:256-261 | The inner loop over one author's files gives the specified sums. |
| `StatTables.GetFstr2Fstat` | src/gigui/repo.py:245-266 | It returns file → stat, with "*" being author "*"'s "*" entry and every other file the sum over the non-"*" authors. |
| `StatTables.AddColumnKeys` | src/gigui/repo.py:278-283 | One author's row adds a column for each of its files other than "*". |
| `StatTables.AddColumnEffect` | src/gigui/repo.py:278-285 | One author's row enters each of its files other than "*" once, and leaves every other column. |
| `StatTables.TransposedSnoc` | src/gigui/repo.py:274-285 | The transposed table after one more author. |
| `StatTables.ExpectedColumnNone` | src/gigui/repo.py:281-283 | A file that no non-"*" author has keeps its fresh column. |
| `StatTables.TransposedKeys` | src/gigui/repo.py:273-285 | `get_fstr2author2fstat` has "*" iff "*" is an author, holding author "*"'s row. It has every other file iff some non-"*" author has an entry for it. |
| `StatTables.TransposedColumns` | src/gigui/repo.py:278-285 | Each file other than "*" holds the column its authors give it, in author order. |
| `StatTables.ExpectedColumnMeaning` | src/gigui/repo.py:281-285 | In a file's column, "*" holds the sum of the other authors' entries. A non-"*" author is present iff it has an entry for the file, and holds that entry unchanged. |
| `StatTables.ExpectedColumnStar` | src/gigui/repo.py:285 | The "*" entry of a column is the column's sum. |
| `StatTables.ExpectedColumnAuthors` | src/gigui/repo.py:284 | Every other entry of a column is its author's entry for the file. |
| `StatTables.TransposedAgrees` | src/gigui/repo.py:252-285 | `get_fstr2author2fstat` and `get_fstr2fstat` agree: a file's "*" author entry is the file's stat. |
| `StatTables.AddAuthorColumns` | src/gigui/repo.py:278-285 | The inner loop over one author's files gives the specified columns. |
| `StatTables.GetFstr2Author2Fstat` | src/gigui/repo.py:269-287 | It returns file → author → stat, with "*" being author "*"'s row, as specified. |
| `StatTables.PersonSumsKeys` | src/gigui/repo.py:295-304 | `get_author2pstat` has the same authors as its source. |
| `StatTables.PersonSumsValues` | src/gigui/repo.py:295-304 | "*" gets author "*"'s "*" stat. Every other author gets the sum of its files other than "*". |
| `StatTables.SumRow` | src/gigui/repo.py:301-304 | The loop over one author's files adds up its entries other than "*". |
| `StatTables.GetAuthor2Pstat` | src/gigui/repo.py:290-305 | It returns author → stat, as specified. |
| `StatTables.PutRowNested` | src/gigui/repo.py:231-232 | Assigning a well-keyed row keeps the table well keyed. |
| `StatTables.AddGroupNested` | src/gigui/repo.py:236-241 | One more group keeps every dict of the table well keyed. |
| `StatTables.BuiltNested` | src/gigui/repo.py:228-241 | The table of `get_author2fstr2fstat` is a well-keyed dict of dicts. |
| `StatTables.NoAuthorsNoTable` | src/gigui/repo.py:115-232 | With no included author other than "*", the table has only the "*" author, so `_run_blame_no_history` stops. |
| `StatTables.AddRowKeyed` | src/gigui/repo.py:259-260 | One author's row adds its files other than "*" as keys, each once. |
| `StatTables.FileSumsKeyed` | src/gigui/repo.py:249-261 | The files of `get_fstr2fstat` are listed each once. |
| `StatTables.FirstTwoDiffer` | src/gigui/repo.py:137 | In a list of distinct keys the first two differ, so a key list with two keys is not `["*"]`. |
| `StatTables.KeyedOnlyStar` | src/gigui/repo.py:137 | A well-keyed dict's keys are `["*"]` iff "*" is its only key. |
| `StatTables.OnlyStarFile` | src/gigui/repo.py:252-261 | `get_fstr2fstat` of a table with "*" has only the "*" file iff no non-"*" author has a file other than "*". |
| `StatTables.SortByKeepsFirst` | src/gigui/repo.py:129-131 | A first element whose key is no larger than any other stays first after the sort. |
| `StatTables.StarFirst` | src/gigui/repo.py:129-135 | When "*" is the first file and has at least as many lines as any file, `star_fstrs` starts with "*". `fstrs` then holds every other file once, most lines first. |
| `StatTables.KeyedTail` | src/gigui/repo.py:133 | The keys after the first of a well-keyed dict are its other keys. |
| `Repo.Gathered` | src/gigui/repo.py:110-116 | The table `get_author2fstr2fstat` builds is well keyed and starred. Its keys are `["*"]` iff no author other than "*" is included. |
| `Repo.Blamed` | src/gigui/repo.py:119-121 | The table after the blame line counts are added stays well keyed and starred. |
| `Repo.ShaOfNumberAt` | src/gigui/repo.py:184-196 | Numbers `len(commits)`, `len(commits) - 1`, ... name the commits in list order. |
| `Repo.ShaNumbersInverse` | src/gigui/repo.py:184-196 | With distinct commits, `sha2nr` numbers them `len(commits)` down to 1, newest first, and `nr2sha` is its inverse. |
| `Repo.TabulatedAt` | src/gigui/repo.py:186-201 | A dict filled by a loop over keys maps every key, and nothing else, to its value. |
| `Repo.NumberCommits` | src/gigui/repo.py:184-196 | The first loop of `_set_shared_data` builds exactly `sha2author`, `sha2nr` and `nr2sha`. |
| `Repo.EnumeratedAt` | src/gigui/repo.py:210-211 | Every author of the list gets an index, and an author listed once gets its position. |
| `Repo.ZeroedAt` | src/gigui/repo.py:212-213 | Excluded authors get 0 and every other author keeps its number. |
| `Repo.StarNumbersMeaning` | src/gigui/repo.py:203-215 | `author_star2nr` holds the sorted included authors and the excluded ones. An excluded author has 0; any other has its index in descending line-count order. |
| `Repo.EnumeratedOnce` | src/gigui/repo.py:210-211 | An author listed nowhere after position `i` has index `i`. |
| `Repo.StarGetsZero` | src/gigui/repo.py:204-211 | When "*" is listed once, first, with at least as many lines as any author, the stable sort keeps it first and "*" gets number 0. |
| `Repo.AuthorNumbersMeaning` | src/gigui/repo.py:215-218 | `sha2author_nr` is built iff every commit's author is in `author2nr` (otherwise KeyError). It then gives each commit its author's number. |
| `Repo.NoKeyError` | src/gigui/repo.py:203-218 | When every commit's author is an included or excluded author other than "*", no KeyError occurs. |
| `Repo.NumberAuthors` | src/gigui/repo.py:210-215 | The enumerate loop, the excluded loop and the comprehension give exactly the specified `author_star2nr` and `author2nr`. |
| `Repo.NumberCommitAuthors` | src/gigui/repo.py:217-218 | The last loop gives the specified `sha2author_nr`, or stops with KeyError. |
| `Repo.AuthorNumbersPrefix` | src/gigui/repo.py:217-218 | Once a commit raises, the whole loop raises the same error. |
| `Repo.FileShas` | src/gigui/repo.py:198-201 | The loop over the files maps each file to its commits, newest first. |
| `Repo.GIRepo.constructor` | src/gigui/repo.py:22-57 | The tables start empty. |
| `Repo.GIRepo.RunBlameNoHistory` | src/gigui/repo.py:89-165 | `_run_blame_no_history` succeeds iff `get_author2fstr2fstat` does; its KeyError leaves the tables unchanged. It returns False when "*" is the only author or the only file. Otherwise it fills the file and person tables. |
| `Repo.GIRepo.SummarizeBlame` | src/gigui/repo.py:119-146 | After the blame counts, it sets the file tables. It returns False iff "*" is the only file, and otherwise sets the person tables. |
| `Repo.GIRepo.SetAuthorTable` | src/gigui/repo.py:110-116 | It stores the author table and reports whether its keys are `["*"]`, which holds iff "*" is the only author. On KeyError the field is not assigned. |
| `Repo.GIRepo.SetFileTables` | src/gigui/repo.py:123-138 | `fstr2fstat`, `star_fstrs` (by descending line count) and `fstrs` (without a leading "*") are set. Only "*" is left iff no author has another file. |
| `Repo.GIRepo.SetPersonTables` | src/gigui/repo.py:140-146 | `fstr2author2fstat` and `author2pstat` are the transposed table and the person sums of the author table. |
| `Repo.GIRepo.SetCommitData` | src/gigui/repo.py:184-201 | The commit numbering and `fstr2shas` are set as specified. |
| `Repo.GIRepo.SetAuthorData` | src/gigui/repo.py:203-218 | `authors_included` is sorted by descending line count. `author_star2nr` and `author2nr` are set as specified. `sha2author_nr` is set iff every commit's author has a number; otherwise the result is KeyError. |
| `Repo.GIRepo.SetSharedData` | src/gigui/repo.py:170-218 | All tables of `_set_shared_data`: `sha2author`, `sha2nr` (counting down from `len(commits)`), its inverse `nr2sha`, `fstr2shas`, the author numbers, and `sha2author_nr` or KeyError. |
| `Repo.TotalLenJoined` | src/gigui/repo.py:401-402 | `total_len` of joined lists is the sum of their totals. |
| `Repo.TotalLenZero` | src/gigui/repo.py:401-402 | `total_len` is 0 iff every list is empty. |
| `StatRows.StatRowCells` | src/gigui/output/stat_rows.py:105-108 | A row has its id first and its name second. Its detail comes just before the stat values, which come last. For html, an empty cell sits between name and detail. |
| `StatRows.GroupedAppend` | src/gigui/output/stat_rows.py:128-138 | Appending a block of rows that all have id `n` and the name of entry `n` keeps the rows grouped. |
| `StatRows.GetAuthorsRows` | src/gigui/output/stat_rows.py:97-111 | One row per included author, in order, with ids 0, 1, .... Each row holds the author's names, "" in the html Empty column, the e-mail addresses and the author's `author2pstat` stat. |
| `StatRows.AddAuthorRows` | src/gigui/output/stat_rows.py:128-137 | The inner loop appends exactly author `a`'s block of rows for the files `fs`. |
| `StatRows.GetAuthorsFilesRows` | src/gigui/output/stat_rows.py:114-139 | `AuthorsFilesTableRows.get_rows` returns exactly the specified rows. |
| `StatRows.AuthorBlockTagged` | src/gigui/output/stat_rows.py:132 | Every row of an author's block has the block's id and the author's names. |
| `StatRows.AuthorRowsMeaning` | src/gigui/output/stat_rows.py:120-138 | Author `i`'s rows all have id `i` and the author's names. Their files are the author's files, each once, in descending total line count. |
| `StatRows.AuthorBlockLength` | src/gigui/output/stat_rows.py:128-137 | An author's block has one row per file. |
| `StatRows.AuthorsFilesStep` | src/gigui/output/stat_rows.py:120-138 | One more author's rows keep the rows grouped. |
| `StatRows.AuthorsFilesGrouped` | src/gigui/output/stat_rows.py:114-139 | Each row belongs to the author whose index is its id and carries that author's names. The ids never go down, so all rows of one author share its id and are adjacent. |
| `StatRows.AddFileRows` | src/gigui/output/stat_rows.py:155-171 | The inner loop appends file `f`'s rows, its authors sorted most lines first. |
| `StatRows.FilesBlocks` | src/gigui/output/stat_rows.py:154-172 | The outer loop gives the rows of the files, the i-th file's with id `i`. |
| `StatRows.GetFilesAuthorsRows` | src/gigui/output/stat_rows.py:142-173 | `FilesAuthorsTableRows.get_rows` returns exactly the specified rows. |
| `StatRows.FileBlockTagged` | src/gigui/output/stat_rows.py:165-168 | Every row of a file's block has the block's id and the file's name. |
| `StatRows.FileRowsMeaning` | src/gigui/output/stat_rows.py:155-171 | File `i`'s rows all have id `i` and the file's name. Their authors are the file's authors, each once, most lines in the file first. |
| `StatRows.FilesAuthorsGrouped` | src/gigui/output/stat_rows.py:148-172 | Each row belongs to the file whose index is its id and carries that file's name, and the ids never go down. The files are the table's keys, each once, in descending line count. |
| `StatRows.FilesAuthorsBlocksStep` | src/gigui/output/stat_rows.py:154-172 | One more file's rows keep the rows grouped. |
| `StatRows.FilesAuthorsBlocksGrouped` | src/gigui/output/stat_rows.py:154-172 | The first `n` files' rows are grouped by file. |
| `StatRows.GetFilesRows` | src/gigui/output/stat_rows.py:176-187 | One row per `star_fstrs` entry, with ids 0, 1, ..., the file's name and its stat. |
| `Excel.Present` | src/gigui/output/excel.py:109 | The items kept are exactly the items that are not `None`, and there are no more of them than before. |
| `Excel.PresentConcat` | src/gigui/output/excel.py:109 | Dropping `None` items distributes over concatenation, so the order of the rest is kept. |
| `Excel.PresentKeepsAll` | src/gigui/output/excel.py:109-111 | A row without `None` items is written unchanged. |
| `Excel.RowCells` | src/gigui/output/excel.py:111 | `worksheet.write_row` writes one cell per item. |
| `Excel.NumberToLetter` | src/gigui/output/excel.py:116-117 | A column below 26 gets a letter from "A" to "Z". |
| `Excel.NumberToLetterInjective` | src/gigui/output/excel.py:116-117 | Below 26 the letter gives back the column, so different columns get different letters. |
| `Excel.PositionsMeaning` | src/gigui/output/excel.py:140-145 | `create_header` gives a column to every header and only to headers. A repeated header keeps its last column. With distinct headers the i-th header gets column i. |
| `Excel.HeadLetterAfterHeader` | src/gigui/output/excel.py:147-149 | After `create_header` on distinct headers, the i-th header's letter is the i-th letter. A head that is not a header raises `KeyError`. |
| `Excel.AuthorRules` | src/gigui/output/excel.py:172-198 | `set_conditional_author_formats` adds one rule per colour. |
| `Excel.AuthorColourUnique` | src/gigui/output/excel.py:175-183 | With k colours, an author numbered 1 or more matches exactly one colour's criterion. Numbers up to k match their own colour, and numbers from k on match the last colour. Author number 0, used for excluded authors, matches none. |
| `Excel.AuthorRulesAt` | src/gigui/output/excel.py:176-198 | The i-th author rule covers the rows below the header with colour i and its criterion. |
| `Excel.FileRulesAlternate` | src/gigui/output/excel.py:218-240 | Every ID matches exactly one of the two file rules, and consecutive IDs match different ones. |
| `Excel.TableCellsPlaced` | src/gigui/output/excel.py:252-255 | Data row i goes on sheet row `r0 + i`. Its items that are not `None` start at column 0, unformatted. |
| `Excel.BlameRowCodeCell` | src/gigui/output/excel.py:330-337 | A blame row's code cell is its last cell and directly follows the other fields. It holds the code, in italics iff the line is a comment. No other cell of the row has a code format. |
| `Excel.TableSheet.constructor` | src/gigui/output/excel.py:54-66 | The cursor and the extent start at row 0 and column 0, and nothing has been written yet. |
| `Excel.TableSheet.SetPos` | src/gigui/output/excel.py:70-72 | The cursor moves to the given row and column. |
| `Excel.TableSheet.IncRow` | src/gigui/output/excel.py:74-75 | The cursor moves one row down. |
| `Excel.TableSheet.IncCol` | src/gigui/output/excel.py:77-78 | The cursor moves one column right. |
| `Excel.TableSheet.ResetCol` | src/gigui/output/excel.py:80-81 | The cursor returns to column 0. |
| `Excel.TableSheet.NextRow` | src/gigui/output/excel.py:83-85 | The cursor moves to the start of the next row. |
| `Excel.TableSheet.UpdateMax` | src/gigui/output/excel.py:87-89 | The extent grows to cover the given cell and never shrinks. |
| `Excel.TableSheet.Write` | src/gigui/output/excel.py:91-94 | One cell is written at the cursor with the given format. The cursor moves one column right, and the extent still covers every written cell. |
| `Excel.TableSheet.WriteNumber` | src/gigui/output/excel.py:96-99 | One number cell is written at the cursor. The cursor moves one column right, and the extent still covers every cell. |
| `Excel.TableSheet.WriteString` | src/gigui/output/excel.py:101-104 | One string cell is written at the cursor. The cursor moves one column right, and the extent still covers every cell. |
| `Excel.TableSheet.WriteRow` | src/gigui/output/excel.py:106-114 | The items that are not `None` are written from the cursor on, and the cursor moves past them. When there are no such items, the extent does not change. The extent still covers every cell. |
| `Excel.TableSheet.CreateHeader` | src/gigui/output/excel.py:140-145 | Returns the header items and records each header's column, a later duplicate winning. |
| `Excel.TableSheet.AddTable` | src/gigui/output/excel.py:159-170 | The table spans row 0 up to the extent, so it holds every written cell. |
| `Excel.TableSheet.SetConditionalAuthorFormats` | src/gigui/output/excel.py:172-198 | Adds exactly the k author rules over the current extent. |
| `Excel.TableSheet.SetConditionalFileFormats` | src/gigui/output/excel.py:218-240 | Adds exactly the two alternating file rules over the current extent. |
| `Excel.TableSheet.WriteTableRows` | src/gigui/output/excel.py:252-255 | Each data row goes on its own row below the header row. Afterwards the cursor is at the start of the row after the last one. |
| `Excel.TableSheet.WriteTableRow` | src/gigui/output/excel.py:253-255 | One pass of the rows loop writes the row's items and then moves to the start of the next row. |
| `Excel.TableSheet.WriteBlameRows` | src/gigui/output/excel.py:330-337 | As many blame rows are written as `zip` pairs rows with comment flags. Each goes on the next row. |
| `Excel.TableSheet.FinishBlameSheet` | src/gigui/output/excel.py:353-363 | Adds the table over the extent and rewrites the "SHA" and "Code" header cells in the clear format. Then adds the author colour rules. |
| `Excel.TableSheet.WriteBlameRow` | src/gigui/output/excel.py:330-337 | One pass of the blame loop: the next row, the fields before the code column, then the code cell. |
| `Excel.NewStatSheet` | src/gigui/output/excel.py:243-316 | A statistics sheet records its header's columns and puts each data row on sheet row `1 + i`. Its table covers every cell. It gets the author colours (authors and authors-files sheets) or the alternating file colours (files-authors and files sheets). |
| `Excel.NewBlameSheet` | src/gigui/output/excel.py:319-363 | A blame sheet puts its rows from sheet row 1 on, with code column 7. "SHA" (column 4) and "Code" (column 7) are rewritten in the clear format. The table covers every cell, and the sheet gets the author colours. |
| `Excel.BlameHeaderColumns` | src/gigui/output/excel.py:332 | In the blame header, "SHA" is column 4 and "Code" is column 7. |
| `Excel.BlameTitles` | src/gigui/output/excel.py:328 | The blame sheet's header titles are those of `header_blames`. |
| `Excel.SheetNameMeaning` | src/gigui/output/excel.py:504 | Replacing "/" by ">" keeps the length and leaves no "/" behind. A name without "/" is kept. |
| `Excel.BlameSheetNames` | src/gigui/output/excel.py:498-530 | Succeeds iff the truncated relative names fit in 31 characters. Then there is one sheet per blamed file, named after its truncated relative name with "/" replaced. |
| `Excel.NameSheets` | src/gigui/output/excel.py:526-530 | Each file's sheet name is its truncated name with "/" replaced. Every name is at most 31 characters long and has no "/". |
| `Excel.BookSheetNames` | src/gigui/output/excel.py:449-455 | The sheets come in the order "Authors", "Authors-Files", "Files-Authors", "Files". A blame sheet per file follows unless blame is skipped. |
| `Excel.FilesAuthorsSheetShowsAuthors` | src/gigui/output/excel.py:480-487 | As written, the "Files-Authors" sheet gets the rows of the authors table. Its second column, titled "File", holds the authors' names, one row per author. |
| `Excel.FilesAuthorsSheetExample` | src/gigui/output/excel.py:480-487 | With one author and one file, the sheet's only row shows the author's name in the "File" column. |
| `Excel.FilesAuthorsSheetShowsFiles` | src/gigui/output/excel.py:480-487 | With the files-authors rows that were evidently intended, every row of the sheet carries its file's name. The files come in `TableFiles` order. |
| `HtmlIds.ButtonId` | src/gigui/output/repo_html.py:416 | A radio button's id is "button-" followed by the id of the table it selects. |
| `HtmlIds.LeadingDigits` | src/gigui/output/repo_html_server.py:163 | Takes the longest run of digits at the start of the text, which is what `\d+` matches there. |
| `HtmlIds.ParseTableId` | src/gigui/output/repo_html_server.py:163-170 | `re.match` succeeds only on an id that starts with "file-". |
| `HtmlIds.TableIdRoundTrip` | src/gigui/output/repo_html.py:247 | Every table id the report builds, whether static (repo_html.py:247) or dynamic (repo_html.py:263), is read back by `handle_load_table` as the numbers it was built from. |
| `HtmlIds.ParseShape` | src/gigui/output/repo_html_server.py:163-166 | "file-", digits, "-sha-", digits is read as the values of the two digit strings. |
| `HtmlIds.ButtonIdNamesTable` | src/gigui/output/repo_html.py:416-434 | A radio button's id, less its "button-" prefix, is the id of the table it selects, and the label's `for` is the button's id. |
| `HtmlIds.ParseTableIdRefuses` | src/gigui/output/repo_html_server.py:163-174 | The empty id, an id that does not start with "file-", and one without a second number do not match. No table is loaded for them. |
| `HtmlIds.ReplaceChar` | src/gigui/output/repo_html.py:377 | `replace` of one character by another keeps the length and changes exactly the occurrences of that character. |
| `HtmlIds.ReplaceCharAgrees` | src/gigui/output/repo_html.py:377 | The one-character replacement agrees with the general `str.replace` model. |
| `HtmlIds.SafeId` | src/gigui/output/repo_html.py:377 | The tab id has one character per character of the name, with "." and "/" turned into "_", so it holds neither. |
| `HtmlIds.SafeIdCollides` | src/gigui/output/repo_html.py:377 | "a.py" and "a_py" get the same tab id. |
| `HtmlIds.NewNavTab` | src/gigui/output/repo_html.py:376-390 | The nav button targets the pane of the same name and shows the name itself. |
| `HtmlIds.NewNavTabPlain` | src/gigui/output/html.py:291-304 | html.py's nav button targets the name itself. |
| `HtmlIds.NavTabsAgree` | src/gigui/output/repo_html.py:376-400 | For a name without "." or "/", the two versions make the same nav button. |
| `HtmlRender.ReportHeadersClassed` | src/gigui/output/repo_html.py:15-37 | Every column of the authors, authors-files, files-authors, files and blame headers has an entry in `HEADER_CLASS_DICT`, so rendering them raises no `KeyError`. |
| `HtmlRender.BlameHeaderClassed` | src/gigui/output/repo_html.py:15-37 | Every column of `header_blames` has a class. |
| `HtmlRender.AuthorColor` | src/gigui/output/repo_html.py:66-68 | An author's colour is one of `BG_AUTHOR_COLORS`. |
| `HtmlRender.AuthorColorsCycle` | src/gigui/output/repo_html.py:39-49 | There are nine different author colours, so two numbers share a colour iff they agree modulo nine. |
| `HtmlRender.AuthorColorsDistinct` | src/gigui/output/repo_html.py:39-49 | The nine author colour classes differ from each other. |
| `HtmlRender.RowColor` | src/gigui/output/repo_html.py:204 | A row's colour is one of the table's colours. |
| `HtmlRender.FileRowsAlternate` | src/gigui/output/repo_html.py:51 | File rows alternate between light green (even ids) and white (odd ids), so consecutive ids differ in colour. |
| `HtmlRender.HeaderCell` | src/gigui/output/repo_html.py:88-109 | A header cell has its column's class and title, with "" for "Empty". Only the Code column has buttons, and its last one is "Hide colors". It has the exclusions button iff `blame_exclusions` is hide or show. No button starts pressed. |
| `HtmlRender.PressedHeaderCell` | src/gigui/output/html.py:77-104 | In html.py the Code column always has all three buttons. The exclusions button starts pressed iff exclusions are hidden, and the empty-lines button iff empty lines are left out. |
| `HtmlRender.HeaderVersions` | src/gigui/output/repo_html.py:82-110 | The two versions of the header differ only in the Code column's buttons. With exclusions shown or hidden they have the same buttons, pressed or not. |
| `HtmlRender.TableSoup.constructor` | src/gigui/output/html.py:65-68 | A new soup holds an empty table and an empty, detached `tbody`. |
| `HtmlRender.TableSoup.AddHeader` | src/gigui/output/html.py:70-106 | `_add_header` replaces the header by one cell per column, in order, with the Code buttons pressed as the settings say. The `tbody` that `table.clear()` detached is appended again, so the body keeps its rows. |
| `HtmlRender.TableSoup.AppendRow` | src/gigui/output/html.py:119 | Appending to `tbody` puts the row after the others and leaves the header alone. |
| `HtmlRender.NewHeaderedTable` | src/gigui/output/html.py:65-106 | On the new soup each `get_table` starts from, the table after the header step holds the header cells and no rows. |
| `HtmlRender.HeaderCells` | src/gigui/output/repo_html.py:88-109 | One header cell per column, in order. |
| `HtmlRender.ButtonsOnlyOnCode` | src/gigui/output/repo_html.py:94-108 | Of the header cells of a table, exactly the Code column's carry buttons. |
| `HtmlRender.AddHeaderRow` | src/gigui/output/repo_html.py:82-110 | `_add_header_row` gives the header cells of the header, in order. |
| `HtmlRender.ColoredRow` | src/gigui/output/repo_html.py:202-213 | A row has the colour of its id and one cell per item. Each cell has its column's class, and the "Empty" column's cell is blank. |
| `HtmlRender.ColoredRowsTable` | src/gigui/output/repo_html.py:195-215 | `_get_colored_rows_table_soup` gives a table without an id, the header cells and one row per row, in order. |
| `HtmlRender.IndexOf` | src/gigui/output/repo_html.py:139-143 | `header.index(c)` is the first position of the column. A column the header lacks gives `None`, which stands for `ValueError`. |
| `HtmlRender.ScanRow` | src/gigui/output/repo_html.py:153-171 | After a row the scan's `row_id` is the row's id. A row with a file cell has used up the file's name. |
| `HtmlRender.FileNamedOnce` | src/gigui/output/repo_html.py:150-176 | When every row has a file cell, a row shows the file name iff it is the first row or its id differs from the previous row's. |
| `HtmlRender.FilesAuthorsRow` | src/gigui/output/repo_html.py:157-183 | A files-authors row is coloured by its id's parity and has one cell per item. The file name shows only where the scan says, the "Empty" column is blank, and every other cell but the id gets the author's colour. |
| `HtmlRender.FilesAuthorsTable` | src/gigui/output/repo_html.py:130-185 | A header without "ID", "File" or "Author" raises `ValueError`. Otherwise the first row the loop cannot render raises its error: `IndexError` for a row too short for its id or author cell or longer than the header, `KeyError` for an author without a number. With no such row, every row is built in order and shows its file name as the scan decides. |
| `HtmlRender.FilesAuthorsRows` | src/gigui/output/repo_html.py:152-183 | The rows of the files-authors table for the first n rows, one each. |
| `HtmlRender.FilesAuthorsRowAt` | src/gigui/output/repo_html.py:152-183 | Row p of the table is the row built from `rows[p]`, showing its file name as the scan decides. |
| `HtmlRender.ScanFilesAuthors` | src/gigui/output/repo_html.py:150-183 | The loop with its `first_file` and `row_id` gives exactly the specified rows. |
| `HtmlRender.FilesAuthorsColumns` | src/gigui/output/repo_html.py:139-143 | In the html files-authors header the id, file and author are columns 0, 1 and 3. |
| `HtmlRender.IncludedAuthorColor` | src/gigui/output/html.py:182-198 | html.py's author colour succeeds iff the author is among the included authors. It is then the colour of the author's place there. |
| `HtmlRender.BlameCell` | src/gigui/output/repo_html.py:273-294 | A blame cell outside the Code column has its column's class and the text. The Code cell is classed "comment-col" for a comment line and "code-col" otherwise. Its text holds no space, "<", ">" or '"'. |
| `HtmlRender.BlameRow` | src/gigui/output/repo_html.py:269-295 | A blame row has the author colour of its id and one cell per item. |
| `HtmlRender.BlameCodeShown` | src/gigui/output/repo_html.py:276-294 | The code of a full blame row is in its last cell, which a browser shows as the line itself when the line has no "&". |
| `HtmlRender.BlameTable` | src/gigui/output/repo_html.py:251-296 | `_get_blame_table_from_rows` gives exactly the specified blame table. |
| `HtmlRender.BlameTableOf` | src/gigui/output/repo_html.py:251-296 | The blame table has the id the server reads back iff history is dynamic. It has the blame header cells and one row per pair of a row and its comment flag (`zip` stops at the shorter list). |
| `HtmlRender.BlameTableSoup` | src/gigui/output/repo_html.py:219-230 | There is no table iff the file has no rows. Otherwise it is the static blame table of `_get_blame_table_from_rows`: no id, the blame header cells, and the blame row of each `zip` pair of a row and its comment flag. |
| `HtmlRender.KeptFiles` | src/gigui/output/repo_html.py:317-333 | The files that get a tab are exactly the files kept by the history option, in their order. |
| `HtmlRender.StaticIds` | src/gigui/output/repo_html.py:241-248 | A file gets one static table id per commit that gives blame rows. |
| `HtmlRender.StaticIdsMissRadios` | src/gigui/output/repo_html.py:316-374 | As written: with static history, take "a.py" without blame rows and then "b.py". The first loop numbers "b.py"'s table as file 1, but the second loop numbers its radio buttons as file 0. No button names the table. |
| `HtmlRender.OneCommitKept` | src/gigui/output/repo_html.py:317-333 | In the example only "b.py" has static tables, so only it is kept. |
| `HtmlRender.ButtonIdsDiffer` | src/gigui/output/repo_html.py:247 | A table id names only the button with the same file and commit numbers. |
| `HtmlRender.BlameTab` | src/gigui/output/repo_html.py:344-374 | A tab's nav button targets its pane and shows its label. With corrected numbering its static tables are numbered like its radio buttons. |
| `HtmlRender.BlameTabRadios` | src/gigui/output/repo_html.py:359-367 | In a tab with static history, every table has the radio button that selects it. |
| `HtmlRender.StaticIdsHaveRadios` | src/gigui/output/repo_html.py:241-248 | Every static table of a file has a radio button with its id when both use the same file number. |
| `HtmlRender.AddBlameTables` | src/gigui/output/repo_html.py:306-374 | Succeeds iff the truncated relative names fit in 160 characters, which they always do when 160 leaves room for "..." and the count's digits. Then there is one tab per kept file, in order, labelled with its truncated relative name. |
| `HtmlRender.KeepFiles` | src/gigui/output/repo_html.py:316-333 | The first loop gives exactly the kept files. |
| `HtmlRender.MakeTabs` | src/gigui/output/repo_html.py:343-374 | The second loop gives one tab per kept file, numbered in order, with its truncated name. |
| `HtmlRender.JsFiles` | src/gigui/output/repo_html.py:510-526 | "globals.js" and "update-table-on-button-click.js" are always loaded. "browser-id.js" and "shutdown.js" are loaded iff there is a browser id, and then "browser-id.js" comes first. |
| `HtmlRender.BuildScripts` | src/gigui/output/repo_html.py:527-547 | The loop builds the script tags of the files, in order. |
| `HtmlRender.ReplaceNone` | src/gigui/output/repo_html.py:504-507 | `replace` of a pattern that does not occur leaves the text alone. |
| `HtmlRender.ReplaceOnce` | src/gigui/output/repo_html.py:504-507 | A pattern that occurs once is replaced there and nowhere else. |
| `HtmlRender.ReplaceAtStart` | src/gigui/output/repo_html.py:504-507 | A pattern at the start, and nowhere after it, is replaced there. |
| `HtmlRender.OnlyAtTail` | src/gigui/output/repo_html.py:504-507 | Dropping a first character before the only occurrence keeps it the only one. |
| `HtmlRender.ReplaceTwo` | src/gigui/output/repo_html.py:504-549 | Two patterns that each occur once, the first before the second, are each replaced in place. |
| `HtmlRender.DocumentLayout` | src/gigui/output/repo_html.py:499-550 | Take a template with one "</head>" before one "</body>", and a style sheet without "</body>". The style sheet then ends the head, the scripts end the body, and the rest of the template is kept. |
| `HtmlText.ConcatSingles` | src/gigui/output/repo_html.py:279-286 | Blocks of one character each join to the characters themselves. |
| `HtmlText.Swap` | src/gigui/output/repo_html.py:279-286 | Swapping blocks keeps their number. |
| `HtmlText.ReplaceBlocks` | src/gigui/output/repo_html.py:279-286 | `str.replace` acts block by block on a text whose blocks keep occurrences of the pattern apart. |
| `HtmlText.ReplaceBlock` | src/gigui/output/repo_html.py:279-286 | One such block in front of the rest of a text is replaced on its own. |
| `HtmlText.SeparateParts` | src/gigui/output/repo_html.py:279-286 | A separate block that is not the pattern starts no occurrence and holds no later start of one. |
| `HtmlText.ReplaceSkipFirst` | src/gigui/output/repo_html.py:279-286 | A text that does not start with the pattern keeps its first character under `replace`. |
| `HtmlText.ReplaceChar` | src/gigui/output/repo_html.py:282 | Replacing a one-character pattern substitutes each character on its own. |
| `HtmlText.ReplaceCharBlocks` | src/gigui/output/repo_html.py:279-286 | A one-character substitution applied to a text built of blocks acts on each block. |
| `HtmlText.ReplaceAbsentChar` | src/gigui/output/repo_html.py:283-285 | A text without the pattern's character is left alone. |
| `HtmlText.ReplaceSingle` | src/gigui/output/repo_html.py:282-285 | A one-character text is replaced iff it is the pattern. |
| `HtmlText.ChainRest` | src/gigui/output/repo_html.py:283-285 | The later replacements of the chain ("<", ">", '"') leave an entity made by an earlier one alone. |
| `HtmlText.EscapeCodeClean` | src/gigui/output/repo_html.py:279-289 | A code cell holds no space, "<", ">" or '"'. They all became entities, and an empty line became "&nbsp;". |
| `HtmlText.DecodeBlocks` | src/gigui/output/repo_html.py:486-490 | A browser shows a text of readable blocks (entities, or single characters other than "&") one character per block. |
| `HtmlText.SerializeRoundTrip` | src/gigui/output/repo_html.py:486 | A browser shows any cell text unchanged once the document serializer has escaped it. |
| `HtmlText.Visible` | src/gigui/output/repo_html.py:279-289 | The line as it is meant to be seen has one character per character of the line, or one non-breaking space for an empty line. |
| `HtmlText.SerializePlain` | src/gigui/output/repo_html.py:486 | The serializer writes a text without "&", "<" or ">" as it is. |
| `HtmlText.SerializeEntity` | src/gigui/output/repo_html.py:486 | The serializer writes an entity with its "&" escaped as "&amp;". |
| `HtmlText.SerializeBlocks` | src/gigui/output/repo_html.py:486 | The serializer acts on the escaped characters one at a time. |
| `HtmlText.ShownCodeWithoutAmpersand` | src/gigui/output/repo_html.py:279-290 | For a line without "&", the browser shows the line as meant. The cell's entities are escaped again by the serializer, put back by the four `replace` calls of `get_html`, and read as the characters they stand for. |
| `HtmlText.ShownEmptyCode` | src/gigui/output/repo_html.py:287-289 | An empty line shows one non-breaking space. |
| `HtmlText.ShownCodeAmpersandExample` | src/gigui/output/repo_html.py:279-290 | A line that holds the text "&lt;" is shown as "<". Its "&" was not escaped, so the un-escaping turns the serializer's "&amp;lt;" back into an entity. |
| `HtmlText.VisibleUnchanged` | src/gigui/output/repo_html.py:279-289 | A non-empty line without spaces is meant to be seen as it is. |
| `HtmlText.CodeText` | src/gigui/output/repo_html.py:279-289 | A cell text that shows every code line as meant, "&" included, once serialized and decoded. |
| `HtmlServer.RouteOf` | src/gigui/output/repo_html_server.py:125-151 | The branches are tried in order. "/" is the page. Any other path starting with "/shutdown" is a shutdown. Any other starting with "/load-table/" loads the table named by its last segment, which holds no "/". "/favicon.ico" is the favicon. |
| `HtmlServer.TableIdHasNoSlash` | src/gigui/output/repo_html_server.py:138 | A table id holds no "/", so `split("/")[-1]` gives it back whole. |
| `HtmlServer.LoadTableRoute` | src/gigui/output/repo_html_server.py:137-138 | The path the browser uses to ask for a table is routed to that table's id. |
| `HtmlServer.ShutdownRoute` | src/gigui/output/repo_html_server.py:129 | "/shutdown" is routed as a shutdown, and so is any path with more after "/shutdown". |
| `HtmlServer.FstrCommitTable` | src/gigui/output/repo_html_server.py:178-188 | A file number past the end raises `IndexError`, and an unknown commit number raises `KeyError`. Otherwise the result is the blame table of that file at that commit, with the id the browser asked for. |
| `HtmlServer.HandleLoadTable` | src/gigui/output/repo_html_server.py:158-174 | An id that does not match, or dynamic history switched off, gives the empty answer. Otherwise the two numbers give that file's table at that commit. |
| `HtmlServer.LoadTableById` | src/gigui/output/repo_html_server.py:158-188 | A table asked for by the id the report gave it is the table of the numbers the id was built from. |
| `HtmlServer.Serve` | src/gigui/output/repo_html_server.py:116-153 | A shutdown is accepted iff it carries the browser id. The page is answered with 200 and the document. A table load or shutdown with another id gets 403. The favicon and unknown paths get 404. Only a table load with the browser id under dynamic history can raise. |
| `HtmlServer.OwnShutdownAccepted` | src/gigui/output/repo_html_server.py:129-133 | The report's own shutdown request, `/shutdown?id=<browser id>` (repo_html_server.py:192), is accepted. One without the id is not. |
| `HtmlServer.LastTwelve` | src/gigui/output/repo_html_server.py:62 | `[-12:]` gives the last twelve characters, or all of a shorter text. |
| `HtmlServer.RepoServer.constructor` | src/gigui/output/repo_html_server.py:39-56 | The browser id and the document start empty, and no shutdown is requested. |
| `HtmlServer.RepoServer.Start` | src/gigui/output/repo_html_server.py:58-65 | The browser id is the repository name, "-" and the last twelve characters of the uuid. The document is built for that id, and the shutdown state is unchanged. |
| `HtmlServer.RepoServer.ServerApp` | src/gigui/output/repo_html_server.py:116-153 | Answers as `Serve` does. A shutdown with the browser id sets the shutdown event, and nothing else changes. |
| `HtmlServer.RepoServer.HandleLoadTableAt` | src/gigui/output/repo_html_server.py:158-174 | Answers as `HandleLoadTable` does on this server's files and commits. |
| `HtmlServer.RepoServer.GenerateFstrCommitTable` | src/gigui/output/repo_html_server.py:178-188 | Answers as `FstrCommitTable` does on this server's files and commits. |
| `Utils.RelativeFstr` | src/gigui/utils.py:160-171 | Without a subfolder the name is kept. A name inside the subfolder loses the subfolder and one "/" after it. A name outside it gets a leading "/". |
| `Utils.RelativeNames` | src/gigui/utils.py:160-171 | One relative name per file, in order. |
| `Utils.RelativeInside` | src/gigui/utils.py:160-167 | A file inside the subfolder comes out without the subfolder and without the "/" that follows it. |
| `Utils.RelativeTrailingSlash` | src/gigui/utils.py:160-167 | A subfolder given with its trailing "/" gives the same relative names. |
| `Utils.LastSegment` | src/gigui/utils.py:102 | The characters after the last "/", which hold no "/". |
| `Utils.PathName` | src/gigui/utils.py:102 | `Path(p).name` holds no "/" and is never ".". |
| `Utils.PathNameOfName` | src/gigui/utils.py:102 | A name without "/" is its own `Path(...).name`, also under any directory. |
| `Utils.LastSegmentOf` | src/gigui/utils.py:102 | After a "/", or from the start, a name without "/" is the last segment. |
| `Utils.OutfileName` | src/gigui/utils.py:101-109 | The base name of `outfile_base`, with the repository name and "-" in front for "prefix", behind it for "postfix", and alone otherwise. |
| `Utils.OutfileNameIgnoresDirectory` | src/gigui/utils.py:101-109 | Only the last component of the base matters, so a base given with directories names the same file. |
| `Utils.GetDigit` | src/gigui/utils.py:119-129 | Accepts exactly the integers from 0 to 9 and returns their value. Anything else raises `ArgumentTypeError`. |
| `Utils.GetPosNumber` | src/gigui/utils.py:132-142 | Accepts exactly the integers of at least 0 and returns their value. Anything else raises `ArgumentTypeError`. |
| `Utils.PosNumberOrEmptyAgrees` | src/gigui/utils.py:132-157 | `get_pos_number_or_empty` agrees with `get_pos_number` on every argument but "", which only it accepts (as 0). |
| `Utils.NumberParsersRoundTrip` | src/gigui/utils.py:119-142 | Every written-out number is read back by `get_pos_number`, and by `get_digit` exactly when it is below 10. |
| `Utils.NegativeRefused` | src/gigui/utils.py:119-142 | A negative number is refused by both parsers. |
| `Utils.ParseNegative` | src/gigui/utils.py:121 | `int` reads a "-" before digits as the negated value. |
| `Utils.NonHex` | src/gigui/utils.py:203-206 | The characters kept are non-hex characters of the string, and none are kept iff every character is hex. |
| `Utils.NonHexEmptyIff` | src/gigui/utils.py:203-206 | `non_hex_chars_in_list` is empty iff every string is all hex. |
| `Utils.NonHexConcat` | src/gigui/utils.py:203-206 | The characters come in the order of the list, so the check distributes over concatenation. |
| `CliArguments.SplitAppend` | src/gigui/cli_arguments.py:292-297 | Succeeds iff the current value is false or a list. It then gives a list: the current items (none for a false value) followed by the new ones. Any other true value has no `extend`. |
| `CliArguments.OccurrencesConcatenate` | src/gigui/cli_arguments.py:282-297 | Starting from a false default or a list, an option given several times holds every item of every occurrence, in the order given. |
| `CliArguments.Namespace.constructor` | src/gigui/cli_arguments.py:282-283 | An `argparse` namespace holds the given parsed values. |
| `CliArguments.SplitAppendArgs.constructor` | src/gigui/cli_arguments.py:282 | The action records its destination. |
| `CliArguments.SplitAppendArgs.Call` | src/gigui/cli_arguments.py:283-297 | A namespace without the destination raises `AttributeError` and is left as it was. Otherwise only the destination changes, to what `SplitAppend` gives. |
| `CliArguments.MonthText` | src/gigui/cli_arguments.py:306 | A month that "%m" reads is from 1 to 12. |
| `CliArguments.DayMatch` | src/gigui/cli_arguments.py:306 | The first alternative of "%d" that matches takes 1 or 2 characters and gives a day from 1 to 31. |
| `CliArguments.ParseDate` | src/gigui/cli_arguments.py:306 | A date that "%Y-%m-%d" reads has a year below 10000, a month from 1 to 12 and a day from 1 to 31. |
| `CliArguments.FourDigits` | src/gigui/cli_arguments.py:306 | The value of four digits, place by place. |
| `CliArguments.DigitsBelow` | src/gigui/cli_arguments.py:306 | Four digits are below 10000. |
| `CliArguments.DaysInMonth` | src/gigui/cli_arguments.py:306 | A month of the Gregorian calendar has 28 to 31 days. |
| `CliArguments.Pad2` | src/gigui/cli_arguments.py:306-308 | "%m" and "%d" write two characters. |
| `CliArguments.Pad4` | src/gigui/cli_arguments.py:306-308 | "%Y" writes four characters. |
| `CliArguments.FormatDate` | src/gigui/cli_arguments.py:306-308 | `strftime("%Y-%m-%d")` writes ten characters. |
| `CliArguments.ValidDatetime` | src/gigui/cli_arguments.py:300-313 | "" is kept. Every other accepted text comes back as a real calendar day written in full as `YYYY-MM-DD`. Every refusal is `ArgumentTypeError`. |
| `CliArguments.Pad2Digits` | src/gigui/cli_arguments.py:306-308 | Two written digits read back as the number. |
| `CliArguments.Pad4Digits` | src/gigui/cli_arguments.py:306-308 | Four written digits read back as the number. |
| `CliArguments.FormatIsIso` | src/gigui/cli_arguments.py:306-308 | A real day of the calendar is written as a date in full. |
| `CliArguments.MonthOfTwo` | src/gigui/cli_arguments.py:306 | A month written with two digits is read by "%m". |
| `CliArguments.DayOfTwo` | src/gigui/cli_arguments.py:306 | A day written with two digits is read by "%d" as a whole. |
| `CliArguments.IsoDateParsed` | src/gigui/cli_arguments.py:306 | A date written in full is read as its numbers. |
| `CliArguments.IsoDateWritten` | src/gigui/cli_arguments.py:306-308 | A date written in full is written back the same. |
| `CliArguments.IsoDateAccepted` | src/gigui/cli_arguments.py:300-313 | A date written in full is accepted as it is. |
| `CliArguments.PadDigitsUnique` | src/gigui/cli_arguments.py:306-308 | Two four-digit strings with the same value are equal. |
| `CliArguments.ValidDatetimeIdempotent` | src/gigui/cli_arguments.py:300-313 | Checking a checked date again changes nothing. |
| `CliArguments.Year2024` | src/gigui/cli_arguments.py:306 | "2024" reads as 2024. |
| `CliArguments.ShortDateParsed` | src/gigui/cli_arguments.py:306 | "2024-2-9" is read as 2024, 2, 9. |
| `CliArguments.ShortDateFormatted` | src/gigui/cli_arguments.py:306-308 | 2024, 2, 9 is written "2024-02-09". |
| `CliArguments.ShortDateWrittenInFull` | src/gigui/cli_arguments.py:300-313 | A short month and day come back written in full: "2024-2-9" gives "2024-02-09". |
| `CliArguments.DayOverRefused` | src/gigui/cli_arguments.py:300-313 | "2024-01-32" is refused: "%d" takes the "3" and leaves the "2" over. |
| `CliArguments.EnsureTrailingSlash` | src/gigui/cli_arguments.py:316-319 | The result is empty iff the subfolder is. A non-empty result ends in "/", which is added only when missing. |
| `CliArguments.EnsureTrailingSlashIdempotent` | src/gigui/cli_arguments.py:316-319 | Adding the slash twice adds it once. |
| `ArgsSettings.Defaults` | src/gigui/args_settings.py:39-71 | A fresh record has exactly the given fields. |
| `ArgsSettings.PostInit` | src/gigui/args_settings.py:73-79 | Passes iff `Args` and `KeysArgs` have the same field names. Otherwise it raises `AssertionError`. |
| `ArgsSettings.ArgsMatchKeys` | src/gigui/args_settings.py:73-79 | Constructing an `Args` passes its own field check. |
| `ArgsSettings.ValidatedFormat` | src/gigui/args_settings.py:97-99 | After `validate_format` the format list is non-empty, and if it holds "auto" it is exactly ["auto"]. A non-empty list without "auto", or ["auto"] itself, is kept. |
| `ArgsSettings.ValidateFormatIdempotent` | src/gigui/args_settings.py:97-99 | Validating twice is validating once. |
| `ArgsSettings.CopyValuesKeys` | src/gigui/args_settings.py:158-163 | Copying schema properties that are already fields adds no field. |
| `ArgsSettings.FixOf` | src/gigui/args_settings.py:165-170 | The fix is "prefix" iff that flag is set. Otherwise it is "postfix" iff that flag is set, then "nofix" likewise. With no flag set it is none, and the default is kept. A flag that is looked at and missing raises `KeyError`. |
| `ArgsSettings.FormatsOf` | src/gigui/args_settings.py:172-176 | Succeeds iff every available format has a flag. Otherwise it raises `KeyError`. |
| `ArgsSettings.FromValues` | src/gigui/args_settings.py:153-178 | Succeeds iff the fix and the formats can be read. Every failure is `KeyError`. |
| `ArgsSettings.SettingsHoldSchema` | src/gigui/args_settings.py:144-163 | Every schema property is a field of `Settings`. |
| `ArgsSettings.FixAndFormatAreFields` | src/gigui/args_settings.py:44-46 | "fix" and "format" are fields of `Settings`. |
| `ArgsSettings.SchemaFront` | src/gigui/args_settings.py:144-163 | The first eleven schema properties are fields of `Settings`. |
| `ArgsSettings.SchemaMiddle` | src/gigui/args_settings.py:144-163 | The next eleven schema properties are fields of `Settings`. |
| `ArgsSettings.SchemaBack` | src/gigui/args_settings.py:144-163 | The remaining schema properties are fields of `Settings`. |
| `ArgsSettings.FromValuesFields` | src/gigui/args_settings.py:153-178 | On a fresh `Settings` the result has the same fields and no others. Its fix is the one the flags choose, or the one it had. Its format list is the available formats whose flag is set. |
| `ArgsSettings.FormatsOfFilter` | src/gigui/args_settings.py:172-176 | The formats kept are the available ones whose flag is set, in their order. |
| `ArgsSettings.FromSettingsDict` | src/gigui/args_settings.py:141-151 | Succeeds iff the dictionary has every schema property. Otherwise it raises `KeyError`. |
| `ArgsSettings.FromSettingsDictKeys` | src/gigui/args_settings.py:141-151 | The properties set are those of the record and of the schema. |
| `ArgsSettings.FromSettingsDictValues` | src/gigui/args_settings.py:146-150 | Every schema property holds the dictionary's value, except that extensions equal to the default list are stored as "". |
| `ArgsSettings.FromSettingsDictKept` | src/gigui/args_settings.py:141-151 | An attribute the schema does not name keeps its value. |
| `ArgsSettings.Args.constructor` | src/gigui/args_settings.py:39-79 | `Args()` has every field at its default. |
| `ArgsSettings.Settings.constructor` | src/gigui/args_settings.py:83-88 | `Settings()` has every field at its default. |
| `ArgsSettings.Settings.ValidateFormat` | src/gigui/args_settings.py:97-99 | Only the format changes, to the validated list. |
| `ArgsSettings.Settings.FromValuesDict` | src/gigui/args_settings.py:153-178 | Raises `KeyError` iff the fix or format flags cannot be read. Otherwise it gives a new `Settings` holding what `FromValues` describes. |
| `ArgsSettings.Settings.CreateFromSettingsDict` | src/gigui/args_settings.py:140-151 | Raises `KeyError` iff a schema property is missing. Otherwise it gives a new `Settings` holding what `FromSettingsDict` describes. |
| `ArgsSettings.Formats` | src/gigui/args_settings.py:172-176 | The format loop gives exactly `FormatsOf`. |
| `ArgsSettings.Update` | src/gigui/args_settings.py:221-224 | The fields stay the same. Succeeds iff every namespace key is a field. Otherwise it raises `AssertionError` at the first key that is not, after the keys before it were copied. |
| `ArgsSettings.UpdateOverlays` | src/gigui/args_settings.py:221-224 | With distinct keys that are all fields, each namespace value that is not `None` replaces its field. Every other field keeps its value. |
| `ArgsSettings.EmptyInputAsNone` | src/gigui/args_settings.py:214-215 | Succeeds iff the namespace has `input_fstrs`, keeping the keys. An empty `input_fstrs` list becomes `None`, and every other entry is kept. |
| `ArgsSettings.CLIArgs.constructor` | src/gigui/args_settings.py:182-188 | `CLIArgs()` has every field at its default. |
| `ArgsSettings.CLIArgs.UpdateWithNamespace` | src/gigui/args_settings.py:213-224 | A namespace without `input_fstrs` raises `AttributeError` and changes nothing. Otherwise the record becomes what `Update` gives. |
| `ArgsSettings.CLIArgs.CreateArgs` | src/gigui/args_settings.py:205-211 | Gives a new `Args` holding this record's value of each `Args` field. |
| `ArgsSettings.CopyFields` | src/gigui/args_settings.py:208-210 | The loop copies exactly the fields both records have. |
| `ArgsSettings.CreatedArgs` | src/gigui/args_settings.py:205-211 | The new record has the `Args` fields. Each field the `CLIArgs` record has is taken from it, and every other field keeps its default. |
| `ArgsSettings.CreateArgsCopiesAll` | src/gigui/args_settings.py:205-211 | A `CLIArgs` record has every `Args` field, so `create_args` copies them all. |
| `GiRunner.CheckOptions` | src/gigui/gi_runner.py:129-190 | The early-return chain accepts iff all of these hold. Static blame history has no format or only html. Dynamic blame history has no format. There is a repository. Several repositories do not use nofix. A view of more than `MAX_BROWSER_TABS` repositories has a format or is a dry run. Without a view there is a format or a dry run. Every excluded revision is hex. |
| `GiRunner.FileNofixCheckUnreachable` | src/gigui/gi_runner.py:152-176 | The multi-repository nofix test for file output (lines 171-176) never decides. Whenever it holds, the earlier nofix test (lines 152-157) has already refused, with or without formats. |
| `GiRunner.AcceptedRunHasAnOutlet` | src/gigui/gi_runner.py:129-190 | An accepted run writes a file, views at most `MAX_BROWSER_TABS` repositories, or is a dry run. Dynamic history then has no format, and nofix means a single repository. |
| `GiRunner.PosixAll` | src/gigui/gi_runner.py:205-209 | `to_posix_fstrs` converts every path of the list, in order. |
| `GiRunner.Normalized` | src/gigui/gi_runner.py:192-213 | After `_set_options`: dry run 1 forces `copy_move` to 0. Empty `include_files` becomes ["*"] and an empty `outfile_base` becomes the default, both then converted. Every path is converted. A missing verbosity becomes the default. Nothing else changes. |
| `GiRunner.NormalizedKeepsVerdict` | src/gigui/gi_runner.py:129-213 | `_set_options` leaves every option `_check_options` reads untouched, so the verdict is the same. |
| `GiRunner.PosixAllIdempotent` | src/gigui/gi_runner.py:205-209 | Converting a list twice with an idempotent conversion is converting it once. |
| `GiRunner.NormalizedIdempotent` | src/gigui/gi_runner.py:192-213 | With a conversion that is idempotent and keeps non-empty paths non-empty, normalising twice is normalising once. |
| `GiRunner.GIRunner.constructor` | src/gigui/gi_runner.py:129 | The runner holds the options it is given. |
| `GiRunner.GIRunner.CheckOptionsNow` | src/gigui/gi_runner.py:129-190 | `_check_options` accepts exactly the acceptable options. |
| `GiRunner.GIRunner.SetOptions` | src/gigui/gi_runner.py:192-213 | The runner's options become `Normalized` of the old ones. |
| `GuiFilters.DigitsOnly` | src/gigui/gui/psg_support.py:368 | Every character it keeps is a digit. |
| `GuiFilters.LeadingZeroValue` | src/gigui/gui/psg_support.py:368-369 | A leading zero does not change the value of a digit string. |
| `GuiFilters.StripZeros` | src/gigui/gui/psg_support.py:368 | `lstrip("0")` leaves a suffix of the text that does not start with "0". Everything it removed is "0". |
| `GuiFilters.StripZerosValue` | src/gigui/gui/psg_support.py:368-369 | Stripping leading zeros keeps the value of a digit string. |
| `GuiFilters.FilteredNFiles` | src/gigui/gui/psg_support.py:368-370 | The text written back into the field is all digits with no leading zero, and has the value of the digits typed. |
| `GuiFilters.NFilesOf` | src/gigui/gui/psg_support.py:369 | The count stored is the value of the digits typed, 0 when there are none. |
| `GuiFilters.FilterKeepsAll` | src/gigui/gui/psg_support.py:368 | Filtering a list whose every element passes keeps it whole. |
| `GuiFilters.NoLeadingZero` | src/gigui/gui/psg_support.py:368 | `str(n)` starts with "0" only for 0. |
| `GuiFilters.NFilesRoundTrip` | src/gigui/gui/psg_support.py:366-371 | Typing a count n leaves the field as `str(n)` (empty for 0) and stores n. |
| `GuiFilters.FilteredNFilesIdempotent` | src/gigui/gui/psg_support.py:368 | Filtering the field's text again changes nothing. |
| `GuiFilters.IncludeFilter` | src/gigui/gui/psg_support.py:356-363 | A character is in the result exactly when it is in the input and is an ASCII letter, a digit or one of " .,-_*". |
| `GuiFilters.IncludeFilterKeepsAllowed` | src/gigui/gui/psg_support.py:356-363 | Patterns made of allowed characters pass unchanged. |
| `GuiFilters.IncludeFilterIdempotent` | src/gigui/gui/psg_support.py:356-363 | Filtering twice is filtering once. |
| `GuiFilters.RenameFile` | src/gigui/gui/psg_support.py:239-250 | The name is the output base with "-" and the repository name after it (postfix), before it (prefix), or alone. `REPO_HINT` stands in when there is no single repository. |
| `GuiFilters.RenameFileKeepsBase` | src/gigui/gui/psg_support.py:239-250 | The output base can always be read back from the renamed file. |
| `GuiFilters.Unique` | src/gigui/gui/psg_support.py:337-341 | Holds the same elements as the input, with no repeats, and is no longer. |
| `GuiFilters.IndexOfPrefix` | src/gigui/gui/psg_support.py:337-341 | An element of a prefix has the same first position in the whole list. |
| `GuiFilters.UniqueFirstOccurrenceOrder` | src/gigui/gui/psg_support.py:337-341 | The kept elements appear in the order of their first occurrence in the input. |
| `GuiFilters.UniqueOfDistinct` | src/gigui/gui/psg_support.py:337-341 | An input with no repeats is kept as it is. |
| `GuiFilters.UniqueMatches` | src/gigui/gui/psg_support.py:337-341 | The de-duplicating loop gives exactly `Unique` of the matches. |
| `GuiFilters.DirMatchesOf` | src/gigui/gui/psg_support.py:322-341 | The matched directories have no repeats. There are none at all once one pattern matches nothing. |
| `GuiFilters.FlatMapTo` | src/gigui/gui/psg_support.py:326-335 | A directory that a pattern matches is among the joined matches. |
| `GuiFilters.DirMatchesExactly` | src/gigui/gui/psg_support.py:322-341 | When every pattern matches, the result holds exactly the matched directories. |
| `GuiFilters.DirMatches` | src/gigui/gui/psg_support.py:322-341 | Goes one pattern at a time and stops at the first that matches nothing, which gives [] and the invalid colour. Otherwise it gives `DirMatchesOf` and the valid colour. |
| `PsgSupport.OutfileStr` | src/gigui/gui/psg_support.py:233-261 | Empty exactly when there are no patterns or no matches. Otherwise it is the renamed file after the single repository's parent folder and "/", or after `PARENT_HINT` with no separator. |
| `PsgSupport.DirMatchesEmptyIff` | src/gigui/gui/psg_support.py:322-341 | With patterns given, the match list is empty exactly when some pattern matches no directory. |
| `PsgSupport.GUIState.constructor` | src/gigui/gui/psg_support.py:33-42 | No patterns, matches or repository. The fix is prefix, the output base is the default, and the file count is 0. |
| `PsgSupport.GUIState.ProcessNFiles` | src/gigui/gui/psg_support.py:366-371 | The field shows `GuiFilters.FilteredNFiles` of the typed text. The count becomes `GuiFilters.NFilesOf` of it. Nothing else changes. |
| `PsgSupport.GUIState.UpdateColPercent` | src/gigui/gui/psg_support.py:145-152 | The column is resized exactly when the percentage changes. The percentage is stored. Nothing else changes. |
| `PsgSupport.GUIState.ProcessInputPatterns` | src/gigui/gui/psg_support.py:229-308 | Without patterns there are no matches. With patterns the matches are `GuiFilters.DirMatchesOf`. The repository is recorded exactly when there is one match and it is a git repository. nofix is enabled exactly when there are no patterns or a single repository. depth is enabled exactly when no repository is recorded. The output file shown is `OutfileStr`. |
| `PsgSupport.OutfileShownIff` | src/gigui/gui/psg_support.py:233-308 | After non-empty patterns are processed, an output file is shown exactly when every pattern matched a directory. |
| `DpgBase.ViewFormatButtons.constructor` | src/gigui/gui/dpg_base.py:267-278 | The four check boxes hold the given values. |
| `DpgBase.ViewFormatButtons.Process` | src/gigui/gui/dpg_base.py:267-278 | Dynamic blame history clears auto, html and excel. Auto, html or excel clears dynamic blame history. Any other key changes nothing. After any of the four keys, dynamic blame history is never checked together with auto or a format. |
| `DpgBase.SplitSingle` | src/gigui/gui/dpg_base.py:234 | A split that gives one piece gives the whole string. |
| `DpgBase.SubfolderParts` | src/gigui/gui/dpg_base.py:234-238 | The components walked are the "/"-split pieces, without at most one first and at most one last piece. |
| `DpgBase.SubfolderOfName` | src/gigui/gui/dpg_base.py:234-238 | A name without "/" is one component. |
| `DpgBase.SubfolderOfSlashedName` | src/gigui/gui/dpg_base.py:234-238 | One leading and one trailing slash around a name are dropped. |
| `DpgBase.FixChoice` | src/gigui/gui/dpg_base.py:302-307 | Always prefix, postfix or nofix. prefix exactly when its button is set. postfix exactly when only postfix is set. |
| `DpgBase.FixChoiceRoundTrip` | src/gigui/gui/dpg_base.py:302-307 | Setting the button of a fix value and reading the buttons back gives that value. |
| `DpgBase.ViewChoice` | src/gigui/gui/dpg_base.py:309-314 | Auto exactly when its box is set. Dynamic blame history exactly when only that box is set. |
| `DpgBase.ViewChoiceRoundTrip` | src/gigui/gui/dpg_base.py:309-314 | Checking the box of a view and reading the boxes back gives that view. |
| `DpgBase.NFilesEntry` | src/gigui/gui/dpg_base.py:316 | An empty entry gives 0. A digit string gives its value. Anything that fails raises ValueError or TypeError. |
| `DpgBase.NFilesEntryOfFiltered` | src/gigui/gui/dpg_base.py:262-316 | The field `process_n_files` leaves behind reads back as the count it stands for. |
| `DpgBase.DateEntry` | src/gigui/gui/dpg_base.py:324-339 | An empty entry sets nothing. Any other entry either raises or gives a date in `%Y-%m-%d` form. |
| `DpgBase.DateEntryOfIsoDate` | src/gigui/gui/dpg_base.py:328-331 | A date already in `%Y-%m-%d` form is taken as it is. |
| `DpgBase.CopiedAttrsSpec` | src/gigui/gui/dpg_base.py:283-298 | The copy sets exactly the schema properties that are not set separately. Every other attribute keeps its value. |
| `DpgBase.ChosenFormats` | src/gigui/gui/dpg_base.py:318-322 | A format is chosen exactly when it is a file format and its box is set. |
| `DpgBase.ChosenFormatsDistinct` | src/gigui/gui/dpg_base.py:318-322 | The chosen formats repeat none when the file formats repeat none. |
| `DpgBase.DPGBase.constructor` | src/gigui/gui/dpg_base.py:35-52 | No inputs, matches or repository. The fix is prefix, the output base is the default, the subfolder is empty and valid, and multithread is taken from the settings. |
| `DpgBase.DPGBase.OutfilePath` | src/gigui/gui/dpg_base.py:133-157 | "." (the text of an empty path) when there are no inputs or no matches. Otherwise the renamed file joined by `pathlib` to the repository's parent folder or to `PARENT_HINT`: the folder "." gives way to the name, and an empty name leaves the folder. For a plain file name, the result's parent is that folder and its name is the renamed file. |
| `DpgBase.JoinSplits` | src/gigui/gui/dpg_base.py:152-155 | Joining a plain file name to a folder can be undone: the parent of the joined path is the folder and its name is the file name. |
| `DpgBase.DPGBase.CheckSubfolder` | src/gigui/gui/dpg_base.py:222-260 | The subfolder is valid exactly when it is empty or every prefix of its components names a tree of the head commit. Nothing else changes. |
| `DpgBase.DPGBase.SetArgs` | src/gigui/gui/dpg_base.py:280-340 | The options and the outcome are those of `SetArgsOf`. The window state is unchanged. |
| `DpgBase.DatesApplied` | src/gigui/gui/dpg_base.py:324-339 | Finishes exactly when both date entries read. Nothing but the two dates changes. When it finishes, each date entered is in `%Y-%m-%d` form and each empty one is unchanged. |
| `DpgBase.ApplyDates` | src/gigui/gui/dpg_base.py:324-339 | The date loop gives exactly `DatesApplied`. |
| `DpgBase.SetArgsChoices` | src/gigui/gui/dpg_base.py:280-314 | The schema properties are copied and multithread is set. Fix and view follow their priorities, whatever comes after. |
| `DpgBase.SetArgsCountAndDates` | src/gigui/gui/dpg_base.py:316-339 | Raises exactly when the file count does not read, with its error. Otherwise the count and the chosen formats are set. It finishes exactly when both dates read, with dates entered in `%Y-%m-%d` form and empty ones at their defaults. |
| `DpgBase.CopyAttrs` | src/gigui/gui/dpg_base.py:282-298 | The schema loop gives exactly `CopiedAttrs`. |
| `DpgBase.Formats` | src/gigui/gui/dpg_base.py:318-322 | The format loop gives exactly `ChosenFormats`. |

## Left out

- Strs.ParseInt: reads only ASCII digits, with optional surrounding ASCII whitespace and one sign. Python's `int()` also accepts "_" between digits (as in "1_000"), Unicode digits and Unicode whitespace. The model raises ValueError for these, so `Utils.GetDigit`, `Utils.GetPosNumber` and `Utils.GetPosNumberOrEmpty` reject such text.
- Strs.IsDigit: ASCII digits only. Python's `str.isdigit` also accepts other Unicode digits. This affects the GUI file-count filter and the hex check.
- Strs.IsSpace: ASCII whitespace only. Python's `str.isspace` and `str.split()` also treat other Unicode spaces as whitespace.
- GuiFilters.IncludeFilter: keeps ASCII letters and digits only. Python's `str.isalnum` keeps every Unicode letter and digit.
- CommitWalk.FirstPass: leaves out `persons_db.add_person`. The persons database is not part of this model. Where the source asks it for an author, the model takes the answer as a function parameter (`authorOf`, `get_author`, `filter_matched`).
- StatTables: the file names a `FileStat` collects (`add_name`) are left out. A file stat holds only its counts and SHAs.
- CommitGroups.CommitReader.SetFstr2Commits: the git part, `_get_commit_data_for`, is the parameter `dataFor`. It gives the commit records of each file.
- Threads, processes and queues are left out: the `as_completed` paths of the readers, `run_repos` and `process_repos_*` of gi_runner.py, and the worker and queue handling of the server. Only the single-threaded paths are modelled. Their results are the same, because each file is handled on its own.
- Logging and progress output are left out. They change no state the model keeps.
- Git access through pygit2 and GitPython is left out. Commits, trees, blame hunks and `git log` output come in as values or parameters.
- BeautifulSoup, xlsxwriter and the GUI widget toolkits are left out. What the source builds with them is recorded as values: the rows, cells, classes and texts of a table; the cells, formats and rules of a worksheet; the enabled and checked states of widgets.
- Floating point is left out: `divide_to_percentage`, `percentage_to_out`, `StatTables.calculate_percentages`, and the stability and age values. A table row ends in the stat it shows, not in the percentages computed from it.
- PsgSupport.GUIState.UpdateColPercent: reports whether the column is resized. The height computation of `update_column_height` is window geometry and is left out.
- Excel: the Authors pie chart (excel.py:244-274), `set_excel_column_formats` (excel.py:151-157) and `set_zoom` (excel.py:68, 137) only style the workbook and are left out. Column widths, column formats and the zoom level are not recorded.
- Excel: excel.py:10 imports its row classes from `gigui.output.shared`, which is not part of this model. The model takes them to be the classes of stat_rows.py, and the files-authors finding for excel.py:480-487 rests on that.
- HtmlRender.IncludedAuthorColor: takes the included authors as a parameter. html.py:154 gets them from `row_table.get_authors_included()`, which `FilesAuthorsTableRows` does not define in any file of the source, so as written `FilesAuthorsTableSoup.get_table` would stop with an `AttributeError` first.
- DpgBase.DPGBase.SetArgs: ends before the final `args.normalize()`. `Args.normalize` is not part of this model.
- DpgBase.DPGBase.CheckSubfolder: the tree of the head commit is the parameter `entries`. It maps each path, as components, to whether it names a tree. This follows the evident intent of the test `tree_or_blob.type == "tree"` (dpg_base.py:247). As written, that test compares pygit2's integer type code with a string and never holds, so every non-empty subfolder would be reported missing.
- DpgBase.PathJoin: does not collapse repeated "/", "." components or a trailing "/" inside the file name, which `pathlib` normalises away. `outfile_base` is free text, so such names can occur.
- Glob matching, the directory test, `is_git_repo`, `to_posix_fstr` and `pathlib`'s parent and stem are parameters of `GuiFilters`, `PsgSupport`, `DpgBase` and `GiRunner`.
- CliArguments: `str_split_comma` is not part of this model. The split is a parameter.
- ArgsSettings: the settings file is left out. This covers `SettingsFile` loading, saving and location handling, `create_settings`, `save`, `to_cli_args` and the JSON schema validation.
- `define_arguments` (argparse), `load_css`, template reading, `get_version` and `out_profile` are file or library I/O and are left out.
- The html report's JavaScript (tabs, radio buttons, table loading and shutdown) is not part of this model. Only the ids, classes and endpoints it relies on are modelled.
- html.py's `get_repo_html` and its own 40-character tab names are not modelled separately. The rules html.py shares with repo_html.py are modelled once.
- HtmlRender.AddBlameTables: uses the corrected `Truncation.String2Truncated`. The source's `string2truncated` raises AssertionError for ten or more long names that share their tail (see Findings); the model returns the numbered names instead.
- Excel.BlameSheetNames: uses the corrected `Truncation.String2Truncated`, for the same reason as `HtmlRender.AddBlameTables`.
- CliArguments.ValidDatetime: `%Y` is modelled as exactly four digits, read and written with leading zeros.
- The servers of output/server.py, server_main.py, werkzeug and flask, the drivers repos.py, gitinspector.py and repo_runner.py, and the release scripts are not part of this model.

## Findings

| source | as written | input that shows it | evidently intended | confidence | as-written member | corrected member |
|---|---|---|---|---|---|---|
| src/gigui/output/outbase.py:284-285 | Asserts that every truncated name is exactly `max_length` long. | Ten distinct names longer than `max_length` whose last `max_length - 2` characters agree. All ten are numbered with a two-digit budget, so the labels "-1" to "-9" come out one character short. | Every truncated name is at most `max_length` long, as line 296-297 checks, and colliding names are numbered. | not executed | `Truncation.SharedTailsBreakExactLength` | `Truncation.String2Truncated` |
| src/gigui/output/shared_blame.py:111-161 | `MultiRootBlameRows` keeps an empty `_blame_authors`, so `author2nr` stays empty and `author2nr[author]` raises KeyError. | One hunk whose first line is code that is neither a comment nor blank, by an author who is not excluded. | Every blame author has a number, so no kept line raises. | not executed | `BlameRows.EmptyAuthorListRaises` | `BlameRows.KnownAuthorsNeverRaise` |
| src/gigui/repo_blame.py:239-244 | The blame history looks the file up in an older commit's tree under its current name, `root_fstr`. | A commit whose tree has no blob under the root file name, as after a rename: the lookup at that commit raises FileNotFoundError. | The file is read under the name it had at that commit. | not executed | `BlameHistory.HistoryAsWrittenMissesRenamed` | `BlameHistory.HistoryReadsBlamedFile` |
| src/gigui/blame_reader.py:237-246 | `run` stores into `fstr2sha2blames[fstr]` before creating that dict. | Any non-empty list of files: the first file raises (KeyError, or IndexError for a file without SHAs), so no history is read. | The dict of a file is created before it is filled. | not executed | `BlameHistory.ReaderAsWrittenRaises` | `BlameHistory.ReaderFileMeaning` |
| src/gigui/repo_reader.py:288-303 | `reduce_commits` indexes `commit_groups1[i]` with `i` counting down past the start of the shorter list, which raises IndexError. | Lists a = [x, p], b = [p, q, r] and c = [s, q, r]: c cuts b to [p]; then b, as `commit_groups1`, removes the p of a, and the next comparison reads `commit_groups1[-2]` of [p], which raises IndexError. | Every list ends up a prefix of its original, with the shared tails removed. | not executed | `CommitGroups.ReduceAsWrittenRaises` | `CommitGroups.ReduceMeaning` |
| src/gigui/repo_base.py:159-177 | `previous_commit` is updated only for commits after `--until`, so `--since` never sets the oldest commit. | No `--until`, and a `--since` after the initial commit: the initial commit is used as the oldest. | The oldest commit is the one just before the first in-window commit older than `--since`. | not executed | `CommitWalk.AsWrittenIgnoresSince` | `CommitWalk.ScanMeaning` |
| src/gigui/repo_base.py:164-177 | The same loop can pick an oldest commit newer than the newest. | Commits at times 10, 8 and 5, `--until` 9 and `--since` 6: commit 10 becomes the oldest, while the newest is 8. | When some commit lies in the date range, the oldest commit is never newer than the newest. | not executed | `CommitWalk.OldestNewerThanNewest` | `CommitWalk.OldestNotNewer` |
| src/gigui/stats_reader.py:205-210 | A record excluded by SHA consumes only its two SHA lines. | The record "aaaa", "aa", "100", "msg", "Alice", "a@x" with "aaaa" excluded: the author line is read as a timestamp, and `int("Alice")` raises ValueError. | The whole excluded record is skipped. | not executed | `LogParser.FirstPassExcludedRaises` | `LogParser.FirstPassRoundTrip` |
| src/gigui/stats_reader.py:262-265 | An excluded SHA skips only the record's header line. | The lines "", "abc 100", "Alice", "1 0 a.py" with "abc" excluded: "Alice" is unpacked as "sha timestamp" and raises ValueError. | The whole excluded record is skipped. | not executed | `LogParser.NumstatExcludedRaises` | `LogParser.NumstatRoundTrip` |
| src/gigui/stats_reader.py:317-321 | Merges a record into the last group only when `len(commits) > 1`. | Two well-formed records of one author for one file become two groups. | Merge whenever there is a previous group, as repo_reader.py does. | not executed | `LogParser.NumstatFirstTwoApart` | `CommitGroups.StatsFirstTwoApart` |
| src/gigui/output/repo_blame_rows.py:58 | Each row reads `b.sha[:7]`, but the `Blame` of repo_blame.py:23-32 has only `sha_short`. | One hunk by a numbered author with one code line, nothing excluded: the first row raises AttributeError, so `get_fstr_blame_rows`, `get_fr_sha_blame_rows` and `generate_fr_sha_blame_rows` never return rows. | The row holds the blame's short SHA. | not executed | `BlameRows.AsWrittenRaisesOnOneLine` | `BlameRows.RepoGetBlameRows` |
| src/gigui/output/repo_html.py:316-374 | With static history, the table loop counts every file, but the radio loop counts only the files that kept tables. As written, a file with a kept blame line first raises AttributeError at repo_blame_rows.py:58 (previous row), so this only shows once rows read `sha_short`. | "a.py" without blame rows, then "b.py": the table of "b.py" is file 1, but its radio buttons name file 0. | Both loops count the same files, so every table has the radio button that selects it. | not executed | `HtmlRender.StaticIdsMissRadios` | `HtmlRender.BlameTabRadios` |
| src/gigui/output/excel.py:480-487 | `add_files_authors_sheet` asks the authors table for its rows. | One author and one file: the sheet's only row shows the author's name under "File". | The files-authors sheet shows the files-authors rows. | not executed | `Excel.FilesAuthorsSheetShowsAuthors` | `Excel.FilesAuthorsSheetShowsFiles` |
| src/gigui/output/outbase.py:40 | With scaling and deletions both on, the authors header titles the deletions column "". | `deletions` and `scaled_percentages` both set. | The column is titled "Deletions", as stat_rows.py titles it. | not executed | `Headers.OutbaseBlankDeletionsTitle` | `Headers.StatColumns` |
| src/gigui/repo_reader.py:240 | `blob.type == "blob"` compares pygit2's integer type code with a string, so no file gets a line count and "*" stays 0. The same test appears at repo_base.py:273. | A HEAD tree holding a listed file "a.py": it gets no entry. | Test `blob.type_str == "blob"`, as `_traverse_tree` and `_get_worktree_files` do. | not executed | `CommitTree.LineCountsAsWritten` | `CommitTree.LineCounts` |
