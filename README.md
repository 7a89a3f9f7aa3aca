# test-mentor: the per-test log check, in Dafny

Both revisions of the repository check one test folder. The folder holds a
solver run (`ft_run`) and a reference run (`ft_reference`), and each revision
writes a report about it. Both revisions apply four short-circuiting stages:

1. Both directories must exist.
2. The two sides must hold the same `.stdout` logs.
3. Every run log is scanned for an `error` token and for a line starting with
   `Solver finished at`.
4. The brick total and the peak working-set memory of every run log are
   compared with the reference log, by relative difference.

This project models the two revisions side by side, each as written:

- `solution.py` is module `SolutionV1`, in `solution_v1.dfy`. It is
  imperative. `first_test`, `second_test`, `process_lines`, the scan and the
  thresholds of `third_and_fourth_tests`, and `generate_report` are methods.
  `second_test`, `process_lines`, the scan of a log and the pass over the
  files of `third_and_fourth_tests` have loops, as in the source. Each method
  is proved against a specification function of its inputs.
- `solution_v2.py` is module `SolutionV2`, in `solution_v2.dfy`.
  - `FileData` is a class whose fields `ProcessFile` updates line by line.
  - `_get_quoted_sequence` is a pure function.
  - `check_test` is a method that builds the identity sets in loops and writes
    the report step by step.

Shared pieces live in their own modules:

- `Text`: Python string operations (`startswith`, `in`, `lower`,
  `split()`, `str(n)`).
- `Ordering`: Python's string order and `sorted` on a set of strings.
- `Patterns`: the two log-line regular expressions and `int`/`float` parsing.
- `Scan`: the anomaly token and the solver line.
- `Report`: report entries, and the names, headers and criteria both
  revisions share.
- `Revisions`: lemmas that relate the two revisions on the same input.

The file system is given as a value. In solution.py it is a `TestDir`: the
names in the test folder, the entries of every folder on each side, and the
lines of each log. In solution_v2.py it is a `TestTree`: the directories of
the test folder, the remaining steps of `os.walk`, and the lines of each log.

A report is a sequence of `Entry` values. A text line is kept as its string.
A breach line keeps the numbers it prints: the file, the run value and the
reference value.

The two revisions differ in these ways, and the model keeps each one:

| | solution.py | solution_v2.py |
|---|---|---|
| tolerance test | inclusive, `>=` (`Breaches`) | strict, `>` (`Exceeds`) |
| order of the directory lines | ft_reference, then ft_run | ft_run, then ft_reference |
| order of the findings of one file | anomalies, peak, total, solver | anomalies, solver, peak, total |
| list quoting | `'x' ` per name | `'x', 'y'` |
| total when no line gives one | `None` | 0 |
| verdict | a `FAIL`/`OK` line heads the report | the report is empty |

## Model

| member | source | states |
|---|---|---|
| SolutionV1.FirstTest | solution.py:13-30 | reports failure exactly when ft_reference or ft_run is absent, and writes exactly `DirectoryReport` |
| SolutionV1.DirectoryReportSpec | solution.py:19-30 | nothing is written when both directories exist; otherwise FAIL is written once, at the head; one "directory missing" line per absent directory, ft_reference before ft_run; no other verdict line |
| SolutionV1.LastStarting | solution.py:90-95 | the index found is that of a line starting with the prefix, and no later line starts with it; None only when no line does |
| SolutionV1.LastTotal | solution.py:86-95 | None exactly when no line starts with `MESH::Bricks: Total=`; otherwise the value parsed from the last such line |
| SolutionV1.MaxPeak | solution.py:89-104 | the peak kept is never negative |
| SolutionV1.MaxPeakSpec | solution.py:89-104 | the peak is at least 0 and at least every parsed peak, and it equals one of them unless it is 0 |
| SolutionV1.ProcessLines | solution.py:81-105 | the backward pass returns `LastTotal` as the total and `MaxPeak` as the peak |
| SolutionV1.CollectAbsentMissing | solution.py:49-50 | the names gathered are `'m/m.stdout'` for every folder ft_run lacks, each once, and the buffer quotes them in the order met |
| SolutionV1.CollectAbsentExtra | solution.py:52-55 | the names gathered are the `.stdout` files of every folder only ft_run has, each once when folder names hold no '/' |
| SolutionV1.CollectMissing | solution.py:62-63 | the names gathered are every entry of one shared folder that ft_run lacks, unfiltered, and none is gathered twice |
| SolutionV1.CollectExtra | solution.py:53-67 | the names gathered are the `.stdout` entries among the given files of one folder, and none is gathered twice |
| SolutionV1.CollectShared | solution.py:57-67 | the names gathered are the differences inside every shared folder: all missing entries, and the extra `.stdout` files only; when folder names hold no '/', none is gathered twice |
| SolutionV1.SecondTest | solution.py:33-78 | returns the shared folders; the names gathered are exactly `Missing` and `Extra`, and when folder names hold no '/' there are as many as those sets hold, so each is written once; failure exactly when either is non-empty; the lines written are `FileSetReport` of the names in the order met |
| SolutionV1.JoinedInjective | solution.py:50-65 | a folder name without '/' and the entry after it are recovered from the joined path |
| SolutionV1.DistinctCount | solution.py:48-67 | a list gathered without repeats holds as many names as its set |
| SolutionV1.FileSetsAgreeIff | solution.py:48-67 | the stage passes exactly when ft_run has every folder of ft_reference and every entry of each shared folder, and has no `.stdout` file that ft_reference lacks |
| SolutionV1.ExtraAreStdout | solution.py:52-67 | every extra name ends in `.stdout` |
| SolutionV1.QuotedAppend | solution.py:50-67 | the quoted buffer of a concatenation is the concatenation of the quoted buffers |
| SolutionV1.FileSetReportVerdict | solution.py:69-78 | the stage writes nothing exactly when no name was gathered; otherwise FAIL heads what it writes and no other line is a verdict |
| SolutionV1.BreachesIffOutside | solution.py:151-157 | for a positive reference, `abs(run/ref - 1) >= c` holds exactly when run is at or beyond `(1+c)·ref` or `(1-c)·ref` |
| SolutionV1.PeakBoundary | solution.py:151-157 | 150 against 100 and 50 against 100 breach the peak criterion, 149 against 100 does not; 1100 against 1000 breaches the total criterion, 1090 does not |
| SolutionV1.StdoutOfInjective | solution.py:134-136 | different folders have different log names, so the sorted list holds one name per shared folder |
| SolutionV1.ScanRun | solution.py:139-145 | the anomaly lines are `AnomalyEntries` of all anomalies in file order; the solver line is written exactly when no line starts with `Solver finished at`, wherever such a line is |
| SolutionV1.CheckFile | solution.py:137-165 | the findings of one file are its anomalies, the peak breach, the total breach and the missing solver line, in that order (`FileReport`) |
| SolutionV1.CheckFiles | solution.py:134-165 | the output is the concatenation of the findings of every file, in the order given |
| SolutionV1.ThirdAndFourthTests | solution.py:118-171 | the files are the shared folders' logs in sorted order; failure exactly when some finding exists; FAIL and the findings are written, or nothing |
| SolutionV1.FileReportNoVerdict | solution.py:140-165 | no finding of a file reads like a FAIL or OK line |
| SolutionV1.ContentReportNoVerdict | solution.py:164-169 | no finding of the content stages reads like a FAIL or OK line |
| SolutionV1.GenerateReport | solution.py:174-191 | each stage runs only when the ones before it passed; the report starts with a verdict and holds no other; OK is written exactly when all stages passed and the content stages found nothing |
| SolutionV2.FileData.constructor | solution_v2.py:21-27 | a new record has the given name, no errors, no solver line, peak 0 and total 0 |
| SolutionV2.ScanLine | solution_v2.py:32-37 | with the content check on, an anomaly appends (line number, line) and a solver line sets the flag; with it off, nothing changes |
| SolutionV2.MeasureLine | solution_v2.py:39-47 | on a line whose matched values parse, a larger matched peak replaces the peak and a matched total replaces the total |
| SolutionV2.ProcessFile | solution_v2.py:29-48 | the new record holds the anomalies and the solver flag (or none and false without the content check), the largest matched peak or 0, and the last matched total or 0 |
| SolutionV2.PassSpec | solution_v2.py:32-47 | the line-by-line pass equals the summary of the whole log: anomalies, solver line, running maximum, last total |
| SolutionV2.RunningMaxSpec | solution_v2.py:26-43 | the peak is at least 0 and at least every matched value, and it is one of them unless it is 0 |
| SolutionV2.LastOrZeroNone | solution_v2.py:27-47 | with no matching total line the total stays 0 |
| SolutionV2.LastOrZeroAt | solution_v2.py:45-47 | the total is the value of the last matching line |
| Revisions.SameMetrics | solution_v2.py:39-47 | on a log both revisions read without an exception, they find the same peak, and the same total where solution.py finds one; where it finds none, solution_v2.py has 0 |
| SolutionV2.QuotedSequence | solution_v2.py:51-57 | the joined string is empty exactly when the list is |
| SolutionV2.QuotedSequenceAppend | solution_v2.py:51-57 | joining two non-empty lists is joining their quoted forms with ", ": each string is quoted once, in input order |
| SolutionV2.BeforeDot | solution_v2.py:80 | the result is a prefix without a dot, followed by a dot when it is shorter than the name |
| Revisions.IdentityOfLog | solution_v2.py:80 | for a dot-free folder name p, the identity of `p.stdout` is `p/p.stdout`, the name solution.py checks |
| SolutionV2.IdsSpec | solution_v2.py:77-84 | an identity is collected for a side exactly when some `.stdout` file in a directory on that side is known by it |
| SolutionV2.IdsSound | solution_v2.py:77-84 | every collected identity comes from a `.stdout` file of a directory on the side |
| SolutionV2.IdsComplete | solution_v2.py:77-84 | every `.stdout` file of a directory on the side gives its identity |
| SolutionV2.SidesDisjoint | solution_v2.py:81-84 | a path containing "ft_run" goes to the run side only, even when it also contains "ft_reference" |
| SolutionV2.CollectEntry | solution_v2.py:78-84 | the inner loop adds the identities of one directory's logs to its side |
| SolutionV2.CollectIdentities | solution_v2.py:75-84 | the loops build exactly the run and reference identity sets |
| SolutionV2.DirectoryLinesSpec | solution_v2.py:66-73 | nothing is written exactly when both directories exist; ft_run's line comes before ft_reference's; one line per absent directory |
| SolutionV2.CheckDirectories | solution_v2.py:66-73 | writes `MissingLines` in ft_run, ft_reference order, and reports missing exactly when it wrote something |
| SolutionV2.MismatchLinesSpec | solution_v2.py:86-98 | different sets always leave a line; the missing line quotes sorted(reference − run); the lists hold exactly the set differences |
| SolutionV2.ReportMismatch | solution_v2.py:86-98 | writes the missing line, then the extra line, each only when its sorted list is non-empty |
| SolutionV2.ExceedsIffOutside | solution_v2.py:111-119 | for a positive reference, `abs(run/ref - 1) > c` holds exactly when run is strictly beyond `(1+c)·ref` or `(1-c)·ref` |
| Revisions.BoundaryCases | solution_v2.py:111-116 | a run peak of 150 against 100 breaches in solution.py but not in solution_v2.py; 151 and 49 against 100 exceed in solution_v2.py |
| Revisions.SameAnomalyLines | solution_v2.py:104-124 | on the same measured values, the findings of a file in both revisions open with the same anomaly lines |
| Revisions.SameSolverLine | solution_v2.py:104-124 | on the same measured values, each revision reports the missing solver line exactly when the log has none |
| Revisions.RestBreaches | solution_v2.py:108-124 | after the anomaly lines, the breach entries of solution.py are those of solution_v2.py plus the ones whose relative difference equals the criterion |
| Revisions.SameValuesBreaches | solution_v2.py:104-124 | on the same measured values, solution.py writes every breach solution_v2.py writes, and one more exactly for each metric whose relative difference equals its criterion |
| SolutionV2.FileFindingsEmptyIff | solution_v2.py:106-124 | one file writes nothing exactly when its log has no anomaly, has the solver line, and both metrics are within tolerance |
| SolutionV2.WriteFindings | solution_v2.py:106-124 | writes the anomalies, the missing solver line, the peak breach and the total breach, in that order, with strict thresholds |
| SolutionV2.CompareFile | solution_v2.py:104-124 | reads the reference log without the content check, then the run log with it, and writes `FileFindings` |
| SolutionV2.CompareFiles | solution_v2.py:103-124 | writes the findings of every identity, in the order given |
| SolutionV2.SortedFindingsEmptyIff | solution_v2.py:103-124 | the per-file checks over the sorted identities write nothing exactly when every log is clean |
| SolutionV2.CheckTest | solution_v2.py:59-126 | writes the directory lines if a directory is absent, else the mismatch lines if the sets differ, else the findings of every identity in sorted order |
| SolutionV2.ReportEmptyIff | solution_v2.py:59-126 | the report is empty, so the test passes, exactly when both directories exist, both sides hold the same identities and every run log is clean |
| Scan.AnomalyIffToken | solution.py:142 | a line is an anomaly exactly when "error" stands between white space or line ends in its lowered, colon-free text |
| Scan.ErrorWithColonIsAnomaly | solution.py:142 | "Error: disk full" is an anomaly |
| Scan.PluralIsNoAnomaly | solution.py:142 | "Errors" is not an anomaly |
| Scan.AnomaliesSpec | solution_v2.py:32-35 | the pairs are exactly (k, line k) for the anomalous lines, numbered from 1, in increasing order |
| Scan.AnomaliesEmptyIff | solution_v2.py:32-35 | no pair is collected exactly when no line is an anomaly |
| Scan.SolverMarkerLast | solution.py:144-145 | the solver line is present in a log exactly when it is in all lines but the last or it opens the last line |
| Report.AnomalyEntries | solution_v2.py:106-107 | one anomaly line per pair, in the same order |
| Report.SortedConcatEmptyIff | solution_v2.py:103 | over the sorted elements of a set, nothing is written exactly when no element writes anything |
| Report.ConcatFrom | solution.py:134-165 | every line of the per-file output comes from some file |
| Ordering.SortStrings | solution_v2.py:87-89 | `sorted` of a set of strings is strictly ascending in Python's string order, holds the same strings, and is `SortedOf` |
| Ordering.SortedUnique | solution.py:134-136 | two ascending enumerations of the same strings are equal |
| Ordering.BelowTotal | solution.py:134-136 | Python's string order is total |
| Patterns.GreedyBeforeSpec | solution_v2.py:16-19 | a greedy `.*` before a mark captures text without a line break that the mark follows, with no later mark on the line; without a mark on the line there is no match |
| Patterns.AfterPrefixSpec | solution_v2.py:16-19 | a matched line starts with the prefix, the capture and the mark |
| Patterns.TotalValue | solution_v2.py:19-47 | a line yields a total only when it starts with `MESH::Bricks: Total=` |
| Patterns.PeakValue | solution_v2.py:16-41 | a line yields a peak only when it starts with the memory line's lead |
| Patterns.TotalOfRenderedLine | solution_v2.py:19-47 | the line `MESH::Bricks: Total=<n> Gas...` reads back as n |
| Patterns.PeakOfRenderedLine | solution_v2.py:16-41 | a memory line written with whole numbers reads back as its peak |
| Patterns.ParseIntOfString | solution.py:94 | `int` reads back `str(n)` as n and `-str(n)` as −n |
| Patterns.ParseRealOfString | solution.py:103-104 | `float` reads back `str(n)` as n |
| Text.ContainsSpec | solution_v2.py:81-83 | `p in s` for strings holds exactly when p occurs at some position of s |
| Text.WordsSpec | solution.py:142 | a word is in `s.split()` exactly when it occurs with white space or an end of s on both sides |
| Text.LastIndexOfSpec | solution_v2.py:16-19 | the last occurrence found is an occurrence with none after it; none found means none exists |
| Text.FirstLineSpec | solution_v2.py:16-19 | what `.` can reach is a break-free prefix, ended by a line break or the end of the text |
| Text.NatToStringRoundTrip | solution.py:143 | `str(n)` is a string of digits whose value is n |

## Left out

- File access is not modelled: `open`, `readlines`, iterating a file, `report.write`, `os.listdir` and `os.walk`. The tree and the lines are inputs, and the report is the returned sequence of entries.
- solution.py `process_file` (lines 108-115) only reads a file into `process_lines`. The model reads the reference lines from the tree instead.
- solution.py `main` and its `__main__` block (lines 194-218), and solution_v2.py `get_test_list`, `process_logs` and its `__main__` block (lines 129-156), are left out. They are directory listing, a `multiprocessing.Pool`, and printing to the console.
- The printed numbers of the breach lines are not modelled: `str(float)`, `round(..., 2)` and `:.2f`. A breach entry keeps the file, the run value and the reference value, and the model decides only whether it is written.
- SolutionV2.FileData.constructor: `total_bricks` starts as the float `0.0`. The model uses the integer 0, which gives the same relative difference.
- Patterns.ParseInt and Patterns.ParseReal: `int()` and `float()` accept only an optional sign and decimal digits (with one dot for `float`). Python also accepts surrounding white space, underscores, exponents, `inf`/`nan` and non-ASCII digits. A log value in one of those forms is not read as Python would read it. `float()` also rounds to a double, so a long digit string loses precision or becomes `inf`, where the model keeps the exact real (see the line on exact real arithmetic below).
- Text.Normalize lowers only the ASCII letters. No other character lowers to a letter of "error", and lowering creates no white space, so the anomaly test is unchanged.
- Exceptions are preconditions, not modelled outcomes:
  - a matched value that does not parse;
  - a memory line in solution.py that starts like one but does not match;
  - a reference peak or total of 0;
  - a missing total in solution.py;
  - a log that does not exist.
  The predicates `Readable` and `Checkable` (solution.py) and `MatchesParse`, `Comparable` and `Runnable` (solution_v2.py) name them.
- solution_v2.py `next(walk_results)` raises StopIteration on a test folder that does not exist. The model takes the first walk step's directories as given.
- SolutionV1.Breaches, SolutionV2.Exceeds, SolutionV1.CheckFile, SolutionV2.WriteFindings, Revisions.BoundaryCases, Revisions.SameValuesBreaches: the relative difference is exact real arithmetic here. Python computes `run/ref - 1` in doubles, after `float()` has rounded each value, so a verdict can differ when the difference lies within rounding of 0.1 or 0.5. For example, 1100 against 1000 gives 0.10000000000000009 in Python, which exceeds 0.1 in solution_v2.py; 900 against 1000 gives about −0.09999999999999998, which does not breach 0.1 in solution.py.
- SolutionV1.TestDir: `os.listdir` on an entry of `ft_reference` or `ft_run` that is a plain file raises NotADirectoryError in `second_test` (solution.py lines 53-65). The model maps every entry of a side to a set of names, so it cannot express that exception.
- Patterns.DigitDotRun: Python's `[\d.]*` also matches non-ASCII decimal digits. The model accepts only the ASCII digits, so a log value in other digits does not match here.
- SolutionV1.CollectAbsentExtra, SolutionV1.CollectShared, SolutionV1.SecondTest: the names gathered are counted only when no folder name contains '/'. With a '/' in a folder name, `p/f` can name two different (folder, file) pairs, and the model states membership only.
- The order in which Python iterates a set in `second_test` is not modelled. `SecondTest` picks elements in an arbitrary order, and its ghost outputs record the order it used. Its contracts state membership, not order.
- The report file's path (`full_path + "report.txt"`) and its encoding are not modelled.

## Findings

No defect of the source was found.
