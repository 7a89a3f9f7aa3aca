/** solution_v2.py: the second revision of the test check. A report holds only
    findings, so a test passes exactly when its report stays empty. Thresholds
    are strict, a missing total counts as 0, and the file identities come from
    a walk of the whole test folder. */
module SolutionV2 {
  import opened Text
  import opened Ordering
  import opened Patterns
  import opened Scan
  import opened Report

  // ----------------------------------------------------------- process_file

  /** If the memory pattern matches the line, `float` reads its number; if
      the total pattern matches it, `int` reads its number. */
  predicate LineParses(line: string) {
    (PeakCapture(line).Some? ==> PeakValue(line).Some?)
    && (BricksCapture(line).Some? ==> TotalValue(line).Some?)
  }

  /** Every line of the log parses. */
  predicate MatchesParse(lines: seq<string>) {
    forall i :: 0 <= i < |lines| ==> LineParses(lines[i])
  }

  /** The running maximum of the values `value` reads from the lines, from
      the first line on, starting at 0. */
  function RunningMax(lines: seq<string>, value: string -> Option<real>): real {
    if lines == [] then 0.0
    else
      var m := RunningMax(lines[..|lines| - 1], value);
      var v := value(lines[|lines| - 1]);
      if v.Some? && v.value > m then v.value else m
  }

  /** The value of the last line `value` reads one from, or 0 when it reads none. */
  function LastOrZero(lines: seq<string>, value: string -> Option<int>): int {
    if lines == [] then 0
    else
      match value(lines[|lines| - 1])
      case Some(v) => v
      case None => LastOrZero(lines[..|lines| - 1], value)
  }

  /** `memory_peak` after a pass over the lines. */
  function PeakMax(lines: seq<string>): real {
    RunningMax(lines, PeakValue)
  }

  /** `total_bricks` after a pass over the lines. */
  function TotalOrZero(lines: seq<string>): int {
    LastOrZero(lines, TotalValue)
  }

  /** The maximum is at least 0 and at least every value read, and it is one
      of them unless it is 0. */
  lemma {:induction false} RunningMaxSpec(lines: seq<string>, value: string -> Option<real>)
    ensures RunningMax(lines, value) >= 0.0
    ensures forall i :: 0 <= i < |lines| && value(lines[i]).Some? ==> value(lines[i]).value <= RunningMax(lines, value)
    ensures RunningMax(lines, value) == 0.0 || exists i ::
              0 <= i < |lines| && value(lines[i]).Some? && value(lines[i]).value == RunningMax(lines, value)
  {
    if lines != [] {
      var n := |lines| - 1;
      var init := lines[..n];
      RunningMaxSpec(init, value);
      forall i | 0 <= i < |lines| && value(lines[i]).Some?
        ensures value(lines[i]).value <= RunningMax(lines, value)
      {
        if i < n {
          assert lines[i] == init[i];
        }
      }
      if RunningMax(lines, value) != 0.0 && RunningMax(lines, value) == RunningMax(init, value) {
        var i :| 0 <= i < |init| && value(init[i]).Some? && value(init[i]).value == RunningMax(init, value);
        assert lines[i] == init[i];
      }
    }
  }

  /** With no line carrying a value, the result is 0. */
  lemma {:induction false} LastOrZeroNone(lines: seq<string>, value: string -> Option<int>)
    requires forall i :: 0 <= i < |lines| ==> value(lines[i]).None?
    ensures LastOrZero(lines, value) == 0
  {
    if lines != [] {
      var init := lines[..|lines| - 1];
      assert forall i :: 0 <= i < |init| ==> init[i] == lines[i];
      LastOrZeroNone(init, value);
    }
  }

  /** The value is the one read from the last line that carries one. */
  lemma {:induction false} LastOrZeroAt(lines: seq<string>, value: string -> Option<int>, k: nat)
    requires k < |lines| && value(lines[k]).Some?
    requires forall j :: k < j < |lines| ==> value(lines[j]).None?
    ensures LastOrZero(lines, value) == value(lines[k]).value
    decreases |lines|
  {
    var n := |lines| - 1;
    if k < n {
      var init := lines[..n];
      assert init[k] == lines[k];
      assert forall j :: k < j < n ==> init[j] == lines[j];
      LastOrZeroAt(init, value, k);
    }
  }

  /** The per-file record of solution_v2.py. */
  class FileData {
    var name: string
    /** (line number from 1, line) of every anomaly, in file order */
    var errors: seq<(nat, string)>
    var solverPresence: bool
    var memoryPeak: real
    /** starts as 0.0 in the source; a parsed total replaces it */
    var totalBricks: int

    constructor (name: string)
      ensures this.name == name && errors == [] && !solverPresence
      ensures memoryPeak == 0.0 && totalBricks == 0
    {
      this.name := name;
      errors := [];
      solverPresence := false;
      memoryPeak := 0.0;
      totalBricks := 0;
    }
  }

  /** The fields of a record as the pass leaves them. */
  datatype Summary = Summary(errors: seq<(nat, string)>, solverPresence: bool, memoryPeak: real, totalBricks: int)

  /** The content checks of one iteration, on the line numbered `lineNumber`. */
  function ScanStep(s: Summary, lineNumber: nat, line: string, check: bool): Summary {
    var errors := if check && IsAnomaly(line) then s.errors + [(lineNumber, line)] else s.errors;
    s.(errors := errors, solverPresence := s.solverPresence || (check && StartsWith(line, SolverMarker)))
  }

  /** The metric updates of one iteration. */
  function MetricStep(s: Summary, line: string): Summary {
    var peak := PeakValue(line);
    var total := TotalValue(line);
    s.(memoryPeak := if peak.Some? && peak.value > s.memoryPeak then peak.value else s.memoryPeak,
       totalBricks := if total.Some? then total.value else s.totalBricks)
  }

  /** One iteration of the pass of `process_file`. */
  function Absorb(s: Summary, lineNumber: nat, line: string, check: bool): Summary {
    MetricStep(ScanStep(s, lineNumber, line, check), line)
  }

  /** The record after the pass over `lines`. */
  function Pass(lines: seq<string>, check: bool): Summary {
    if lines == [] then Summary([], false, 0.0, 0)
    else Absorb(Pass(lines[..|lines| - 1], check), |lines|, lines[|lines| - 1], check)
  }

  /** The record `process_file` promises: the anomalies and the solver line
      when the content is checked, the largest peak and the last total. */
  function Expected(lines: seq<string>, check: bool): Summary {
    Summary(if check then Anomalies(lines) else [], check && HasSolverMarker(lines), PeakMax(lines), TotalOrZero(lines))
  }

  /** The pass collects the anomalies, notes the solver line, keeps the
      largest peak and the last total. */
  lemma {:induction false} PassSpec(lines: seq<string>, check: bool)
    ensures Pass(lines, check) == Expected(lines, check)
  {
    if lines != [] {
      var n := |lines| - 1;
      var init := lines[..n];
      PassSpec(init, check);
      SolverMarkerLast(lines);
    }
  }

  lemma PassPrefix(lines: seq<string>, i: nat, check: bool)
    requires i < |lines|
    ensures Pass(lines[..i + 1], check) == Absorb(Pass(lines[..i], check), i + 1, lines[i], check)
  {
    assert lines[..i + 1][..i] == lines[..i];
  }

  /** The record's fields as a value. */
  function Snapshot(r: FileData): Summary
    reads r
  {
    Summary(r.errors, r.solverPresence, r.memoryPeak, r.totalBricks)
  }

  /** The content checks in the body of the loop of `process_file`. */
  method ScanLine(result: FileData, lineNumber: nat, line: string, checkErrorsAndSolverPresence: bool)
    modifies result
    ensures result.name == old(result.name)
    ensures Snapshot(result) == ScanStep(old(Snapshot(result)), lineNumber, line, checkErrorsAndSolverPresence)
  {
    if checkErrorsAndSolverPresence {
      if IsAnomaly(line) {
        result.errors := result.errors + [(lineNumber, line)];
      }
      if StartsWith(line, SolverMarker) {
        result.solverPresence := true;
      }
    }
  }

  /** The metric updates in the body of the loop of `process_file`. A line
      a pattern matches must yield a number: `float` or `int` raises
      otherwise, and that exception is left to the caller's precondition. */
  method MeasureLine(result: FileData, line: string)
    requires LineParses(line)
    modifies result
    ensures result.name == old(result.name)
    ensures Snapshot(result) == MetricStep(old(Snapshot(result)), line)
  {
    var parsedWsp := PeakValue(line);
    if parsedWsp.Some? {
      var wsp := parsedWsp.value;
      if wsp > result.memoryPeak {
        result.memoryPeak := wsp;
      }
    }
    var parsedTotal := TotalValue(line);
    if parsedTotal.Some? {
      result.totalBricks := parsedTotal.value;
    }
  }

  /** `process_file`: one pass over the lines of a log, filling a new record.
      The reference log is read with `checkErrorsAndSolverPresence` false. */
  method ProcessFile(filename: string, lines: seq<string>, checkErrorsAndSolverPresence: bool)
    returns (result: FileData)
    requires MatchesParse(lines)
    ensures fresh(result)
    ensures result.name == filename
    ensures Snapshot(result) == Expected(lines, checkErrorsAndSolverPresence)
  {
    result := new FileData(filename);
    for lineNumber := 0 to |lines|
      invariant result.name == filename
      invariant Snapshot(result) == Pass(lines[..lineNumber], checkErrorsAndSolverPresence)
    {
      PassPrefix(lines, lineNumber, checkErrorsAndSolverPresence);
      ScanLine(result, lineNumber + 1, lines[lineNumber], checkErrorsAndSolverPresence);
      MeasureLine(result, lines[lineNumber]);
    }
    assert lines[..|lines|] == lines;
    PassSpec(lines, checkErrorsAndSolverPresence);
  }

  // ---------------------------------------------------- _get_quoted_sequence

  /** `", ".join(f"'{x}'" for x in strings)`; only the empty list gives the
      empty string. */
  function QuotedSequence(strings: seq<string>): (r: string)
    ensures r == "" <==> strings == []
  {
    if strings == [] then ""
    else if |strings| == 1 then Quote(strings[0])
    else QuotedSequence(strings[..|strings| - 1]) + ", " + Quote(strings[|strings| - 1])
  }

  /** `f"'{x}'"` */
  function Quote(x: string): string {
    "'" + x + "'"
  }

  /** Quoting two non-empty lists and joining the results with ", " is
      quoting their concatenation: each string is quoted once, in order. */
  lemma {:induction false} QuotedSequenceAppend(a: seq<string>, b: seq<string>)
    requires a != [] && b != []
    ensures QuotedSequence(a + b) == QuotedSequence(a) + ", " + QuotedSequence(b)
    decreases |b|
  {
    var ab := a + b;
    var last := Quote(b[|b| - 1]);
    assert ab[|ab| - 1] == b[|b| - 1];
    if |b| == 1 {
      assert ab[..|ab| - 1] == a;
    } else {
      var b' := b[..|b| - 1];
      assert ab[..|ab| - 1] == a + b';
      QuotedSequenceAppend(a, b');
      var x, y := QuotedSequence(a), QuotedSequence(b');
      calc {
        QuotedSequence(ab);
        x + ", " + y + ", " + last;
        { assert x + ", " + y + ", " + last == (x + ", ") + ((y + ", ") + last); }
        (x + ", ") + QuotedSequence(b);
      }
    }
  }

  // ------------------------------------------------------------- check_test

  /** One step of `os.walk`: a directory path, its subdirectories and files. */
  datatype WalkEntry = WalkEntry(path: string, subdirectories: seq<string>, files: seq<string>)

  datatype TestTree = TestTree(
    /** the subdirectories of the test folder, from the first step of the walk */
    directories: set<string>,
    /** the remaining steps of the walk, below the test folder */
    walk: seq<WalkEntry>,
    /** the lines of ft_reference/<identity>, by identity */
    referenceLines: map<string, seq<string>>,
    /** the lines of ft_run/<identity>, by identity */
    runLines: map<string, seq<string>>)

  /** `s.split('.')[0]`: the text before the first dot. */
  function BeforeDot(s: string): (r: string)
    ensures StartsWith(s, r)
    ensures forall k :: 0 <= k < |r| ==> r[k] != '.'
    ensures |r| < |s| ==> s[|r|] == '.'
  {
    if s == [] || s[0] == '.' then "" else [s[0]] + BeforeDot(s[1..])
  }

  /** The name a ".stdout" file is known by: "<stem>/<file>". */
  function Identity(file: string): string {
    BeforeDot(file) + "/" + file
  }

  lemma {:induction false} BeforeDotOfStem(p: string, rest: string)
    requires forall k :: 0 <= k < |p| ==> p[k] != '.'
    requires |rest| > 0 && rest[0] == '.'
    ensures BeforeDot(p + rest) == p
  {
    if p != [] {
      assert (p + rest)[1..] == p[1..] + rest;
      BeforeDotOfStem(p[1..], rest);
    } else {
      assert p + rest == rest;
    }
  }


  /** A path containing "ft_run" belongs to the run side even when it also
      contains "ft_reference"; otherwise one containing "ft_reference"
      belongs to the reference side. */
  predicate OnSide(path: string, run: bool) {
    if run then Contains(path, RunDir) else !Contains(path, RunDir) && Contains(path, ReferenceDir)
  }

  /** `f` is a ".stdout" file and `path` is on the side. */
  predicate IsLog(path: string, f: string, run: bool) {
    EndsWith(f, StdoutSuffix) && OnSide(path, run)
  }

  /** File `f` of walk step `e` is a log on the side. */
  predicate Feeds(e: WalkEntry, f: string, run: bool) {
    f in e.files && IsLog(e.path, f, run)
  }

  /** The identities of the ".stdout" files among `files`, when `path` is on the side. */
  function EntryIds(path: string, files: seq<string>, run: bool): set<string> {
    set f | f in files && IsLog(path, f, run) :: Identity(f)
  }

  /** The identities the walk collects for one side. */
  function Ids(walk: seq<WalkEntry>, run: bool): set<string> {
    if walk == [] then {}
    else Ids(walk[..|walk| - 1], run) + EntryIds(walk[|walk| - 1].path, walk[|walk| - 1].files, run)
  }

  /** An identity is collected exactly when some file of a directory on the
      side ends with ".stdout" and is known by it. */
  lemma IdsSpec(walk: seq<WalkEntry>, run: bool, x: string)
    ensures x in Ids(walk, run) <==> exists i, f :: 0 <= i < |walk| && Feeds(walk[i], f, run) && x == Identity(f)
  {
    if x in Ids(walk, run) {
      IdsSound(walk, run, x);
    }
    if exists i, f :: 0 <= i < |walk| && Feeds(walk[i], f, run) && x == Identity(f) {
      var i, f :| 0 <= i < |walk| && Feeds(walk[i], f, run) && x == Identity(f);
      IdsComplete(walk, run, i, f);
    }
  }

  lemma {:induction false} IdsSound(walk: seq<WalkEntry>, run: bool, x: string)
    requires x in Ids(walk, run)
    ensures exists i, f :: 0 <= i < |walk| && Feeds(walk[i], f, run) && x == Identity(f)
  {
    var n := |walk| - 1;
    var init := walk[..n];
    if x in Ids(init, run) {
      IdsSound(init, run, x);
      var i, f :| 0 <= i < |init| && Feeds(init[i], f, run) && x == Identity(f);
      assert walk[i] == init[i];
      assert Feeds(walk[i], f, run);
    } else {
      var f :| f in walk[n].files && IsLog(walk[n].path, f, run) && x == Identity(f);
      assert Feeds(walk[n], f, run);
    }
  }

  lemma {:induction false} IdsComplete(walk: seq<WalkEntry>, run: bool, i: nat, f: string)
    requires i < |walk| && Feeds(walk[i], f, run)
    ensures Identity(f) in Ids(walk, run)
  {
    var n := |walk| - 1;
    var init := walk[..n];
    if i < n {
      assert init[i] == walk[i];
      IdsComplete(init, run, i, f);
    } else {
      assert Identity(f) in EntryIds(walk[n].path, walk[n].files, run);
    }
  }

  /** No directory feeds both sides. */
  lemma SidesDisjoint(path: string)
    ensures !(OnSide(path, true) && OnSide(path, false))
  {
  }

  /** The walk loop of `check_test`: the run and reference identities. */
  method CollectIdentities(walk: seq<WalkEntry>) returns (runFiles: set<string>, referenceFiles: set<string>)
    ensures runFiles == Ids(walk, true) && referenceFiles == Ids(walk, false)
  {
    runFiles, referenceFiles := {}, {};
    var i := 0;
    while i < |walk|
      invariant 0 <= i <= |walk|
      invariant runFiles == Ids(walk[..i], true) && referenceFiles == Ids(walk[..i], false)
    {
      runFiles, referenceFiles := CollectEntry(walk[i].path, walk[i].files, runFiles, referenceFiles);
      IdsStep(walk, i, true);
      IdsStep(walk, i, false);
      i := i + 1;
    }
    assert walk[..i] == walk;
  }

  /** The inner loop over the files of one step of the walk. */
  method CollectEntry(path: string, files: seq<string>, runBefore: set<string>, referenceBefore: set<string>)
    returns (runFiles: set<string>, referenceFiles: set<string>)
    ensures runFiles == runBefore + EntryIds(path, files, true)
    ensures referenceFiles == referenceBefore + EntryIds(path, files, false)
  {
    runFiles, referenceFiles := runBefore, referenceBefore;
    for j := 0 to |files|
      invariant runFiles == runBefore + EntryIds(path, files[..j], true)
      invariant referenceFiles == referenceBefore + EntryIds(path, files[..j], false)
    {
      var file := files[j];
      EntryIdsStep(path, files, j, true);
      EntryIdsStep(path, files, j, false);
      if EndsWith(file, StdoutSuffix) {
        var filename := BeforeDot(file) + "/" + file;
        if Contains(path, RunDir) {
          assert IsLog(path, file, true) && !IsLog(path, file, false);
          runFiles := runFiles + {filename};
        } else if Contains(path, ReferenceDir) {
          assert !IsLog(path, file, true) && IsLog(path, file, false);
          referenceFiles := referenceFiles + {filename};
        } else {
          assert !IsLog(path, file, true) && !IsLog(path, file, false);
        }
      } else {
        assert !IsLog(path, file, true) && !IsLog(path, file, false);
      }
    }
    assert files[..|files|] == files;
  }

  lemma EntryIdsStep(path: string, files: seq<string>, j: nat, run: bool)
    requires j < |files|
    ensures EntryIds(path, files[..j + 1], run)
            == EntryIds(path, files[..j], run) + (if IsLog(path, files[j], run) then {Identity(files[j])} else {})
  {
    assert files[..j + 1] == files[..j] + [files[j]];
  }

  lemma IdsStep(walk: seq<WalkEntry>, i: nat, run: bool)
    requires i < |walk|
    ensures Ids(walk[..i + 1], run) == Ids(walk[..i], run) + EntryIds(walk[i].path, walk[i].files, run)
  {
    assert walk[..i + 1][..i] == walk[..i];
  }

  // ------------------------------------------------------ directory check

  /** The directories `check_test` looks for, in the order it looks. */
  const DirectoryOrder := [RunDir, ReferenceDir]

  /** One "directory missing" line per name of `names` absent from `directories`. */
  function MissingLines(names: seq<string>, directories: set<string>): seq<Entry> {
    if names == [] then []
    else
      var name := names[|names| - 1];
      MissingLines(names[..|names| - 1], directories)
      + (if name in directories then [] else [DirectoryMissing(name)])
  }

  /** The directory check writes nothing when both directories exist; else a
      line for each absent one, the ft_run line before the ft_reference line. */
  lemma DirectoryLinesSpec(directories: set<string>)
    ensures MissingLines(DirectoryOrder, directories) == [] <==>
              RunDir in directories && ReferenceDir in directories
    ensures RunDir !in directories ==>
              MissingLines(DirectoryOrder, directories)[0] == DirectoryMissing(RunDir)
    ensures ReferenceDir !in directories ==>
              MissingLines(DirectoryOrder, directories)[|MissingLines(DirectoryOrder, directories)| - 1]
              == DirectoryMissing(ReferenceDir)
    ensures |MissingLines(DirectoryOrder, directories)| ==
              (if RunDir in directories then 0 else 1) + (if ReferenceDir in directories then 0 else 1)
  {
    var a := if RunDir in directories then [] else [DirectoryMissing(RunDir)];
    var b := if ReferenceDir in directories then [] else [DirectoryMissing(ReferenceDir)];
    assert DirectoryOrder[..1] == [RunDir];
    assert DirectoryOrder[..1][..0] == [];
    assert MissingLines(DirectoryOrder[..1], directories) == a;
    assert MissingLines(DirectoryOrder, directories) == a + b;
  }

  /** The first loop of `check_test`. */
  method CheckDirectories(directories: set<string>) returns (missingDirectories: bool, written: seq<Entry>)
    ensures written == MissingLines(DirectoryOrder, directories)
    ensures missingDirectories <==> written != []
  {
    missingDirectories := false;
    written := [];
    for k := 0 to |DirectoryOrder|
      invariant written == MissingLines(DirectoryOrder[..k], directories)
      invariant missingDirectories <==> written != []
    {
      var directory := DirectoryOrder[k];
      assert DirectoryOrder[..k + 1][..k] == DirectoryOrder[..k];
      if directory !in directories {
        written := written + [DirectoryMissing(directory)];
        missingDirectories := true;
      }
    }
    assert DirectoryOrder[..|DirectoryOrder|] == DirectoryOrder;
  }

  // ------------------------------------------------------- file-set check

  /** The lines written when the identity sets differ: the identities only
      the reference side has, then those only the run side has, each sorted. */
  ghost function MismatchLines(runFiles: set<string>, referenceFiles: set<string>): seq<Entry> {
    var missing := referenceFiles - runFiles;
    var extra := runFiles - referenceFiles;
    (if missing != {} then [Line(MissingHeader + QuotedSequence(SortedOf(missing)) + "\n")] else [])
    + (if extra != {} then [Line(ExtraHeader + QuotedSequence(SortedOf(extra)) + "\n")] else [])
  }

  /** Different identity sets always leave a line in the report, and the
      quoted names in it are the set difference in ascending order. */
  lemma MismatchLinesSpec(runFiles: set<string>, referenceFiles: set<string>)
    ensures MismatchLines(runFiles, referenceFiles) == [] <==> runFiles == referenceFiles
    ensures referenceFiles - runFiles != {} ==>
              MismatchLines(runFiles, referenceFiles)[0].text
              == MissingHeader + QuotedSequence(SortedOf(referenceFiles - runFiles)) + "\n"
    ensures forall x :: x in SortedOf(referenceFiles - runFiles) <==> x in referenceFiles && x !in runFiles
    ensures forall x :: x in SortedOf(runFiles - referenceFiles) <==> x in runFiles && x !in referenceFiles
  {
    if runFiles != referenceFiles {
      if referenceFiles - runFiles == {} {
        assert runFiles - referenceFiles != {};
      }
    }
  }

  /** The mismatch branch of `check_test`. */
  method ReportMismatch(runFiles: set<string>, referenceFiles: set<string>) returns (written: seq<Entry>)
    ensures written == MismatchLines(runFiles, referenceFiles)
  {
    ghost var missing, extra := referenceFiles - runFiles, runFiles - referenceFiles;
    var missingFiles := SortStrings(referenceFiles - runFiles);
    var extraFiles := SortStrings(runFiles - referenceFiles);
    assert |missingFiles| == |missing| && |extraFiles| == |extra|;
    var missingLine, extraLine := [], [];
    if missingFiles != [] {
      missingLine := [Line(MissingHeader + QuotedSequence(missingFiles) + "\n")];
    }
    if extraFiles != [] {
      extraLine := [Line(ExtraHeader + QuotedSequence(extraFiles) + "\n")];
    }
    written := missingLine + extraLine;
  }

  // ------------------------------------------------------ per-file checks

  /** `abs(run / reference - 1) > c`: solution_v2.py's strict tolerance test. */
  predicate Exceeds(run: real, reference: real, c: real)
    requires reference != 0.0
  {
    Abs(RelDiff(run, reference)) > c
  }

  /** For a positive reference, a breach is a value strictly beyond the
      bounds `(1 - c) * reference` and `(1 + c) * reference`. */
  lemma ExceedsIffOutside(run: real, reference: real, c: real)
    requires reference > 0.0
    ensures Exceeds(run, reference, c) <==> run > (1.0 + c) * reference || run < (1.0 - c) * reference
  {
    var q := run / reference;
    assert run == q * reference;
    assert Abs(q - 1.0) > c <==> q > 1.0 + c || q < 1.0 - c;
    assert q > 1.0 + c <==> q * reference > (1.0 + c) * reference;
    assert q < 1.0 - c <==> q * reference < (1.0 - c) * reference;
  }



  /** What identity `f` needs for its checks to finish without an exception:
      both logs exist, their matched values parse, and the reference peak
      and total are not 0. */
  predicate Comparable(t: TestTree, f: string) {
    f in t.runLines && f in t.referenceLines
    && MatchesParse(t.runLines[f]) && MatchesParse(t.referenceLines[f])
    && PeakMax(t.referenceLines[f]) != 0.0 && TotalOrZero(t.referenceLines[f]) != 0
  }

  function SolverAbsent(f: string): Entry {
    Line(f + ": missing 'Solver finished at'\n")
  }

  /** The findings for identity `f`: its anomalies, the missing solver line,
      the peak breach and the total breach, in this order. */
  function FileFindings(t: TestTree, f: string): seq<Entry>
    requires Comparable(t, f)
  {
    var run := t.runLines[f];
    var ref := t.referenceLines[f];
    Verdicts(f, Anomalies(run), HasSolverMarker(run), PeakMax(run), PeakMax(ref), TotalOrZero(run), TotalOrZero(ref))
  }

  /** The findings from the measured values of one identity. */
  function Verdicts(f: string, errors: seq<(nat, string)>, solverPresence: bool,
                    runPeak: real, referencePeak: real, runTotal: int, referenceTotal: int): seq<Entry>
    requires referencePeak != 0.0 && referenceTotal != 0
  {
    AnomalyEntries(f, errors)
    + (if solverPresence then [] else [SolverAbsent(f)])
    + (if Exceeds(runPeak, referencePeak, PeakCriterion) then [PeakDiff(f, runPeak, referencePeak)] else [])
    + (if Exceeds(runTotal as real, referenceTotal as real, TotalCriterion)
       then [TotalDiff(f, runTotal, referenceTotal)] else [])
  }

  /** A run log passes: no anomaly, a solver line, peak and total within tolerance. */
  predicate Clean(t: TestTree, f: string)
    requires Comparable(t, f)
  {
    var run := t.runLines[f];
    var ref := t.referenceLines[f];
    NoAnomaly(run)
    && HasSolverMarker(run)
    && !Exceeds(PeakMax(run), PeakMax(ref), PeakCriterion)
    && !Exceeds(TotalOrZero(run) as real, TotalOrZero(ref) as real, TotalCriterion)
  }

  lemma FileFindingsEmptyIff(t: TestTree, f: string)
    requires Comparable(t, f)
    ensures FileFindings(t, f) == [] <==> Clean(t, f)
  {
    AnomaliesEmptyIff(t.runLines[f]);
  }

  predicate AllComparable(t: TestTree, files: seq<string>) {
    forall i :: 0 <= i < |files| ==> Comparable(t, files[i])
  }

  /** The findings of each identity, as a function of the identity. */
  function Checks(t: TestTree): string --> seq<Entry> {
    f requires Comparable(t, f) => FileFindings(t, f)
  }

  /** The findings for the identities in the given order. */
  function Findings(t: TestTree, files: seq<string>): seq<Entry>
    requires AllComparable(t, files)
  {
    Concat(files, Checks(t))
  }

  lemma FindingsStep(t: TestTree, files: seq<string>, i: nat)
    requires AllComparable(t, files) && i < |files|
    ensures AllComparable(t, files[..i]) && AllComparable(t, files[..i + 1])
    ensures Findings(t, files[..i + 1]) == Findings(t, files[..i]) + FileFindings(t, files[i])
  {
    ConcatStep(files, Checks(t), i);
  }

  /** The checks of one identity: the reference log is read first, then the
      run log with the anomaly and solver scan. */
  method CompareFile(t: TestTree, filename: string) returns (out: seq<Entry>)
    requires Comparable(t, filename)
    ensures out == FileFindings(t, filename)
  {
    var referenceResult := ProcessFile(filename, t.referenceLines[filename], false);
    var runResult := ProcessFile(filename, t.runLines[filename], true);
    out := WriteFindings(filename, runResult, referenceResult);
  }

  /** The writes that follow the two passes over the logs of one identity. */
  method WriteFindings(filename: string, runResult: FileData, referenceResult: FileData) returns (out: seq<Entry>)
    requires referenceResult.memoryPeak != 0.0 && referenceResult.totalBricks != 0
    ensures out == Verdicts(filename, runResult.errors, runResult.solverPresence, runResult.memoryPeak,
                            referenceResult.memoryPeak, runResult.totalBricks, referenceResult.totalBricks)
  {
    out := AnomalyEntries(filename, runResult.errors);
    if !runResult.solverPresence {
      out := out + [SolverAbsent(filename)];
    }
    var workingSetPeakRelDiff := runResult.memoryPeak / referenceResult.memoryPeak - 1.0;
    if Abs(workingSetPeakRelDiff) > PeakCriterion {
      out := out + [PeakDiff(filename, runResult.memoryPeak, referenceResult.memoryPeak)];
    }
    var totalBricksRelDiff := runResult.totalBricks as real / referenceResult.totalBricks as real - 1.0;
    if Abs(totalBricksRelDiff) > TotalCriterion {
      out := out + [TotalDiff(filename, runResult.totalBricks, referenceResult.totalBricks)];
    }
  }

  /** The loop over the identities in the given order. */
  method CompareFiles(t: TestTree, files: seq<string>) returns (written: seq<Entry>)
    requires AllComparable(t, files)
    ensures written == Findings(t, files)
  {
    written := [];
    var i := 0;
    while i < |files|
      invariant 0 <= i <= |files|
      invariant AllComparable(t, files[..i])
      invariant written == Findings(t, files[..i])
    {
      var out := CompareFile(t, files[i]);
      FindingsStep(t, files, i);
      written := written + out;
      i := i + 1;
    }
    assert files[..i] == files;
  }

  // ----------------------------------------------------------- check_test

  predicate DirectoriesPresent(t: TestTree) {
    RunDir in t.directories && ReferenceDir in t.directories
  }

  predicate SameIdentities(t: TestTree) {
    Ids(t.walk, true) == Ids(t.walk, false)
  }

  /** What the per-file checks need: every run identity can be compared. */
  predicate Runnable(t: TestTree) {
    DirectoriesPresent(t) && SameIdentities(t) ==> forall f :: f in Ids(t.walk, true) ==> Comparable(t, f)
  }

  lemma SortedComparable(t: TestTree, s: set<string>)
    requires forall f :: f in s ==> Comparable(t, f)
    ensures AllComparable(t, SortedOf(s))
  {
    var files := SortedOf(s);
    forall i | 0 <= i < |files|
      ensures Comparable(t, files[i])
    {
      assert files[i] in s;
    }
  }

  /** The report of a test: the directory lines if a directory is absent,
      else the mismatch lines if the identity sets differ, else the findings
      of every identity in sorted order. */
  ghost function TestReport(t: TestTree): seq<Entry>
    requires Runnable(t)
  {
    if !DirectoriesPresent(t) then MissingLines(DirectoryOrder, t.directories)
    else if !SameIdentities(t) then MismatchLines(Ids(t.walk, true), Ids(t.walk, false))
    else
      SortedComparable(t, Ids(t.walk, true));
      Findings(t, SortedOf(Ids(t.walk, true)))
  }

  /** `check_test`: writes the report of one test. */
  method CheckTest(t: TestTree) returns (written: seq<Entry>)
    requires Runnable(t)
    ensures written == TestReport(t)
  {
    var missingDirectories;
    missingDirectories, written := CheckDirectories(t.directories);
    DirectoryLinesSpec(t.directories);
    if missingDirectories {
      return;
    }
    var runFiles, referenceFiles := CollectIdentities(t.walk);
    if runFiles != referenceFiles {
      written := ReportMismatch(runFiles, referenceFiles);
      return;
    }
    SortedComparable(t, runFiles);
    var files := SortStrings(runFiles);
    written := CompareFiles(t, files);
  }

  /** The per-file checks write nothing exactly when every log is clean. */
  lemma SortedFindingsEmptyIff(t: TestTree, s: set<string>)
    requires forall f :: f in s ==> Comparable(t, f)
    ensures AllComparable(t, SortedOf(s))
    ensures Findings(t, SortedOf(s)) == [] <==> forall f :: f in s ==> Clean(t, f)
  {
    SortedComparable(t, s);
    SortedConcatEmptyIff(s, Checks(t));
    forall f | f in s
      ensures Checks(t)(f) == [] <==> Clean(t, f)
    {
      FileFindingsEmptyIff(t, f);
    }
  }

  /** A test passes, its report staying empty, exactly when both directories
      exist, both sides hold the same identities and every log is clean. */
  lemma ReportEmptyIff(t: TestTree)
    requires Runnable(t)
    ensures TestReport(t) == [] <==>
              DirectoriesPresent(t) && SameIdentities(t) && forall f :: f in Ids(t.walk, true) ==> Clean(t, f)
  {
    if !DirectoriesPresent(t) {
      DirectoryLinesSpec(t.directories);
    } else if !SameIdentities(t) {
      MismatchLinesSpec(Ids(t.walk, true), Ids(t.walk, false));
    } else {
      SortedFindingsEmptyIff(t, Ids(t.walk, true));
    }
  }
}
