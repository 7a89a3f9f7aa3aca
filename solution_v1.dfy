/** solution.py: the report of one test, built by four stages that stop at
    the first failing one. The report opens with a verdict line, "FAIL" or
    "OK", followed by the findings.

    The directory tree of the test is given as a value: the names in the
    test folder, the entries of every folder under ft_reference and ft_run,
    and the lines of the files that are read. */
module SolutionV1 {
  import opened Text
  import opened Ordering
  import opened Patterns
  import opened Scan
  import opened Report

  const Fail := Line("FAIL\n")
  const Ok := Line("OK\n")

  predicate IsVerdict(e: Entry) {
    e == Fail || e == Ok
  }

  datatype TestDir = TestDir(
    /** `os.listdir(path)` */
    folders: set<string>,
    /** the entries of each folder of ft_reference, by folder name */
    reference: map<string, set<string>>,
    /** the entries of each folder of ft_run, by folder name */
    run: map<string, set<string>>,
    /** the lines of ft_reference/<folder>/<file>, by "<folder>/<file>" */
    referenceLines: map<string, seq<string>>,
    /** the lines of ft_run/<folder>/<file>, by "<folder>/<file>" */
    runLines: map<string, seq<string>>)

  // ---------------------------------------------------------------- stage 1

  predicate DirectoriesAbsent(folders: set<string>) {
    ReferenceDir !in folders || RunDir !in folders
  }

  /** The lines `first_test` writes. */
  function DirectoryReport(folders: set<string>): seq<Entry> {
    (if DirectoriesAbsent(folders) then [Fail] else [])
    + (if ReferenceDir !in folders then [DirectoryMissing(ReferenceDir)] else [])
    + (if RunDir !in folders then [DirectoryMissing(RunDir)] else [])
  }

  /** The directory stage writes FAIL once, at the head, and then one line per
      absent directory, ft_reference before ft_run; it writes nothing when
      both directories are there. */
  lemma DirectoryReportSpec(folders: set<string>)
    ensures DirectoryReport(folders) == [] <==> !DirectoriesAbsent(folders)
    ensures DirectoriesAbsent(folders) ==> DirectoryReport(folders)[0] == Fail
    ensures forall i :: 0 < i < |DirectoryReport(folders)| ==> !IsVerdict(DirectoryReport(folders)[i])
    ensures DirectoryMissing(ReferenceDir) in DirectoryReport(folders) <==> ReferenceDir !in folders
    ensures DirectoryMissing(RunDir) in DirectoryReport(folders) <==> RunDir !in folders
    ensures forall i, j ::
              (0 <= i < |DirectoryReport(folders)| && 0 <= j < |DirectoryReport(folders)|
               && DirectoryReport(folders)[i] == DirectoryMissing(ReferenceDir)
               && DirectoryReport(folders)[j] == DirectoryMissing(RunDir)) ==> i < j
    ensures |DirectoryReport(folders)| == (if DirectoriesAbsent(folders) then 1 else 0) + |{ReferenceDir, RunDir} - folders|
  {
    var r := DirectoryReport(folders);
    assert DirectoryMissing(ReferenceDir) != DirectoryMissing(RunDir);
    assert !IsVerdict(DirectoryMissing(ReferenceDir)) && !IsVerdict(DirectoryMissing(RunDir));
    if ReferenceDir in folders && RunDir in folders {
      assert {ReferenceDir, RunDir} - folders == {};
    } else if ReferenceDir in folders {
      assert {ReferenceDir, RunDir} - folders == {RunDir};
    } else if RunDir in folders {
      assert {ReferenceDir, RunDir} - folders == {ReferenceDir};
    } else {
      assert {ReferenceDir, RunDir} - folders == {ReferenceDir, RunDir};
    }
  }

  /** `first_test`: whether a directory is missing, and what it wrote. */
  method FirstTest(folders: set<string>) returns (failed: bool, written: seq<Entry>)
    ensures failed <==> DirectoriesAbsent(folders)
    ensures written == DirectoryReport(folders)
  {
    failed := false;
    written := [];
    if ReferenceDir !in folders {
      written := written + [Fail];
      written := written + [DirectoryMissing(ReferenceDir)];
      failed := true;
    }
    if RunDir !in folders {
      if !failed {
        written := written + [Fail];
      }
      written := written + [DirectoryMissing(RunDir)];
      failed := true;
    }
  }

  // ---------------------------------------------------------- process_lines

  /** Every line that starts like a memory line matches the memory pattern
      with a number in it; otherwise `re.match` yields None or `float` fails. */
  predicate PeakLinesParse(lines: seq<string>) {
    forall i :: 0 <= i < |lines| && StartsWith(lines[i], PeakLead) ==> PeakValue(lines[i]).Some?
  }

  /** The index of the last line that starts with `prefix`. */
  function LastStarting(lines: seq<string>, prefix: string): (r: Option<nat>)
    ensures r.Some? ==> r.value < |lines| && StartsWith(lines[r.value], prefix)
    ensures r.Some? ==> forall j :: r.value < j < |lines| ==> !StartsWith(lines[j], prefix)
    ensures r.None? ==> forall j :: 0 <= j < |lines| ==> !StartsWith(lines[j], prefix)
  {
    if lines == [] then None
    else if StartsWith(lines[|lines| - 1], prefix) then Some(|lines| - 1)
    else LastStarting(lines[..|lines| - 1], prefix)
  }

  /** The last brick line, the only one solution.py parses, matches and parses. */
  predicate LastTotalParses(lines: seq<string>) {
    match LastStarting(lines, BricksPrefix)
    case None => true
    case Some(k) => TotalValue(lines[k]).Some?
  }

  predicate Readable(lines: seq<string>) {
    PeakLinesParse(lines) && LastTotalParses(lines)
  }

  /** The brick total of the last line starting with the total prefix, or
      None when no line does. */
  function LastTotal(lines: seq<string>): (r: Option<int>)
    requires LastTotalParses(lines)
    ensures r.None? <==> forall j :: 0 <= j < |lines| ==> !StartsWith(lines[j], BricksPrefix)
    ensures r.Some? ==> exists k ::
              0 <= k < |lines| && TotalValue(lines[k]) == r
              && forall j :: k < j < |lines| ==> !StartsWith(lines[j], BricksPrefix)
  {
    match LastStarting(lines, BricksPrefix)
    case None => None
    case Some(k) => TotalValue(lines[k])
  }

  /** The running maximum over the memory lines, taken from the last line
      back to the first as solution.py does, starting from 0. */
  function MaxPeak(lines: seq<string>): (r: real)
    requires PeakLinesParse(lines)
    ensures r >= 0.0
  {
    if lines == [] then 0.0
    else
      var m := MaxPeak(lines[1..]);
      if StartsWith(lines[0], PeakLead) && PeakValue(lines[0]).value > m then PeakValue(lines[0]).value
      else m
  }

  /** The peak is at least 0 and at least every parsed peak, and it is one of
      them unless it is 0. */
  lemma {:induction false} MaxPeakSpec(lines: seq<string>)
    requires PeakLinesParse(lines)
    ensures MaxPeak(lines) >= 0.0
    ensures forall i :: 0 <= i < |lines| && StartsWith(lines[i], PeakLead) ==> PeakValue(lines[i]).value <= MaxPeak(lines)
    ensures MaxPeak(lines) == 0.0 || exists i ::
              0 <= i < |lines| && StartsWith(lines[i], PeakLead) && PeakValue(lines[i]).value == MaxPeak(lines)
  {
    if lines != [] {
      var rest := lines[1..];
      assert PeakLinesParse(rest) by {
        forall i | 0 <= i < |rest| && StartsWith(rest[i], PeakLead) ensures PeakValue(rest[i]).Some? {
          assert rest[i] == lines[i + 1];
        }
      }
      MaxPeakSpec(rest);
      forall i | 0 < i < |lines| && StartsWith(lines[i], PeakLead)
        ensures PeakValue(lines[i]).value <= MaxPeak(lines)
      {
        assert lines[i] == rest[i - 1];
      }
      if MaxPeak(lines) != 0.0 && MaxPeak(lines) == MaxPeak(rest) {
        var i :| 0 <= i < |rest| && StartsWith(rest[i], PeakLead) && PeakValue(rest[i]).value == MaxPeak(rest);
        assert lines[i + 1] == rest[i];
      }
    }
  }

  datatype Stats = Stats(total: Option<int>, wsp: real)

  lemma PeakLinesParseSuffix(lines: seq<string>, i: nat)
    requires PeakLinesParse(lines) && i <= |lines|
    ensures PeakLinesParse(lines[i..])
  {
    forall j | 0 <= j < |lines[i..]| && StartsWith(lines[i..][j], PeakLead)
      ensures PeakValue(lines[i..][j]).Some?
    {
      assert lines[i..][j] == lines[i + j];
    }
  }

  /** One step of the backward pass: the line at `i` against the maximum of
      the lines after it. */
  lemma MaxPeakStep(lines: seq<string>, i: nat)
    requires PeakLinesParse(lines) && i < |lines|
    ensures PeakLinesParse(lines[i..]) && PeakLinesParse(lines[i + 1..])
    ensures MaxPeak(lines[i..]) ==
              if StartsWith(lines[i], PeakLead) && PeakValue(lines[i]).value > MaxPeak(lines[i + 1..])
              then PeakValue(lines[i]).value else MaxPeak(lines[i + 1..])
  {
    PeakLinesParseSuffix(lines, i);
    PeakLinesParseSuffix(lines, i + 1);
    assert lines[i..][1..] == lines[i + 1..];
  }

  lemma {:induction false} LastStartingAt(lines: seq<string>, prefix: string, i: nat)
    requires i < |lines| && StartsWith(lines[i], prefix)
    requires forall j :: i < j < |lines| ==> !StartsWith(lines[j], prefix)
    ensures LastStarting(lines, prefix) == Some(i)
  {
    if i < |lines| - 1 {
      LastStartingAt(lines[..|lines| - 1], prefix, i);
    }
  }

  /** `process_lines`: one pass from the last line back to the first. */
  method ProcessLines(lines: seq<string>) returns (stats: Stats)
    requires Readable(lines)
    ensures stats.total == LastTotal(lines)
    ensures stats.wsp == MaxPeak(lines)
  {
    var flagBricks := true;
    var total: Option<int> := None;
    var maxWsp := 0.0;
    var i := |lines|;
    PeakLinesParseSuffix(lines, i);
    while i > 0
      invariant 0 <= i <= |lines|
      invariant PeakLinesParse(lines[i..])
      invariant maxWsp == MaxPeak(lines[i..])
      invariant flagBricks <==> forall j :: i <= j < |lines| ==> !StartsWith(lines[j], BricksPrefix)
      invariant flagBricks ==> total.None?
      invariant !flagBricks ==> total == LastTotal(lines)
    {
      i := i - 1;
      var line := lines[i];
      MaxPeakStep(lines, i);
      if flagBricks && StartsWith(line, BricksPrefix) {
        LastStartingAt(lines, BricksPrefix, i);
        total := TotalValue(line);
        flagBricks := false;
      }
      if StartsWith(line, PeakLead) {
        var wsp := PeakValue(line).value;
        if wsp > maxWsp {
          maxWsp := wsp;
        }
      }
    }
    assert lines[0..] == lines;
    stats := Stats(total, maxWsp);
  }

  // ---------------------------------------------------------------- stage 2

  function Elems(s: seq<string>): set<string> {
    set x | x in s
  }

  lemma ElemsAppend(s: seq<string>, y: string)
    ensures Elems(s + [y]) == Elems(s) + {y}
  {
    assert forall x :: x in s + [y] <==> x in s || x == y;
  }

  lemma ElemsEmpty(s: seq<string>)
    ensures s == [] <==> Elems(s) == {}
  {
    if s != [] {
      assert s[0] in Elems(s);
    }
  }

  /** "<folder>/<file>" */
  function Joined(folder: string, file: string): string {
    folder + "/" + file
  }

  /** Two joined names of folders without '/' are equal only for the same
      folder and the same entry. */
  lemma JoinedInjective(p: string, f: string, q: string, g: string)
    requires PlainName(p) && PlainName(q) && Joined(p, f) == Joined(q, g)
    ensures p == q && f == g
  {
    var j := Joined(p, f);
    assert |p| == |q| by {
      assert j[|p|] == '/' && Joined(q, g)[|q|] == '/';
    }
    assert p == j[..|p|] && q == Joined(q, g)[..|q|];
    assert f == j[|p| + 1..] && g == Joined(q, g)[|q| + 1..];
  }

  /** Within one folder, different entries give different joined names. */
  lemma JoinedSameFolder(p: string, f: string, g: string)
    requires Joined(p, f) == Joined(p, g)
    ensures f == g
  {
    assert f == Joined(p, f)[|p| + 1..];
  }

  /** No name occurs twice. */
  predicate Distinct(s: seq<string>) {
    forall i, j :: 0 <= i < j < |s| ==> s[i] != s[j]
  }

  lemma DistinctAppend(s: seq<string>, y: string)
    requires Distinct(s) && y !in Elems(s)
    ensures Distinct(s + [y])
  {
    var s' := s + [y];
    forall i, j | 0 <= i < j < |s'|
      ensures s'[i] != s'[j]
    {
      if j == |s| {
        assert s'[i] == s[i] && s[i] in Elems(s);
      } else {
        assert s'[i] == s[i] && s'[j] == s[j];
      }
    }
  }

  /** A sequence without repetitions has as many names as elements. */
  lemma {:induction false} DistinctCount(s: seq<string>)
    requires Distinct(s)
    ensures |Elems(s)| == |s|
  {
    if s != [] {
      var n := |s| - 1;
      var init := s[..n];
      assert Distinct(init);
      DistinctCount(init);
      assert s == init + [s[n]];
      ElemsAppend(init, s[n]);
      assert forall i :: 0 <= i < n ==> init[i] == s[i] != s[n];
    }
  }

  /** "<folder>/<folder>.stdout", the log file a test folder is expected to hold. */
  function StdoutOf(folder: string): string {
    Joined(folder, folder + StdoutSuffix)
  }

  /** Every name as `'<name>' `, in the given order. */
  function Quoted(names: seq<string>): (r: string)
    ensures r == [] <==> names == []
  {
    if names == [] then ""
    else Quoted(names[..|names| - 1]) + "'" + names[|names| - 1] + "' "
  }

  /** The folders of both ft_reference and ft_run. */
  function Common(t: TestDir): set<string> {
    t.run.Keys * t.reference.Keys
  }

  function MissingAbsentIn(t: TestDir, d: set<string>): set<string> {
    set m | m in d :: StdoutOf(m)
  }

  function MissingCommonIn(t: TestDir, d: set<string>): set<string> {
    set p, f | p in d && p in t.reference && p in t.run && f in t.reference[p] && f !in t.run[p] :: Joined(p, f)
  }

  function ExtraAbsentIn(t: TestDir, d: set<string>): set<string> {
    set e, f | e in d && e in t.run && f in t.run[e] && EndsWith(f, StdoutSuffix) :: Joined(e, f)
  }

  function ExtraCommonIn(t: TestDir, d: set<string>): set<string> {
    set p, f | p in d && p in t.reference && p in t.run && f in t.run[p] && f !in t.reference[p]
                 && EndsWith(f, StdoutSuffix) :: Joined(p, f)
  }

  /** What ft_run lacks: the expected log of every folder it does not have,
      and every entry of a shared folder that only ft_reference holds. */
  function Missing(t: TestDir): set<string> {
    MissingAbsentIn(t, t.reference.Keys - t.run.Keys) + MissingCommonIn(t, Common(t))
  }

  /** What ft_run has in excess: its ".stdout" files in folders ft_reference
      does not have, and in shared folders where ft_reference lacks them. */
  function Extra(t: TestDir): set<string> {
    ExtraAbsentIn(t, t.run.Keys - t.reference.Keys) + ExtraCommonIn(t, Common(t))
  }

  /** The lines `second_test` writes, given the names in the order it met them. */
  function FileSetReport(ms: seq<string>, es: seq<string>): seq<Entry> {
    if ms == [] && es == [] then []
    else
      [Fail]
      + (if ms != [] then [Line(MissingHeader + Quoted(ms) + "\n")] else [])
      + (if es != [] then [Line(ExtraHeader + Quoted(es))] else [])
  }

  function FolderExtra(p: string, files: set<string>): set<string> {
    set f | f in files && EndsWith(f, StdoutSuffix) :: Joined(p, f)
  }

  function FolderMissing(p: string, files: set<string>): set<string> {
    set f | f in files :: Joined(p, f)
  }

  lemma MissingCommonAdd(t: TestDir, d: set<string>, p: string)
    requires p in t.reference && p in t.run
    ensures MissingCommonIn(t, d + {p}) == MissingCommonIn(t, d) + FolderMissing(p, t.reference[p] - t.run[p])
  {
    forall x | x in MissingCommonIn(t, d + {p})
      ensures x in MissingCommonIn(t, d) + FolderMissing(p, t.reference[p] - t.run[p])
    {
      var q, f :| q in d + {p} && q in t.reference && q in t.run && f in t.reference[q] && f !in t.run[q] && x == Joined(q, f);
      if q != p {
        assert x in MissingCommonIn(t, d);
      }
    }
  }

  lemma ExtraAbsentAdd(t: TestDir, d: set<string>, e: string)
    requires e in t.run
    ensures ExtraAbsentIn(t, d + {e}) == ExtraAbsentIn(t, d) + FolderExtra(e, t.run[e])
  {
    forall x | x in ExtraAbsentIn(t, d + {e})
      ensures x in ExtraAbsentIn(t, d) + FolderExtra(e, t.run[e])
    {
      var q, f :| q in d + {e} && q in t.run && f in t.run[q] && EndsWith(f, StdoutSuffix) && x == Joined(q, f);
      if q != e {
        assert x in ExtraAbsentIn(t, d);
      }
    }
  }

  lemma ExtraCommonAdd(t: TestDir, d: set<string>, p: string)
    requires p in t.reference && p in t.run
    ensures ExtraCommonIn(t, d + {p}) == ExtraCommonIn(t, d) + FolderExtra(p, t.run[p] - t.reference[p])
  {
    forall x | x in ExtraCommonIn(t, d + {p})
      ensures x in ExtraCommonIn(t, d) + FolderExtra(p, t.run[p] - t.reference[p])
    {
      var q, f :| q in d + {p} && q in t.reference && q in t.run && f in t.run[q] && f !in t.reference[q]
                  && EndsWith(f, StdoutSuffix) && x == Joined(q, f);
      if q != p {
        assert x in ExtraCommonIn(t, d);
      }
    }
  }

  /** Folder names hold no '/', as names from `os.listdir` never do. */
  predicate PlainFolders(t: TestDir) {
    (forall p :: p in t.reference ==> PlainName(p)) && (forall p :: p in t.run ==> PlainName(p))
  }

  /** An entry not yet visited gives a name not yet joined in its folder. */
  lemma FolderStepNew(p: string, done: set<string>, f: string)
    requires f !in done
    ensures Joined(p, f) !in FolderMissing(p, done) && Joined(p, f) !in FolderExtra(p, done)
  {
    if Joined(p, f) in FolderMissing(p, done) {
      var g :| g in done && Joined(p, g) == Joined(p, f);
      JoinedSameFolder(p, g, f);
    }
    assert FolderExtra(p, done) <= FolderMissing(p, done);
  }

  /** A folder not yet visited gives a log name not yet gathered. */
  lemma AbsentStepNew(t: TestDir, done: set<string>, m: string)
    requires m !in done
    ensures StdoutOf(m) !in MissingAbsentIn(t, done)
  {
    if StdoutOf(m) in MissingAbsentIn(t, done) {
      var q :| q in done && StdoutOf(q) == StdoutOf(m);
      StdoutOfInjective(q, m);
    }
  }

  /** The ".stdout" files of a folder not yet visited are not yet gathered. */
  lemma ExtraAbsentApart(t: TestDir, done: set<string>, e: string)
    requires e in t.run && e !in done && PlainFolders(t)
    ensures ExtraAbsentIn(t, done) !! FolderExtra(e, t.run[e])
  {
    forall x | x in ExtraAbsentIn(t, done) && x in FolderExtra(e, t.run[e])
      ensures false
    {
      var q, f :| q in done && q in t.run && f in t.run[q] && EndsWith(f, StdoutSuffix) && x == Joined(q, f);
      var g :| g in t.run[e] && EndsWith(g, StdoutSuffix) && x == Joined(e, g);
      JoinedInjective(q, f, e, g);
    }
  }

  /** A shared folder not yet visited adds names not yet gathered, and all of
      them belong to the names of the whole walk. */
  lemma CommonStepApart(t: TestDir, present: set<string>, done: set<string>, p: string)
    requires present <= Common(t) && done <= present && p in present && p !in done && PlainFolders(t)
    ensures MissingCommonIn(t, done) !! FolderMissing(p, t.reference[p] - t.run[p])
    ensures FolderMissing(p, t.reference[p] - t.run[p]) <= MissingCommonIn(t, present)
    ensures ExtraCommonIn(t, done) !! FolderExtra(p, t.run[p] - t.reference[p])
    ensures FolderExtra(p, t.run[p] - t.reference[p]) <= ExtraCommonIn(t, present)
  {
    forall x | x in MissingCommonIn(t, done) && x in FolderMissing(p, t.reference[p] - t.run[p])
      ensures false
    {
      var q, f :| q in done && q in t.reference && q in t.run && f in t.reference[q] && f !in t.run[q] && x == Joined(q, f);
      var g :| g in t.reference[p] - t.run[p] && x == Joined(p, g);
      JoinedInjective(q, f, p, g);
    }
    forall x | x in ExtraCommonIn(t, done) && x in FolderExtra(p, t.run[p] - t.reference[p])
      ensures false
    {
      var q, f :| q in done && q in t.reference && q in t.run && f in t.run[q] && f !in t.reference[q]
                  && EndsWith(f, StdoutSuffix) && x == Joined(q, f);
      var g :| g in t.run[p] - t.reference[p] && EndsWith(g, StdoutSuffix) && x == Joined(p, g);
      JoinedInjective(q, f, p, g);
    }
  }

  /** The logs expected of folders ft_run lacks differ from every name inside
      a shared folder, and so do the extra files of the two kinds. */
  lemma AbsentCommonApart(t: TestDir)
    requires PlainFolders(t)
    ensures MissingAbsentIn(t, t.reference.Keys - t.run.Keys) !! MissingCommonIn(t, Common(t))
    ensures ExtraAbsentIn(t, t.run.Keys - t.reference.Keys) !! ExtraCommonIn(t, Common(t))
  {
    forall x | x in MissingAbsentIn(t, t.reference.Keys - t.run.Keys) && x in MissingCommonIn(t, Common(t))
      ensures false
    {
      var m :| m in t.reference.Keys - t.run.Keys && x == StdoutOf(m);
      var q, f :| q in Common(t) && q in t.reference && q in t.run && f in t.reference[q] && f !in t.run[q] && x == Joined(q, f);
      JoinedInjective(m, m + StdoutSuffix, q, f);
    }
    forall x | x in ExtraAbsentIn(t, t.run.Keys - t.reference.Keys) && x in ExtraCommonIn(t, Common(t))
      ensures false
    {
      var e, f :| e in t.run.Keys - t.reference.Keys && e in t.run && f in t.run[e] && EndsWith(f, StdoutSuffix) && x == Joined(e, f);
      var q, g :| q in Common(t) && q in t.reference && q in t.run && g in t.run[q] && g !in t.reference[q]
                  && EndsWith(g, StdoutSuffix) && x == Joined(q, g);
      JoinedInjective(e, f, q, g);
    }
  }

  /** The missing entries of one shared folder, in the order of the set;
      each is gathered once. */
  method CollectMissing(p: string, files: set<string>, missingStr: string, ghost ms: seq<string>)
    returns (missingStr': string, ghost ms': seq<string>)
    requires missingStr == Quoted(ms)
    ensures missingStr' == Quoted(ms')
    ensures Elems(ms') == Elems(ms) + FolderMissing(p, files)
    ensures Distinct(ms) && Elems(ms) !! FolderMissing(p, files) ==> Distinct(ms')
  {
    missingStr', ms' := missingStr, ms;
    ghost var unique := Distinct(ms) && Elems(ms) !! FolderMissing(p, files);
    var rest := files;
    while rest != {}
      invariant rest <= files
      invariant missingStr' == Quoted(ms')
      invariant Elems(ms') == Elems(ms) + FolderMissing(p, files - rest)
      invariant unique ==> Distinct(ms')
      decreases rest
    {
      var mis :| mis in rest;
      if unique {
        FolderStepNew(p, files - rest, mis);
        assert Joined(p, mis) in FolderMissing(p, files);
        DistinctAppend(ms', Joined(p, mis));
      }
      missingStr' := missingStr' + "'" + Joined(p, mis) + "' ";
      assert (ms' + [Joined(p, mis)])[..|ms'|] == ms';
      ElemsAppend(ms', Joined(p, mis));
      ms' := ms' + [Joined(p, mis)];
      assert FolderMissing(p, files - rest + {mis}) == FolderMissing(p, files - rest) + {Joined(p, mis)};
      RemoveStep(files, rest, mis);
      rest := rest - {mis};
    }
  }

  /** The ".stdout" entries among `files` of folder `p`, in the order of the
      set; each is gathered once. */
  method CollectExtra(p: string, files: set<string>, extraStr: string, ghost es: seq<string>)
    returns (extraStr': string, ghost es': seq<string>)
    requires extraStr == Quoted(es)
    ensures extraStr' == Quoted(es')
    ensures Elems(es') == Elems(es) + FolderExtra(p, files)
    ensures Distinct(es) && Elems(es) !! FolderExtra(p, files) ==> Distinct(es')
  {
    extraStr', es' := extraStr, es;
    ghost var unique := Distinct(es) && Elems(es) !! FolderExtra(p, files);
    var rest := files;
    while rest != {}
      invariant rest <= files
      invariant extraStr' == Quoted(es')
      invariant Elems(es') == Elems(es) + FolderExtra(p, files - rest)
      invariant unique ==> Distinct(es')
      decreases rest
    {
      var file :| file in rest;
      if EndsWith(file, StdoutSuffix) {
        if unique {
          FolderStepNew(p, files - rest, file);
          assert Joined(p, file) in FolderExtra(p, files);
          DistinctAppend(es', Joined(p, file));
        }
        extraStr' := extraStr' + "'" + Joined(p, file) + "' ";
        assert (es' + [Joined(p, file)])[..|es'|] == es';
        ElemsAppend(es', Joined(p, file));
        es' := es' + [Joined(p, file)];
        assert FolderExtra(p, files - rest + {file}) == FolderExtra(p, files - rest) + {Joined(p, file)};
      } else {
        assert FolderExtra(p, files - rest + {file}) == FolderExtra(p, files - rest);
      }
      RemoveStep(files, rest, file);
      rest := rest - {file};
    }
  }

  /** The expected logs of the folders ft_run lacks, in the order of the set;
      each is gathered once. */
  method CollectAbsentMissing(t: TestDir, absent: set<string>) returns (missingStr: string, ghost ms: seq<string>)
    ensures missingStr == Quoted(ms)
    ensures Elems(ms) == MissingAbsentIn(t, absent)
    ensures Distinct(ms)
  {
    missingStr, ms := "", [];
    var rest := absent;
    while rest != {}
      invariant rest <= absent
      invariant missingStr == Quoted(ms)
      invariant Elems(ms) == MissingAbsentIn(t, absent - rest)
      invariant Distinct(ms)
      decreases rest
    {
      var miss :| miss in rest;
      AbsentStepNew(t, absent - rest, miss);
      DistinctAppend(ms, StdoutOf(miss));
      missingStr := missingStr + "'" + StdoutOf(miss) + "' ";
      assert (ms + [StdoutOf(miss)])[..|ms|] == ms;
      ElemsAppend(ms, StdoutOf(miss));
      assert MissingAbsentIn(t, absent - rest + {miss}) == MissingAbsentIn(t, absent - rest) + {StdoutOf(miss)};
      ms := ms + [StdoutOf(miss)];
      RemoveStep(absent, rest, miss);
      rest := rest - {miss};
    }
  }

  /** The ".stdout" files of the folders only ft_run has, in the order of the
      sets; each is gathered once when folder names hold no '/'. */
  method CollectAbsentExtra(t: TestDir, added: set<string>) returns (extraStr: string, ghost es: seq<string>)
    requires added <= t.run.Keys
    ensures extraStr == Quoted(es)
    ensures Elems(es) == ExtraAbsentIn(t, added)
    ensures PlainFolders(t) ==> Distinct(es)
  {
    extraStr, es := "", [];
    var rest := added;
    while rest != {}
      invariant rest <= added
      invariant extraStr == Quoted(es)
      invariant Elems(es) == ExtraAbsentIn(t, added - rest)
      invariant PlainFolders(t) ==> Distinct(es)
      decreases rest
    {
      var ex :| ex in rest;
      if PlainFolders(t) {
        ExtraAbsentApart(t, added - rest, ex);
      }
      extraStr, es := CollectExtra(ex, t.run[ex], extraStr, es);
      ExtraAbsentAdd(t, added - rest, ex);
      RemoveStep(added, rest, ex);
      rest := rest - {ex};
    }
  }

  /** Taking `x` out of what is left adds it to what is done. */
  lemma RemoveStep(all: set<string>, rest: set<string>, x: string)
    requires rest <= all && x in rest
    ensures all - (rest - {x}) == (all - rest) + {x}
  {
  }

  lemma UnionStep(e: set<string>, e0: set<string>, base: set<string>, a: set<string>, b: set<string>, f: set<string>)
    requires e == e0 + f && e0 == base + a && b == a + f
    ensures e == base + b
  {
  }

  /** The differences inside the shared folders, appended in the order of
      the sets; each is gathered once when folder names hold no '/' and none
      was gathered before. */
  method CollectShared(t: TestDir, present: set<string>, missingStr: string, ghost ms: seq<string>,
                       extraStr: string, ghost es: seq<string>)
    returns (missingStr': string, ghost ms': seq<string>, extraStr': string, ghost es': seq<string>)
    requires present <= Common(t)
    requires missingStr == Quoted(ms) && extraStr == Quoted(es)
    ensures missingStr' == Quoted(ms') && extraStr' == Quoted(es')
    ensures Elems(ms') == Elems(ms) + MissingCommonIn(t, present)
    ensures Elems(es') == Elems(es) + ExtraCommonIn(t, present)
    ensures PlainFolders(t) && Distinct(ms) && Elems(ms) !! MissingCommonIn(t, present) ==> Distinct(ms')
    ensures PlainFolders(t) && Distinct(es) && Elems(es) !! ExtraCommonIn(t, present) ==> Distinct(es')
  {
    missingStr', ms', extraStr', es' := missingStr, ms, extraStr, es;
    ghost var uniqueMissing := PlainFolders(t) && Distinct(ms) && Elems(ms) !! MissingCommonIn(t, present);
    ghost var uniqueExtra := PlainFolders(t) && Distinct(es) && Elems(es) !! ExtraCommonIn(t, present);
    var rest := present;
    while rest != {}
      invariant rest <= present
      invariant missingStr' == Quoted(ms') && extraStr' == Quoted(es')
      invariant Elems(ms') == Elems(ms) + MissingCommonIn(t, present - rest)
      invariant Elems(es') == Elems(es) + ExtraCommonIn(t, present - rest)
      invariant uniqueMissing ==> Distinct(ms')
      invariant uniqueExtra ==> Distinct(es')
      decreases rest
    {
      var presentFolder :| presentFolder in rest;
      var ref := t.reference[presentFolder];
      var run := t.run[presentFolder];
      ghost var done := present - rest;
      ghost var ms0, es0 := ms', es';
      if PlainFolders(t) {
        CommonStepApart(t, present, done, presentFolder);
      }
      missingStr', ms' := CollectMissing(presentFolder, ref - run, missingStr', ms');
      extraStr', es' := CollectExtra(presentFolder, run - ref, extraStr', es');
      MissingCommonAdd(t, done, presentFolder);
      ExtraCommonAdd(t, done, presentFolder);
      UnionStep(Elems(ms'), Elems(ms0), Elems(ms), MissingCommonIn(t, done), MissingCommonIn(t, done + {presentFolder}),
                FolderMissing(presentFolder, ref - run));
      UnionStep(Elems(es'), Elems(es0), Elems(es), ExtraCommonIn(t, done), ExtraCommonIn(t, done + {presentFolder}),
                FolderExtra(presentFolder, run - ref));
      RemoveStep(present, rest, presentFolder);
      rest := rest - {presentFolder};
    }
  }

  /** `second_test`: whether the two trees hold different files, the shared
      folders, and what it wrote. `ms` and `es` are the missing and extra
      names in the order the sets were iterated. */
  method SecondTest(t: TestDir)
    returns (failed: bool, present: set<string>, written: seq<Entry>, ghost ms: seq<string>, ghost es: seq<string>)
    ensures present == Common(t)
    ensures Elems(ms) == Missing(t) && Elems(es) == Extra(t)
    ensures failed <==> Missing(t) != {} || Extra(t) != {}
    ensures written == FileSetReport(ms, es)
    ensures PlainFolders(t) ==> |ms| == |Missing(t)| && |es| == |Extra(t)|
  {
    var referenceSubfolders := t.reference.Keys;
    var runSubfolders := t.run.Keys;
    present := runSubfolders * referenceSubfolders;
    var missingStr, extraStr := "", "";
    ms, es := [], [];
    if runSubfolders != referenceSubfolders {
      missingStr, ms := CollectAbsentMissing(t, referenceSubfolders - runSubfolders);
      extraStr, es := CollectAbsentExtra(t, runSubfolders - referenceSubfolders);
    } else {
      assert MissingAbsentIn(t, referenceSubfolders - runSubfolders) == {};
      assert ExtraAbsentIn(t, runSubfolders - referenceSubfolders) == {};
    }
    if PlainFolders(t) {
      AbsentCommonApart(t);
    }
    missingStr, ms, extraStr, es := CollectShared(t, present, missingStr, ms, extraStr, es);
    if PlainFolders(t) {
      DistinctCount(ms);
      DistinctCount(es);
    }
    if missingStr != "" {
      missingStr := MissingHeader + missingStr;
    }
    if extraStr != "" {
      extraStr := ExtraHeader + extraStr;
    }
    written := [];
    if missingStr != "" || extraStr != "" {
      written := [Fail]
        + (if missingStr != "" then [Line(missingStr + "\n")] else [])
        + (if extraStr != "" then [Line(extraStr)] else []);
    }
    failed := missingStr != "" || extraStr != "";
    ElemsEmpty(ms);
    ElemsEmpty(es);
  }

  /** The file-set stage passes exactly when ft_run has every folder of
      ft_reference, every entry of each shared folder, and no ".stdout" file
      that ft_reference lacks; other extra entries and empty extra folders
      go unnoticed. */
  lemma FileSetsAgreeIff(t: TestDir)
    ensures Missing(t) == {} && Extra(t) == {} <==>
              t.reference.Keys <= t.run.Keys
              && (forall p :: p in Common(t) ==> t.reference[p] <= t.run[p])
              && (forall p, f :: p in t.run && f in t.run[p] && EndsWith(f, StdoutSuffix)
                    ==> p in t.reference && f in t.reference[p])
  {
    if !(t.reference.Keys <= t.run.Keys) {
      var m :| m in t.reference.Keys && m !in t.run.Keys;
      assert StdoutOf(m) in MissingAbsentIn(t, t.reference.Keys - t.run.Keys);
    }
    if exists p :: p in Common(t) && !(t.reference[p] <= t.run[p]) {
      var p :| p in Common(t) && !(t.reference[p] <= t.run[p]);
      var f :| f in t.reference[p] && f !in t.run[p];
      assert Joined(p, f) in MissingCommonIn(t, Common(t));
    }
    if exists p, f :: p in t.run && f in t.run[p] && EndsWith(f, StdoutSuffix) && !(p in t.reference && f in t.reference[p]) {
      var p, f :| p in t.run && f in t.run[p] && EndsWith(f, StdoutSuffix) && !(p in t.reference && f in t.reference[p]);
      if p in t.reference {
        assert Joined(p, f) in ExtraCommonIn(t, Common(t));
      } else {
        assert Joined(p, f) in ExtraAbsentIn(t, t.run.Keys - t.reference.Keys);
      }
    }
  }

  lemma EndsWithJoined(p: string, f: string, suffix: string)
    requires EndsWith(f, suffix)
    ensures EndsWith(Joined(p, f), suffix)
  {
    var j := Joined(p, f);
    assert j[|j| - |suffix|..] == f[|f| - |suffix|..];
  }

  /** Every extra name ends in ".stdout"; missing names are not filtered. */
  lemma ExtraAreStdout(t: TestDir)
    ensures forall x :: x in Extra(t) ==> EndsWith(x, StdoutSuffix)
  {
    forall x | x in Extra(t)
      ensures EndsWith(x, StdoutSuffix)
    {
      if x in ExtraAbsentIn(t, t.run.Keys - t.reference.Keys) {
        var e, f :| e in t.run.Keys - t.reference.Keys && e in t.run && f in t.run[e]
                    && EndsWith(f, StdoutSuffix) && x == Joined(e, f);
        EndsWithJoined(e, f, StdoutSuffix);
      } else {
        var p, f :| p in Common(t) && p in t.reference && p in t.run && f in t.run[p] && f !in t.reference[p]
                    && EndsWith(f, StdoutSuffix) && x == Joined(p, f);
        EndsWithJoined(p, f, StdoutSuffix);
      }
    }
  }

  /** Quoting a concatenation quotes each part. */
  lemma {:induction false} QuotedAppend(a: seq<string>, b: seq<string>)
    ensures Quoted(a + b) == Quoted(a) + Quoted(b)
    decreases |b|
  {
    if b != [] {
      var b' := b[..|b| - 1];
      assert (a + b)[..|a + b| - 1] == a + b';
      QuotedAppend(a, b');
    } else {
      assert a + b == a;
    }
  }

  /** The stage-2 report has a verdict only at its head. */
  lemma FileSetReportVerdict(ms: seq<string>, es: seq<string>)
    ensures FileSetReport(ms, es) == [] <==> ms == [] && es == []
    ensures FileSetReport(ms, es) != [] ==> FileSetReport(ms, es)[0] == Fail
    ensures forall i :: 0 < i < |FileSetReport(ms, es)| ==> !IsVerdict(FileSetReport(ms, es)[i])
  {
    var m := MissingHeader + Quoted(ms) + "\n";
    var e := ExtraHeader + Quoted(es);
    assert |m| > 5 && |e| > 5;
    assert !IsVerdict(Line(m)) && !IsVerdict(Line(e));
  }

  // ------------------------------------------------------- stages 3 and 4

  /** `abs(run / reference - 1) >= c`: solution.py's inclusive tolerance test. */
  predicate Breaches(run: real, reference: real, c: real)
    requires reference != 0.0
  {
    Abs(RelDiff(run, reference)) >= c
  }

  /** For a positive reference, a breach is a value at or beyond the bounds
      `(1 - c) * reference` and `(1 + c) * reference`. */
  lemma BreachesIffOutside(run: real, reference: real, c: real)
    requires reference > 0.0
    ensures Breaches(run, reference, c) <==> run >= (1.0 + c) * reference || run <= (1.0 - c) * reference
  {
    var q := run / reference;
    assert run == q * reference;
    assert q - 1.0 >= c <==> q >= 1.0 + c;
    assert q >= 1.0 + c <==> q * reference >= (1.0 + c) * reference;
    assert q <= 1.0 - c <==> q * reference <= (1.0 - c) * reference;
  }

  /** Exactly half again the reference peak is already a breach; 149 against
      100 is not (its relative difference is +0.49). */
  lemma PeakBoundary()
    ensures Breaches(150.0, 100.0, PeakCriterion)
    ensures !Breaches(149.0, 100.0, PeakCriterion)
    ensures Breaches(50.0, 100.0, PeakCriterion)
    ensures Breaches(1100.0, 1000.0, TotalCriterion) && !Breaches(1090.0, 1000.0, TotalCriterion)
  {
    BreachesIffOutside(150.0, 100.0, PeakCriterion);
    BreachesIffOutside(149.0, 100.0, PeakCriterion);
    BreachesIffOutside(50.0, 100.0, PeakCriterion);
    BreachesIffOutside(1100.0, 1000.0, TotalCriterion);
    BreachesIffOutside(1090.0, 1000.0, TotalCriterion);
  }

  /** What file `f` needs for the last two stages to finish without an
      exception: both logs exist and are readable, the reference peak is not
      0, and both totals were found, the reference one not 0. */
  predicate Checkable(t: TestDir, f: string) {
    f in t.runLines && f in t.referenceLines
    && Readable(t.runLines[f]) && Readable(t.referenceLines[f])
    && MaxPeak(t.referenceLines[f]) != 0.0
    && LastTotal(t.runLines[f]).Some? && LastTotal(t.referenceLines[f]).Some?
    && LastTotal(t.referenceLines[f]).value != 0
  }

  function SolverMissing(f: string): Entry {
    Line(f + ":  missing 'Solver finished at'\n")
  }

  /** The findings for file `f`: its anomalies, the peak breach, the total
      breach and the missing solver line, in this order. */
  function FileReport(t: TestDir, f: string): seq<Entry>
    requires Checkable(t, f)
  {
    var run := t.runLines[f];
    var ref := t.referenceLines[f];
    FindingsOf(f, Anomalies(run), MaxPeak(run), MaxPeak(ref),
               LastTotal(run).value, LastTotal(ref).value, HasSolverMarker(run))
  }

  /** The findings from the measured values of one file. */
  function FindingsOf(f: string, errors: seq<(nat, string)>, runPeak: real, referencePeak: real,
                      runTotal: int, referenceTotal: int, solverPresence: bool): seq<Entry>
    requires referencePeak != 0.0 && referenceTotal != 0
  {
    AnomalyEntries(f, errors)
    + (if Breaches(runPeak, referencePeak, PeakCriterion) then [PeakDiff(f, runPeak, referencePeak)] else [])
    + (if Breaches(runTotal as real, referenceTotal as real, TotalCriterion)
       then [TotalDiff(f, runTotal, referenceTotal)] else [])
    + (if solverPresence then [] else [SolverMissing(f)])
  }

  predicate AllCheckable(t: TestDir, files: seq<string>) {
    forall i :: 0 <= i < |files| ==> Checkable(t, files[i])
  }

  /** The findings of each file, as a function of the file. */
  function FileReports(t: TestDir): string --> seq<Entry> {
    f requires Checkable(t, f) => FileReport(t, f)
  }

  /** The findings for the files in the given order. */
  function ContentReport(t: TestDir, files: seq<string>): seq<Entry>
    requires AllCheckable(t, files)
  {
    Concat(files, FileReports(t))
  }

  /** The log checked for each shared folder. */
  function CheckedFiles(present: set<string>): set<string> {
    set p | p in present :: StdoutOf(p)
  }

  /** Different folders have different logs, so the list solution.py sorts
      holds one name per folder. */
  lemma StdoutOfInjective(p: string, q: string)
    requires StdoutOf(p) == StdoutOf(q)
    ensures p == q
  {
    assert |p| == |q|;
    assert p == StdoutOf(p)[..|p|] && q == StdoutOf(q)[..|q|];
  }

  lemma ContentReportStep(t: TestDir, files: seq<string>, i: nat)
    requires AllCheckable(t, files) && i < |files|
    ensures AllCheckable(t, files[..i]) && AllCheckable(t, files[..i + 1])
    ensures ContentReport(t, files[..i + 1]) == ContentReport(t, files[..i]) + FileReport(t, files[i])
  {
    ConcatStep(files, FileReports(t), i);
  }

  lemma CheckedFilesCheckable(t: TestDir, present: set<string>)
    requires forall p :: p in present ==> Checkable(t, StdoutOf(p))
    ensures AllCheckable(t, SortedOf(CheckedFiles(present)))
    ensures forall i :: 0 <= i < |SortedOf(CheckedFiles(present))| ==> |SortedOf(CheckedFiles(present))[i]| > 0
  {
    var files := SortedOf(CheckedFiles(present));
    forall i | 0 <= i < |files|
      ensures Checkable(t, files[i]) && |files[i]| > 0
    {
      assert files[i] in CheckedFiles(present);
      var p :| p in present && files[i] == StdoutOf(p);
    }
  }

  /** The scan of one run log: its anomaly lines, and the missing-solver line
      unless some line starts with "Solver finished at". */
  method ScanRun(f: string, lines: seq<string>) returns (errLines: seq<Entry>, solverLine: seq<Entry>)
    ensures errLines == AnomalyEntries(f, Anomalies(lines))
    ensures solverLine == if HasSolverMarker(lines) then [] else [SolverMissing(f)]
  {
    errLines := [];
    solverLine := [SolverMissing(f)];
    var i := 0;
    while i < |lines|
      invariant 0 <= i <= |lines|
      invariant errLines == AnomalyEntries(f, Anomalies(lines[..i]))
      invariant solverLine == if HasSolverMarker(lines[..i]) then [] else [SolverMissing(f)]
    {
      var line := lines[i];
      ScanStep(f, lines, i);
      if IsAnomaly(line) {
        errLines := errLines + [AnomalyLine(f, i + 1, line)];
      }
      if StartsWith(line, SolverMarker) {
        solverLine := [];
      }
      i := i + 1;
    }
    assert lines[..i] == lines;
  }

  lemma ScanStep(f: string, lines: seq<string>, i: nat)
    requires i < |lines|
    ensures AnomalyEntries(f, Anomalies(lines[..i + 1])) ==
              AnomalyEntries(f, Anomalies(lines[..i])) + (if IsAnomaly(lines[i]) then [AnomalyLine(f, i + 1, lines[i])] else [])
    ensures HasSolverMarker(lines[..i + 1]) <==> HasSolverMarker(lines[..i]) || StartsWith(lines[i], SolverMarker)
  {
    AnomaliesPrefix(lines, i);
    if IsAnomaly(lines[i]) {
      AnomalyEntriesAppend(f, Anomalies(lines[..i]), (i + 1, lines[i]));
    } else {
      assert Anomalies(lines[..i + 1]) == Anomalies(lines[..i]);
    }
    SolverMarkerLast(lines[..i + 1]);
    assert lines[..i + 1][..i] == lines[..i];
  }

  /** The two stages for one file. */
  method CheckFile(t: TestDir, f: string) returns (out: seq<Entry>)
    requires Checkable(t, f)
    ensures out == FileReport(t, f)
  {
    var lines := t.runLines[f];
    var errLines, solverLine := ScanRun(f, lines);
    var runStats := ProcessLines(lines);
    var refStats := ProcessLines(t.referenceLines[f]);
    var wspLine: seq<Entry> := [];
    var totalLine: seq<Entry> := [];
    if Abs(runStats.wsp / refStats.wsp - 1.0) >= PeakCriterion {
      wspLine := [PeakDiff(f, runStats.wsp, refStats.wsp)];
    }
    var runTotal := runStats.total.value;
    var refTotal := refStats.total.value;
    if Abs(runTotal as real / refTotal as real - 1.0) >= TotalCriterion {
      totalLine := [TotalDiff(f, runTotal, refTotal)];
    }
    out := errLines + wspLine + totalLine + solverLine;
  }

  /** The findings for `files`, visited in order. */
  method CheckFiles(t: TestDir, files: seq<string>) returns (output: seq<Entry>)
    requires AllCheckable(t, files)
    ensures output == ContentReport(t, files)
  {
    output := [];
    var i := 0;
    while i < |files|
      invariant 0 <= i <= |files|
      invariant AllCheckable(t, files[..i])
      invariant output == ContentReport(t, files[..i])
    {
      var out := CheckFile(t, files[i]);
      ContentReportStep(t, files, i);
      output := output + out;
      i := i + 1;
    }
    assert files[..i] == files;
  }

  /** `third_and_fourth_tests`: the logs of the shared folders in sorted
      order; FAIL and the findings when there are any, nothing otherwise. */
  method ThirdAndFourthTests(t: TestDir, present: set<string>) returns (failed: bool, written: seq<Entry>)
    requires forall p :: p in present ==> Checkable(t, StdoutOf(p))
    ensures AllCheckable(t, SortedOf(CheckedFiles(present)))
    ensures failed <==> ContentReport(t, SortedOf(CheckedFiles(present))) != []
    ensures written == if failed then [Fail] + ContentReport(t, SortedOf(CheckedFiles(present))) else []
  {
    CheckedFilesCheckable(t, present);
    var files := SortStrings(CheckedFiles(present));
    var output := CheckFiles(t, files);
    written := [];
    if output != [] {
      written := [Fail] + output;
    }
    failed := output != [];
  }

  /** No finding of one file reads like a verdict line: each names the file. */
  lemma FileReportNoVerdict(t: TestDir, f: string)
    requires Checkable(t, f) && |f| > 0
    ensures forall e :: e in FileReport(t, f) ==> !IsVerdict(e)
  {
    var run := t.runLines[f];
    var ref := t.referenceLines[f];
    FindingsOfNoVerdict(f, Anomalies(run), MaxPeak(run), MaxPeak(ref),
                        LastTotal(run).value, LastTotal(ref).value, HasSolverMarker(run));
  }

  lemma FindingsOfNoVerdict(f: string, errors: seq<(nat, string)>, runPeak: real, referencePeak: real,
                            runTotal: int, referenceTotal: int, solverPresence: bool)
    requires referencePeak != 0.0 && referenceTotal != 0 && |f| > 0
    ensures forall e :: e in FindingsOf(f, errors, runPeak, referencePeak, runTotal, referenceTotal, solverPresence)
              ==> !IsVerdict(e)
  {
    var errLines := AnomalyEntries(f, errors);
    forall e | e in FindingsOf(f, errors, runPeak, referencePeak, runTotal, referenceTotal, solverPresence)
      ensures !IsVerdict(e)
    {
      if e in errLines {
        var i :| 0 <= i < |errLines| && errLines[i] == e;
      }
    }
  }

  /** No finding of the content stages reads like a verdict line. */
  lemma ContentReportNoVerdict(t: TestDir, files: seq<string>)
    requires AllCheckable(t, files)
    requires forall i :: 0 <= i < |files| ==> |files[i]| > 0
    ensures forall e :: e in ContentReport(t, files) ==> !IsVerdict(e)
  {
    forall e | e in ContentReport(t, files)
      ensures !IsVerdict(e)
    {
      ConcatFrom(files, FileReports(t), e);
      var i :| 0 <= i < |files| && e in FileReports(t)(files[i]);
      FileReportNoVerdict(t, files[i]);
    }
  }

  // -------------------------------------------------------- generate_report

  predicate PassesFileSets(t: TestDir) {
    Missing(t) == {} && Extra(t) == {}
  }

  /** The findings of the last two stages, file by file in sorted order. */
  ghost function Findings(t: TestDir): seq<Entry>
    requires forall p :: p in Common(t) ==> Checkable(t, StdoutOf(p))
  {
    CheckedFilesCheckable(t, Common(t));
    ContentReport(t, SortedOf(CheckedFiles(Common(t))))
  }

  /** `generate_report`: the report of a test. Each stage runs only when the
      ones before it passed, and OK closes a report whose stages all passed.
      The report starts with its verdict and holds no other verdict line. */
  method GenerateReport(t: TestDir) returns (written: seq<Entry>, ghost ms: seq<string>, ghost es: seq<string>)
    requires !DirectoriesAbsent(t.folders) && PassesFileSets(t) ==>
               forall p :: p in Common(t) ==> Checkable(t, StdoutOf(p))
    ensures DirectoriesAbsent(t.folders) ==> written == DirectoryReport(t.folders)
    ensures !DirectoriesAbsent(t.folders) && !PassesFileSets(t) ==>
              written == FileSetReport(ms, es) && Elems(ms) == Missing(t) && Elems(es) == Extra(t)
    ensures !DirectoriesAbsent(t.folders) && PassesFileSets(t) ==>
              written == if Findings(t) == [] then [Ok] else [Fail] + Findings(t)
    ensures written != [] && IsVerdict(written[0])
    ensures forall i :: 0 < i < |written| ==> !IsVerdict(written[i])
    ensures written[0] == Ok <==> !DirectoriesAbsent(t.folders) && PassesFileSets(t) && Findings(t) == []
  {
    ms, es := [], [];
    var failed;
    failed, written := FirstTest(t.folders);
    DirectoryReportSpec(t.folders);
    if failed {
      return;
    }
    var present;
    failed, present, written, ms, es := SecondTest(t);
    FileSetReportVerdict(ms, es);
    if failed {
      return;
    }
    failed, written := ThirdAndFourthTests(t, present);
    CheckedFilesCheckable(t, Common(t));
    ContentReportNoVerdict(t, SortedOf(CheckedFiles(Common(t))));
    if !failed {
      written := written + [Ok];
    }
  }
}
