/** How the two revisions relate: on the same logs they measure the same
    values, the log names they compare agree, and on the same values they
    write the same findings except for a relative difference exactly at a
    criterion, which only solution.py reports. */
module Revisions {
  import opened Text
  import opened Patterns
  import opened Scan
  import opened Report
  import SolutionV1
  import SolutionV2

  /** On a log that both revisions read without an exception, they find the
      same peak, and the same total where solution.py finds one; where it
      finds none, solution_v2.py has 0. */
  lemma SameMetrics(lines: seq<string>)
    requires SolutionV1.Readable(lines) && SolutionV2.MatchesParse(lines)
    ensures SolutionV2.PeakMax(lines) == SolutionV1.MaxPeak(lines)
    ensures SolutionV2.TotalOrZero(lines) == match SolutionV1.LastTotal(lines) case None => 0 case Some(v) => v
  {
    var x := SolutionV1.MaxPeak(lines);
    var y := SolutionV2.PeakMax(lines);
    SolutionV1.MaxPeakSpec(lines);
    SolutionV2.RunningMaxSpec(lines, PeakValue);
    if y != 0.0 {
      var i :| 0 <= i < |lines| && PeakValue(lines[i]).Some? && PeakValue(lines[i]).value == y;
    }
    if x != 0.0 {
      var i :| 0 <= i < |lines| && StartsWith(lines[i], PeakLead) && PeakValue(lines[i]).value == x;
    }
    assert forall j :: 0 <= j < |lines| && !StartsWith(lines[j], BricksPrefix) ==> TotalValue(lines[j]).None?;
    match SolutionV1.LastStarting(lines, BricksPrefix)
    case None =>
      SolutionV2.LastOrZeroNone(lines, TotalValue);
    case Some(k) =>
      SolutionV2.LastOrZeroAt(lines, TotalValue, k);
  }

  /** For a folder name without dots, the identity of its log is the name
      solution.py checks for that folder. */
  lemma IdentityOfLog(p: string)
    requires forall k :: 0 <= k < |p| ==> p[k] != '.'
    ensures SolutionV2.Identity(p + StdoutSuffix) == SolutionV1.StdoutOf(p)
  {
    SolutionV2.BeforeDotOfStem(p, StdoutSuffix);
  }

  /** Half again the reference peak fails solution.py and passes
      solution_v2.py; just beyond it, or just below half, fails both. */
  lemma BoundaryCases()
    ensures SolutionV1.Breaches(150.0, 100.0, PeakCriterion) && !SolutionV2.Exceeds(150.0, 100.0, PeakCriterion)
    ensures SolutionV2.Exceeds(151.0, 100.0, PeakCriterion) && SolutionV2.Exceeds(49.0, 100.0, PeakCriterion)
  {
    SolutionV2.ExceedsIffOutside(150.0, 100.0, PeakCriterion);
    SolutionV2.ExceedsIffOutside(151.0, 100.0, PeakCriterion);
    SolutionV2.ExceedsIffOutside(49.0, 100.0, PeakCriterion);
    SolutionV1.BreachesIffOutside(150.0, 100.0, PeakCriterion);
  }

  /** The breach entries among the findings of a file. */
  function BreachEntries(s: seq<Entry>): set<Entry> {
    set e | e in s && !e.Line?
  }

  /** The breach a relative difference exactly at the criterion gives. */
  function AtCriterion(e: Entry, difference: real, c: real): set<Entry> {
    if Abs(difference) == c then {e} else {}
  }

  lemma BreachEntriesAppend(x: seq<Entry>, y: seq<Entry>)
    ensures BreachEntries(x + y) == BreachEntries(x) + BreachEntries(y)
  {
    assert forall e :: e in x + y <==> e in x || e in y;
  }

  /** The breach entry a test writes, if any. */
  function Breach(e: Entry, breached: bool): seq<Entry> {
    if breached then [e] else []
  }

  /** No anomaly line of a file reads like its missing-solver line. */
  lemma AnomaliesAreNotSolverLines(f: string, errors: seq<(nat, string)>)
    ensures SolutionV1.SolverMissing(f) !in AnomalyEntries(f, errors)
    ensures SolutionV2.SolverAbsent(f) !in AnomalyEntries(f, errors)
  {
    var anomalies := AnomalyEntries(f, errors);
    var missing, absent := SolutionV1.SolverMissing(f), SolutionV2.SolverAbsent(f);
    assert missing.text[|f|] == ':' && absent.text[|f|] == ':';
    forall i | 0 <= i < |anomalies|
      ensures anomalies[i].text[|f|] == '('
    {
    }
  }

  /** What solution.py writes for a file after its anomaly lines. */
  function Rest1(f: string, runPeak: real, referencePeak: real, runTotal: int, referenceTotal: int,
                 solverPresence: bool): seq<Entry>
    requires referencePeak != 0.0 && referenceTotal != 0
  {
    Breach(PeakDiff(f, runPeak, referencePeak), SolutionV1.Breaches(runPeak, referencePeak, PeakCriterion))
    + Breach(TotalDiff(f, runTotal, referenceTotal),
             SolutionV1.Breaches(runTotal as real, referenceTotal as real, TotalCriterion))
    + (if solverPresence then [] else [SolutionV1.SolverMissing(f)])
  }

  /** What solution_v2.py writes for a file after its anomaly lines. */
  function Rest2(f: string, solverPresence: bool, runPeak: real, referencePeak: real, runTotal: int,
                 referenceTotal: int): seq<Entry>
    requires referencePeak != 0.0 && referenceTotal != 0
  {
    (if solverPresence then [] else [SolutionV2.SolverAbsent(f)])
    + Breach(PeakDiff(f, runPeak, referencePeak), SolutionV2.Exceeds(runPeak, referencePeak, PeakCriterion))
    + Breach(TotalDiff(f, runTotal, referenceTotal),
             SolutionV2.Exceeds(runTotal as real, referenceTotal as real, TotalCriterion))
  }

  lemma FindingsOfSplit(f: string, errors: seq<(nat, string)>, solverPresence: bool,
                        runPeak: real, referencePeak: real, runTotal: int, referenceTotal: int)
    requires referencePeak != 0.0 && referenceTotal != 0
    ensures SolutionV1.FindingsOf(f, errors, runPeak, referencePeak, runTotal, referenceTotal, solverPresence)
            == AnomalyEntries(f, errors) + Rest1(f, runPeak, referencePeak, runTotal, referenceTotal, solverPresence)
  {
  }

  lemma VerdictsSplit(f: string, errors: seq<(nat, string)>, solverPresence: bool,
                      runPeak: real, referencePeak: real, runTotal: int, referenceTotal: int)
    requires referencePeak != 0.0 && referenceTotal != 0
    ensures SolutionV2.Verdicts(f, errors, solverPresence, runPeak, referencePeak, runTotal, referenceTotal)
            == AnomalyEntries(f, errors) + Rest2(f, solverPresence, runPeak, referencePeak, runTotal, referenceTotal)
  {
  }

  lemma PrefixOfAppend(a: seq<Entry>, b: seq<Entry>, n: nat)
    requires n == |a|
    ensures (a + b)[..n] == a
  {
  }

  lemma InAppend(x: Entry, a: seq<Entry>, b: seq<Entry>)
    requires x !in a
    ensures x in a + b <==> x in b
  {
  }

  /** On the same measured values, both revisions open with the same anomaly
      lines. */
  lemma SameAnomalyLines(f: string, errors: seq<(nat, string)>, solverPresence: bool,
                         runPeak: real, referencePeak: real, runTotal: int, referenceTotal: int)
    requires referencePeak != 0.0 && referenceTotal != 0
    ensures SolutionV1.FindingsOf(f, errors, runPeak, referencePeak, runTotal, referenceTotal, solverPresence)[..|errors|]
            == AnomalyEntries(f, errors)
            == SolutionV2.Verdicts(f, errors, solverPresence, runPeak, referencePeak, runTotal, referenceTotal)[..|errors|]
  {
    var anomalies := AnomalyEntries(f, errors);
    FindingsOfSplit(f, errors, solverPresence, runPeak, referencePeak, runTotal, referenceTotal);
    VerdictsSplit(f, errors, solverPresence, runPeak, referencePeak, runTotal, referenceTotal);
    PrefixOfAppend(anomalies, Rest1(f, runPeak, referencePeak, runTotal, referenceTotal, solverPresence), |errors|);
    PrefixOfAppend(anomalies, Rest2(f, solverPresence, runPeak, referencePeak, runTotal, referenceTotal), |errors|);
  }

  /** On the same measured values, both revisions report a missing solver
      line exactly when there is none. */
  lemma SameSolverLine(f: string, errors: seq<(nat, string)>, solverPresence: bool,
                       runPeak: real, referencePeak: real, runTotal: int, referenceTotal: int)
    requires referencePeak != 0.0 && referenceTotal != 0
    ensures SolutionV1.SolverMissing(f)
              in SolutionV1.FindingsOf(f, errors, runPeak, referencePeak, runTotal, referenceTotal, solverPresence)
            <==> !solverPresence
    ensures SolutionV2.SolverAbsent(f)
              in SolutionV2.Verdicts(f, errors, solverPresence, runPeak, referencePeak, runTotal, referenceTotal)
            <==> !solverPresence
  {
    var anomalies := AnomalyEntries(f, errors);
    FindingsOfSplit(f, errors, solverPresence, runPeak, referencePeak, runTotal, referenceTotal);
    VerdictsSplit(f, errors, solverPresence, runPeak, referencePeak, runTotal, referenceTotal);
    AnomaliesAreNotSolverLines(f, errors);
    InAppend(SolutionV1.SolverMissing(f), anomalies, Rest1(f, runPeak, referencePeak, runTotal, referenceTotal, solverPresence));
    InAppend(SolutionV2.SolverAbsent(f), anomalies, Rest2(f, solverPresence, runPeak, referencePeak, runTotal, referenceTotal));
  }

  /** solution.py's inclusive test breaches where solution_v2.py's strict
      test does, and besides only at the criterion itself. */
  lemma BreachSplit(e: Entry, run: real, reference: real, c: real)
    requires reference != 0.0 && !e.Line?
    ensures BreachEntries(Breach(e, SolutionV1.Breaches(run, reference, c)))
            == BreachEntries(Breach(e, SolutionV2.Exceeds(run, reference, c))) + AtCriterion(e, RelDiff(run, reference), c)
  {
    assert BreachEntries([e]) == {e};
    assert BreachEntries([]) == {};
  }

  /** After the anomaly lines, solution.py writes the breaches solution_v2.py
      writes and, besides, those exactly at a criterion. */
  lemma RestBreaches(f: string, solverPresence: bool,
                     runPeak: real, referencePeak: real, runTotal: int, referenceTotal: int)
    requires referencePeak != 0.0 && referenceTotal != 0
    ensures BreachEntries(Rest1(f, runPeak, referencePeak, runTotal, referenceTotal, solverPresence))
            == BreachEntries(Rest2(f, solverPresence, runPeak, referencePeak, runTotal, referenceTotal))
               + AtCriterion(PeakDiff(f, runPeak, referencePeak), RelDiff(runPeak, referencePeak), PeakCriterion)
               + AtCriterion(TotalDiff(f, runTotal, referenceTotal),
                             RelDiff(runTotal as real, referenceTotal as real), TotalCriterion)
  {
    var peak, total := PeakDiff(f, runPeak, referencePeak), TotalDiff(f, runTotal, referenceTotal);
    var solver1 := if solverPresence then [] else [SolutionV1.SolverMissing(f)];
    var solver2 := if solverPresence then [] else [SolutionV2.SolverAbsent(f)];
    var peak1 := Breach(peak, SolutionV1.Breaches(runPeak, referencePeak, PeakCriterion));
    var total1 := Breach(total, SolutionV1.Breaches(runTotal as real, referenceTotal as real, TotalCriterion));
    var peak2 := Breach(peak, SolutionV2.Exceeds(runPeak, referencePeak, PeakCriterion));
    var total2 := Breach(total, SolutionV2.Exceeds(runTotal as real, referenceTotal as real, TotalCriterion));
    assert BreachEntries(solver1) == {} && BreachEntries(solver2) == {};
    BreachEntriesAppend(peak1 + total1, solver1);
    BreachEntriesAppend(peak1, total1);
    BreachEntriesAppend(solver2 + peak2, total2);
    BreachEntriesAppend(solver2, peak2);
    BreachSplit(peak, runPeak, referencePeak, PeakCriterion);
    BreachSplit(total, runTotal as real, referenceTotal as real, TotalCriterion);
  }

  /** On the same measured values, every breach solution_v2.py reports,
      solution.py reports too, and solution.py reports one more only where
      the relative difference equals the criterion. */
  lemma SameValuesBreaches(f: string, errors: seq<(nat, string)>, solverPresence: bool,
                           runPeak: real, referencePeak: real, runTotal: int, referenceTotal: int)
    requires referencePeak != 0.0 && referenceTotal != 0
    ensures BreachEntries(SolutionV1.FindingsOf(f, errors, runPeak, referencePeak, runTotal, referenceTotal, solverPresence))
            == BreachEntries(SolutionV2.Verdicts(f, errors, solverPresence, runPeak, referencePeak, runTotal, referenceTotal))
               + AtCriterion(PeakDiff(f, runPeak, referencePeak), RelDiff(runPeak, referencePeak), PeakCriterion)
               + AtCriterion(TotalDiff(f, runTotal, referenceTotal),
                             RelDiff(runTotal as real, referenceTotal as real), TotalCriterion)
  {
    var anomalies := AnomalyEntries(f, errors);
    FindingsOfSplit(f, errors, solverPresence, runPeak, referencePeak, runTotal, referenceTotal);
    VerdictsSplit(f, errors, solverPresence, runPeak, referencePeak, runTotal, referenceTotal);
    assert BreachEntries(anomalies) == {};
    BreachEntriesAppend(anomalies, Rest1(f, runPeak, referencePeak, runTotal, referenceTotal, solverPresence));
    BreachEntriesAppend(anomalies, Rest2(f, solverPresence, runPeak, referencePeak, runTotal, referenceTotal));
    RestBreaches(f, solverPresence, runPeak, referencePeak, runTotal, referenceTotal);
  }
}
