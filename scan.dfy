/** The per-line content checks both revisions apply to a run file: the
    "error" token and the solver's closing line. */
module Scan {
  import opened Text

  const ErrorToken := "error"
  const SolverMarker := "Solver finished at"

  /** `"error" in line.lower().replace(":", " ").split()`. */
  predicate IsAnomaly(line: string) {
    ErrorToken in Words(Normalize(line))
  }

  /** A line is an anomaly exactly when "error" stands in its normalised text
      between white space or the ends of the line. */
  lemma AnomalyIffToken(line: string)
    ensures IsAnomaly(line) <==> exists i :: TokenAt(Normalize(line), i, ErrorToken)
  {
    assert IsWord(ErrorToken);
    WordsSpec(Normalize(line), ErrorToken);
  }

  /** "Error:" counts: case and the colon are normalised away. */
  lemma ErrorWithColonIsAnomaly()
    ensures IsAnomaly("Error: disk full")
  {
    var a := "Error: disk full";
    var na := Normalize(a);
    assert na[..5] == ErrorToken;
    assert IsSpace(na[5]);
    assert TokenAt(na, 0, ErrorToken);
    AnomalyIffToken(a);
  }

  /** "Errors" is a different word and does not count. */
  lemma PluralIsNoAnomaly()
    ensures !IsAnomaly("Errors")
  {
    var b := "Errors";
    var nb := Normalize(b);
    forall i
      ensures !TokenAt(nb, i, ErrorToken)
    {
      if i == 0 {
        assert nb[5] == 's';
      } else if 0 < i < |nb| {
        assert nb[i] != 'e';
        if i + 5 <= |nb| {
          assert nb[i..i + 5][0] == nb[i];
        }
      }
    }
    AnomalyIffToken(b);
  }

  /** `(line number, line)` for every anomaly, numbered from 1, in file order. */
  function Anomalies(lines: seq<string>): seq<(nat, string)>
  {
    if lines == [] then []
    else
      var n := |lines|;
      Anomalies(lines[..n - 1]) + (if IsAnomaly(lines[n - 1]) then [(n, lines[n - 1])] else [])
  }

  lemma {:induction false} AnomaliesSpec(lines: seq<string>)
    ensures forall p :: p in Anomalies(lines) <==>
              1 <= p.0 <= |lines| && p.1 == lines[p.0 - 1] && IsAnomaly(p.1)
    ensures forall i, j :: 0 <= i < j < |Anomalies(lines)| ==> Anomalies(lines)[i].0 < Anomalies(lines)[j].0
    ensures forall i :: 0 <= i < |Anomalies(lines)| ==> Anomalies(lines)[i].0 <= |lines|
  {
    if lines != [] {
      var n := |lines|;
      var init := lines[..n - 1];
      AnomaliesSpec(init);
      assert forall k :: 0 <= k < n - 1 ==> init[k] == lines[k];
    }
  }

  /** No line of the file is an anomaly. */
  predicate NoAnomaly(lines: seq<string>) {
    forall i :: 0 <= i < |lines| ==> !IsAnomaly(lines[i])
  }

  /** The scan finds nothing exactly when no line is an anomaly. */
  lemma AnomaliesEmptyIff(lines: seq<string>)
    ensures Anomalies(lines) == [] <==> NoAnomaly(lines)
  {
    AnomaliesSpec(lines);
    if Anomalies(lines) != [] {
      assert Anomalies(lines)[0] in Anomalies(lines);
    }
    if !NoAnomaly(lines) {
      var i :| 0 <= i < |lines| && IsAnomaly(lines[i]);
      assert (i + 1, lines[i]) in Anomalies(lines);
    }
  }

  lemma AnomaliesPrefix(lines: seq<string>, i: nat)
    requires i < |lines|
    ensures Anomalies(lines[..i + 1]) == Anomalies(lines[..i]) + (if IsAnomaly(lines[i]) then [(i + 1, lines[i])] else [])
  {
    assert lines[..i + 1][..i] == lines[..i];
  }

  /** Some line of the file starts with "Solver finished at". */
  predicate HasSolverMarker(lines: seq<string>) {
    exists i :: 0 <= i < |lines| && StartsWith(lines[i], SolverMarker)
  }

  /** The marker is in the lines exactly when it is in all but the last one or opens the last one. */
  lemma SolverMarkerLast(lines: seq<string>)
    requires lines != []
    ensures HasSolverMarker(lines) <==>
              HasSolverMarker(lines[..|lines| - 1]) || StartsWith(lines[|lines| - 1], SolverMarker)
  {
    var n := |lines| - 1;
    var init := lines[..n];
    if HasSolverMarker(init) {
      var j :| 0 <= j < n && StartsWith(init[j], SolverMarker);
      assert lines[j] == init[j];
    }
    if HasSolverMarker(lines) && !StartsWith(lines[n], SolverMarker) {
      var j :| 0 <= j < |lines| && StartsWith(lines[j], SolverMarker);
      assert init[j] == lines[j];
    }
  }
}
