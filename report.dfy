/** What a test's report holds. A report is a sequence of entries, one per
    written line. Text lines are kept as strings; the two breach lines keep
    the numbers they print, since how Python renders a float is not part of
    this model. */
module Report {
  import opened Text
  import opened Scan
  import opened Ordering

  datatype Entry =
    | Line(text: string)
      /** "<file>: different 'Memory Working Set Peak' (ft_run=.., ft_reference=.., rel.diff=.., criterion=0.5)" */
    | PeakDiff(file: string, runPeak: real, referencePeak: real)
      /** "<file>: different 'Total' of bricks (ft_run=.., ft_reference=.., rel.diff=.., criterion=0.1)" */
    | TotalDiff(file: string, runTotal: int, referenceTotal: int)

  /** The two sides of a test folder and the logs they hold. */
  const ReferenceDir := "ft_reference"
  const RunDir := "ft_run"
  const StdoutSuffix := ".stdout"

  /** "directory missing: <name>" */
  function DirectoryMissing(name: string): Entry {
    Line("directory missing: " + name + "\n")
  }

  /** A name `os.listdir` can return: it holds no '/'. */
  predicate PlainName(name: string) {
    forall k :: 0 <= k < |name| ==> name[k] != '/'
  }

  const MissingHeader := "In ft_run there are missing files present in ft_reference: "
  const ExtraHeader := "In ft_run there are extra files not present in ft_reference: "

  /** The tolerances of the peak and of the total, as relative differences. */
  const PeakCriterion := 0.5
  const TotalCriterion := 0.1

  function Abs(x: real): real {
    if x < 0.0 then -x else x
  }

  /** `run / reference - 1`, the relative difference both revisions test. */
  function RelDiff(run: real, reference: real): real
    requires reference != 0.0
  {
    run / reference - 1.0
  }

  /** `<file>(<n>): <line>`; the line keeps its own line break. */
  function AnomalyLine(file: string, n: nat, line: string): (e: Entry)
    ensures e.Line? && |e.text| >= |file| + 5
  {
    Line(file + "(" + NatToString(n) + "): " + line)
  }

  /** One anomaly line per `(number, line)` pair, in the same order. */
  function AnomalyEntries(file: string, anomalies: seq<(nat, string)>): (r: seq<Entry>)
    ensures |r| == |anomalies|
    ensures forall i :: 0 <= i < |r| ==> r[i] == AnomalyLine(file, anomalies[i].0, anomalies[i].1)
  {
    if anomalies == [] then []
    else AnomalyEntries(file, anomalies[..|anomalies| - 1])
         + [AnomalyLine(file, anomalies[|anomalies| - 1].0, anomalies[|anomalies| - 1].1)]
  }

  lemma AnomalyEntriesAppend(file: string, anomalies: seq<(nat, string)>, p: (nat, string))
    ensures AnomalyEntries(file, anomalies + [p]) == AnomalyEntries(file, anomalies) + [AnomalyLine(file, p.0, p.1)]
  {
    assert (anomalies + [p])[..|anomalies|] == anomalies;
  }

  /** The entries `entries` produces for each item, one item after the other. */
  function Concat(items: seq<string>, entries: string --> seq<Entry>): seq<Entry>
    requires forall i :: 0 <= i < |items| ==> entries.requires(items[i])
  {
    if items == [] then []
    else Concat(items[..|items| - 1], entries) + entries(items[|items| - 1])
  }

  lemma ConcatStep(items: seq<string>, entries: string --> seq<Entry>, i: nat)
    requires forall i :: 0 <= i < |items| ==> entries.requires(items[i])
    requires i < |items|
    ensures Concat(items[..i + 1], entries) == Concat(items[..i], entries) + entries(items[i])
  {
    assert items[..i + 1][..i] == items[..i];
  }

  /** An item with entries leaves the concatenation non-empty. */
  lemma {:induction false} ConcatHolds(items: seq<string>, entries: string --> seq<Entry>, i: nat)
    requires forall i :: 0 <= i < |items| ==> entries.requires(items[i])
    requires i < |items|
    ensures entries(items[i]) != [] ==> Concat(items, entries) != []
  {
    var n := |items| - 1;
    var init := items[..n];
    if i < n {
      assert init[i] == items[i];
      ConcatHolds(init, entries, i);
    }
  }

  /** Items without entries leave the concatenation empty. */
  lemma {:induction false} ConcatVanishes(items: seq<string>, entries: string --> seq<Entry>)
    requires forall i :: 0 <= i < |items| ==> entries.requires(items[i])
    requires forall i :: 0 <= i < |items| ==> entries(items[i]) == []
    ensures Concat(items, entries) == []
  {
    if items != [] {
      var init := items[..|items| - 1];
      assert forall i :: 0 <= i < |init| ==> init[i] == items[i];
      ConcatVanishes(init, entries);
    }
  }

  /** Over the sorted elements of a set, the concatenation is empty exactly
      when no element has entries. */
  lemma SortedConcatEmptyIff(s: set<string>, entries: string --> seq<Entry>)
    requires forall f :: f in s ==> entries.requires(f)
    ensures forall i :: 0 <= i < |SortedOf(s)| ==> entries.requires(SortedOf(s)[i])
    ensures Concat(SortedOf(s), entries) == [] <==> forall f :: f in s ==> entries(f) == []
  {
    var items := SortedOf(s);
    assert forall i :: 0 <= i < |items| ==> items[i] in s;
    if forall f :: f in s ==> entries(f) == [] {
      ConcatVanishes(items, entries);
    } else {
      var f :| f in s && entries(f) != [];
      assert f in items;
      var i :| 0 <= i < |items| && items[i] == f;
      ConcatHolds(items, entries, i);
    }
  }

  /** Every entry of the concatenation comes from some item. */
  lemma {:induction false} ConcatFrom(items: seq<string>, entries: string --> seq<Entry>, e: Entry)
    requires forall i :: 0 <= i < |items| ==> entries.requires(items[i])
    requires e in Concat(items, entries)
    ensures exists i :: 0 <= i < |items| && e in entries(items[i])
  {
    var n := |items| - 1;
    var init := items[..n];
    if e !in entries(items[n]) {
      ConcatFrom(init, entries, e);
      var i :| 0 <= i < |init| && e in entries(init[i]);
      assert init[i] == items[i];
    }
  }
}
