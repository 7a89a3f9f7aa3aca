/** The two solver-log line formats and the numbers read from them.

    The brick total comes from `MESH::Bricks: Total=(?P<value>.*) Gas=*` and
    the peak from `Memory Working Set Current = [\d.]* Mb, Memory Working Set
    Peak = (?P<value>.*) Mb`, both matched at the start of the line
    (`re.match`). A greedy `.*` stops at a line break and then backs off to the
    last place where the text after it can match, so each capture runs up to
    the last " Gas" (or " Mb") before the first line break. */
module Patterns {
  import opened Text

  const BricksPrefix := "MESH::Bricks: Total="
  const GasMark := " Gas"
  /** The prefix solution.py tests before it applies the peak pattern. */
  const PeakLead := "Memory Working Set Current"
  const PeakHead := "Memory Working Set Current = "
  const PeakMiddle := " Mb, Memory Working Set Peak = "
  const MbMark := " Mb"

  predicate NoBreak(s: string) {
    forall k :: 0 <= k < |s| ==> s[k] != '\n'
  }

  /** The capture of a greedy `.*` that must be followed by `mark`. */
  function GreedyBefore(s: string, mark: string): Option<string> {
    var line := FirstLine(s);
    match LastIndexOf(line, mark)
    case None => None
    case Some(j) =>
      LastIndexOfSpec(line, mark);
      Some(line[..j])
  }

  /** The capture is the text before the last `mark` of the first line. */
  lemma GreedyBeforeSpec(s: string, mark: string)
    ensures GreedyBefore(s, mark).Some? ==>
              StartsWith(s, GreedyBefore(s, mark).value + mark) && NoBreak(GreedyBefore(s, mark).value)
    ensures GreedyBefore(s, mark).Some? ==>
              forall k :: |GreedyBefore(s, mark).value| < k ==> !OccursAt(FirstLine(s), mark, k)
    ensures GreedyBefore(s, mark).None? ==> forall k :: !OccursAt(FirstLine(s), mark, k)
  {
    var line := FirstLine(s);
    FirstLineSpec(s);
    LastIndexOfSpec(line, mark);
    if LastIndexOf(line, mark).Some? {
      var j := LastIndexOf(line, mark).value;
      assert line[..j + |mark|] == line[..j] + mark;
      assert s[..j + |mark|] == line[..j + |mark|];
    }
  }

  /** The capture of `prefix(.*)mark` matched at the start of `line`. */
  function AfterPrefix(line: string, prefix: string, mark: string): Option<string> {
    if !StartsWith(line, prefix) then None
    else GreedyBefore(line[|prefix|..], mark)
  }

  lemma AfterPrefixSpec(line: string, prefix: string, mark: string)
    ensures AfterPrefix(line, prefix, mark).Some? ==>
              StartsWith(line, prefix + AfterPrefix(line, prefix, mark).value + mark)
              && NoBreak(AfterPrefix(line, prefix, mark).value)
  {
    if StartsWith(line, prefix) {
      var rest := line[|prefix|..];
      var r := GreedyBefore(rest, mark);
      GreedyBeforeSpec(rest, mark);
      if r.Some? {
        assert line == prefix + rest;
        StartsWithBehind(prefix, rest, r.value + mark);
        assert prefix + (r.value + mark) == prefix + r.value + mark;
      }
    }
  }

  /** The `value` group of the brick-total pattern, if the line matches it. */
  function BricksCapture(line: string): Option<string> {
    AfterPrefix(line, BricksPrefix, GasMark)
  }

  predicate IsDigitOrDot(c: char) {
    IsDigit(c) || c == '.'
  }

  /** Length of the run matched by `[\d.]*` at the start of `s`. */
  function DigitDotRun(s: string): (n: nat)
    ensures n <= |s|
  {
    if s == [] || !IsDigitOrDot(s[0]) then 0 else 1 + DigitDotRun(s[1..])
  }

  /** The `value` group of the memory pattern, if the line matches it. */
  function PeakCapture(line: string): Option<string> {
    if !StartsWith(line, PeakHead) then None
    else
      var after := line[|PeakHead|..];
      AfterPrefix(after[DigitDotRun(after)..], PeakMiddle, MbMark)
  }

  predicate AllDigits(s: string) {
    forall k :: 0 <= k < |s| ==> IsDigit(s[k])
  }

  /** `int(s)` for an optionally signed run of decimal digits. */
  function ParseInt(s: string): (r: Option<int>)
    ensures r.Some? ==> |s| > 0
  {
    if s == [] then None
    else if s[0] == '-' || s[0] == '+' then
      var body := s[1..];
      if body == [] || !AllDigits(body) then None
      else if s[0] == '-' then Some(0 - DigitsValue(body))
      else Some(DigitsValue(body))
    else if !AllDigits(s) then None
    else Some(DigitsValue(s))
  }

  lemma ParseIntOfString(n: nat)
    ensures ParseInt(NatToString(n)) == Some(n)
    ensures ParseInt("-" + NatToString(n)) == Some(0 - n)
  {
    NatToStringRoundTrip(n);
    var s := NatToString(n);
    assert ("-" + s)[1..] == s;
  }

  function Pow10(k: nat): (p: nat)
    ensures p >= 1
  {
    if k == 0 then 1 else 10 * Pow10(k - 1)
  }

  /** Position of the first '.', or |s| when there is none. */
  function DotPos(s: string): (i: nat)
    ensures i <= |s|
  {
    if s == [] || s[0] == '.' then 0 else 1 + DotPos(s[1..])
  }

  /** The value of `digits[.digits]` with at least one digit in all. */
  function UnsignedDecimal(s: string): (r: Option<real>)
    ensures r.Some? ==> r.value >= 0.0
  {
    var i := DotPos(s);
    var whole := s[..i];
    var frac := if i < |s| then s[i + 1..] else [];
    if |whole| + |frac| == 0 || !AllDigits(whole) || !AllDigits(frac) then None
    else Some(DigitsValue(whole) as real + Fraction(frac))
  }

  /** The value of the digits after the decimal point. */
  function Fraction(frac: string): real
    requires AllDigits(frac)
  {
    if frac == [] then 0.0 else DigitsValue(frac) as real / Pow10(|frac|) as real
  }

  /** `float(s)` for an optionally signed decimal numeral. */
  function ParseReal(s: string): (r: Option<real>)
  {
    if s != [] && s[0] == '-' then
      match UnsignedDecimal(s[1..])
      case None => None
      case Some(v) => Some(-v)
    else if s != [] && s[0] == '+' then UnsignedDecimal(s[1..])
    else UnsignedDecimal(s)
  }

  lemma {:induction false} DotPosOfDigits(s: string)
    requires AllDigits(s)
    ensures DotPos(s) == |s|
  {
    if s != [] {
      DotPosOfDigits(s[1..]);
    }
  }

  lemma ParseRealOfDigits(s: string)
    requires s != [] && AllDigits(s)
    ensures ParseReal(s) == Some(DigitsValue(s) as real)
  {
    DotPosOfDigits(s);
    assert s[..|s|] == s;
    assert s[0] != '-' && s[0] != '+';
  }

  lemma ParseRealOfString(n: nat)
    ensures ParseReal(NatToString(n)) == Some(n as real)
  {
    NatToStringRoundTrip(n);
    ParseRealOfDigits(NatToString(n));
  }

  /** The brick total of a line that matches the total pattern and parses. */
  function TotalValue(line: string): (r: Option<int>)
    ensures r.Some? ==> StartsWith(line, BricksPrefix)
  {
    match BricksCapture(line)
    case None => None
    case Some(v) => ParseInt(v)
  }

  /** The working-set peak of a line that matches the memory pattern and parses. */
  function PeakValue(line: string): (r: Option<real>)
    ensures r.Some? ==> StartsWith(line, PeakLead)
  {
    match PeakCapture(line)
    case None => None
    case Some(v) =>
      assert PeakHead[..|PeakLead|] == PeakLead;
      assert line[..|PeakLead|] == line[..|PeakHead|][..|PeakLead|];
      ParseReal(v)
  }

  lemma {:induction false} FirstLineAppend(a: string, b: string)
    requires NoBreak(a)
    ensures FirstLine(a + b) == a + FirstLine(b)
  {
    if a == [] {
      assert a + b == b;
    } else {
      assert (a + b)[0] == a[0] && (a + b)[1..] == a[1..] + b;
      FirstLineAppend(a[1..], b);
    }
  }

  /** A mark that opens with its only space. */
  predicate SpaceLed(mark: string) {
    NoBreak(mark) && |mark| > 0 && mark[0] == ' ' && forall k :: 1 <= k < |mark| ==> mark[k] != ' '
  }

  lemma MarksAreSpaceLed()
    ensures SpaceLed(GasMark) && SpaceLed(MbMark)
  {
  }

  /** The greedy capture before `mark` in `v + mark + tail` is `v` when `v`
      has no line break and no later `mark` follows on the line. */
  lemma GreedyOfRendered(v: string, mark: string, tail: string)
    requires NoBreak(v) && SpaceLed(mark)
    requires forall k :: !OccursAt(FirstLine(tail), mark, k)
    ensures GreedyBefore(v + mark + tail, mark) == Some(v)
  {
    assert NoBreak(v + mark);
    FirstLineAppend(v + mark, tail);
    var line := v + mark + FirstLine(tail);
    assert OccursAt(line, mark, |v|) by {
      assert line[|v|..|v| + |mark|] == mark;
    }
    NoLaterMark(v, mark, FirstLine(tail));
    LastIndexOfSpec(line, mark);
    assert LastIndexOf(line, mark) == Some(|v|);
    assert line[..|v|] == v;
  }

  lemma NoLaterMark(v: string, mark: string, t: string)
    requires SpaceLed(mark)
    requires forall k :: !OccursAt(t, mark, k)
    ensures forall k :: |v| < k ==> !OccursAt(v + mark + t, mark, k)
  {
    var line := v + mark + t;
    forall k | |v| < k
      ensures !OccursAt(line, mark, k)
    {
      if k < |v| + |mark| {
        MarkNotInsideItself(v, mark, t, k);
      } else if k + |mark| <= |line| {
        var j := k - |v| - |mark|;
        assert line[k..k + |mark|] == t[j..j + |mark|];
        assert !OccursAt(t, mark, j);
      }
    }
  }

  lemma MarkNotInsideItself(v: string, mark: string, t: string, k: int)
    requires SpaceLed(mark)
    requires |v| < k < |v| + |mark|
    ensures !OccursAt(v + mark + t, mark, k)
  {
    var line := v + mark + t;
    assert line[k] == mark[k - |v|];
  }

  lemma AfterPrefixOf(p: string, rest: string, mark: string)
    ensures AfterPrefix(p + rest, p, mark) == GreedyBefore(rest, mark)
  {
    assert (p + rest)[..|p|] == p;
    assert (p + rest)[|p|..] == rest;
  }

  /** A total line written as `MESH::Bricks: Total=<n> Gas...` reads back as `n`. */
  lemma TotalOfRenderedLine(n: nat, tail: string)
    requires forall k :: !OccursAt(FirstLine(tail), GasMark, k)
    ensures TotalValue(BricksPrefix + (NatToString(n) + GasMark + tail)) == Some(n)
  {
    var d := NatToString(n);
    NatToStringDigits(n);
    assert BricksCapture(BricksPrefix + (d + GasMark + tail)) == Some(d) by {
      MarksAreSpaceLed();
      AfterPrefixOf(BricksPrefix, d + GasMark + tail, GasMark);
      GreedyOfRendered(d, GasMark, tail);
    }
    ParseIntOfString(n);
  }

  /** A memory line written with whole numbers reads back as its peak `p`. */
  lemma PeakOfRenderedLine(current: nat, p: nat, tail: string)
    requires forall k :: !OccursAt(FirstLine(tail), MbMark, k)
    ensures PeakValue(PeakHead + (NatToString(current) + (PeakMiddle + (NatToString(p) + MbMark + tail))))
            == Some(p as real)
  {
    var c := NatToString(current);
    var d := NatToString(p);
    NatToStringDigits(current);
    NatToStringDigits(p);
    var rest := d + MbMark + tail;
    assert PeakCapture(PeakHead + (c + (PeakMiddle + rest))) == Some(d) by {
      PeakCaptureOf(c, rest);
      MarksAreSpaceLed();
      GreedyOfRendered(d, MbMark, tail);
    }
    ParseRealOfString(p);
  }

  lemma PeakCaptureOf(c: string, rest: string)
    requires AllDigits(c)
    ensures PeakCapture(PeakHead + (c + (PeakMiddle + rest))) == GreedyBefore(rest, MbMark)
  {
    var line := PeakHead + (c + (PeakMiddle + rest));
    var after := c + (PeakMiddle + rest);
    assert line[..|PeakHead|] == PeakHead;
    assert line[|PeakHead|..] == after;
    DigitDotRunStops(c, PeakMiddle + rest);
    assert after[|c|..] == PeakMiddle + rest;
    AfterPrefixOf(PeakMiddle, rest, MbMark);
  }

  lemma {:induction false} DigitDotRunStops(c: string, rest: string)
    requires AllDigits(c) && |rest| > 0 && rest[0] == ' '
    ensures DigitDotRun(c + rest) == |c|
  {
    if c != [] {
      assert (c + rest)[1..] == c[1..] + rest;
      DigitDotRunStops(c[1..], rest);
    }
  }
}
