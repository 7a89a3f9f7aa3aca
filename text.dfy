/** Strings as Python's `str` methods see them: prefixes and suffixes,
    substring search, `lower()`, `split()` on whitespace, and decimal
    rendering of line numbers. */
module Text {

  datatype Option<T> = None | Some(value: T)

  predicate StartsWith(s: string, p: string) {
    |p| <= |s| && s[..|p|] == p
  }

  /** A prefix stays a prefix behind a common head. */
  lemma StartsWithBehind(h: string, s: string, p: string)
    requires StartsWith(s, p)
    ensures StartsWith(h + s, h + p)
  {
    assert (h + s)[..|h + p|] == h + s[..|p|];
  }

  predicate EndsWith(s: string, p: string) {
    |p| <= |s| && s[|s| - |p|..] == p
  }

  /** `p` occurs in `s` starting at position `i`. */
  predicate OccursAt(s: string, p: string, i: int) {
    0 <= i && i + |p| <= |s| && s[i..i + |p|] == p
  }

  /** `p in s` for two strings: `p` occurs somewhere in `s`. */
  predicate Contains(s: string, p: string)
    decreases |s|
  {
    StartsWith(s, p) || (|s| > 0 && Contains(s[1..], p))
  }

  lemma {:induction false} ContainsSpec(s: string, p: string)
    ensures Contains(s, p) <==> exists i :: OccursAt(s, p, i)
    decreases |s|
  {
    if StartsWith(s, p) {
      assert OccursAt(s, p, 0);
    } else if |s| == 0 {
    } else {
      ContainsSpec(s[1..], p);
      if exists i :: OccursAt(s, p, i) {
        var i :| OccursAt(s, p, i);
        assert i != 0;
        assert s[1..][i - 1..i - 1 + |p|] == s[i..i + |p|];
        assert OccursAt(s[1..], p, i - 1);
      }
      if exists j :: OccursAt(s[1..], p, j) {
        var j :| OccursAt(s[1..], p, j);
        assert s[j + 1..j + 1 + |p|] == s[1..][j..j + |p|];
        assert OccursAt(s, p, j + 1);
      }
    }
  }

  /** The position of the last occurrence of `p` in `s`. */
  function LastIndexOf(s: string, p: string): Option<nat>
    decreases |s|
  {
    if |s| < |p| then None
    else if s[|s| - |p|..] == p then Some(|s| - |p|)
    else LastIndexOf(s[..|s| - 1], p)
  }

  lemma {:induction false} LastIndexOfSpec(s: string, p: string)
    ensures LastIndexOf(s, p).Some? ==> OccursAt(s, p, LastIndexOf(s, p).value)
    ensures LastIndexOf(s, p).Some? ==> forall k :: LastIndexOf(s, p).value < k ==> !OccursAt(s, p, k)
    ensures LastIndexOf(s, p).None? ==> forall k :: !OccursAt(s, p, k)
    decreases |s|
  {
    if |s| < |p| {
    } else if s[|s| - |p|..] == p {
      assert OccursAt(s, p, |s| - |p|);
    } else {
      var t := s[..|s| - 1];
      LastIndexOfSpec(t, p);
      assert LastIndexOf(s, p) == LastIndexOf(t, p);
      forall k | OccursAt(s, p, k)
        ensures OccursAt(t, p, k)
      {
        assert k + |p| != |s|;
        assert t[k..k + |p|] == s[k..k + |p|];
      }
      forall k | OccursAt(t, p, k)
        ensures OccursAt(s, p, k)
      {
        assert t[k..k + |p|] == s[k..k + |p|];
      }
    }
  }

  /** The text before the first line break (what a regular expression's `.` can reach). */
  function FirstLine(s: string): string {
    if s == [] || s[0] == '\n' then [] else [s[0]] + FirstLine(s[1..])
  }

  lemma {:induction false} FirstLineSpec(s: string)
    ensures StartsWith(s, FirstLine(s))
    ensures forall k :: 0 <= k < |FirstLine(s)| ==> FirstLine(s)[k] != '\n'
    ensures |FirstLine(s)| < |s| ==> s[|FirstLine(s)|] == '\n'
  {
    if s != [] && s[0] != '\n' {
      FirstLineSpec(s[1..]);
      assert FirstLine(s) == [s[0]] + FirstLine(s[1..]);
    }
  }

  /** `c.isspace()` in Python: the ASCII and Unicode white-space characters. */
  predicate IsSpace(c: char) {
    var n := c as int;
    n == 32 || 9 <= n <= 13 || 28 <= n <= 31 || n == 0x85 || n == 0xA0 || n == 0x1680
    || 0x2000 <= n <= 0x200A || n == 0x2028 || n == 0x2029 || n == 0x202F || n == 0x205F
    || n == 0x3000
  }

  function LowerChar(c: char): char {
    if 'A' <= c <= 'Z' then (c as int + 32) as char else c
  }

  /** `line.lower().replace(":", " ")`, lowering the ASCII letters. */
  function Normalize(line: string): (r: string)
    ensures |r| == |line|
    ensures forall k :: 0 <= k < |line| ==> r[k] == if line[k] == ':' then ' ' else LowerChar(line[k])
  {
    seq(|line|, k requires 0 <= k < |line| => if line[k] == ':' then ' ' else LowerChar(line[k]))
  }

  /** Length of the run of non-space characters at the start of `s`. */
  function WordLen(s: string): (n: nat)
    ensures n <= |s|
  {
    if s == [] || IsSpace(s[0]) then 0 else 1 + WordLen(s[1..])
  }

  lemma {:induction false} WordLenSpec(s: string)
    ensures forall k :: 0 <= k < WordLen(s) ==> !IsSpace(s[k])
    ensures WordLen(s) < |s| ==> IsSpace(s[WordLen(s)])
  {
    if s != [] && !IsSpace(s[0]) {
      WordLenSpec(s[1..]);
    }
  }

  /** `s.split()` with no argument: the maximal runs of non-space characters, in order. */
  function Words(s: string): seq<string>
    decreases |s|
  {
    if s == [] then []
    else if IsSpace(s[0]) then Words(s[1..])
    else
      var n := WordLen(s);
      [s[..n]] + Words(s[n..])
  }

  predicate IsWord(w: string) {
    |w| > 0 && forall k :: 0 <= k < |w| ==> !IsSpace(w[k])
  }

  /** `w` stands in `s` at `i` with white space or an end of `s` on both sides. */
  predicate TokenAt(s: string, i: int, w: string) {
    0 <= i && i + |w| <= |s| && s[i..i + |w|] == w
    && (i == 0 || IsSpace(s[i - 1]))
    && (i + |w| == |s| || IsSpace(s[i + |w|]))
  }

  /** Membership in `s.split()` is exactly a white-space delimited occurrence. */
  lemma {:induction false} WordsSpec(s: string, w: string)
    requires IsWord(w)
    ensures w in Words(s) <==> exists i :: TokenAt(s, i, w)
    decreases |s|
  {
    if s == [] {
    } else if IsSpace(s[0]) {
      WordsSpec(s[1..], w);
      TokensAfterSpace(s, w);
    } else {
      var n := WordLen(s);
      WordsSpec(s[n..], w);
      TokensAfterWord(s, w);
    }
  }

  lemma TokensAfterSpace(s: string, w: string)
    requires IsWord(w) && |s| > 0 && IsSpace(s[0])
    ensures (exists i :: TokenAt(s, i, w)) <==> exists j :: TokenAt(s[1..], j, w)
  {
    var t := s[1..];
    if exists i :: TokenAt(s, i, w) {
      var i :| TokenAt(s, i, w);
      assert s[i] == s[i..i + |w|][0] == w[0];
      assert i != 0;
      assert t[i - 1..i - 1 + |w|] == s[i..i + |w|];
      assert TokenAt(t, i - 1, w);
    }
    if exists j :: TokenAt(t, j, w) {
      var j :| TokenAt(t, j, w);
      assert s[j + 1..j + 1 + |w|] == t[j..j + |w|];
      assert TokenAt(s, j + 1, w);
    }
  }

  lemma TokensAfterWord(s: string, w: string)
    requires IsWord(w) && |s| > 0 && !IsSpace(s[0])
    ensures (exists i :: TokenAt(s, i, w))
            <==> w == s[..WordLen(s)] || exists j :: TokenAt(s[WordLen(s)..], j, w)
  {
    var n := WordLen(s);
    var t := s[n..];
    if exists i :: TokenAt(s, i, w) {
      var i :| TokenAt(s, i, w);
      if i == 0 {
        TokenAtStart(s, w);
      } else {
        TokenInsideRest(s, w, i);
      }
    }
    if w == s[..n] {
      WordLenSpec(s);
      assert TokenAt(s, 0, w);
    }
    if exists j :: TokenAt(t, j, w) {
      var j :| TokenAt(t, j, w);
      TokenFromRest(s, w, n, j);
    }
  }

  lemma TokenAtStart(s: string, w: string)
    requires IsWord(w) && TokenAt(s, 0, w)
    ensures w == s[..WordLen(s)]
  {
    var n := WordLen(s);
    WordLenSpec(s);
    assert forall k :: 0 <= k < |w| ==> s[k] == s[..|w|][k];
    assert |w| == n;
  }

  lemma TokenInsideRest(s: string, w: string, i: int)
    requires IsWord(w) && TokenAt(s, i, w) && i > 0
    ensures TokenAt(s[WordLen(s)..], i - WordLen(s), w)
  {
    var n := WordLen(s);
    var t := s[n..];
    WordLenSpec(s);
    assert IsSpace(s[i - 1]);
    assert i - n >= 1;
    assert t[i - n..i - n + |w|] == s[i..i + |w|];
    assert t[i - n - 1] == s[i - 1];
  }

  lemma TokenFromRest(s: string, w: string, n: nat, j: int)
    requires IsWord(w) && n == WordLen(s)
    requires TokenAt(s[n..], j, w)
    ensures TokenAt(s, j + n, w)
  {
    if j == 0 {
      TokenStartsWithWord(s[n..], w);
      WordLenSpec(s);
      assert false;
    }
    TokenShift(s, n, j, w);
  }

  lemma TokenStartsWithWord(t: string, w: string)
    requires IsWord(w) && TokenAt(t, 0, w)
    ensures |t| > 0 && !IsSpace(t[0])
  {
    assert t[0] == t[..|w|][0];
  }

  /** A token of `s[n..]` not at its very start is a token of `s`. */
  lemma TokenShift(s: string, n: int, j: int, w: string)
    requires 0 <= n <= |s| && j > 0 && TokenAt(s[n..], j, w)
    ensures TokenAt(s, j + n, w)
  {
    var t := s[n..];
    assert s[j + n..j + n + |w|] == t[j..j + |w|];
    assert s[j + n - 1] == t[j - 1];
    if j + n + |w| < |s| {
      assert s[j + n + |w|] == t[j + |w|];
    }
  }

  predicate IsDigit(c: char) {
    '0' <= c <= '9'
  }

  function DigitValue(c: char): (d: nat)
    requires IsDigit(c)
    ensures d < 10
  {
    c as int - '0' as int
  }

  function DigitChar(d: nat): (c: char)
    requires d < 10
    ensures IsDigit(c) && DigitValue(c) == d
  {
    ('0' as int + d) as char
  }

  /** `str(n)` for a natural number. */
  function NatToString(n: nat): (s: string)
    ensures |s| > 0
  {
    if n < 10 then [DigitChar(n)] else NatToString(n / 10) + [DigitChar(n % 10)]
  }

  /** `str(n)` is a string of decimal digits. */
  lemma {:induction false} NatToStringDigits(n: nat)
    ensures forall k :: 0 <= k < |NatToString(n)| ==> IsDigit(NatToString(n)[k])
  {
    if n >= 10 {
      NatToStringDigits(n / 10);
    }
  }

  /** The value of a string of decimal digits. */
  function DigitsValue(s: string): nat
    requires forall k :: 0 <= k < |s| ==> IsDigit(s[k])
  {
    if s == [] then 0 else DigitsValue(s[..|s| - 1]) * 10 + DigitValue(s[|s| - 1])
  }

  lemma {:induction false} NatToStringRoundTrip(n: nat)
    ensures forall k :: 0 <= k < |NatToString(n)| ==> IsDigit(NatToString(n)[k])
    ensures DigitsValue(NatToString(n)) == n
  {
    NatToStringDigits(n);
    if n >= 10 {
      NatToStringDigits(n / 10);
      var s := NatToString(n);
      NatToStringRoundTrip(n / 10);
      assert s[..|s| - 1] == NatToString(n / 10);
    }
  }
}
