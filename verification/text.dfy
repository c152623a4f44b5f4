/**
 * String primitives the Python and TypeScript sources rely on: whitespace
 * splitting (`str.split()`), case folding (`str.lower()`, `toLowerCase()`),
 * stripping (`str.strip(chars)`), substring tests (`in`, `includes`),
 * `startswith`, the first line of a text, `", ".join(...)` and `str(n)`.
 */
module Text {

  /** Python's `str.isspace()` on one character. */
  predicate IsSpace(c: char) {
    || c == ' ' || c == '\t' || c == '\n' || c == '\r' || c == '\U{B}' || c == '\U{C}'
    || ('\U{1C}' <= c <= '\U{1F}') || c == '\U{85}' || c == '\U{A0}' || c == '\U{1680}'
    || ('\U{2000}' <= c <= '\U{200A}') || c == '\U{2028}' || c == '\U{2029}'
    || c == '\U{202F}' || c == '\U{205F}' || c == '\U{3000}'
  }

  /** Lower-casing of ASCII and Latin-1 capitals (the letters of German and English text). */
  function LowerChar(c: char): char {
    if 'A' <= c <= 'Z' || ('\U{C0}' <= c <= '\U{DE}' && c != '\U{D7}') then (c as int + 32) as char else c
  }

  function Lower(s: string): string {
    seq(|s|, i requires 0 <= i < |s| => LowerChar(s[i]))
  }

  lemma LowerAppend(a: string, b: string)
    ensures Lower(a + b) == Lower(a) + Lower(b)
  {
  }

  predicate StartsWith(s: string, p: string) {
    |p| <= |s| && s[..|p|] == p
  }

  predicate OccursAt(s: string, p: string, i: int) {
    0 <= i && i + |p| <= |s| && s[i..i + |p|] == p
  }

  /** `p in s` in Python, `s.includes(p)` in TypeScript. */
  predicate Contains(s: string, p: string) {
    exists i | 0 <= i <= |s| - |p| :: OccursAt(s, p, i)
  }

  /** Whether the two characters `a`, `b` appear next to each other in `s`. */
  predicate HasPair(s: string, a: char, b: char) {
    exists i | 0 <= i < |s| - 1 :: s[i] == a && s[i + 1] == b
  }

  lemma PrefixContained(s: string, p: string)
    requires StartsWith(s, p)
    ensures Contains(s, p)
  {
    assert OccursAt(s, p, 0);
  }

  /** An occurrence of `p` brings each pair of its adjacent characters with it, so a text lacking one such pair lacks `p`. */
  lemma ContainsNeedsPair(s: string, p: string, j: nat)
    requires j + 1 < |p|
    ensures Contains(s, p) ==> HasPair(s, p[j], p[j + 1])
  {
    if Contains(s, p) {
      var i :| 0 <= i <= |s| - |p| && OccursAt(s, p, i);
      assert s[i..i + |p|][j] == s[i + j] && s[i..i + |p|][j + 1] == s[i + j + 1];
    }
  }

  /** An occurrence in either half is an occurrence in the whole. */
  lemma ContainsAppend(a: string, b: string, p: string)
    ensures Contains(a, p) || Contains(b, p) ==> Contains(a + b, p)
  {
    if Contains(a, p) {
      var i :| 0 <= i <= |a| - |p| && OccursAt(a, p, i);
      assert (a + b)[i..i + |p|] == a[i..i + |p|];
      assert OccursAt(a + b, p, i);
    } else if Contains(b, p) {
      var i :| 0 <= i <= |b| - |p| && OccursAt(b, p, i);
      assert (a + b)[|a| + i..|a| + i + |p|] == b[i..i + |p|];
      assert OccursAt(a + b, p, |a| + i);
    }
  }

  lemma LowerJoin(a: string, b: string, la: string, lb: string)
    requires Lower(a) == la && Lower(b) == lb
    ensures Lower(a + b) == la + lb
  {
    LowerAppend(a, b);
  }

  /** A pattern with an adjacent pair that neither half has, nor their seam, does not occur in the whole. */
  lemma LacksAcross(a: string, b: string, p: string, j: nat)
    requires j + 1 < |p| && !HasPair(a, p[j], p[j + 1]) && !HasPair(b, p[j], p[j + 1])
    requires a == [] || b == [] || a[|a| - 1] != p[j] || b[0] != p[j + 1]
    ensures !Contains(a + b, p)
  {
    NoPairAppend(a, b, p[j], p[j + 1]);
    ContainsNeedsPair(a + b, p, j);
  }

  /** A pair absent from both halves and not formed at the seam is absent from the whole. */
  lemma NoPairAppend(a: string, b: string, x: char, y: char)
    requires !HasPair(a, x, y) && !HasPair(b, x, y)
    requires a == [] || b == [] || a[|a| - 1] != x || b[0] != y
    ensures !HasPair(a + b, x, y)
  {
    var s := a + b;
    forall i | 0 <= i < |s| - 1
      ensures !(s[i] == x && s[i + 1] == y)
    {
      if i + 1 < |a| {
        assert s[i] == a[i] && s[i + 1] == a[i + 1];
      } else if i >= |a| {
        assert s[i] == b[i - |a|] && s[i + 1] == b[i - |a| + 1];
      } else {
        assert s[i] == a[|a| - 1] && s[i + 1] == b[0];
      }
    }
  }

  // ---------------------------------------------------------------------
  // str.strip(chars)

  function TrimLeft(s: string, drop: char -> bool): (r: string)
    ensures |r| <= |s| && r == s[|s| - |r|..]
    ensures forall k :: 0 <= k < |s| - |r| ==> drop(s[k])
    ensures |r| > 0 ==> !drop(r[0])
    decreases |s|
  {
    if |s| > 0 && drop(s[0]) then TrimLeft(s[1..], drop) else s
  }

  function TrimRight(s: string, drop: char -> bool): (r: string)
    ensures |r| <= |s| && r == s[..|r|]
    ensures forall k :: |r| <= k < |s| ==> drop(s[k])
    ensures |r| > 0 ==> !drop(r[|r| - 1])
    decreases |s|
  {
    if |s| > 0 && drop(s[|s| - 1]) then TrimRight(s[..|s| - 1], drop) else s
  }

  /** Python's `s.strip(chars)`: drop characters satisfying `drop` from both ends. */
  function Strip(s: string, drop: char -> bool): (r: string)
    ensures |r| <= |s|
    ensures |r| > 0 ==> !drop(r[0]) && !drop(r[|r| - 1])
  {
    TrimRight(TrimLeft(s, drop), drop)
  }

  // ---------------------------------------------------------------------
  // str.split() with no separator: the maximal runs of non-whitespace

  function SkipSpaces(s: string, i: nat): (j: nat)
    requires i <= |s|
    ensures i <= j <= |s|
    ensures forall k :: i <= k < j ==> IsSpace(s[k])
    ensures j < |s| ==> !IsSpace(s[j])
    decreases |s| - i
  {
    if i < |s| && IsSpace(s[i]) then SkipSpaces(s, i + 1) else i
  }

  function SkipWord(s: string, i: nat): (j: nat)
    requires i <= |s|
    ensures i <= j <= |s|
    ensures forall k :: i <= k < j ==> !IsSpace(s[k])
    ensures j < |s| ==> IsSpace(s[j])
    decreases |s| - i
  {
    if i < |s| && !IsSpace(s[i]) then SkipWord(s, i + 1) else i
  }

  function WordsFrom(s: string, i: nat): (ws: seq<string>)
    requires i <= |s|
    ensures forall n :: 0 <= n < |ws| ==> |ws[n]| > 0
    ensures forall n, k :: 0 <= n < |ws| && 0 <= k < |ws[n]| ==> !IsSpace(ws[n][k])
    decreases |s| - i
  {
    var p := SkipSpaces(s, i);
    if p == |s| then []
    else
      var q := SkipWord(s, p);
      [s[p..q]] + WordsFrom(s, q)
  }

  /** Python's `s.split()`. */
  function Words(s: string): seq<string> {
    WordsFrom(s, 0)
  }

  /** Position `k` begins a maximal run of non-whitespace characters. */
  predicate IsWordStart(s: string, k: int) {
    0 <= k < |s| && !IsSpace(s[k]) && (k == 0 || IsSpace(s[k - 1]))
  }

  function CountStartsFrom(s: string, i: nat): nat
    decreases |s| - i
  {
    if i >= |s| then 0 else (if IsWordStart(s, i) then 1 else 0) + CountStartsFrom(s, i + 1)
  }

  /** The number of maximal non-whitespace runs of `s`, counted position by position. */
  function WordRuns(s: string): nat {
    CountStartsFrom(s, 0)
  }

  lemma {:induction false} StartsAcrossSpaces(s: string, i: nat, j: nat)
    requires i <= j <= |s|
    requires forall k :: i <= k < j ==> IsSpace(s[k])
    ensures CountStartsFrom(s, i) == CountStartsFrom(s, j)
    decreases j - i
  {
    if i < j {
      StartsAcrossSpaces(s, i + 1, j);
    }
  }

  lemma {:induction false} StartsInsideWord(s: string, i: nat, j: nat)
    requires 0 < i <= j <= |s|
    requires forall k :: i - 1 <= k < j ==> !IsSpace(s[k])
    ensures CountStartsFrom(s, i) == CountStartsFrom(s, j)
    decreases j - i
  {
    if i < j {
      StartsInsideWord(s, i + 1, j);
    }
  }

  lemma {:induction false} WordsFromCountsRuns(s: string, i: nat)
    requires i <= |s|
    requires i == 0 || i == |s| || IsSpace(s[i - 1]) || IsSpace(s[i])
    ensures |WordsFrom(s, i)| == CountStartsFrom(s, i)
    decreases |s| - i
  {
    var p := SkipSpaces(s, i);
    StartsAcrossSpaces(s, i, p);
    if p < |s| {
      var q := SkipWord(s, p);
      assert IsWordStart(s, p);
      StartsInsideWord(s, p + 1, q);
      WordsFromCountsRuns(s, q);
    }
  }

  /** `len(s.split())` is the number of maximal non-whitespace runs. */
  lemma WordCountIsRuns(s: string)
    ensures |Words(s)| == WordRuns(s)
  {
    WordsFromCountsRuns(s, 0);
  }

  // ---------------------------------------------------------------------
  // lines, joining, number formatting

  /** `s.split('\n')[0]`. */
  function FirstLine(s: string): (line: string)
    ensures StartsWith(s, line)
    ensures '\n' !in line
    ensures |line| < |s| ==> s[|line|] == '\n'
  {
    if |s| == 0 || s[0] == '\n' then "" else [s[0]] + FirstLine(s[1..])
  }

  /** The first line of `line + rest` is `line` when `rest` is empty or begins a new line. */
  lemma {:induction false} FirstLineOf(line: string, rest: string)
    requires '\n' !in line
    requires rest == [] || rest[0] == '\n'
    ensures FirstLine(line + rest) == line
    decreases |line|
  {
    if |line| > 0 {
      assert (line + rest)[1..] == line[1..] + rest;
      FirstLineOf(line[1..], rest);
    }
  }

  /** `sep.join(xs)`. */
  function Join(sep: string, xs: seq<string>): string {
    if |xs| == 0 then ""
    else if |xs| == 1 then xs[0]
    else xs[0] + sep + Join(sep, xs[1..])
  }

  /** Every joined part occurs in the joined string. */
  lemma {:induction false} JoinContains(sep: string, xs: seq<string>, i: nat)
    requires i < |xs|
    ensures Contains(Join(sep, xs), xs[i])
    decreases |xs|
  {
    var x := xs[0];
    assert OccursAt(x, x, 0) by {
      assert x[0..|x|] == x;
    }
    if |xs| > 1 {
      var rest := Join(sep, xs[1..]);
      assert Join(sep, xs) == (x + sep) + rest;
      if i == 0 {
        ContainsAppend(x, sep, x);
        ContainsAppend(x + sep, rest, x);
      } else {
        assert xs[1..][i - 1] == xs[i];
        JoinContains(sep, xs[1..], i - 1);
        ContainsAppend(x + sep, rest, xs[i]);
      }
    }
  }

  predicate IsDigit(c: char) {
    '0' <= c <= '9'
  }

  /** `str(n)` for a natural number. */
  function NatToString(n: nat): (r: string)
    ensures |r| > 0
    ensures forall k :: 0 <= k < |r| ==> IsDigit(r[k])
  {
    var d := ['0' + (n % 10) as char];
    if n < 10 then d else NatToString(n / 10) + d
  }
}
