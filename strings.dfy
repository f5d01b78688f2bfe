/**
 * The ECMAScript string primitives the plug-in relies on: the character classes of its
 * regular expressions, `trim`, `indexOf`, `replace` with a string pattern, `split` and
 * `join`. Strings are sequences of code points.
 */
module Strings {
  import opened Wrappers

  /** ECMAScript LineTerminator: LF, CR, LINE SEPARATOR, PARAGRAPH SEPARATOR. A `.` in a
      regular expression without the `s` flag matches every other character. */
  predicate IsLineTerminator(c: char) {
    c == '\n' || c == '\r' || c == '\U{2028}' || c == '\U{2029}'
  }

  /** The characters `\s` matches and `trim` removes: ECMAScript WhiteSpace and LineTerminator. */
  predicate IsWhitespace(c: char) {
    || c == '\t' || c == '\U{000B}' || c == '\U{000C}' || c == ' ' || c == '\U{00A0}'
    || c == '\U{FEFF}' || c == '\U{1680}' || ('\U{2000}' <= c <= '\U{200A}')
    || c == '\U{202F}' || c == '\U{205F}' || c == '\U{3000}'
    || IsLineTerminator(c)
  }

  /** `\d` */
  predicate IsDigit(c: char) {
    '0' <= c <= '9'
  }

  /** `\w` (without the `u` and `i` flags) */
  predicate IsWordChar(c: char) {
    ('a' <= c <= 'z') || ('A' <= c <= 'Z') || IsDigit(c) || c == '_'
  }

  predicate AllWhitespace(s: string) {
    forall i :: 0 <= i < |s| ==> IsWhitespace(s[i])
  }

  predicate AllDigits(s: string) {
    forall i :: 0 <= i < |s| ==> IsDigit(s[i])
  }

  predicate NoLineTerminator(s: string) {
    forall i :: 0 <= i < |s| ==> !IsLineTerminator(s[i])
  }

  predicate AllLineTerminators(s: string) {
    forall i :: 0 <= i < |s| ==> IsLineTerminator(s[i])
  }

  /** Length of the longest prefix of `s` made of white space. */
  function WsRun(s: string): (n: nat)
    ensures n <= |s| && AllWhitespace(s[..n])
    ensures n < |s| ==> !IsWhitespace(s[n])
  {
    if |s| > 0 && IsWhitespace(s[0]) then 1 + WsRun(s[1..]) else 0
  }

  /** Every prefix of the leading white space is white space. */
  lemma WsPrefix(s: string, j: nat)
    requires j <= WsRun(s)
    ensures AllWhitespace(s[..j])
  {
    assert s[..j] == s[..WsRun(s)][..j];
  }

  /** Length of the longest prefix of `s` without a line terminator. */
  function NtRun(s: string): (n: nat)
    ensures n <= |s| && NoLineTerminator(s[..n])
    ensures n < |s| ==> IsLineTerminator(s[n])
  {
    if |s| > 0 && !IsLineTerminator(s[0]) then 1 + NtRun(s[1..]) else 0
  }

  /** Length of the longest prefix of `s` made of decimal digits. */
  function DigitRun(s: string): (n: nat)
    ensures n <= |s| && AllDigits(s[..n])
    ensures n < |s| ==> !IsDigit(s[n])
  {
    if |s| > 0 && IsDigit(s[0]) then 1 + DigitRun(s[1..]) else 0
  }

  /** Length of the longest suffix of `s` made of white space. */
  function WsRunEnd(s: string): (n: nat)
    ensures n <= |s| && AllWhitespace(s[|s| - n..])
    ensures n < |s| ==> !IsWhitespace(s[|s| - n - 1])
  {
    if |s| > 0 && IsWhitespace(s[|s| - 1]) then
      var n := 1 + WsRunEnd(s[..|s| - 1]);
      assert s[|s| - n..] == s[..|s| - 1][|s| - n..] + [s[|s| - 1]];
      n
    else 0
  }

  function TrimStart(s: string): (r: string)
    ensures WsRun(s) <= |s| && r == s[WsRun(s)..]
  {
    s[WsRun(s)..]
  }

  function TrimEnd(s: string): (r: string)
    ensures WsRunEnd(s) <= |s| && r == s[..|s| - WsRunEnd(s)]
  {
    s[..|s| - WsRunEnd(s)]
  }

  /** `String.prototype.trim` */
  function Trim(s: string): string {
    TrimEnd(TrimStart(s))
  }

  /** No white space at either end. */
  predicate Trimmed(s: string) {
    |s| == 0 || (!IsWhitespace(s[0]) && !IsWhitespace(s[|s| - 1]))
  }

  /** `trim` leaves no white space at either end, and takes nothing else away: what it
      removes on each side is white space. */
  lemma TrimSpec(s: string)
    ensures Trimmed(Trim(s))
    ensures exists a, b ::
      && 0 <= a <= b <= |s| && Trim(s) == s[a..b]
      && AllWhitespace(s[..a]) && AllWhitespace(s[b..])
  {
    var t := TrimStart(s);
    var a := WsRun(s);
    var e := WsRunEnd(t);
    TrimCut(s, t, Trim(s), a, e);
    if |Trim(s)| > 0 {
      assert Trim(s)[0] == t[0];
    }
  }

  /** Cutting `e` characters of white space off the end of `s[a..]`. */
  lemma TrimCut(s: string, t: string, r: string, a: nat, e: nat)
    requires a <= |s| && t == s[a..] && e <= |t| && r == t[..|t| - e] && AllWhitespace(t[|t| - e..])
    ensures r == s[a..|s| - e] && AllWhitespace(s[|s| - e..])
  {
    assert t[|t| - e..] == s[|s| - e..];
  }

  /** A string without white space at its ends is its own `trim`. */
  lemma TrimFixed(s: string)
    requires Trimmed(s)
    ensures Trim(s) == s
  {
  }

  /** Trimming an added leading space gives back a trimmed string. */
  lemma TrimSpaced(s: string)
    requires Trimmed(s)
    ensures Trim(" " + s) == s
  {
    assert (" " + s)[1..] == s;
  }

  predicate StartsWith(s: string, prefix: string) {
    |prefix| <= |s| && s[..|prefix|] == prefix
  }

  predicate EndsWith(s: string, suffix: string) {
    |suffix| <= |s| && s[|s| - |suffix|..] == suffix
  }

  predicate OccursAt(s: string, pat: string, k: nat) {
    k + |pat| <= |s| && s[k..k + |pat|] == pat
  }

  /** `s.indexOf(pat, from)` for `from <= |s|`: the first occurrence at or after `from`. */
  function IndexOfFrom(s: string, pat: string, from: nat): (r: Option<nat>)
    requires from <= |s|
    ensures r.Some? ==> from <= r.value && OccursAt(s, pat, r.value)
    ensures r.Some? ==> forall k :: from <= k < r.value ==> !OccursAt(s, pat, k)
    ensures r.None? ==> forall k :: from <= k ==> !OccursAt(s, pat, k)
    decreases |s| - from
  {
    if from + |pat| > |s| then None
    else if s[from..from + |pat|] == pat then Some(from)
    else if from == |s| then None
    else IndexOfFrom(s, pat, from + 1)
  }

  function IndexOf(s: string, pat: string): Option<nat> {
    IndexOfFrom(s, pat, 0)
  }

  predicate Contains(s: string, pat: string) {
    IndexOf(s, pat).Some?
  }

  /** `s.replace(pat, rep)` with a string pattern and a replacement without `$` patterns:
      only the first occurrence is replaced. */
  function ReplaceFirst(s: string, pat: string, rep: string): (r: string)
    ensures IndexOf(s, pat).None? ==> r == s
    ensures IndexOf(s, pat).Some? ==>
      var k := IndexOf(s, pat).value; r == s[..k] + rep + s[k + |pat|..]
  {
    match IndexOf(s, pat)
    case None => s
    case Some(k) => s[..k] + rep + s[k + |pat|..]
  }

  /** `s.split(sep)` for a non-empty separator. */
  function Split(s: string, sep: string): (parts: seq<string>)
    requires |sep| > 0
    ensures |parts| >= 1
    decreases |s|
  {
    match IndexOf(s, sep)
    case None => [s]
    case Some(k) => [s[..k]] + Split(s[k + |sep|..], sep)
  }

  /** `parts.join(sep)` */
  function Join(parts: seq<string>, sep: string): string
    decreases |parts|
  {
    if |parts| == 0 then ""
    else if |parts| == 1 then parts[0]
    else parts[0] + sep + Join(parts[1..], sep)
  }

  lemma JoinCons(head: string, tail: seq<string>, sep: string)
    requires |tail| >= 1
    ensures Join([head] + tail, sep) == head + sep + Join(tail, sep)
  {
    assert ([head] + tail)[1..] == tail;
  }

  lemma {:induction false} JoinSplit(s: string, sep: string)
    requires |sep| > 0
    ensures Join(Split(s, sep), sep) == s
    decreases |s|
  {
    match IndexOf(s, sep)
    case None =>
      assert Split(s, sep) == [s];
    case Some(k) =>
      JoinSplit(s[k + |sep|..], sep);
      JoinSplitStep(s, sep, k);
  }

  lemma JoinSplitStep(s: string, sep: string, k: nat)
    requires |sep| > 0 && IndexOf(s, sep) == Some(k)
    requires Join(Split(s[k + |sep|..], sep), sep) == s[k + |sep|..]
    ensures Join(Split(s, sep), sep) == s
  {
    var rest := s[k + |sep|..];
    JoinCons(s[..k], Split(rest, sep), sep);
    assert s[k..k + |sep|] == sep;
    assert s == s[..k] + sep + rest;
  }

  /** No part of a split holds the separator. */
  lemma {:induction false} SplitPartsAvoidSeparator(s: string, sep: string)
    requires |sep| > 0
    ensures forall i :: 0 <= i < |Split(s, sep)| ==> !Contains(Split(s, sep)[i], sep)
    decreases |s|
  {
    match IndexOf(s, sep)
    case None =>
    case Some(k) =>
      SplitPartsAvoidSeparator(s[k + |sep|..], sep);
      var head := s[..k];
      if Contains(head, sep) {
        var j := IndexOf(head, sep).value;
        OccursInPrefix(s, k, sep, j);
        assert false;
      }
  }

  /** An occurrence in a prefix is one in the whole string, before the prefix ends. */
  lemma OccursInPrefix(s: string, k: nat, sep: string, j: nat)
    requires k <= |s| && |sep| > 0 && OccursAt(s[..k], sep, j)
    ensures OccursAt(s, sep, j) && j < k
  {
    assert s[..k][j..j + |sep|] == s[j..j + |sep|];
  }

  /** Joining around one replaced part leaves every other part where it was: the text
      before the part and the text after it are unchanged. */
  lemma JoinUpdate(parts: seq<string>, k: nat, x: string, sep: string)
    requires k < |parts|
    ensures Join(parts, sep) == JoinPrefix(parts, k, sep) + parts[k] + JoinSuffix(parts, k, sep)
    ensures Join(parts[k := x], sep) == JoinPrefix(parts, k, sep) + x + JoinSuffix(parts, k, sep)
  {
    JoinAround(parts, k, x, sep);
    JoinAround(parts, k, parts[k], sep);
    assert parts[k := parts[k]] == parts;
  }

  lemma {:induction false} JoinAround(parts: seq<string>, k: nat, x: string, sep: string)
    requires k < |parts|
    ensures Join(parts[k := x], sep) == JoinPrefix(parts, k, sep) + x + JoinSuffix(parts, k, sep)
    decreases k
  {
    if k == 0 {
      if |parts| > 1 {
        JoinCons(x, parts[1..], sep);
        assert parts[k := x] == [x] + parts[1..];
      }
    } else {
      JoinAround(parts[1..], k - 1, x, sep);
      JoinAroundStep(parts, k, x, sep);
    }
  }

  lemma JoinAroundStep(parts: seq<string>, k: nat, x: string, sep: string)
    requires 0 < k < |parts|
    requires var tl := parts[1..];
      Join(tl[k - 1 := x], sep) == JoinPrefix(tl, k - 1, sep) + x + JoinSuffix(tl, k - 1, sep)
    ensures Join(parts[k := x], sep) == JoinPrefix(parts, k, sep) + x + JoinSuffix(parts, k, sep)
  {
    var tl := parts[1..];
    JoinCons(parts[0], tl[k - 1 := x], sep);
    assert parts[k := x] == [parts[0]] + tl[k - 1 := x];
    JoinPrefixStep(parts, k, sep);
    JoinSuffixStep(parts, k, sep);
  }

  lemma JoinPrefixStep(parts: seq<string>, k: nat, sep: string)
    requires 0 < k < |parts|
    ensures JoinPrefix(parts, k, sep) == parts[0] + sep + JoinPrefix(parts[1..], k - 1, sep)
  {
    if k > 1 {
      assert parts[..k] == [parts[0]] + parts[1..][..k - 1];
      JoinCons(parts[0], parts[1..][..k - 1], sep);
    }
  }

  lemma JoinSuffixStep(parts: seq<string>, k: nat, sep: string)
    requires 0 < k < |parts|
    ensures JoinSuffix(parts, k, sep) == JoinSuffix(parts[1..], k - 1, sep)
  {
    assert parts[1..][k..] == parts[k + 1..];
  }

  /** The text `Join` puts before part `k`. */
  function JoinPrefix(parts: seq<string>, k: nat, sep: string): string
    requires k < |parts|
  {
    if k == 0 then "" else Join(parts[..k], sep) + sep
  }

  /** The text `Join` puts after part `k`. */
  function JoinSuffix(parts: seq<string>, k: nat, sep: string): string
    requires k < |parts|
  {
    if k == |parts| - 1 then "" else sep + Join(parts[k + 1..], sep)
  }

  /** Code-point order on strings: `a < b` in ECMAScript for strings of the Basic
      Multilingual Plane. */
  predicate LexLess(a: string, b: string)
    decreases |a|
  {
    if |a| == 0 then |b| > 0
    else |b| > 0 && (a[0] < b[0] || (a[0] == b[0] && LexLess(a[1..], b[1..])))
  }

  lemma {:induction false} LexIrreflexive(a: string)
    ensures !LexLess(a, a)
    decreases |a|
  {
    if |a| > 0 {
      LexIrreflexive(a[1..]);
    }
  }

  lemma {:induction false} LexTransitive(a: string, b: string, c: string)
    requires LexLess(a, b) && LexLess(b, c)
    ensures LexLess(a, c)
    decreases |a|
  {
    if |a| > 0 && a[0] == b[0] && b[0] == c[0] {
      LexTransitive(a[1..], b[1..], c[1..]);
    }
  }

  lemma {:induction false} LexAsymmetric(a: string, b: string)
    ensures !(LexLess(a, b) && LexLess(b, a))
    decreases |a|
  {
    if |a| > 0 && |b| > 0 && a[0] == b[0] {
      LexAsymmetric(a[1..], b[1..]);
    }
  }

  /** Any two different strings are ordered one way or the other. */
  lemma {:induction false} LexTotal(a: string, b: string)
    ensures a == b || LexLess(a, b) || LexLess(b, a)
    decreases |a|
  {
    if |a| > 0 && |b| > 0 && a[0] == b[0] {
      LexTotal(a[1..], b[1..]);
      if a[1..] == b[1..] {
        assert a == [a[0]] + a[1..] && b == [b[0]] + b[1..];
      }
    }
  }

  /** Lower-cases the ASCII letters; other characters are kept. */
  function LowerChar(c: char): char {
    if 'A' <= c <= 'Z' then (c as int + 32) as char else c
  }

  predicate HasUpper(s: string) {
    exists i :: 0 <= i < |s| && 'A' <= s[i] <= 'Z'
  }

  function Lower(s: string): (r: string)
    ensures |r| == |s| && forall i :: 0 <= i < |s| ==> r[i] == LowerChar(s[i])
    ensures !HasUpper(r)
  {
    seq(|s|, i requires 0 <= i < |s| => LowerChar(s[i]))
  }

  /** Lower-casing twice is lower-casing once. */
  lemma LowerIdempotent(s: string)
    ensures Lower(Lower(s)) == Lower(s)
  {
    LowerPlain(Lower(s));
  }

  /** Text without `A`-`Z` is its own lower case, and only such text is. */
  lemma LowerPlain(s: string)
    ensures Lower(s) == s <==> !HasUpper(s)
  {
    if !HasUpper(s) {
      assert forall i :: 0 <= i < |s| ==> Lower(s)[i] == s[i];
    }
  }

  function CountChar(s: string, c: char): (n: nat)
    ensures n <= |s|
  {
    if |s| == 0 then 0 else (if s[0] == c then 1 else 0) + CountChar(s[1..], c)
  }

  /** `n.toString()` */
  function NatToString(n: nat): (r: string)
    ensures |r| >= 1 && AllDigits(r)
  {
    if n < 10 then [('0' as int + n) as char]
    else NatToString(n / 10) + [('0' as int + n % 10) as char]
  }
}
