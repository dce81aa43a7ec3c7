/**
 * The parts of Python's `str` that the modelled code relies on, written out
 * over `seq<char>`: whitespace and line boundaries as Python defines them,
 * strip, splitlines, join, find, count, startswith/endswith, the ASCII part
 * of lower()/isalnum(), str(int) and int(str).
 */
module PyStr {
  import opened Wrappers

  /** `c.isspace()` for a one-character string. */
  predicate IsSpace(c: char) {
    c == ' ' || c == '\t' || c == '\n' || c == '\r' || c == '\U{0B}' || c == '\U{0C}'
    || ('\U{1C}' <= c <= '\U{1F}') || c == '\U{85}' || c == '\U{A0}' || c == '\U{1680}'
    || ('\U{2000}' <= c <= '\U{200A}') || c == '\U{2028}' || c == '\U{2029}'
    || c == '\U{202F}' || c == '\U{205F}' || c == '\U{3000}'
  }

  /** The characters at which `str.splitlines()` ends a line. */
  predicate IsLineBreak(c: char) {
    c == '\n' || c == '\r' || c == '\U{0B}' || c == '\U{0C}' || c == '\U{1C}' || c == '\U{1D}'
    || c == '\U{1E}' || c == '\U{85}' || c == '\U{2028}' || c == '\U{2029}'
  }

  /** `s.lstrip()` */
  function LStrip(s: string): (r: string)
    ensures |r| <= |s| && r == s[|s| - |r|..]
    ensures r != [] ==> !IsSpace(r[0])
    ensures forall i :: 0 <= i < |s| - |r| ==> IsSpace(s[i])
  {
    if s != [] && IsSpace(s[0]) then LStrip(s[1..]) else s
  }

  /** `s.rstrip()` */
  function RStrip(s: string): (r: string)
    ensures |r| <= |s| && r == s[..|r|]
    ensures r != [] ==> !IsSpace(r[|r| - 1])
    ensures forall i :: |r| <= i < |s| ==> IsSpace(s[i])
  {
    if s != [] && IsSpace(s[|s| - 1]) then RStrip(s[..|s| - 1]) else s
  }

  /** `s.strip()`: no whitespace at either end, and only whitespace was removed. */
  function Strip(s: string): (r: string)
    ensures |r| <= |s|
    ensures r != [] ==> !IsSpace(r[0]) && !IsSpace(r[|r| - 1])
    ensures r == [] <==> forall i :: 0 <= i < |s| ==> IsSpace(s[i])
  {
    var l := LStrip(s);
    var t := RStrip(l);
    t
  }

  /** `s.strip()` leaves a string alone when neither end is whitespace. */
  lemma StripKeeps(s: string)
    requires s != [] && !IsSpace(s[0]) && !IsSpace(s[|s| - 1])
    ensures Strip(s) == s
  {
    assert LStrip(s) == s;
    assert RStrip(s) == s;
  }

  /** Index of the first line boundary in `s`, or `|s|` when there is none. */
  function FirstBreak(s: string): (i: nat)
    ensures i <= |s|
    ensures i < |s| ==> IsLineBreak(s[i])
    ensures forall j :: 0 <= j < i ==> !IsLineBreak(s[j])
  {
    if s == [] then 0 else if IsLineBreak(s[0]) then 0 else 1 + FirstBreak(s[1..])
  }

  /**
   * `s.splitlines()`: the lines of `s` without their terminators; "\r\n"
   * is one terminator and a final terminator does not start an empty line.
   */
  function SplitLines(s: string): (lines: seq<string>)
    ensures s == [] <==> lines == []
    ensures forall k :: 0 <= k < |lines| ==> forall j :: 0 <= j < |lines[k]| ==> !IsLineBreak(lines[k][j])
    decreases |s|
  {
    if s == [] then []
    else
      var i := FirstBreak(s);
      if i == |s| then [s]
      else
        var w := if s[i] == '\r' && i + 1 < |s| && s[i + 1] == '\n' then 2 else 1;
        [s[..i]] + SplitLines(s[i + w..])
  }

  /** `sep.join(parts)` */
  function Join(sep: string, parts: seq<string>): (r: string)
    ensures |parts| == 1 ==> r == parts[0]
  {
    if parts == [] then "" else if |parts| == 1 then parts[0] else parts[0] + sep + Join(sep, parts[1..])
  }

  /** `s.startswith(p)` */
  predicate StartsWith(s: string, p: string) {
    |p| <= |s| && s[..|p|] == p
  }

  /** `s.endswith(p)` */
  predicate EndsWith(s: string, p: string) {
    |p| <= |s| && s[|s| - |p|..] == p
  }

  /** `sub` occurs in `s` at offset `i`. */
  predicate OccursAt(s: string, sub: string, i: int) {
    0 <= i && i + |sub| <= |s| && s[i..i + |sub|] == sub
  }

  /**
   * `s.find(sub, start)`: the least offset at or after `start` where `sub`
   * occurs, or -1.
   */
  function Find(s: string, sub: string, start: nat): (r: int)
    ensures r == -1 || (start <= r && OccursAt(s, sub, r))
    ensures r != -1 ==> forall i :: start <= i < r ==> !OccursAt(s, sub, i)
    ensures r == -1 ==> forall i :: start <= i ==> !OccursAt(s, sub, i)
    decreases |s| - start
  {
    if start + |sub| > |s| then -1
    else if s[start..start + |sub|] == sub then start
    else Find(s, sub, start + 1)
  }

  /** `sub` occurs in `s` at offset `k` and at no smaller offset. */
  predicate FirstOccurrence(s: string, sub: string, k: int) {
    OccursAt(s, sub, k) && forall i :: 0 <= i < k ==> !OccursAt(s, sub, i)
  }

  /** `sub in s` */
  predicate Contains(s: string, sub: string) {
    exists i :: 0 <= i <= |s| - |sub| && OccursAt(s, sub, i)
  }

  /** `s.find(sub)` is -1 exactly when `sub` does not occur, and else its first offset. */
  lemma FindFirst(s: string, sub: string)
    ensures Find(s, sub, 0) == -1 <==> !Contains(s, sub)
    ensures forall k :: FirstOccurrence(s, sub, k) ==> Find(s, sub, 0) == k
    ensures StartsWith(s, sub) ==> FirstOccurrence(s, sub, 0)
  {
    var f := Find(s, sub, 0);
    if f != -1 {
      assert OccursAt(s, sub, f);
    }
  }

  /** `s.count(c)` for a single character `c`. */
  function CountChar(s: string, c: char): (n: nat)
    ensures n <= |s|
  {
    if s == [] then 0 else (if s[0] == c then 1 else 0) + CountChar(s[1..], c)
  }

  lemma {:induction false} CountCharAppend(a: string, b: string, c: char)
    ensures CountChar(a + b, c) == CountChar(a, c) + CountChar(b, c)
  {
    if a != [] {
      assert (a + b)[1..] == a[1..] + b;
      CountCharAppend(a[1..], b, c);
    } else {
      assert a + b == b;
    }
  }

  lemma {:induction false} CountCharNone(s: string, c: char)
    requires c !in s
    ensures CountChar(s, c) == 0
  {
    if s != [] {
      assert forall i :: 0 <= i < |s[1..]| ==> s[1..][i] == s[i + 1];
      CountCharNone(s[1..], c);
    }
  }

  /** Joined parts end with the last two of them, joined. */
  lemma {:induction false} JoinEnds(sep: string, parts: seq<string>)
    requires |parts| >= 2
    ensures EndsWith(Join(sep, parts), parts[|parts| - 2] + sep + parts[|parts| - 1])
    decreases |parts|
  {
    if |parts| > 2 {
      JoinEnds(sep, parts[1..]);
      var t := parts[|parts| - 2] + sep + parts[|parts| - 1];
      var j := Join(sep, parts[1..]);
      assert Join(sep, parts) == parts[0] + sep + j;
      assert (parts[0] + sep + j)[|parts[0] + sep + j| - |t|..] == j[|j| - |t|..];
    } else {
      assert parts[1..] == [parts[1]];
    }
  }

  /** Joining one more part appends the separator and that part. */
  lemma {:induction false} JoinSnoc(sep: string, parts: seq<string>, last: string)
    requires parts != []
    ensures Join(sep, parts + [last]) == Join(sep, parts) + sep + last
    decreases |parts|
  {
    var ps := parts + [last];
    if |parts| > 1 {
      assert ps[1..] == parts[1..] + [last];
      JoinSnoc(sep, parts[1..], last);
    } else {
      assert ps[1..] == [last];
    }
  }

  /** ASCII part of `c.lower()`. */
  function LowerChar(c: char): char {
    if 'A' <= c <= 'Z' then (c as int + 32) as char else c
  }

  /** `s.lower()` restricted to ASCII letters. */
  function Lower(s: string): (r: string)
    ensures |r| == |s| && forall i :: 0 <= i < |s| ==> r[i] == LowerChar(s[i])
  {
    if s == [] then "" else [LowerChar(s[0])] + Lower(s[1..])
  }

  /** ASCII part of `c.isalnum()`. */
  predicate IsAlnum(c: char) {
    ('a' <= c <= 'z') || ('A' <= c <= 'Z') || ('0' <= c <= '9')
  }

  predicate IsDigit(c: char) {
    '0' <= c <= '9'
  }

  function DigitChar(d: nat): char
    requires d < 10
  {
    "0123456789"[d]
  }

  /** `str(n)` for a natural number. */
  function NatToString(n: nat): (r: string)
    ensures r != [] && forall i :: 0 <= i < |r| ==> IsDigit(r[i])
  {
    if n < 10 then [DigitChar(n)] else NatToString(n / 10) + [DigitChar(n % 10)]
  }

  /** `str(i)` for an integer. */
  function IntToString(i: int): (r: string)
    ensures r != []
  {
    if i < 0 then "-" + NatToString(-i) else NatToString(i)
  }

  /** The value of a non-empty string of ASCII digits. */
  function DigitsValue(s: string): nat
    requires forall i :: 0 <= i < |s| ==> IsDigit(s[i])
  {
    if s == [] then 0
    else
      assert IsDigit(s[|s| - 1]);
      DigitsValue(s[..|s| - 1]) * 10 + (s[|s| - 1] as int - '0' as int)
  }

  predicate AllDigits(s: string) {
    s != [] && forall i :: 0 <= i < |s| ==> IsDigit(s[i])
  }

  /**
   * `int(s)` for a string: surrounding whitespace, an optional sign, then
   * ASCII digits; None where Python raises ValueError.
   */
  function ParseInt(s: string): (r: Option<int>)
    ensures AllDigits(Strip(s)) ==> r == Some(DigitsValue(Strip(s)))
  {
    var t := Strip(s);
    if AllDigits(t) then Some(DigitsValue(t))
    else if |t| >= 2 && (t[0] == '+' || t[0] == '-') && AllDigits(t[1..]) then
      var v: int := DigitsValue(t[1..]);
      Some(if t[0] == '-' then -v else v)
    else None
  }

  /** `int(str(n)) == n` */
  lemma {:induction false} DigitsValueOf(n: nat)
    ensures DigitsValue(NatToString(n)) == n
  {
    if n >= 10 {
      var p := NatToString(n / 10);
      DigitsValueOf(n / 10);
      var s := p + [DigitChar(n % 10)];
      assert s[..|s| - 1] == p;
    }
  }

  lemma ParseNatString(n: nat)
    ensures ParseInt(NatToString(n)) == Some(n)
  {
    var d := NatToString(n);
    assert IsDigit(d[0]) && IsDigit(d[|d| - 1]);
    StripKeeps(d);
    DigitsValueOf(n);
  }

  /** `s.split(sep, 1)[0]`: the text before the first `sep`, or all of `s`. */
  function BeforeFirst(s: string, sep: char): (r: string)
    ensures |r| <= |s| && r == s[..|r|]
    ensures forall i :: 0 <= i < |r| ==> r[i] != sep
    ensures |r| < |s| ==> s[|r|] == sep
  {
    if s == [] then "" else if s[0] == sep then "" else [s[0]] + BeforeFirst(s[1..], sep)
  }

  /** `s.split()` with no argument: the maximal runs of non-whitespace. */
  function SplitWhitespace(s: string): (r: seq<string>)
    ensures forall k :: 0 <= k < |r| ==> r[k] != [] && forall j :: 0 <= j < |r[k]| ==> !IsSpace(r[k][j])
    decreases |s|
  {
    var t := LStrip(s);
    if t == [] then []
    else
      var w := WordLen(t);
      var rest := SplitWhitespace(t[w..]);
      WordsCons(t[..w], rest);
      [t[..w]] + rest
  }

  lemma WordsCons(w: string, rest: seq<string>)
    requires w != [] && forall j :: 0 <= j < |w| ==> !IsSpace(w[j])
    requires forall k :: 0 <= k < |rest| ==> rest[k] != [] && forall j :: 0 <= j < |rest[k]| ==> !IsSpace(rest[k][j])
    ensures forall k :: 0 <= k < |[w] + rest| ==> ([w] + rest)[k] != [] && forall j :: 0 <= j < |([w] + rest)[k]| ==> !IsSpace(([w] + rest)[k][j])
  {
    var r := [w] + rest;
    forall k | 0 <= k < |r|
      ensures r[k] != [] && forall j :: 0 <= j < |r[k]| ==> !IsSpace(r[k][j])
    {
      if k > 0 {
        assert r[k] == rest[k - 1];
      }
    }
  }

  /** Length of the leading run of non-whitespace characters. */
  function WordLen(s: string): (n: nat)
    ensures n <= |s|
    ensures forall j :: 0 <= j < n ==> !IsSpace(s[j])
    ensures n < |s| ==> IsSpace(s[n])
  {
    if s == [] || IsSpace(s[0]) then 0 else 1 + WordLen(s[1..])
  }
  /** A word of `x` ends where whitespace (or the end of the string) follows it. */
  lemma {:induction false} WordLenOf(x: string, rest: string)
    requires forall j :: 0 <= j < |x| ==> !IsSpace(x[j])
    requires rest == [] || IsSpace(rest[0])
    ensures WordLen(x + rest) == |x|
    decreases |x|
  {
    if x != [] {
      assert (x + rest)[1..] == x[1..] + rest;
      WordLenOf(x[1..], rest);
    } else {
      assert x + rest == rest;
    }
  }

  /** `(x + " " + y).split()` is `[x, y]` for two words. */
  lemma SplitTwoWords(x: string, y: string)
    requires x != [] && forall j :: 0 <= j < |x| ==> !IsSpace(x[j])
    requires y != [] && forall j :: 0 <= j < |y| ==> !IsSpace(y[j])
    ensures SplitWhitespace(x + " " + y) == [x, y]
  {
    var s := x + (" " + y);
    assert x + " " + y == s;
    SplitCons(s);
    WordLenOf(x, " " + y);
    assert s[..|x|] == x && s[|x|..] == " " + y;
    SplitSpaced(y);
    SplitOneWord(y);
    assert SplitWhitespace(s) == [x] + [y];
    PairAppend(x, y);
  }

  lemma PairAppend<T>(a: T, b: T)
    ensures [a] + [b] == [a, b]
  {
  }

  /** The first word of a string with no leading whitespace, and the split of what follows it. */
  lemma SplitCons(s: string)
    requires s != [] && !IsSpace(s[0])
    ensures SplitWhitespace(s) == [s[..WordLen(s)]] + SplitWhitespace(s[WordLen(s)..])
  {
    assert LStrip(s) == s;
  }

  lemma SplitSpaced(y: string)
    requires y != [] && !IsSpace(y[0])
    ensures SplitWhitespace(" " + y) == SplitWhitespace(y)
  {
    assert (" " + y)[1..] == y;
    assert LStrip(" " + y) == LStrip(y) == y;
  }

  lemma SplitOneWord(y: string)
    requires y != [] && forall j :: 0 <= j < |y| ==> !IsSpace(y[j])
    ensures SplitWhitespace(y) == [y]
  {
    assert LStrip(y) == y;
    WordLenOf(y, []);
    assert y + [] == y;
    assert y[..|y|] == y && y[|y|..] == [];
  }

  /** `(" " + u + " ").strip()` is `u` for a `u` with no whitespace at either end. */
  lemma StripPadded(u: string)
    requires u != [] && !IsSpace(u[0]) && !IsSpace(u[|u| - 1])
    ensures Strip(" " + u + " ") == u
  {
    var s := " " + u + " ";
    assert s[1..] == u + " ";
    assert LStrip(u + " ") == u + " ";
    assert (u + " ")[..|u|] == u;
    assert RStrip(u) == u;
  }

  /** `s.split(sep)` for a one-character separator: never an empty list. */
  function Split(s: string, sep: char): (r: seq<string>)
    ensures |r| >= 1
    ensures forall k :: 0 <= k < |r| ==> sep !in r[k]
    ensures forall k, i :: 0 <= k < |r| && 0 <= i < |r[k]| ==> r[k][i] in s
    decreases |s|
  {
    var h := BeforeFirst(s, sep);
    if |h| == |s| then [s]
    else
      var rest := Split(s[|h| + 1..], sep);
      assert forall k, i :: 0 <= k < |rest| && 0 <= i < |rest[k]| ==> rest[k][i] in s by {
        forall k, i | 0 <= k < |rest| && 0 <= i < |rest[k]| ensures rest[k][i] in s {
          var j :| 0 <= j < |s[|h| + 1..]| && s[|h| + 1..][j] == rest[k][i];
          assert s[|h| + 1 + j] == rest[k][i];
        }
      }
      [h] + rest
  }

  /** Joining the parts of a split with the separator gives the string back. */
  lemma {:induction false} SplitJoin(s: string, sep: char)
    ensures Join([sep], Split(s, sep)) == s
    decreases |s|
  {
    var h := BeforeFirst(s, sep);
    if |h| < |s| {
      var t := s[|h| + 1..];
      var rest := Split(t, sep);
      SplitJoin(t, sep);
      assert Split(s, sep) == [h] + rest;
      assert ([h] + rest)[1..] == rest;
      assert Join([sep], [h] + rest) == h + [sep] + Join([sep], rest);
      CutAt(s, |h|);
    } else {
      assert Split(s, sep) == [s];
    }
  }

  /** A string is its part before position `k`, the character at `k`, and the rest. */
  lemma CutAt(s: string, k: nat)
    requires k < |s|
    ensures s == s[..k] + [s[k]] + s[k + 1..]
  {
    assert s[..k + 1] == s[..k] + [s[k]];
    assert s[..k + 1] + s[k + 1..] == s;
  }

  /** `s.rstrip(c)` for a single character `c`. */
  function RStripChar(s: string, c: char): (r: string)
    ensures |r| <= |s| && r == s[..|r|]
    ensures r != [] ==> r[|r| - 1] != c
  {
    if s != [] && s[|s| - 1] == c then RStripChar(s[..|s| - 1], c) else s
  }

  /** `s.replace(a, b)` for one-character strings. */
  function ReplaceChar(s: string, a: char, b: char): (r: string)
    ensures |r| == |s| && forall i :: 0 <= i < |s| ==> r[i] == (if s[i] == a then b else s[i])
  {
    if s == [] then "" else [if s[0] == a then b else s[0]] + ReplaceChar(s[1..], a, b)
  }

  /** `c * n` for a one-character string `c`. */
  function Repeat(c: char, n: nat): (r: string)
    ensures |r| == n && forall i :: 0 <= i < n ==> r[i] == c
  {
    if n == 0 then "" else [c] + Repeat(c, n - 1)
  }

  /**
   * `posixpath.normpath(p)`: drop empty and "." components, let ".." cancel
   * the component before it (and vanish at the root of an absolute path),
   * keep exactly two leading slashes when there are exactly two, else at
   * most one; the empty result is ".".
   */
  function NormPath(p: string): (r: string)
    ensures r != []
  {
    if p == [] then "."
    else
      var slashes := if StartsWith(p, "//") && !StartsWith(p, "///") then 2
                     else if StartsWith(p, "/") then 1 else 0;
      var comps := NormComps([], Split(p, '/'), slashes > 0);
      var r := Repeat('/', slashes) + Join("/", comps);
      if r == [] then "." else r
  }

  /** The component loop of `posixpath.normpath`. */
  function NormComps(acc: seq<string>, comps: seq<string>, absolute: bool): seq<string>
    decreases |comps|
  {
    if comps == [] then acc
    else
      var c := comps[0];
      var acc' :=
        if c == "" || c == "." then acc
        else if c != ".." || (!absolute && acc == []) || (acc != [] && acc[|acc| - 1] == "..") then acc + [c]
        else if acc != [] then acc[..|acc| - 1]
        else acc;
      NormComps(acc', comps[1..], absolute)
  }
}
