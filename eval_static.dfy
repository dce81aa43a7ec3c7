/**
 * The static evaluation of a predicted patch against the mutation log: the
 * unified-diff hunk headers give, per file, the new-side line ranges the
 * patch touches, and one pass over the log counts the mutated Python files,
 * those that still parse, those whose mutation lines the patch touches, and
 * the mutations whose original operator token is back on their line.
 */
module EvalStatic {
  import opened Wrappers
  import opened PyStr
  import opened Json
  import opened Spans

  // ---------- _span_overlap ----------

  /** `not (a[1] < b[0] or b[1] < a[0])` */
  predicate SpanOverlap(a: Span, b: Span) {
    !(a.e < b.s || b.e < a.s)
  }

  /** Line `z` lies in the range `y`. */
  predicate OnLine(y: Span, z: int) {
    y.s <= z <= y.e
  }

  /** For ranges that each hold a line, they overlap exactly when they share a line. */
  lemma SpanOverlapShared(a: Span, b: Span)
    requires a.s <= a.e && b.s <= b.e
    ensures SpanOverlap(a, b) <==> exists z :: OnLine(a, z) && OnLine(b, z)
  {
    if SpanOverlap(a, b) {
      var z := Max(a.s, b.s);
      assert OnLine(a, z) && OnLine(b, z);
    }
  }

  lemma SpanOverlapSymmetric(a: Span, b: Span)
    ensures SpanOverlap(a, b) <==> SpanOverlap(b, a)
  {
  }

  // ---------- _guess_patch_spans_from_diff_text ----------

  /** `+++ b/x` or `+++ x`: the file named after "+++ ", stripped, without a leading "b/". */
  function HeaderFile(line: string): (r: Option<string>)
    ensures r.Some? <==> StartsWith(line, "+++ ")
  {
    if StartsWith(line, "+++ ") then
      var c := Strip(line[4..]);
      Some(if StartsWith(c, "b/") then c[2..] else c)
    else None
  }

  lemma PrefixSlice(p: string, x: string)
    ensures StartsWith(p + x, p) && (p + x)[|p|..] == x
  {
    assert (p + x)[..|p|] == p;
  }

  /** `+++ b/<path>` names `<path>`, for a path that does not end in whitespace. */
  lemma HeaderFileGitForm(path: string)
    requires path == [] || !IsSpace(path[|path| - 1])
    ensures HeaderFile("+++ " + ("b/" + path)) == Some(path)
  {
    PrefixSlice("+++ ", "b/" + path);
    var c := "b/" + path;
    assert c[0] == 'b' && c[|c| - 1] == (if path == [] then '/' else path[|path| - 1]);
    StripKeeps(c);
    PrefixSlice("b/", path);
  }

  /** `+++ <path>` names `<path>`, for a stripped path that does not start with "b/". */
  lemma HeaderFilePlainForm(path: string)
    requires path != [] && !IsSpace(path[0]) && !IsSpace(path[|path| - 1]) && !StartsWith(path, "b/")
    ensures HeaderFile("+++ " + path) == Some(path)
  {
    PrefixSlice("+++ ", path);
    StripKeeps(path);
  }

  /** `line.split("@@")[1]` for a line that starts with "@@": the text up to the next "@@". */
  function HunkText(line: string): string
    requires StartsWith(line, "@@")
  {
    var k := Find(line, "@@", 2);
    if k == -1 then line[2..] else line[2..k]
  }

  /** `[p for p in parts if p.startswith("+")][0]`, or None where Python raises IndexError. */
  function FirstPlus(parts: seq<string>): (r: Option<string>)
    ensures r.Some? ==> r.value in parts && StartsWith(r.value, "+")
    ensures r.Some? ==> exists k :: 0 <= k < |parts| && parts[k] == r.value && NoPlusBefore(parts, k)
    ensures r.None? ==> forall k :: 0 <= k < |parts| ==> !StartsWith(parts[k], "+")
  {
    if parts == [] then None
    else if StartsWith(parts[0], "+") then Some(parts[0])
    else
      var r := FirstPlus(parts[1..]);
      if r.Some? then
        var k :| 0 <= k < |parts[1..]| && parts[1..][k] == r.value && NoPlusBefore(parts[1..], k);
        assert parts[k + 1] == r.value && NoPlusBefore(parts, k + 1) by {
          forall j | 0 < j < k + 1 ensures !StartsWith(parts[j], "+") {
            assert parts[j] == parts[1..][j - 1];
          }
        }
        r
      else r
  }

  /** No part before the `k`-th starts with "+". */
  predicate NoPlusBefore(parts: seq<string>, k: int) {
    forall j :: 0 <= j < k && j < |parts| ==> !StartsWith(parts[j], "+")
  }

  /** `(ns, ns + max(nc - 1, 0))` once both `int()` calls have succeeded. */
  function RangeOf(ns: Option<int>, nc: Option<int>): (r: Option<Span>)
    ensures r.Some? <==> ns.Some? && nc.Some?
    ensures r.Some? ==> r.value.s == ns.value && r.value.e - r.value.s == Max(nc.value - 1, 0)
  {
    if ns.Some? && nc.Some? then Some(Span(ns.value, ns.value + Max(nc.value - 1, 0))) else None
  }

  /**
   * `ns,nc` (or a bare `ns`, which counts one line): the new-side range
   * from `ns`; None where `int()` raises.
   */
  function RangeSpan(plus: string): (r: Option<Span>)
    ensures r.Some? ==> r.value.s <= r.value.e
  {
    var ns := BeforeFirst(plus, ',');
    if |ns| < |plus| then RangeOf(ParseInt(ns), ParseInt(plus[|ns| + 1..]))
    else RangeOf(ParseInt(plus), Some(1))
  }

  /** The new-side range of an `@@ -os,oc +ns,nc @@` header, or None when it does not parse. */
  function HunkSpan(line: string): (r: Option<Span>)
    requires StartsWith(line, "@@")
    ensures r.Some? ==> r.value.s <= r.value.e
  {
    match FirstPlus(SplitWhitespace(Strip(HunkText(line))))
    case None => None
    case Some(p) => RangeSpan(p[1..])
  }

  /** `line.split("@@")[1]` of `"@@" + t + "@@"` is `t` when `t` holds no "@". */
  lemma HunkTextOf(t: string)
    requires '@' !in t
    ensures HunkText("@@" + t + "@@") == t
  {
    var line := "@@" + t + "@@";
    var k := |t| + 2;
    assert line[k..k + 2] == "@@";
    forall i | 2 <= i < k ensures !OccursAt(line, "@@", i) {
      assert line[i] == t[i - 2] != '@';
      assert i + 2 <= |line| ==> line[i..i + 2][0] == line[i];
    }
    var f := Find(line, "@@", 2);
    assert OccursAt(line, "@@", k);
    assert f == k;
    assert line[2..k] == t;
  }

  /**
   * A header `@@ a b @@` with two words, the second the first to start with
   * "+": its range is the one `b` names after its "+".
   */
  lemma HunkSpanWords(a: string, b: string)
    requires Word(a) && Word(b) && !StartsWith(a, "+") && StartsWith(b, "+")
    ensures HunkSpan("@@ " + a + " " + b + " @@") == RangeSpan(b[1..])
  {
    var u := a + " " + b;
    var t := " " + u + " ";
    assert "@@ " + a + " " + b + " @@" == "@@" + t + "@@";
    assert '@' !in t by {
      forall i | 0 <= i < |t| ensures t[i] != '@' {
        if 1 <= i <= |a| { assert t[i] == a[i - 1]; }
        else if |a| + 2 <= i < |a| + 2 + |b| { assert t[i] == b[i - |a| - 2]; }
      }
    }
    HunkTextOf(t);
    assert u[0] == a[0] && u[|u| - 1] == b[|b| - 1];
    StripPadded(u);
    SplitTwoWords(a, b);
    assert FirstPlus([a, b]) == Some(b) by {
      assert [a, b][1..] == [b];
    }
  }

  /** The hunk header `@@ -o,oc +n,nc @@` git writes, from the four numbers as text. */
  function HunkHeader(o: string, oc: string, n: string, nc: string): string {
    "@@ " + ("-" + o + "," + oc) + " " + ("+" + n + "," + nc) + " @@"
  }

  /** `@@ -os,oc +ns,nc @@` puts its hunk at lines `ns` to `ns + max(nc - 1, 0)`. */
  lemma HunkSpanHeader(os: nat, oc: nat, ns: nat, nc: nat)
    ensures HunkSpan(HunkHeader(NatToString(os), NatToString(oc), NatToString(ns), NatToString(nc)))
            == Some(Span(ns, ns + Max(nc - 1, 0)))
  {
    assert Digits(NatToString(os)) && Digits(NatToString(oc)) && Digits(NatToString(ns)) && Digits(NatToString(nc));
    HunkSpanTail(NatToString(os), NatToString(oc), NatToString(ns), NatToString(nc));
    RangeSpanCount(ns, nc);
  }

  /** A header `@@ -d0,d1 +d2,d3 @@` over digit strings has the range that `d2,d3` names. */
  lemma HunkSpanTail(d0: string, d1: string, d2: string, d3: string)
    requires Digits(d0) && Digits(d1) && Digits(d2) && Digits(d3)
    ensures HunkSpan(HunkHeader(d0, d1, d2, d3)) == RangeSpan(d2 + "," + d3)
  {
    var a := "-" + d0 + "," + d1;
    var b := "+" + d2 + "," + d3;
    WordChars(a, d0, d1, '-');
    WordChars(b, d2, d3, '+');
    TailAfterSign("+", d2, ",", d3);
    HunkSpanWords(a, b);
  }

  /** `@@ -os,oc +ns @@`, with no count, is the one line `ns`. */
  lemma HunkSpanHeaderBare(os: nat, oc: nat, ns: nat)
    ensures HunkSpan("@@ " + ("-" + NatToString(os) + "," + NatToString(oc)) + " " + ("+" + NatToString(ns)) + " @@")
            == Some(Span(ns, ns))
  {
    var a := "-" + NatToString(os) + "," + NatToString(oc);
    var b := "+" + NatToString(ns);
    WordChars(a, NatToString(os), NatToString(oc), '-');
    assert Word(b) by {
      forall j | 0 < j < |b| ensures !IsSpace(b[j]) && b[j] != '@' {
        assert b[j] == NatToString(ns)[j - 1];
      }
    }
    TailAfterSign("+", NatToString(ns), [], []);
    assert NatToString(ns) + [] + [] == NatToString(ns);
    HunkSpanWords(a, b);
    RangeSpanBare(ns);
  }

  lemma TailAfterSign<T>(a: seq<T>, b: seq<T>, c: seq<T>, d: seq<T>)
    requires |a| == 1
    ensures (a + b + c + d)[1..] == b + c + d && (a + b)[1..] == b
  {
  }

  /** Every character of `d` is an ASCII digit. */
  predicate Digits(d: string) {
    forall i :: 0 <= i < |d| ==> IsDigit(d[i])
  }

  /** One word of a hunk header: not empty, with no whitespace and no "@". */
  predicate Word(w: string) {
    w != [] && forall j :: 0 <= j < |w| ==> !IsSpace(w[j]) && w[j] != '@'
  }

  /** `[sign] + d1 + "," + d2` for digit strings holds no whitespace and no "@". */
  lemma WordChars(w: string, d1: string, d2: string, sign: char)
    requires w == [sign] + d1 + "," + d2 && (sign == '-' || sign == '+')
    requires forall i :: 0 <= i < |d1| ==> IsDigit(d1[i])
    requires forall i :: 0 <= i < |d2| ==> IsDigit(d2[i])
    ensures Word(w) && (StartsWith(w, "+") <==> sign == '+')
  {
    assert w[..1] == [sign];
    forall j | 0 <= j < |w| ensures !IsSpace(w[j]) && w[j] != '@' {
      if 1 <= j <= |d1| { assert w[j] == d1[j - 1]; }
      else if |d1| + 2 <= j { assert w[j] == d2[j - |d1| - 2]; }
    }
  }

  /** `ns,nc` gives the `nc` lines from `ns`; a count of 0 still gives line `ns`. */
  lemma RangeSpanCount(s: nat, c: nat)
    ensures RangeSpan(NatToString(s) + "," + NatToString(c)) == Some(Span(s, s + Max(c - 1, 0)))
  {
    ParseNatString(s);
    ParseNatString(c);
    RangeSpanDigits(NatToString(s), NatToString(c), s, c);
  }

  /** Digit strings `ds,dc` that read as `s` and `c` give the lines `s` to `s + max(c - 1, 0)`. */
  lemma RangeSpanDigits(ds: string, dc: string, s: int, c: int)
    requires forall i :: 0 <= i < |ds| ==> IsDigit(ds[i])
    requires ParseInt(ds) == Some(s) && ParseInt(dc) == Some(c)
    ensures RangeSpan(ds + "," + dc) == Some(Span(s, s + Max(c - 1, 0)))
  {
    calc {
      RangeSpan(ds + "," + dc);
    == { CommaSplit(ds, dc); RangeSpanSplit(ds + "," + dc, ds, dc); }
      RangeOf(ParseInt(ds), ParseInt(dc));
    == { RangeOfBoth(s, c); }
      Some(Span(s, s + Max(c - 1, 0)));
    }
  }

  lemma RangeOfBoth(s: int, c: int)
    ensures RangeOf(Some(s), Some(c)) == Some(Span(s, s + Max(c - 1, 0)))
  {
  }

  lemma RangeSpanSplit(plus: string, ns: string, rest: string)
    requires BeforeFirst(plus, ',') == ns && |ns| < |plus| && plus[|ns| + 1..] == rest
    ensures RangeSpan(plus) == RangeOf(ParseInt(ns), ParseInt(rest))
  {
  }

  /** Splitting `ns,nc` at its first comma, for digits `ns`. */
  lemma CommaSplit(ds: string, dc: string)
    requires forall i :: 0 <= i < |ds| ==> IsDigit(ds[i])
    ensures BeforeFirst(ds + "," + dc, ',') == ds
    ensures (ds + "," + dc)[|ds| + 1..] == dc
  {
    var p := ds + "," + dc;
    var r := BeforeFirst(p, ',');
    assert p[|ds|] == ',';
    assert r == p[..|ds|] == ds;
  }

  /** A bare `ns` is the one line `ns`. */
  lemma RangeSpanBare(s: nat)
    ensures RangeSpan(NatToString(s)) == Some(Span(s, s))
  {
    var ds := NatToString(s);
    calc {
      RangeSpan(ds);
    == { DigitsNoComma(ds); }
      RangeOf(ParseInt(ds), Some(1));
    == { ParseNatString(s); }
      Some(Span(s, s));
    }
  }

  lemma DigitsNoComma(d: string)
    requires forall i :: 0 <= i < |d| ==> IsDigit(d[i])
    ensures BeforeFirst(d, ',') == d
  {
    assert |BeforeFirst(d, ',')| == |d|;
  }

  /** The loop state: spans per file so far, and the current file. */
  datatype DiffState = DiffState(spans: map<string, seq<Span>>, cur: Option<string>)

  const NoDiff := DiffState(map[], None)

  /** What one diff line is to the loop: a `+++` header, an `@@` header, or neither. */
  datatype LineKind = Header(file: string) | Hunk(span: Option<Span>) | OtherLine

  function Classify(line: string): (k: LineKind)
    ensures k.Hunk? && k.span.Some? ==> k.span.value.s <= k.span.value.e
  {
    match HeaderFile(line)
    case Some(f) => Header(f)
    case None => if StartsWith(line, "@@") then Hunk(HunkSpan(line)) else OtherLine
  }

  /**
   * One diff line: a `+++` header switches the file and gives it an entry;
   * an `@@` header that parses adds its range to the current file when
   * there is one (`if cur:`).
   */
  function Apply(st: DiffState, k: LineKind): DiffState {
    match k
    case Header(f) => DiffState(if f in st.spans then st.spans else st.spans[f := []], Some(f))
    case Hunk(Some(y)) =>
      if st.cur.Some? && st.cur.value != "" && st.cur.value in st.spans then
        DiffState(st.spans[st.cur.value := st.spans[st.cur.value] + [y]], st.cur)
      else st
    case _ => st
  }

  function DiffStep(st: DiffState, line: string): DiffState {
    Apply(st, Classify(line))
  }

  /** The current file always has an entry, and every recorded range holds a line. */
  predicate DiffOk(st: DiffState) {
    (st.cur.Some? ==> st.cur.value in st.spans) && forall f :: f in st.spans ==> WellFormed(st.spans[f])
  }

  /** The header lines among `lines` that name `f`. */
  predicate Names(lines: seq<string>, f: string) {
    exists k :: 0 <= k < |lines| && HeaderFile(lines[k]) == Some(f)
  }

  /**
   * The loop over the diff's lines from state `st`: the state stays
   * consistent, and the files with an entry are those `st` had and those a
   * header names, whether or not hunks follow.
   */
  function DiffFrom(st: DiffState, lines: seq<string>): (r: DiffState)
    requires DiffOk(st)
    ensures DiffOk(r)
    ensures forall f :: f in r.spans <==> f in st.spans || Names(lines, f)
  {
    if lines == [] then st
    else
      var init := lines[..|lines| - 1];
      var p := DiffFrom(st, init);
      NamesSnoc(lines);
      StepOk(p, lines[|lines| - 1]);
      DiffStep(p, lines[|lines| - 1])
  }

  lemma StepOk(st: DiffState, line: string)
    requires DiffOk(st)
    ensures DiffOk(DiffStep(st, line))
    ensures forall f :: f in DiffStep(st, line).spans <==> f in st.spans || HeaderFile(line) == Some(f)
  {
    var k := Classify(line);
    assert k.Header? <==> HeaderFile(line).Some?;
    assert k.Header? ==> k.file == HeaderFile(line).value;
    ApplyOk(st, k);
  }

  lemma ApplyOk(st: DiffState, k: LineKind)
    requires DiffOk(st)
    requires k.Hunk? && k.span.Some? ==> k.span.value.s <= k.span.value.e
    ensures DiffOk(Apply(st, k))
    ensures forall f :: f in Apply(st, k).spans <==> f in st.spans || (k.Header? && k.file == f)
  {
    if k.Hunk? && k.span.Some? && st.cur.Some? && st.cur.value != "" && st.cur.value in st.spans {
      WellFormedSnoc(st.spans[st.cur.value], k.span.value);
    }
  }

  lemma WellFormedSnoc(xs: seq<Span>, y: Span)
    requires WellFormed(xs) && y.s <= y.e
    ensures WellFormed(xs + [y])
  {
  }

  lemma NamesSnoc(lines: seq<string>)
    requires lines != []
    ensures forall f :: Names(lines, f) <==> Names(lines[..|lines| - 1], f) || HeaderFile(lines[|lines| - 1]) == Some(f)
  {
    forall f ensures Names(lines, f) <==> Names(lines[..|lines| - 1], f) || HeaderFile(lines[|lines| - 1]) == Some(f) {
      HitSnoc(lines, lines[..|lines| - 1], HeaderFile, Some(f));
    }
  }

  /** Some element of `xs` maps to `v` under `h` exactly when one before the last does or the last does. */
  lemma HitSnoc<T, U>(xs: seq<T>, init: seq<T>, h: T -> U, v: U)
    requires xs != [] && init == xs[..|xs| - 1]
    ensures (exists k :: 0 <= k < |xs| && h(xs[k]) == v)
            <==> (exists k :: 0 <= k < |init| && h(init[k]) == v) || h(xs[|xs| - 1]) == v
  {
    if k :| 0 <= k < |xs| && h(xs[k]) == v {
      if k < |xs| - 1 { assert init[k] == xs[k]; }
    }
    if k :| 0 <= k < |xs| - 1 && h(init[k]) == v {
      assert xs[k] == init[k];
    }
  }

  function Diff(lines: seq<string>): map<string, seq<Span>> {
    DiffFrom(NoDiff, lines).spans
  }

  lemma {:induction false} DiffFromAppend(st: DiffState, a: seq<string>, b: seq<string>)
    requires DiffOk(st)
    ensures DiffFrom(st, a + b) == DiffFrom(DiffFrom(st, a), b)
    decreases |b|
  {
    if b == [] {
      assert a + b == a;
    } else {
      assert (a + b)[..|a + b| - 1] == a + b[..|b| - 1];
      DiffFromAppend(st, a, b[..|b| - 1]);
    }
  }

  /** Lines before the first `+++` header leave the empty state as it was. */
  lemma {:induction false} NoHeaderNoChange(pre: seq<string>)
    requires forall k :: 0 <= k < |pre| ==> HeaderFile(pre[k]).None?
    ensures DiffFrom(NoDiff, pre) == NoDiff
  {
    if pre != [] {
      var init := pre[..|pre| - 1];
      assert forall k :: 0 <= k < |init| ==> init[k] == pre[k];
      NoHeaderNoChange(init);
    }
  }

  /** Hunks that come before any `+++` header add nothing. */
  lemma HunksBeforeHeader(pre: seq<string>, post: seq<string>)
    requires forall k :: 0 <= k < |pre| ==> HeaderFile(pre[k]).None?
    ensures Diff(pre + post) == Diff(post)
  {
    DiffFromAppend(NoDiff, pre, post);
    NoHeaderNoChange(pre);
  }

  /** `_guess_patch_spans_from_diff_text(diff_text)` */
  method GuessPatchSpans(diffText: string) returns (spans: map<string, seq<Span>>)
    ensures spans == Diff(SplitLines(diffText))
    ensures forall f :: f in spans ==> WellFormed(spans[f])
    ensures forall f :: f in spans <==> Names(SplitLines(diffText), f)
  {
    var ls := SplitLines(diffText);
    spans := map[];
    var cur: Option<string> := None;
    var i := 0;
    while i < |ls|
      invariant 0 <= i <= |ls|
      invariant DiffState(spans, cur) == DiffFrom(NoDiff, ls[..i])
    {
      var line := ls[i];
      StepAt(ls, i);
      var h := HeaderFile(line);
      if h.Some? {
        cur := h;
        if h.value !in spans {
          spans := spans[h.value := []];
        }
      } else if StartsWith(line, "@@") {
        var y := HunkSpan(line);
        if y.Some? && cur.Some? && cur.value != "" && cur.value in spans {
          spans := spans[cur.value := spans[cur.value] + [y.value]];
        }
      }
      i := i + 1;
    }
    assert ls[..|ls|] == ls;
  }

  lemma StepAt(ls: seq<string>, i: nat)
    requires i < |ls|
    ensures DiffFrom(NoDiff, ls[..i + 1]) == DiffStep(DiffFrom(NoDiff, ls[..i]), ls[i])
  {
    assert ls[..i + 1][..i] == ls[..i];
  }

  // ---------- evaluate_patch_against_mutations: the counting loop ----------

  /** The five counters. */
  datatype Tally = Tally(total: nat, touched: nat, syntaxOk: nat, revHits: nat, revTotal: nat)

  const Zero := Tally(0, 0, 0, 0, 0)

  function Plus(a: Tally, b: Tally): Tally {
    Tally(a.total + b.total, a.touched + b.touched, a.syntaxOk + b.syntaxOk,
          a.revHits + b.revHits, a.revTotal + b.revTotal)
  }

  /** Touched and syntax-ok files are among the counted files; reversal hits among the reversals tried. */
  predicate TallyOk(t: Tally) {
    t.touched <= t.total && t.syntaxOk <= t.total && t.revHits <= t.revTotal
  }

  /**
   * The entry's `rel_path` when the entry is counted: a mutated, ok entry
   * whose path ends ".py". A truthy path that is not a string raises on
   * `endswith`.
   */
  function CountedPath(entry: map<string, Json>): Result<Option<string>> {
    if Get(entry, "action") != JStr("mutated") || !Truthy(Get(entry, "ok")) then Success(None)
    else
      var rel := Get(entry, "rel_path");
      if !Truthy(rel) then Success(None)
      else if !rel.JStr? then Failure("AttributeError")
      else if EndsWith(rel.s, ".py") then Success(Some(rel.s))
      else Success(None)
  }

  /**
   * `for m in entry.get("mutations", [])`: a list gives its items; an empty
   * string or dict gives nothing; a non-empty one gives strings on which
   * `m.get` raises; anything else is not iterable.
   */
  function Mutations(entry: map<string, Json>): Result<seq<Json>> {
    var v := if "mutations" in entry then entry["mutations"] else JArr([]);
    match v
    case JArr(xs) => Success(xs)
    case JStr(s) => if s == [] then Success([]) else Failure("AttributeError")
    case JObj(m) => if m == map[] then Success([]) else Failure("AttributeError")
    case _ => Failure("TypeError")
  }

  /** The exception `int(v)` raises when it does not convert. */
  function IntError(v: Json): string {
    if v.JStr? then "ValueError" else "TypeError"
  }

  /**
   * A mutation's line range `(int(lineno), int(end_lineno or lineno))`,
   * nothing when `lineno` is falsy.
   */
  function MutSpan(m: Json): (r: Result<Option<Span>>)
    ensures m.JObj? && !Truthy(Get(m.fields, "lineno")) ==> r == Success(None)
  {
    if !m.JObj? then Failure("AttributeError")
    else
      var s := Get(m.fields, "lineno");
      var e := OrChain([Get(m.fields, "end_lineno"), s]);
      if !Truthy(s) then Success(None)
      else if ToInt(s).None? then Failure(IntError(s))
      else if ToInt(e).None? then Failure(IntError(e))
      else Success(Some(Span(ToInt(s).value, ToInt(e).value)))
  }

  /** The mutation ranges of an entry, or the first exception. */
  function MutSpans(ms: seq<Json>): (r: Result<seq<Span>>)
    ensures r.Success? ==> |r.value| <= |ms|
  {
    if ms == [] then Success([])
    else
      match MutSpans(ms[..|ms| - 1])
      case Failure(err) => Failure(err)
      case Success(init) =>
        match MutSpan(ms[|ms| - 1])
        case Failure(err) => Failure(err)
        case Success(None) => Success(init)
        case Success(Some(y)) => Success(init + [y])
  }

  /** The first loop over the entry's mutations. */
  method CollectMutSpans(ms: seq<Json>) returns (r: Result<seq<Span>>)
    ensures r == MutSpans(ms)
  {
    var out: seq<Span> := [];
    var i := 0;
    while i < |ms|
      invariant 0 <= i <= |ms|
      invariant MutSpans(ms[..i]) == Success(out)
    {
      TakeSnoc(ms, i);
      var y := MutSpan(ms[i]);
      if y.Failure? {
        FailureSticks(ms, i + 1);
        return Failure(y.error);
      }
      if y.value.Some? {
        out := out + [y.value.value];
      }
      i := i + 1;
    }
    assert ms[..|ms|] == ms;
    r := Success(out);
  }

  lemma TakeSnoc<T>(s: seq<T>, i: nat)
    requires i < |s|
    ensures s[..i + 1][..i] == s[..i]
  {
  }

  /** Once a prefix of the mutations raises, the whole list raises with the same exception. */
  lemma {:induction false} FailureSticks(ms: seq<Json>, j: nat)
    requires j <= |ms| && MutSpans(ms[..j]).Failure?
    ensures MutSpans(ms) == MutSpans(ms[..j])
    decreases |ms| - j
  {
    if j < |ms| {
      TakeSnoc(ms, j);
      FailureSticks(ms, j + 1);
    } else {
      assert ms[..j] == ms;
    }
  }

  /**
   * `any(_span_overlap(a, b) for a in mut_spans for b in diff_file_spans)`:
   * some mutation range overlaps some range of the patch.
   */
  function AnyOverlap(xs: seq<Span>, ys: seq<Span>): (r: bool)
    ensures r <==> exists i, j :: 0 <= i < |xs| && 0 <= j < |ys| && SpanOverlap(xs[i], ys[j])
  {
    if xs == [] then false
    else
      var rest := AnyOverlap(xs[1..], ys);
      assert rest <==> exists i, j :: 1 <= i < |xs| && 0 <= j < |ys| && SpanOverlap(xs[i], ys[j]) by {
        if rest {
          var i, j :| 0 <= i < |xs[1..]| && 0 <= j < |ys| && SpanOverlap(xs[1..][i], ys[j]);
          assert xs[i + 1] == xs[1..][i];
        }
        forall i, j | 1 <= i < |xs| && 0 <= j < |ys| && SpanOverlap(xs[i], ys[j])
          ensures rest
        {
          assert xs[1..][i - 1] == xs[i];
        }
      }
      OverlapsOne(xs[0], ys) || rest
  }

  function OverlapsOne(x: Span, ys: seq<Span>): (r: bool)
    ensures r <==> exists j :: 0 <= j < |ys| && SpanOverlap(x, ys[j])
  {
    if ys == [] then false
    else if SpanOverlap(x, ys[0]) then true
    else
      var rest := OverlapsOne(x, ys[1..]);
      assert rest <==> exists j :: 1 <= j < |ys| && SpanOverlap(x, ys[j]) by {
        if rest {
          var j :| 0 <= j < |ys[1..]| && SpanOverlap(x, ys[1..][j]);
          assert ys[j + 1] == ys[1..][j];
        }
        forall j | 1 <= j < |ys| && SpanOverlap(x, ys[j])
          ensures rest
        {
          assert ys[1..][j - 1] == ys[j];
        }
      }
      rest
  }

  /** The token that restores the original operator of a reversible change, e.g. "==" for "Eq→NotEq". */
  function WantedToken(change: string): Option<string> {
    if change == "Eq→NotEq" then Some("==")
    else if change == "NotEq→Eq" then Some("!=")
    else if change == "Add→Sub" then Some("+")
    else if change == "Sub→Add" then Some("-")
    else if change == "Mult→Div" then Some("*")
    else if change == "Div→Mult" then Some("/")
    else if change == "And→Or" then Some(" and ")
    else if change == "Or→And" then Some(" or ")
    else None
  }

  /**
   * `change in REV_PAIRS` for the mutation's `change` (default ""): the
   * wanted token when it is a reversible change; a list or dict is
   * unhashable and raises.
   */
  function ChangeToken(m: map<string, Json>): Result<Option<string>> {
    var change := if "change" in m then m["change"] else JStr("");
    if change.JArr? || change.JObj? then Failure("TypeError")
    else if change.JStr? then Success(WantedToken(change.s))
    else Success(None)
  }

  /** `lines[ln - 1] if 1 <= ln <= len(lines) else ""` */
  function LineAt(lines: seq<string>, ln: int): string {
    if 1 <= ln <= |lines| then lines[ln - 1] else ""
  }

  /** Reversal checks: how many hit, out of how many were tried. */
  datatype RevCount = RevCount(hits: nat, tried: nat)

  /**
   * One mutation in the reversal heuristic: tried when its change is
   * reversible and it has a line number; a hit when the wanted token is on
   * that line of the patched file. The result is (hits, tried).
   */
  function Reversal(m: Json, lines: seq<string>): (r: Result<RevCount>)
    ensures r.Success? ==> r.value.hits <= r.value.tried <= 1
  {
    if !m.JObj? then Failure("AttributeError")
    else
      match ChangeToken(m.fields)
      case Failure(err) => Failure(err)
      case Success(tok) =>
        var ln := Get(m.fields, "lineno");
        if tok.None? || !Truthy(ln) then Success(RevCount(0, 0))
        else if ToInt(ln).None? then Failure(IntError(ln))
        else Success(RevCount(if Contains(LineAt(lines, ToInt(ln).value), tok.value) then 1 else 0, 1))
  }

  /** The reversal counts over the entry's mutations, or the first exception. */
  function Reversals(ms: seq<Json>, lines: seq<string>): (r: Result<RevCount>)
    ensures r.Success? ==> r.value.hits <= r.value.tried <= |ms|
  {
    if ms == [] then Success(RevCount(0, 0))
    else AddRev(Reversals(ms[..|ms| - 1], lines), Reversal(ms[|ms| - 1], lines))
  }

  /** The counts so far plus one more mutation's, or the first exception. */
  function AddRev(acc: Result<RevCount>, step: Result<RevCount>): (r: Result<RevCount>)
    ensures r.Success? <==> acc.Success? && step.Success?
    ensures r.Success? ==> r.value.hits == acc.value.hits + step.value.hits && r.value.tried == acc.value.tried + step.value.tried
  {
    match acc
    case Failure(err) => Failure(err)
    case Success(c) =>
      match step
      case Failure(err) => Failure(err)
      case Success(d) => Success(RevCount(c.hits + d.hits, c.tried + d.tried))
  }

  lemma {:induction false} ReversalFailureSticks(ms: seq<Json>, lines: seq<string>, j: nat)
    requires j <= |ms| && Reversals(ms[..j], lines).Failure?
    ensures Reversals(ms, lines) == Reversals(ms[..j], lines)
    decreases |ms| - j
  {
    if j < |ms| {
      TakeSnoc(ms, j);
      ReversalFailureSticks(ms, lines, j + 1);
    } else {
      assert ms[..j] == ms;
    }
  }

  /** One more mutation extends the counts of the prefix before it. */
  lemma ReversalsStep(ms: seq<Json>, lines: seq<string>, i: nat)
    requires i < |ms|
    ensures Reversals(ms[..i + 1], lines) == AddRev(Reversals(ms[..i], lines), Reversal(ms[i], lines))
  {
    assert ms[..i + 1][..i] == ms[..i];
  }

  /** The second loop over the entry's mutations. */
  method CountReversals(ms: seq<Json>, lines: seq<string>) returns (r: Result<RevCount>)
    ensures r == Reversals(ms, lines)
  {
    var hits: nat, total: nat := 0, 0;
    var i := 0;
    while i < |ms|
      invariant 0 <= i <= |ms|
      invariant Reversals(ms[..i], lines) == Success(RevCount(hits, total))
    {
      var step := Reversal(ms[i], lines);
      ReversalsStep(ms, lines, i);
      if step.Failure? {
        ReversalFailureSticks(ms, lines, i + 1);
        return Failure(step.error);
      }
      hits, total := hits + step.value.hits, total + step.value.tried;
      i := i + 1;
    }
    assert ms[..|ms|] == ms;
    r := Success(RevCount(hits, total));
  }

  /** What the patched file and Python's parser say, as inputs: file contents by path and a syntax check. */
  datatype Files = Files(read: string -> string, parses: string -> bool)

  /** The counters one counted entry contributes. */
  function EntryTally(rel: string, ms: seq<Json>, diff: map<string, seq<Span>>, fs: Files): (r: Result<Tally>)
    ensures r.Success? ==> TallyOk(r.value) && r.value.total == 1
  {
    var code := fs.read(rel);
    match MutSpans(ms)
    case Failure(err) => Failure(err)
    case Success(mut) =>
      var dspans := if rel in diff then diff[rel] else [];
      var touched := dspans != [] && mut != [] && AnyOverlap(mut, dspans);
      match Reversals(ms, SplitLines(code))
      case Failure(err) => Failure(err)
      case Success(c) =>
        Success(Tally(1, if touched then 1 else 0, if fs.parses(code) then 1 else 0, c.hits, c.tried))
  }

  /** One entry of the log: its counters, nothing when it is not counted, or the exception it raises. */
  function EntryScore(entry: Json, diff: map<string, seq<Span>>, fs: Files): (r: Result<Tally>)
    ensures r.Success? ==> TallyOk(r.value) && r.value.total <= 1
  {
    if !entry.JObj? then Failure("AttributeError")
    else
      match CountedPath(entry.fields)
      case Failure(err) => Failure(err)
      case Success(None) => Success(Zero)
      case Success(Some(rel)) =>
        match Mutations(entry.fields)
        case Failure(err) => Failure(err)
        case Success(ms) => EntryTally(rel, ms, diff, fs)
  }

  /** The entries that are counted: mutated and ok, with a ".py" path. */
  function CountedEntries(log: seq<Json>): nat {
    if log == [] then 0
    else
      var last := log[|log| - 1];
      CountedEntries(log[..|log| - 1])
      + (if last.JObj? && CountedPath(last.fields).Success? && CountedPath(last.fields).value.Some? then 1 else 0)
  }

  /**
   * The counters over the whole log, or the first exception: exactly the
   * counted entries are counted, and the bounds between the counters hold.
   */
  function LogTally(log: seq<Json>, diff: map<string, seq<Span>>, fs: Files): (r: Result<Tally>)
    ensures r.Success? ==> TallyOk(r.value) && r.value.total == CountedEntries(log)
  {
    if log == [] then Success(Zero)
    else
      match LogTally(log[..|log| - 1], diff, fs)
      case Failure(err) => Failure(err)
      case Success(t) =>
        match EntryScore(log[|log| - 1], diff, fs)
        case Failure(err) => Failure(err)
        case Success(d) => Success(Plus(t, d))
  }

  lemma {:induction false} LogFailureSticks(log: seq<Json>, diff: map<string, seq<Span>>, fs: Files, j: nat)
    requires j <= |log| && LogTally(log[..j], diff, fs).Failure?
    ensures LogTally(log, diff, fs) == LogTally(log[..j], diff, fs)
    decreases |log| - j
  {
    if j < |log| {
      TakeSnoc(log, j);
      LogFailureSticks(log, diff, fs, j + 1);
    } else {
      assert log[..j] == log;
    }
  }

  /** The loop body for one log entry, with its two mutation loops. */
  method ScoreEntry(entry: Json, diff: map<string, seq<Span>>, fs: Files) returns (r: Result<Tally>)
    ensures r == EntryScore(entry, diff, fs)
  {
    if !entry.JObj? {
      return Failure("AttributeError");
    }
    var rel := CountedPath(entry.fields);
    if rel.Failure? {
      return Failure(rel.error);
    }
    if rel.value.None? {
      return Success(Zero);
    }
    var ms := Mutations(entry.fields);
    if ms.Failure? {
      return Failure(ms.error);
    }
    var path := rel.value.value;
    var code := fs.read(path);
    var mut := CollectMutSpans(ms.value);
    if mut.Failure? {
      return Failure(mut.error);
    }
    var dspans := if path in diff then diff[path] else [];
    var touched := dspans != [] && mut.value != [] && AnyOverlap(mut.value, dspans);
    var rev := CountReversals(ms.value, SplitLines(code));
    if rev.Failure? {
      return Failure(rev.error);
    }
    r := Success(Tally(1, if touched then 1 else 0, if fs.parses(code) then 1 else 0, rev.value.hits, rev.value.tried));
  }

  /**
   * `evaluate_patch_against_mutations` without the rates: the hunk spans of
   * the predicted diff, then the counters over the mutation log.
   */
  method EvaluatePatch(log: seq<Json>, predictedDiff: string, fs: Files) returns (r: Result<Tally>)
    ensures r == LogTally(log, Diff(SplitLines(predictedDiff)), fs)
    ensures r.Success? ==> TallyOk(r.value) && r.value.total == CountedEntries(log)
  {
    var diff := GuessPatchSpans(predictedDiff);
    var t := Zero;
    var i := 0;
    while i < |log|
      invariant 0 <= i <= |log|
      invariant LogTally(log[..i], diff, fs) == Success(t)
    {
      TakeSnoc(log, i);
      var d := ScoreEntry(log[i], diff, fs);
      if d.Failure? {
        LogFailureSticks(log, diff, fs, i + 1);
        return Failure(d.error);
      }
      t := Plus(t, d.value);
      i := i + 1;
    }
    assert log[..|log|] == log;
    r := Success(t);
  }
}
