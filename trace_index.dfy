/**
 * Rebuilding the graph-index cache from a trace of model calls: each
 * indexing record names a file and the lines of the chunk it was shown; the
 * model's JSON answer contributes symbols, intents and invariants (each kept
 * once, at most 50 per file) and risky line ranges, which are moved from
 * chunk-local to file-global numbering, merged and capped at 50.
 */
module TraceIndex {
  import opened Wrappers
  import opened PyStr
  import opened Json
  import opened Spans

  // ---------- find_balanced ----------

  /** The scanner's state: nesting depth, inside a string literal, after a backslash. */
  datatype ScanState = ScanState(depth: int, inStr: bool, esc: bool)

  const Init := ScanState(0, false, false)

  /** The state change for one character (the depth moves only outside strings). */
  function Step(st: ScanState, c: char, open: char, close: char): ScanState {
    if st.inStr then
      if st.esc then ScanState(st.depth, true, false)
      else if c == '\\' then ScanState(st.depth, true, true)
      else if c == '"' then ScanState(st.depth, false, false)
      else st
    else if c == '"' then ScanState(st.depth, true, st.esc)
    else if c == open then ScanState(st.depth + 1, false, st.esc)
    else if c == close then ScanState(st.depth - 1, false, st.esc)
    else st
  }

  /** The state after scanning all of `s` from `st`. */
  function Run(st: ScanState, s: string, open: char, close: char): ScanState {
    if s == [] then st else Step(Run(st, s[..|s| - 1], open, close), s[|s| - 1], open, close)
  }

  /** Scanning `c` from `st` is where the bracket closes: depth back to 0 at a closing character. */
  predicate Closes(st: ScanState, c: char, open: char, close: char) {
    !st.inStr && c != '"' && c != open && c == close && st.depth - 1 == 0
  }

  /** Position k closes the bracket opened at `from`. */
  predicate ClosesAt(text: string, open: char, close: char, from: nat, k: nat)
    requires from <= k < |text|
  {
    Closes(Run(Init, text[from..k], open, close), text[k], open, close)
  }

  /**
   * `find_balanced(text, open, close, start)`: -1 unless `text[start]` is
   * the opening character; then the first position at which the depth,
   * counted outside string literals, returns to 0, or -1 when it never does.
   */
  method FindBalanced(text: string, open: char, close: char, start: nat) returns (j: int)
    ensures start >= |text| || text[start] != open ==> j == -1
    ensures j != -1 ==> start <= j < |text| && text[j] == close && ClosesAt(text, open, close, start, j)
                        && Run(Init, text[start..j + 1], open, close).depth == 0
    ensures j != -1 ==> forall k :: start <= k < j ==> !ClosesAt(text, open, close, start, k)
    ensures j == -1 && start < |text| && text[start] == open ==>
              forall k :: start <= k < |text| ==> !ClosesAt(text, open, close, start, k)
  {
    var n := |text|;
    var stack, inStr, esc, i := 0, false, false, start;
    if i >= n || text[i] != open {
      return -1;
    }
    while i < n
      invariant start <= i <= n
      invariant ScanState(stack, inStr, esc) == Run(Init, text[start..i], open, close)
      invariant forall k :: start <= k < i ==> !ClosesAt(text, open, close, start, k)
    {
      var c := text[i];
      RunSnocAt(text, open, close, start, i);
      if inStr {
        if esc {
          esc := false;
        } else if c == '\\' {
          esc := true;
        } else if c == '"' {
          inStr := false;
        }
      } else {
        if c == '"' {
          inStr := true;
        } else if c == open {
          stack := stack + 1;
        } else if c == close {
          stack := stack - 1;
          if stack == 0 {
            return i;
          }
        }
      }
      i := i + 1;
    }
    return -1;
  }

  /** Scanning one more character of `text` is one more step. */
  lemma RunSnocAt(text: string, open: char, close: char, from: nat, i: nat)
    requires from <= i < |text|
    ensures Run(Init, text[from..i + 1], open, close) == Step(Run(Init, text[from..i], open, close), text[i], open, close)
  {
    assert text[from..i + 1][..i - from] == text[from..i];
  }

  lemma RunOne(st: ScanState, c: char, open: char, close: char)
    ensures Run(st, [c], open, close) == Step(st, c, open, close)
  {
    assert [c][..0] == [];
  }

  lemma {:induction false} RunAppend(st: ScanState, a: string, b: string, open: char, close: char)
    ensures Run(st, a + b, open, close) == Run(Run(st, a, open, close), b, open, close)
    decreases |b|
  {
    if b != [] {
      assert (a + b)[..|a + b| - 1] == a + b[..|b| - 1];
      RunAppend(st, a, b[..|b| - 1], open, close);
    } else {
      assert a + b == a;
    }
  }

  /**
   * Outside string literals the depth is the number of opening characters
   * minus the number of closing ones.
   */
  lemma {:induction false} DepthCounts(w: string, open: char, close: char)
    requires open != close && open != '"' && close != '"' && '"' !in w
    ensures Run(Init, w, open, close) == ScanState(CountChar(w, open) - CountChar(w, close), false, false)
  {
    if w != [] {
      var init, c := w[..|w| - 1], w[|w| - 1];
      assert w == init + [c];
      assert '"' !in init;
      DepthCounts(init, open, close);
      CountCharAppend(init, [c], open);
      CountCharAppend(init, [c], close);
    }
  }

  /** The body of a string literal: the depth and string state are what they were on entry. */
  lemma {:induction false} LiteralBody(st: ScanState, w: string, open: char, close: char)
    requires st.inStr && !st.esc && '"' !in w && '\\' !in w
    ensures Run(st, w, open, close) == st
  {
    if w != [] {
      var init := w[..|w| - 1];
      assert '"' !in init && '\\' !in init by {
        forall a | 0 <= a < |init| ensures init[a] != '"' && init[a] != '\\' {
          assert w[a] == init[a];
        }
      }
      LiteralBody(st, init, open, close);
      assert w[|w| - 1] in w;
    }
  }

  /**
   * A whole string literal, brackets inside it included, leaves the depth
   * unchanged.
   */
  lemma StringLiteralNeutral(st: ScanState, w: string, open: char, close: char)
    requires !st.inStr && !st.esc && '"' !in w && '\\' !in w
    ensures Run(st, ['"'] + w + ['"'], open, close) == st
  {
    RunOne(st, '"', open, close);
    var s1 := Run(st, ['"'], open, close);
    LiteralBody(s1, w, open, close);
    RunAppend(st, ['"'], w, open, close);
    RunAppend(st, ['"'] + w, ['"'], open, close);
    RunOne(s1, '"', open, close);
  }

  /** Inside a string literal a backslash takes the next character, a quote included, as text. */
  lemma EscapedChar(d: int, c: char, open: char, close: char)
    ensures Run(ScanState(d, true, false), ['\\', c], open, close) == ScanState(d, true, false)
  {
    var st := ScanState(d, true, false);
    RunOne(st, '\\', open, close);
    RunAppend(st, ['\\'], [c], open, close);
    RunOne(ScanState(d, true, true), c, open, close);
    assert ['\\'] + [c] == ['\\', c];
  }

  // ---------- parse_file_and_lines ----------

  const FilePrefix := "FILE:"
  const LinesPrefix := "ORIGINAL GRAPH CHUNK LINES:"

  /** `^\s*FILE:\s*(.+?)\s*$` then `.strip()`: the stripped text after "FILE:", when there is any text. */
  function FileLine(line: string): (r: Option<string>)
    ensures r.Some? ==> r.value == Strip(r.value)
  {
    var t := LStrip(line);
    if StartsWith(t, FilePrefix) && |t| > |FilePrefix| then
      var v := Strip(t[|FilePrefix|..]);
      StripStripped(v);
      Some(v)
    else None
  }

  lemma StripStripped(v: string)
    requires v == [] || (!IsSpace(v[0]) && !IsSpace(v[|v| - 1]))
    ensures Strip(v) == v
  {
    if v != [] {
      StripKeeps(v);
    }
  }

  /** A line starting with a prefix whose first character is not whitespace keeps that prefix under lstrip. */
  lemma PrefixedLine(p: string, tail: string)
    requires p != [] && !IsSpace(p[0])
    ensures LStrip(p + tail) == p + tail && StartsWith(p + tail, p) && (p + tail)[|p|..] == tail
  {
    assert (p + tail)[..|p|] == p;
  }

  lemma LStripSpace(s: string)
    ensures LStrip(" " + s) == LStrip(s)
  {
    assert (" " + s)[1..] == s;
  }

  /** `FILE: <path>` gives back the path, for a path without surrounding whitespace. */
  lemma FileLineRoundTrip(path: string)
    requires path != [] && !IsSpace(path[0]) && !IsSpace(path[|path| - 1])
    ensures FileLine(FilePrefix + (" " + path)) == Some(path)
  {
    PrefixedLine(FilePrefix, " " + path);
    LStripSpace(path);
    StripKeeps(path);
  }

  /** Length of the leading run of ASCII digits. */
  function DigitRun(s: string): (n: nat)
    ensures n <= |s| && forall i :: 0 <= i < n ==> IsDigit(s[i])
    ensures n < |s| ==> !IsDigit(s[n])
  {
    if s == [] || !IsDigit(s[0]) then 0 else 1 + DigitRun(s[1..])
  }

  /** `(\d+)`: the value of a leading run of ASCII digits, and what follows it. */
  function Number(u: string): (r: Option<(nat, string)>)
    ensures r.Some? ==> |r.value.1| < |u| && r.value.1 == u[|u| - |r.value.1|..]
    ensures r.Some? ==> r.value.1 == [] || !IsDigit(r.value.1[0])
  {
    var d := DigitRun(u);
    if d == 0 then None else Some((DigitsValue(u[..d]), u[d..]))
  }

  /** `\s*-\s*(\d+)\s*$` after the first number. */
  function SecondNumber(rest: string): Option<nat> {
    var v := LStrip(rest);
    if v == [] || v[0] != '-' then None
    else
      match Number(LStrip(v[1..]))
      case None => None
      case Some((b, tail)) => if Strip(tail) == [] then Some(b) else None
  }

  /** `\s*(\d+)\s*-\s*(\d+)\s*$` after the chunk-lines prefix. */
  function ChunkNumbers(tail: string): Option<(nat, nat)> {
    match Number(LStrip(tail))
    case None => None
    case Some((a, rest)) =>
      match SecondNumber(rest)
      case None => None
      case Some(b) => Some((a, b))
  }

  /** `^\s*ORIGINAL GRAPH CHUNK LINES:\s*(\d+)\s*-\s*(\d+)\s*$`: the chunk's first and last line. */
  function LinesLine(line: string): Option<(nat, nat)> {
    var t := LStrip(line);
    if StartsWith(t, LinesPrefix) then ChunkNumbers(t[|LinesPrefix|..]) else None
  }

  /** The text after the prefix in `ORIGINAL GRAPH CHUNK LINES: s - e`. */
  function ChunkText(s: nat, e: nat): string {
    " " + NatToString(s) + " - " + NatToString(e)
  }

  /** `ORIGINAL GRAPH CHUNK LINES: s - e` parses back to its two numbers. */
  lemma LinesLineRoundTrip(s: nat, e: nat)
    ensures LinesLine(LinesPrefix + ChunkText(s, e)) == Some((s, e))
  {
    PrefixedLine(LinesPrefix, ChunkText(s, e));
    ChunkNumbersRoundTrip(s, e);
  }

  lemma ChunkNumbersRoundTrip(s: nat, e: nat)
    ensures ChunkNumbers(ChunkText(s, e)) == Some((s, e))
  {
    var ds, de := NatToString(s), NatToString(e);
    var rest := " - " + de;
    assert ChunkText(s, e) == " " + (ds + rest);
    LStripSpace(ds + rest);
    LStripNumber(s, rest);
    NumberOf(s, rest);
    assert Number(LStrip(ChunkText(s, e))) == Some((s, rest));
    SecondNumberOf(e);
  }

  lemma SecondNumberOf(e: nat)
    ensures SecondNumber(" - " + NatToString(e)) == Some(e)
  {
    var de := NatToString(e);
    LStripSpace(de);
    LStripNumber(e, "");
    NumberOf(e, "");
    assert de + "" == de;
    SecondNumberDash(de, e);
  }

  lemma SecondNumberDash(x: string, b: nat)
    requires Number(LStrip(" " + x)) == Some((b, ""))
    ensures SecondNumber(" - " + x) == Some(b)
  {
    Dash(x);
  }

  lemma Dash(x: string)
    ensures LStrip(" - " + x) == "- " + x && ("- " + x)[0] == '-' && ("- " + x)[1..] == " " + x
  {
    DashSlices(x);
    LStripSpace("- " + x);
  }

  lemma DashSlices(x: string)
    ensures " - " + x == " " + ("- " + x) && ("- " + x)[1..] == " " + x
  {
  }

  /** A string that starts with a number keeps its start under lstrip. */
  lemma LStripNumber(n: nat, tail: string)
    ensures LStrip(NatToString(n) + tail) == NatToString(n) + tail
  {
    var d := NatToString(n);
    assert (d + tail)[0] == d[0] && IsDigit(d[0]);
  }

  lemma NumberOf(n: nat, tail: string)
    requires tail == [] || !IsDigit(tail[0])
    ensures Number(NatToString(n) + tail) == Some((n, tail))
  {
    var d := NatToString(n);
    DigitRunOf(d, tail);
    assert (d + tail)[..|d|] == d && (d + tail)[|d|..] == tail;
    DigitsValueOf(n);
  }

  lemma {:induction false} DigitRunOf(d: string, tail: string)
    requires forall i :: 0 <= i < |d| ==> IsDigit(d[i])
    requires tail == [] || !IsDigit(tail[0])
    ensures DigitRun(d + tail) == |d|
  {
    if d != [] {
      assert (d + tail)[1..] == d[1..] + tail;
      DigitRunOf(d[1..], tail);
    } else {
      assert d + tail == tail;
    }
  }

  /** The value the last line that `parse` accepts gives, if any. */
  function LastSome<T>(ls: seq<string>, parse: string -> Option<T>): Option<T> {
    if ls == [] then None
    else if parse(ls[|ls| - 1]).Some? then parse(ls[|ls| - 1])
    else LastSome(ls[..|ls| - 1], parse)
  }

  /** `v` is what the last accepted line gives, or None when no line is accepted. */
  ghost predicate LastWins<T>(ls: seq<string>, parse: string -> Option<T>, v: Option<T>) {
    match v
    case None => forall k :: 0 <= k < |ls| ==> parse(ls[k]).None?
    case Some(x) => exists k :: 0 <= k < |ls| && parse(ls[k]) == Some(x) && NoneAfter(ls, parse, k)
  }

  ghost predicate NoneAfter<T>(ls: seq<string>, parse: string -> Option<T>, k: nat) {
    forall k' :: k < k' < |ls| ==> parse(ls[k']).None?
  }

  lemma {:induction false} LastSomeWins<T>(ls: seq<string>, parse: string -> Option<T>)
    ensures LastWins(ls, parse, LastSome(ls, parse))
  {
    if ls != [] {
      var init := ls[..|ls| - 1];
      var n := |ls| - 1;
      if parse(ls[n]).Some? {
        assert NoneAfter(ls, parse, n);
      } else {
        LastSomeWins(init, parse);
        match LastSome(init, parse)
        case None =>
          assert forall k :: 0 <= k < |init| ==> ls[k] == init[k];
        case Some(x) =>
          var k :| 0 <= k < |init| && parse(init[k]) == Some(x) && NoneAfter(init, parse, k);
          assert ls[k] == init[k];
          assert forall k' :: k < k' < |init| ==> ls[k'] == init[k'];
          assert NoneAfter(ls, parse, k);
      }
    }
  }

  lemma TakeSnoc<T>(s: seq<T>, i: nat)
    requires i < |s|
    ensures s[..i + 1][..i] == s[..i]
  {
  }

  lemma LastSomeSnoc<T>(ls: seq<string>, i: nat, parse: string -> Option<T>)
    requires i < |ls|
    ensures LastSome(ls[..i + 1], parse) == if parse(ls[i]).Some? then parse(ls[i]) else LastSome(ls[..i], parse)
  {
    TakeSnoc(ls, i);
  }

  /** The loop of `parse_file_and_lines` over the prompt's lines. */
  method ScanLines(ls: seq<string>) returns (file: Option<string>, lines: Option<(nat, nat)>)
    ensures file == LastSome(ls, FileLine) && lines == LastSome(ls, LinesLine)
  {
    file, lines := None, None;
    var i := 0;
    while i < |ls|
      invariant 0 <= i <= |ls|
      invariant file == LastSome(ls[..i], FileLine)
      invariant lines == LastSome(ls[..i], LinesLine)
    {
      LastSomeSnoc(ls, i, FileLine);
      LastSomeSnoc(ls, i, LinesLine);
      var m1 := FileLine(ls[i]);
      if m1.Some? {
        file := m1;
      }
      var m2 := LinesLine(ls[i]);
      if m2.Some? {
        lines := m2;
      }
      i := i + 1;
    }
    assert ls[..|ls|] == ls;
  }

  /**
   * `parse_file_and_lines(user_text)`: the path of the last FILE line and
   * the numbers of the last chunk-lines line.
   */
  method ParseFileAndLines(userText: string) returns (file: Option<string>, lines: Option<(nat, nat)>)
    ensures file == LastSome(SplitLines(userText), FileLine) && LastWins(SplitLines(userText), FileLine, file)
    ensures lines == LastSome(SplitLines(userText), LinesLine) && LastWins(SplitLines(userText), LinesLine, lines)
  {
    var ls := SplitLines(userText);
    LastSomeWins(ls, FileLine);
    LastSomeWins(ls, LinesLine);
    file, lines := ScanLines(ls);
  }

  // ---------- per-record accumulation ----------

  /** What the cache keeps for one file (the reason text of a risky range is not modelled). */
  datatype Slot = Slot(symbols: seq<string>, intents: seq<string>, invariants: seq<string>, risky: seq<Span>)

  const EmptySlot := Slot([], [], [], [])

  predicate NoDup(xs: seq<string>) {
    forall i, j :: 0 <= i < j < |xs| ==> xs[i] != xs[j]
  }

  /** Distinct non-empty strings. */
  predicate Clean(xs: seq<string>) {
    NoDup(xs) && "" !in xs
  }

  /** Each list holds distinct non-empty strings and each risky range holds a line. */
  predicate SlotOk(s: Slot) {
    Clean(s.symbols) && Clean(s.intents) && Clean(s.invariants) && WellFormed(s.risky)
  }

  /** The accumulated state of the record loop: the summary map, the counters and the files seen. */
  datatype State = State(files: map<string, Slot>, attempts: nat, hits: nat, seen: set<string>)

  predicate StateOk(st: State) {
    st.seen == st.files.Keys && |st.seen| <= st.hits <= st.attempts && (st.hits > 0 ==> st.seen != {})
    && forall f :: f in st.files ==> SlotOk(st.files[f])
  }

  /**
   * `list` is `list0` followed by the non-empty strings of `vals` that were
   * not there yet: still clean, `list0` a prefix, and holding exactly the
   * strings of both.
   */
  ghost predicate Extends(list0: seq<string>, list: seq<string>, vals: seq<Json>) {
    Clean(list) && |list| >= |list0| && list[..|list0|] == list0
    && forall x :: x in list <==> x in list0 || (x != "" && JStr(x) in vals)
  }

  /** The list after the values loop: each new non-empty string appended in turn. */
  function AppendNewOf(list0: seq<string>, vals: seq<Json>): seq<string> {
    if vals == [] then list0
    else
      var list := AppendNewOf(list0, vals[..|vals| - 1]);
      var v := vals[|vals| - 1];
      if v.JStr? && v.s != "" && v.s !in list then list + [v.s] else list
  }

  /** `for v in vals: if isinstance(v, str) and v and v not in slot[key]: slot[key].append(v)` */
  method AppendNew(list0: seq<string>, vals: seq<Json>) returns (list: seq<string>)
    requires Clean(list0)
    ensures list == AppendNewOf(list0, vals)
    ensures Extends(list0, list, vals)
  {
    list := list0;
    var i := 0;
    while i < |vals|
      invariant 0 <= i <= |vals|
      invariant list == AppendNewOf(list0, vals[..i])
      invariant Extends(list0, list, vals[..i])
    {
      var v := vals[i];
      if v.JStr? && v.s != "" && v.s !in list {
        list := list + [v.s];
      }
      assert vals[..i + 1] == vals[..i] + [v];
      assert vals[..i + 1][..i] == vals[..i];
      i := i + 1;
    }
    assert vals[..|vals|] == vals;
  }

  /** The values loop keeps the list clean, keeps its old entries first and adds exactly the new strings. */
  lemma {:induction false} AppendNewExtends(list0: seq<string>, vals: seq<Json>)
    requires Clean(list0)
    ensures Extends(list0, AppendNewOf(list0, vals), vals)
  {
    if vals != [] {
      var n := |vals| - 1;
      AppendNewExtends(list0, vals[..n]);
      assert vals == vals[..n] + [vals[n]];
    }
  }

  /** `parsed.get(key) or []`, when it is a list: the values the loop looks at. */
  function Vals(answer: map<string, Json>, key: string): seq<Json> {
    var v := Get(answer, key);
    if v.JArr? then v.items else []
  }

  /** `parsed.get("risky_spans") or []` as the `for` loop iterates it; None where Python raises. */
  function RiskyItems(answer: map<string, Json>): Option<seq<Json>> {
    var v := Get(answer, "risky_spans");
    if Truthy(v) then Iterated(v) else Some([])
  }

  /** `se` is a list of at least two values that `int()` accepts. */
  predicate IntPair(se: Json) {
    se.JArr? && |se.items| >= 2 && ToInt(se.items[0]).Some? && ToInt(se.items[1]).Some?
  }

  function LocS(se: Json): int
    requires IntPair(se)
  {
    ToInt(se.items[0]).value
  }

  function LocE(se: Json): int
    requires IntPair(se)
  {
    ToInt(se.items[1]).value
  }

  /**
   * A risky range [loc_s, loc_e, ...] moved from chunk lines to file lines:
   * it is kept exactly when loc_s <= loc_e, whether or not the chunk's first
   * line is known, and subtracting the shift gives back the chunk lines.
   */
  function RiskyOf(se: Json, base: Option<nat>): (r: Option<Span>)
    ensures r.Some? <==> IntPair(se) && LocS(se) <= LocE(se)
    ensures r.Some? && base.Some? ==> r.value.s - (base.value - 1) == LocS(se) && r.value.e - (base.value - 1) == LocE(se)
    ensures r.Some? && base.None? ==> r.value.s == LocS(se) && r.value.e == LocE(se)
  {
    if IntPair(se) then
      var locS, locE := LocS(se), LocE(se);
      var gs := if base.Some? then base.value + (locS - 1) else locS;
      var ge := if base.Some? then base.value + (locE - 1) else locE;
      if gs <= ge then Some(Span(gs, ge)) else None
    else None
  }

  /** The ranges the risky-range loop appends, in order. */
  function RiskyList(items: seq<Json>, base: Option<nat>): (r: seq<Span>)
    ensures WellFormed(r) && |r| <= |items|
  {
    if items == [] then []
    else
      var init := RiskyList(items[..|items| - 1], base);
      match RiskyOf(items[|items| - 1], base)
      case None => init
      case Some(y) => init + [y]
  }

  lemma RiskyListStep(items: seq<Json>, base: Option<nat>, i: nat)
    requires i < |items|
    ensures RiskyList(items[..i + 1], base)
      == RiskyList(items[..i], base) + (if RiskyOf(items[i], base).Some? then [RiskyOf(items[i], base).value] else [])
  {
    assert items[..i + 1][..i] == items[..i];
  }

  /** One turn of the risky-range loop, stated on the accumulated list. */
  lemma AppendRiskyStep(spans0: seq<Span>, items: seq<Json>, base: Option<nat>, i: nat, m: Option<Span>)
    requires i < |items| && m == RiskyOf(items[i], base)
    ensures spans0 + RiskyList(items[..i + 1], base)
      == spans0 + RiskyList(items[..i], base) + (if m.Some? then [m.value] else [])
  {
    RiskyListStep(items, base, i);
  }

  /** The risky-range loop over one answer. */
  method AppendRisky(spans0: seq<Span>, items: seq<Json>, base: Option<nat>) returns (spans: seq<Span>)
    ensures spans == spans0 + RiskyList(items, base)
  {
    spans := spans0;
    var i := 0;
    while i < |items|
      invariant 0 <= i <= |items|
      invariant spans == spans0 + RiskyList(items[..i], base)
    {
      var m := RiskyOf(items[i], base);
      AppendRiskyStep(spans0, items, base, i, m);
      if m.Some? {
        spans := spans + [m.value];
      }
      i := i + 1;
    }
    assert items[..|items|] == items;
  }

  /** A slot after one accepted answer, or the TypeError of a risky-range value that cannot be iterated. */
  function SlotAfter(slot: Slot, answer: map<string, Json>, base: Option<nat>): Result<Slot> {
    match RiskyItems(answer)
    case None => Failure("TypeError")
    case Some(items) =>
      Success(Slot(AppendNewOf(slot.symbols, Vals(answer, "symbols")), AppendNewOf(slot.intents, Vals(answer, "intents")),
                   AppendNewOf(slot.invariants, Vals(answer, "invariants")), slot.risky + RiskyList(items, base)))
  }

  /**
   * An accepted answer fails only on a risky-range value that cannot be
   * iterated; otherwise each list gains exactly the answer's new strings and
   * the risky ranges gain the answer's ranges, moved to file lines.
   */
  lemma SlotAfterOk(slot: Slot, answer: map<string, Json>, base: Option<nat>)
    requires SlotOk(slot)
    ensures SlotAfter(slot, answer, base).Failure? <==> RiskyItems(answer).None?
    ensures SlotAfter(slot, answer, base).Success? ==>
      var u := SlotAfter(slot, answer, base).value;
      SlotOk(u)
      && Extends(slot.symbols, u.symbols, Vals(answer, "symbols"))
      && Extends(slot.intents, u.intents, Vals(answer, "intents"))
      && Extends(slot.invariants, u.invariants, Vals(answer, "invariants"))
      && u.risky == slot.risky + RiskyList(RiskyItems(answer).value, base)
  {
    AppendNewExtends(slot.symbols, Vals(answer, "symbols"));
    AppendNewExtends(slot.intents, Vals(answer, "intents"));
    AppendNewExtends(slot.invariants, Vals(answer, "invariants"));
    if RiskyItems(answer).Some? {
      WellFormedAppend(slot.risky, RiskyList(RiskyItems(answer).value, base));
    }
  }

  /** The symbols/intents/invariants loops and the risky-range loop for one accepted answer. */
  method UpdateSlot(slot: Slot, answer: map<string, Json>, base: Option<nat>) returns (r: Result<Slot>)
    requires SlotOk(slot)
    ensures r == SlotAfter(slot, answer, base)
    ensures r.Failure? <==> RiskyItems(answer).None?
    ensures r.Success? ==> SlotOk(r.value)
    ensures r.Success? ==> Extends(slot.symbols, r.value.symbols, Vals(answer, "symbols"))
                           && Extends(slot.intents, r.value.intents, Vals(answer, "intents"))
                           && Extends(slot.invariants, r.value.invariants, Vals(answer, "invariants"))
    ensures r.Success? ==> r.value.risky == slot.risky + RiskyList(RiskyItems(answer).value, base)
  {
    var syms := AppendNew(slot.symbols, Vals(answer, "symbols"));
    var ints := AppendNew(slot.intents, Vals(answer, "intents"));
    var invs := AppendNew(slot.invariants, Vals(answer, "invariants"));
    var items := RiskyItems(answer);
    if items.None? {
      return Failure("TypeError");
    }
    var risky := AppendRisky(slot.risky, items.value, base);
    WellFormedAppend(slot.risky, RiskyList(items.value, base));
    return Success(Slot(syms, ints, invs, risky));
  }

  lemma WellFormedAppend(a: seq<Span>, b: seq<Span>)
    requires WellFormed(a) && WellFormed(b)
    ensures WellFormed(a + b)
  {
  }

  /** A graph-indexing record: its prefix (or tag, or name) is a string starting "gindex_". */
  predicate IsIndexRecord(rec: map<string, Json>) {
    var pref := OrChain([Get(rec, "prefix"), Get(rec, "tag"), Get(rec, "name"), JStr("")]);
    pref.JStr? && StartsWith(pref.s, "gindex_")
  }

  /** `rec.get(a) or rec.get(b) or rec.get(c) or ""` */
  function TextField(rec: map<string, Json>, a: string, b: string, c: string): (r: Json)
    ensures Truthy(r) || r == JStr("")
  {
    OrChain([Get(rec, a), Get(rec, b), Get(rec, c), JStr("")])
  }

  /**
   * The answer is used for `file`: a dict whose truthy `file` is not
   * another path (`not in (None, "", file_path)`).
   */
  predicate Accepted(parsed: Json, file: string) {
    parsed.JObj? && Truthy(Get(parsed.fields, "file")) && Get(parsed.fields, "file") in [JNull, JStr(""), JStr(file)]
  }

  /** An accepted answer names exactly the prompt's file. */
  lemma AcceptedSameFile(parsed: Json, file: string)
    requires Accepted(parsed, file)
    ensures Get(parsed.fields, "file") == JStr(file)
  {
  }

  /** The state after a hit on `f`: its slot (empty when new) updated by the answer, one more hit, `f` seen. */
  function HitAfter(st: State, f: string, base: Option<nat>, answer: map<string, Json>): Result<State> {
    var slot := if f in st.files then st.files[f] else EmptySlot;
    match SlotAfter(slot, answer, base)
    case Failure(err) => Failure(err)
    case Success(u) => Success(State(st.files[f := u], st.attempts, st.hits + 1, st.seen + {f}))
  }

  /**
   * A hit on `f` keeps the state well formed: it fails exactly on a
   * risky-range value that cannot be iterated, and otherwise gives one more
   * hit, `f` among the files, and the attempts unchanged.
   */
  lemma HitAfterShape(st: State, f: string, base: Option<nat>, answer: map<string, Json>)
    requires StateOk(st) && st.hits < st.attempts
    ensures HitAfter(st, f, base, answer).Failure? <==> RiskyItems(answer).None?
    ensures HitAfter(st, f, base, answer).Success? ==>
      var r := HitAfter(st, f, base, answer).value;
      StateOk(r) && r.files.Keys == st.files.Keys + {f} && r.attempts == st.attempts && r.hits == st.hits + 1
  {
    var slot := if f in st.files then st.files[f] else EmptySlot;
    SlotAfterOk(slot, answer, base);
    if SlotAfter(slot, answer, base).Success? {
      StateAddHit(st, f, SlotAfter(slot, answer, base).value);
    }
  }

  lemma StateAddHit(st: State, f: string, u: Slot)
    requires StateOk(st) && st.hits < st.attempts && SlotOk(u)
    ensures StateOk(State(st.files[f := u], st.attempts, st.hits + 1, st.seen + {f}))
  {
    assert |st.seen + {f}| <= |st.seen| + 1;
  }

  /**
   * A hit on `f` adds one hit and updates only `f`'s slot (empty when
   * new) by the answer: every other file's slot is unchanged.
   */
  lemma HitAfterSlots(st: State, f: string, base: Option<nat>, answer: map<string, Json>)
    ensures HitAfter(st, f, base, answer).Success? ==>
      var r := HitAfter(st, f, base, answer).value;
      r.hits == st.hits + 1 && r.files.Keys == st.files.Keys + {f} && r.files[f] == SlotAfter(if f in st.files then st.files[f] else EmptySlot, answer, base).value
      && forall g :: g in st.files && g != f ==> g in r.files && r.files[g] == st.files[g]
  {
  }

  /** A hit: the slot of `f` is created if new and updated; hits and the files seen grow. */
  method AddHit(st: State, f: string, base: Option<nat>, answer: map<string, Json>) returns (r: Result<State>)
    requires StateOk(st) && st.hits < st.attempts
    ensures r == HitAfter(st, f, base, answer)
    ensures r.Failure? <==> RiskyItems(answer).None?
    ensures r.Success? ==> StateOk(r.value) && r.value.files.Keys == st.files.Keys + {f}
    ensures r.Success? ==> r.value.attempts == st.attempts && r.value.hits == st.hits + 1
    ensures r.Success? ==> forall g :: g in st.files && g != f ==> r.value.files[g] == st.files[g]
  {
    HitAfterShape(st, f, base, answer);
    HitAfterSlots(st, f, base, answer);
    var slot := if f in st.files then st.files[f] else EmptySlot;
    var u := UpdateSlot(slot, answer, base);
    if u.Failure? {
      r := Failure(u.error);
    } else {
      r := Success(State(st.files[f := u.value], st.attempts, st.hits + 1, st.seen + {f}));
    }
    assert r == HitAfter(st, f, base, answer);
  }

  /** What the loop body makes of a graph-indexing record: an exception, a skip, or a hit with its answer. */
  datatype Verdict = Raise(error: string) | Skip | Hit(file: string, base: Option<nat>, answer: map<string, Json>)

  /** `s_line`, when the prompt gives the chunk lines. */
  function ChunkBase(lines: Option<(nat, nat)>): Option<nat> {
    if lines.Some? then Some(lines.value.0) else None
  }

  /**
   * The prompt names the file and the chunk lines; the record is skipped
   * without a non-empty file, and without an answer that is a dict whose
   * truthy `file` is that file.
   */
  function VerdictOf(m: map<string, Json>, extract: string -> Json): Verdict {
    var userText := TextField(m, "user_text", "user", "prompt");
    var respText := TextField(m, "response_text", "response", "reply");
    if !userText.JStr? then Raise("AttributeError")
    else
      var ls := SplitLines(userText.s);
      var file := LastSome(ls, FileLine);
      if file.None? || file.value == "" then Skip
      else if !respText.JStr? then Raise("TypeError")
      else
        var parsed := if respText.s == "" then JNull else extract(respText.s);
        if !Accepted(parsed, file.value) then Skip
        else Hit(file.value, ChunkBase(LastSome(ls, LinesLine)), parsed.fields)
  }

  /** One graph-indexing record, already counted as an attempt. */
  function IndexStep(st: State, m: map<string, Json>, extract: string -> Json): Result<State> {
    match VerdictOf(m, extract)
    case Raise(err) => Failure(err)
    case Skip => Success(st)
    case Hit(f, base, answer) => HitAfter(st, f, base, answer)
  }

  /** `attempts += 1` */
  function Counted(st: State): State {
    st.(attempts := st.attempts + 1)
  }

  /** One record of the trace: a dict, and counted when it is a graph-indexing record. */
  function RecordStep(st: State, rec: Json, extract: string -> Json): Result<State> {
    if !rec.JObj? then Failure("AttributeError")
    else if !IsIndexRecord(rec.fields) then Success(st)
    else IndexStep(Counted(st), rec.fields, extract)
  }

  /** The record loop as a fold: the state after every record, or the first exception. */
  function Folded(records: seq<Json>, extract: string -> Json): Result<State> {
    if records == [] then Success(State(map[], 0, 0, {}))
    else
      match Folded(records[..|records| - 1], extract)
      case Failure(err) => Failure(err)
      case Success(st) => RecordStep(st, records[|records| - 1], extract)
  }

  /**
   * A graph-indexing record keeps the state well formed: a string prompt is
   * needed, the attempts do not change, files are only added, and there is
   * at most one more hit.
   */
  lemma IndexStepShape(st: State, m: map<string, Json>, extract: string -> Json)
    requires StateOk(st) && st.hits < st.attempts
    ensures !TextField(m, "user_text", "user", "prompt").JStr? ==> IndexStep(st, m, extract).Failure?
    ensures IndexStep(st, m, extract).Success? ==>
      var r := IndexStep(st, m, extract).value;
      StateOk(r) && r.attempts == st.attempts && st.files.Keys <= r.files.Keys && r.hits <= st.hits + 1
  {
    var v := VerdictOf(m, extract);
    if v.Hit? {
      HitAfterShape(st, v.file, v.base, v.answer);
    }
  }

  /**
   * A record keeps the state well formed; it raises when it is not a dict,
   * changes nothing when it is not a graph-indexing record, and otherwise
   * counts one attempt.
   */
  lemma RecordStepShape(st: State, rec: Json, extract: string -> Json)
    requires StateOk(st)
    ensures !rec.JObj? ==> RecordStep(st, rec, extract).Failure?
    ensures rec.JObj? && !IsIndexRecord(rec.fields) ==> RecordStep(st, rec, extract) == Success(st)
    ensures RecordStep(st, rec, extract).Success? ==>
      StateOk(RecordStep(st, rec, extract).value)
      && RecordStep(st, rec, extract).value.attempts == st.attempts + (if IsIndexRecord(rec.fields) then 1 else 0)
  {
    if rec.JObj? && IsIndexRecord(rec.fields) {
      RecordStepIndexed(st, rec, extract);
      IndexStepShape(Counted(st), rec.fields, extract);
    }
  }

  lemma RecordStepIndexed(st: State, rec: Json, extract: string -> Json)
    requires rec.JObj? && IsIndexRecord(rec.fields)
    ensures RecordStep(st, rec, extract) == IndexStep(Counted(st), rec.fields, extract)
  {
  }

  /** The file a record is a hit for: a graph-indexing dict whose answer is accepted. */
  function HitFile(rec: Json, extract: string -> Json): Option<string> {
    if rec.JObj? && IsIndexRecord(rec.fields) && VerdictOf(rec.fields, extract).Hit? then Some(VerdictOf(rec.fields, extract).file)
    else None
  }

  /** The number of records that are hits. */
  function HitCount(records: seq<Json>, extract: string -> Json): nat {
    if records == [] then 0
    else HitCount(records[..|records| - 1], extract) + (if HitFile(records[|records| - 1], extract).Some? then 1 else 0)
  }

  /** The files the hits are for. */
  function HitFiles(records: seq<Json>, extract: string -> Json): set<string> {
    if records == [] then {}
    else
      var h := HitFile(records[|records| - 1], extract);
      HitFiles(records[..|records| - 1], extract) + (if h.Some? then {h.value} else {})
  }

  /** A record adds one hit, and its file, exactly when it is a hit. */
  lemma RecordStepHits(st: State, rec: Json, extract: string -> Json)
    ensures RecordStep(st, rec, extract).Success? ==>
      var h := HitFile(rec, extract);
      RecordStep(st, rec, extract).value.hits == st.hits + (if h.Some? then 1 else 0)
      && RecordStep(st, rec, extract).value.files.Keys == st.files.Keys + (if h.Some? then {h.value} else {})
  {
    if rec.JObj? && IsIndexRecord(rec.fields) {
      RecordStepIndexed(st, rec, extract);
      var v := VerdictOf(rec.fields, extract);
      if v.Hit? {
        HitAfterSlots(Counted(st), v.file, v.base, v.answer);
      }
    }
  }

  /**
   * Over a whole trace that raises nothing, the hits are the records whose
   * answer was accepted and the summary's files are exactly their files.
   */
  lemma {:induction false} HitsCounted(records: seq<Json>, extract: string -> Json)
    ensures Folded(records, extract).Success? ==>
      Folded(records, extract).value.hits == HitCount(records, extract)
      && Folded(records, extract).value.files.Keys == HitFiles(records, extract)
  {
    if records != [] {
      var n := |records| - 1;
      HitsCounted(records[..n], extract);
      if Folded(records[..n], extract).Success? {
        RecordStepHits(Folded(records[..n], extract).value, records[n], extract);
      }
    }
  }

  /** No hit exactly when no file was hit. */
  lemma {:induction false} HitCountZero(records: seq<Json>, extract: string -> Json)
    ensures HitCount(records, extract) == 0 <==> HitFiles(records, extract) == {}
  {
    if records != [] {
      HitCountZero(records[..|records| - 1], extract);
    }
  }

  lemma FoldedStep(records: seq<Json>, extract: string -> Json, i: nat, st: State)
    requires i < |records| && Folded(records[..i], extract) == Success(st)
    ensures Folded(records[..i + 1], extract) == RecordStep(st, records[i], extract)
  {
    assert records[..i + 1][..i] == records[..i];
  }

  lemma {:induction false} FoldedFailureSticks(records: seq<Json>, extract: string -> Json, j: nat)
    requires j <= |records| && Folded(records[..j], extract).Failure?
    ensures Folded(records, extract) == Folded(records[..j], extract)
    decreases |records| - j
  {
    if j < |records| {
      assert records[..j + 1][..j] == records[..j];
      FoldedFailureSticks(records, extract, j + 1);
    } else {
      assert records[..j] == records;
    }
  }

  /**
   * The loop body up to the hit: find the file and chunk lines in the
   * prompt, take the answer's JSON, and decide. A prompt or answer text
   * that is neither empty nor a string raises, as it does in Python.
   */
  method ReadRecord(m: map<string, Json>, extract: string -> Json) returns (v: Verdict)
    ensures v == VerdictOf(m, extract)
    ensures !TextField(m, "user_text", "user", "prompt").JStr? <==> v == Raise("AttributeError")
    ensures v.Hit? ==> v.file != "" && Get(extract(TextField(m, "response_text", "response", "reply").s).fields, "file") == JStr(v.file)
  {
    var userText := TextField(m, "user_text", "user", "prompt");
    var respText := TextField(m, "response_text", "response", "reply");
    if !userText.JStr? {
      return Raise("AttributeError");
    }
    var file, lines := ParseFileAndLines(userText.s);
    ghost var ls := SplitLines(userText.s);
    assert file == LastSome(ls, FileLine) && lines == LastSome(ls, LinesLine);
    if file.None? || file.value == "" {
      return Skip;
    }
    if !respText.JStr? {
      return Raise("TypeError");
    }
    var parsed := if respText.s == "" then JNull else extract(respText.s);
    if !Accepted(parsed, file.value) {
      return Skip;
    }
    AcceptedSameFile(parsed, file.value);
    v := Hit(file.value, ChunkBase(lines), parsed.fields);
  }

  /** A graph-indexing record, already counted as an attempt: a hit updates the file's slot. */
  method IndexRecord(st: State, m: map<string, Json>, extract: string -> Json) returns (r: Result<State>)
    requires StateOk(st) && st.hits < st.attempts
    ensures r == IndexStep(st, m, extract)
    ensures !TextField(m, "user_text", "user", "prompt").JStr? ==> r.Failure?
    ensures r.Success? ==> StateOk(r.value) && r.value.attempts == st.attempts
    ensures r.Success? ==> st.files.Keys <= r.value.files.Keys && r.value.hits <= st.hits + 1
  {
    IndexStepShape(st, m, extract);
    var v := ReadRecord(m, extract);
    match v
    case Raise(err) =>
      r := Failure(err);
    case Skip =>
      r := Success(st);
    case Hit(f, base, answer) =>
      r := AddHit(st, f, base, answer);
  }

  /**
   * One line of the trace, as a parsed JSON value. A value that is not a
   * dict raises on `rec.get`; records that are not graph-indexing records
   * change nothing.
   */
  method AddRecord(st: State, rec: Json, extract: string -> Json) returns (r: Result<State>)
    requires StateOk(st)
    ensures r == RecordStep(st, rec, extract)
    ensures !rec.JObj? ==> r.Failure?
    ensures rec.JObj? && !IsIndexRecord(rec.fields) ==> r == Success(st)
    ensures r.Success? ==> StateOk(r.value)
    ensures r.Success? ==> r.value.attempts == st.attempts + (if IsIndexRecord(rec.fields) then 1 else 0)
  {
    if !rec.JObj? {
      return Failure("AttributeError");
    }
    if !IsIndexRecord(rec.fields) {
      return Success(st);
    }
    RecordStepIndexed(st, rec, extract);
    r := IndexRecord(Counted(st), rec.fields, extract);
  }

  // ---------- compaction ----------

  const Cap: nat := 50

  /** `xs[:50]` */
  function Take(xs: seq<string>): (r: seq<string>)
    ensures |r| <= Cap && |r| <= |xs| && r == xs[..|r|]
    ensures |xs| <= Cap ==> r == xs
  {
    if |xs| <= Cap then xs else xs[..Cap]
  }

  lemma TakeClean(xs: seq<string>)
    requires Clean(xs)
    ensures Clean(Take(xs))
  {
    var t := Take(xs);
    assert forall i :: 0 <= i < |t| ==> t[i] == xs[i];
  }

  /** A compacted slot: lists clean and at most 50 long, risky ranges merged and at most 50. */
  predicate SlotDone(s: Slot) {
    SlotOk(s) && |s.symbols| <= Cap && |s.intents| <= Cap && |s.invariants| <= Cap
    && |s.risky| <= Cap && Sorted(s.risky) && Separated(s.risky)
  }

  /** `merged[:50]` */
  function TakeSpans(xs: seq<Span>): (r: seq<Span>)
    ensures |r| <= Cap && |r| <= |xs| && r == xs[..|r|]
    ensures |xs| <= Cap ==> r == xs
  {
    if |xs| <= Cap then xs else xs[..Cap]
  }

  /** The compaction of one slot: lists trimmed to 50, risky ranges merged, then trimmed to 50. */
  function Compacted(s: Slot): Slot {
    Slot(Take(s.symbols), Take(s.intents), Take(s.invariants), TakeSpans(Merge(s.risky)))
  }

  /** A compacted slot is done: lists clean and at most 50 long, risky ranges merged and at most 50. */
  lemma CompactedDone(s: Slot)
    requires SlotOk(s)
    ensures SlotDone(Compacted(s))
  {
    TakeClean(s.symbols);
    TakeClean(s.intents);
    TakeClean(s.invariants);
    TrimmedOrdered(s.risky);
  }

  /**
   * A compacted slot's risky ranges hold only lines of the recorded ranges,
   * and all of them when at most 50 merged ranges remain.
   */
  lemma CompactedCovers(s: Slot)
    requires SlotOk(s)
    ensures forall z :: Covers(Compacted(s).risky, z) ==> Covers(s.risky, z)
    ensures |Merge(s.risky)| <= Cap ==> forall z :: Covers(Compacted(s).risky, z) <==> Covers(s.risky, z)
  {
    TrimmedCovers(s.risky);
  }

  lemma TrimmedOrdered(xs: seq<Span>)
    requires WellFormed(xs)
    ensures WellFormed(TakeSpans(Merge(xs))) && Sorted(TakeSpans(Merge(xs))) && Separated(TakeSpans(Merge(xs)))
  {
    var m := Merge(xs);
    var t := TakeSpans(m);
    MergeOrdered(xs);
    MergeCovers(xs);
    assert forall k :: 0 <= k < |t| ==> t[k] == m[k];
  }

  lemma TrimmedCovers(xs: seq<Span>)
    requires WellFormed(xs)
    ensures forall z :: Covers(TakeSpans(Merge(xs)), z) ==> Covers(xs, z)
    ensures |Merge(xs)| <= Cap ==> forall z :: Covers(TakeSpans(Merge(xs)), z) <==> Covers(xs, z)
  {
    var m := Merge(xs);
    var t := TakeSpans(m);
    MergeCovers(xs);
    forall z | Covers(t, z)
      ensures Covers(m, z)
    {
      var y :| y in t && y.s <= z <= y.e;
      assert y in m;
    }
  }

  /** The loop body of the compaction, with `merge_spans` run as its loop. */
  method CompactSlot(s: Slot) returns (r: Slot)
    ensures r == Compacted(s)
  {
    var merged := MergeSpans(s.risky);
    r := Slot(Take(s.symbols), Take(s.intents), Take(s.invariants), TakeSpans(merged));
  }

  /** Every slot of `out` is the compaction of the same file's slot, and is done. */
  predicate CompactedMap(out: map<string, Slot>, files: map<string, Slot>) {
    forall f :: f in out ==> f in files && out[f] == Compacted(files[f]) && SlotDone(out[f])
  }

  /** Every file's slot compacted. */
  function CompactedAll(files: map<string, Slot>): map<string, Slot> {
    map f | f in files :: Compacted(files[f])
  }

  /** Every compacted slot is done. */
  lemma CompactedAllDone(files: map<string, Slot>)
    requires forall f :: f in files ==> SlotOk(files[f])
    ensures CompactedAll(files).Keys == files.Keys && CompactedMap(CompactedAll(files), files)
  {
    forall f | f in files {
      CompactedDone(files[f]);
    }
  }

  lemma CompactedAllAdd(files: map<string, Slot>, todo: set<string>, f: string)
    requires f in todo && todo <= files.Keys
    ensures CompactedAll(files - (todo - {f})) == CompactedAll(files - todo)[f := Compacted(files[f])]
  {
    assert (files - (todo - {f})).Keys == (files - todo).Keys + {f};
  }

  /** `for fpath, slot in summary_map.items(): ...` */
  method Compact(files: map<string, Slot>) returns (out: map<string, Slot>)
    requires forall f :: f in files ==> SlotOk(files[f])
    ensures out == CompactedAll(files)
    ensures out.Keys == files.Keys && CompactedMap(out, files)
  {
    out := map[];
    var todo := files.Keys;
    assert files - todo == map[];
    while todo != {}
      invariant todo <= files.Keys && out == CompactedAll(files - todo)
      decreases |todo|
    {
      var f :| f in todo;
      var slot := CompactSlot(files[f]);
      CompactedAllAdd(files, todo, f);
      out := out[f := slot];
      todo := todo - {f};
    }
    assert files - todo == files;
    CompactedAllDone(files);
  }

  /**
   * The compaction loop as the script writes it: before the risky ranges
   * are replaced, the line that clears them builds `[[s, e, ""]]`, and
   * `main` never binds `s` or `e` (they are bound only inside the
   * comprehension on the line above), so the first slot raises NameError.
   * Every hit creates a slot, so a trace with an accepted answer never
   * reaches the output; `Compact` is the loop without that line.
   */
  method CompactAsWritten(files: map<string, Slot>) returns (r: Result<map<string, Slot>>)
    ensures r.Success? <==> files == map[]
    ensures r.Success? ==> r.value == map[]
  {
    var todo := files.Keys;
    if todo != {} {
      return Failure("NameError: name 's' is not defined");
    }
    return Success(map[]);
  }

  /** The number of graph-indexing records among the dict records. */
  function IndexRecords(records: seq<Json>): nat {
    if records == [] then 0
    else
      var last := records[|records| - 1];
      IndexRecords(records[..|records| - 1]) + (if last.JObj? && IsIndexRecord(last.fields) then 1 else 0)
  }

  lemma IndexRecordsSnoc(records: seq<Json>, i: nat)
    requires i < |records|
    ensures IndexRecords(records[..i + 1]) ==
            IndexRecords(records[..i]) + (if records[i].JObj? && IsIndexRecord(records[i].fields) then 1 else 0)
  {
    assert records[..i + 1][..i] == records[..i];
  }

  /** The rebuilt cache: per-file summaries and the run statistics. */
  datatype Cache = Cache(summary: map<string, Slot>, origChunks: nat, attempts: nat, hits: nat, files: nat)

  /** All of the trace's records are dicts. */
  predicate AllDicts(records: seq<Json>) {
    forall k :: 0 <= k < |records| ==> records[k].JObj?
  }

  lemma AllDictsSnoc(records: seq<Json>, i: nat)
    requires i < |records| && AllDicts(records[..i]) && records[i].JObj?
    ensures AllDicts(records[..i + 1])
  {
    assert forall k :: 0 <= k < i ==> records[..i + 1][k] == records[..i][k];
  }

  /** The record loop of `main`: the state after every record, or the error the first failing record raises. */
  method Accumulate(records: seq<Json>, extract: string -> Json) returns (r: Result<State>)
    ensures r == Folded(records, extract)
    ensures r.Success? ==> StateOk(r.value) && r.value.attempts == IndexRecords(records) && AllDicts(records)
    ensures !AllDicts(records) ==> r.Failure?
  {
    var st := State(map[], 0, 0, {});
    var i := 0;
    while i < |records|
      invariant 0 <= i <= |records|
      invariant Folded(records[..i], extract) == Success(st)
      invariant StateOk(st) && st.attempts == IndexRecords(records[..i]) && AllDicts(records[..i])
    {
      var step := AddRecord(st, records[i], extract);
      FoldedStep(records, extract, i, st);
      if step.Failure? {
        FoldedFailureSticks(records, extract, i + 1);
        return Failure(step.error);
      }
      IndexRecordsSnoc(records, i);
      AllDictsSnoc(records, i);
      st := step.value;
      i := i + 1;
    }
    assert records[..|records|] == records;
    return Success(st);
  }

  /**
   * `main` on the parsed trace records: accumulate every record, then
   * compact. Attempts count the graph-indexing records, hits the accepted
   * answers, and `files` the distinct files with an accepted answer, which
   * are the summary's keys; each summary slot is the compaction of that
   * file's accumulated slot.
   */
  method Reconstruct(records: seq<Json>, extract: string -> Json) returns (r: Result<Cache>)
    ensures r.Success? <==> Folded(records, extract).Success?
    ensures r.Success? ==>
      r.value.summary == CompactedAll(Folded(records, extract).value.files)
      && r.value.hits == Folded(records, extract).value.hits == HitCount(records, extract)
      && r.value.summary.Keys == HitFiles(records, extract)
    ensures !AllDicts(records) ==> r.Failure?
    ensures r.Success? ==> r.value.attempts == r.value.origChunks == IndexRecords(records)
    ensures r.Success? ==> r.value.files == |r.value.summary.Keys| <= r.value.hits <= r.value.attempts
    ensures r.Success? ==> forall f :: f in r.value.summary ==> SlotDone(r.value.summary[f])
  {
    HitsCounted(records, extract);
    var acc := Accumulate(records, extract);
    if acc.Failure? {
      return Failure(acc.error);
    }
    var st := acc.value;
    var summary := Compact(st.files);
    return Success(Cache(summary, st.attempts, st.attempts, st.hits, |st.seen|));
  }

  /**
   * `main` as written: the records are accumulated as above, and the
   * compaction raises as soon as there is a slot, so a cache is produced
   * exactly for a trace that raises nothing and in which no answer was
   * accepted.
   */
  method ReconstructAsWritten(records: seq<Json>, extract: string -> Json) returns (r: Result<Cache>)
    ensures r.Success? <==> Folded(records, extract).Success? && HitCount(records, extract) == 0
    ensures !AllDicts(records) ==> r.Failure?
    ensures r.Success? ==> r.value.hits == 0 && r.value.summary == map[]
    ensures r.Success? ==> r.value.attempts == r.value.origChunks == IndexRecords(records)
  {
    HitsCounted(records, extract);
    HitCountZero(records, extract);
    var acc := Accumulate(records, extract);
    if acc.Failure? {
      return Failure(acc.error);
    }
    var st := acc.value;
    var summary := CompactAsWritten(st.files);
    if summary.Failure? {
      return Failure(summary.error);
    }
    return Success(Cache(summary.value, st.attempts, st.attempts, st.hits, |st.seen|));
  }
}
