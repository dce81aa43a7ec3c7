/**
 * Scoring of a detection answer against the ground-truth mutations: the
 * predicted findings are normalised to line ranges per file (paths made
 * relative to the mutants directory, test files ignored), then scored either
 * per file (which files were named) or per range (greedy one-to-one matching
 * of predicted ranges to ground-truth ranges above an IoU threshold).
 */
module EvalDetection {
  import opened Wrappers
  import opened PyStr
  import opened Json
  import opened Spans

  // ---------- `_normalize_line_spans` ----------

  /** `isinstance(v, (int, str))` (a bool is an int). */
  predicate IntOrStr(v: Json) {
    IsPyInt(v) || v.JStr?
  }

  /** `obj.get(k)` for each key in turn. */
  function GetAll(obj: map<string, Json>, keys: seq<string>): (r: seq<Json>)
    ensures |r| == |keys| && forall k :: 0 <= k < |keys| ==> r[k] == Get(obj, keys[k])
  {
    if keys == [] then [] else [Get(obj, keys[0])] + GetAll(obj, keys[1..])
  }

  /** The range keys of a dict passed to `_normalize_line_spans`. */
  const SpanKeys: seq<string> := ["line_spans", "spans", "ranges", "lines", "lineRanges"]
  /** The range keys a finding is read through: `lineRanges` is not one of them. */
  const FindingSpanKeys: seq<string> := ["line_spans", "spans", "ranges", "lines"]
  const StartKeys: seq<string> := ["start", "s", "from", "line_start", "lineStart", "lineno"]
  const EndKeys: seq<string> := ["end", "e", "to", "line_end", "lineEnd", "end_lineno"]

  /**
   * `_add(out, a, b)`: the range [int(a), int(b)] when both conversions
   * succeed and the range holds a line, else nothing.
   */
  function AddPair(a: Json, b: Json): (r: seq<Span>)
    ensures WellFormed(r) && |r| <= 1
    ensures r != [] <==> ToInt(a).Some? && ToInt(b).Some? && ToInt(a).value <= ToInt(b).value
  {
    match (ToInt(a), ToInt(b))
    case (Some(ia), Some(ib)) => if ia <= ib then [Span(ia, ib)] else []
    case _ => []
  }

  /** An element of a nested list: a list of at least two gives its first two. */
  function SubSpan(sub: Json): (r: seq<Span>)
    ensures WellFormed(r)
  {
    if sub.JArr? && |sub.items| >= 2 then AddPair(sub.items[0], sub.items[1]) else []
  }

  /** The ranges of a nested list, in order. */
  function SubSpans(xs: seq<Json>): (r: seq<Span>)
    ensures WellFormed(r)
  {
    if xs == [] then [] else SubSpans(xs[..|xs| - 1]) + SubSpan(xs[|xs| - 1])
  }

  /** The range start of a dict item: the first truthy of its start keys, else the last one's value. */
  function DictStart(m: map<string, Json>): Json {
    OrChain(GetAll(m, StartKeys))
  }

  /** The range end of a dict item: the first truthy of its end keys, else its start. */
  function DictEnd(m: map<string, Json>): Json {
    OrChain(GetAll(m, EndKeys) + [DictStart(m)])
  }

  /** What one element of the span list contributes. */
  function ItemSpans(item: Json): (r: seq<Span>)
    ensures WellFormed(r)
  {
    match item
    case JArr(xs) =>
      if |xs| >= 2 && IntOrStr(xs[0]) && IntOrStr(xs[1]) then AddPair(xs[0], xs[1])
      else SubSpans(xs)
    case JObj(m) =>
      if DictStart(m) != JNull && DictEnd(m) != JNull then AddPair(DictStart(m), DictEnd(m)) else []
    case _ => []
  }

  function ItemsSpans(items: seq<Json>): (r: seq<Span>)
    ensures WellFormed(r)
  {
    if items == [] then [] else ItemsSpans(items[..|items| - 1]) + ItemSpans(items[|items| - 1])
  }

  /**
   * The list that is scanned: a dict is replaced by its first truthy span
   * key (else []); anything that is then not a list yields nothing.
   */
  function SpanList(raw: Json): (r: Option<seq<Json>>)
    ensures !(raw.JArr? || raw.JObj?) ==> r.None?
    ensures raw.JArr? ==> r == Some(raw.items)
  {
    var v := if raw.JObj? then OrChain(GetAll(raw.fields, SpanKeys) + [JArr([])]) else raw;
    if v.JArr? then Some(v.items) else None
  }

  /** `_normalize_line_spans(raw)` */
  function Normalized(raw: Json): (r: seq<Span>)
    ensures WellFormed(r)
    ensures !(raw.JArr? || raw.JObj?) ==> r == []
  {
    match SpanList(raw)
    case None => []
    case Some(items) => ItemsSpans(items)
  }

  /** The inner loop over a nested list (`for sub in item`). */
  method AddSubSpans(spans0: seq<Span>, xs: seq<Json>) returns (spans: seq<Span>)
    ensures spans == spans0 + SubSpans(xs)
  {
    spans := spans0;
    var i := 0;
    while i < |xs|
      invariant 0 <= i <= |xs|
      invariant spans == spans0 + SubSpans(xs[..i])
    {
      var sub := xs[i];
      SubSpansStep(spans0, xs, i);
      if sub.JArr? && |sub.items| >= 2 {
        spans := spans + AddPair(sub.items[0], sub.items[1]);
      }
      i := i + 1;
    }
    assert xs[..|xs|] == xs;
  }

  /** One turn of the nested-list loop, stated on the accumulated list. */
  lemma SubSpansStep(spans0: seq<Span>, xs: seq<Json>, i: nat)
    requires i < |xs|
    ensures spans0 + SubSpans(xs[..i + 1]) == spans0 + SubSpans(xs[..i])
              + (if xs[i].JArr? && |xs[i].items| >= 2 then AddPair(xs[i].items[0], xs[i].items[1]) else [])
  {
    assert xs[..i + 1][..i] == xs[..i];
  }

  /** The body of the loop over the span list, for one element. */
  method AddItem(spans0: seq<Span>, item: Json) returns (spans: seq<Span>)
    ensures spans == spans0 + ItemSpans(item)
  {
    spans := spans0;
    if item.JArr? {
      var xs := item.items;
      if |xs| >= 2 && IntOrStr(xs[0]) && IntOrStr(xs[1]) {
        spans := spans + AddPair(xs[0], xs[1]);
      } else {
        spans := AddSubSpans(spans, xs);
      }
    } else if item.JObj? {
      var s := OrChain(GetAll(item.fields, StartKeys));
      var e := OrChain(GetAll(item.fields, EndKeys) + [s]);
      if s != JNull && e != JNull {
        spans := spans + AddPair(s, e);
      }
    }
  }

  /** `_normalize_line_spans(raw)`: every range it emits holds a line. */
  method NormalizeLineSpans(raw: Json) returns (spans: seq<Span>)
    ensures spans == Normalized(raw)
    ensures WellFormed(spans)
    ensures !(raw.JArr? || raw.JObj?) ==> spans == []
  {
    spans := [];
    var v := raw;
    if raw.JObj? {
      v := OrChain(GetAll(raw.fields, SpanKeys) + [JArr([])]);
    }
    if !v.JArr? {
      return;
    }
    var items := v.items;
    var i := 0;
    while i < |items|
      invariant 0 <= i <= |items|
      invariant spans == ItemsSpans(items[..i])
    {
      spans := AddItem(spans, items[i]);
      assert items[..i + 1][..i] == items[..i];
      i := i + 1;
    }
    assert items[..|items|] == items;
  }

  /** The canonical JSON form of ranges: a list of [s, e] int pairs. */
  function EncodeItems(spans: seq<Span>): (r: seq<Json>)
    ensures |r| == |spans|
  {
    if spans == [] then []
    else EncodeItems(spans[..|spans| - 1]) + [JArr([JInt(spans[|spans| - 1].s), JInt(spans[|spans| - 1].e)])]
  }

  /** Ranges written as [[s, e], ...] normalise back to themselves. */
  lemma {:induction false} NormalizeEncoded(spans: seq<Span>)
    requires WellFormed(spans)
    ensures Normalized(JArr(EncodeItems(spans))) == spans
  {
    EncodedItems(spans);
  }

  /** The same ranges under a `line_spans` key of a dict normalise back to themselves. */
  lemma NormalizeEncodedDict(spans: seq<Span>)
    requires WellFormed(spans) && spans != []
    ensures Normalized(JObj(map["line_spans" := JArr(EncodeItems(spans))])) == spans
  {
    EncodedItems(spans);
    var m := map["line_spans" := JArr(EncodeItems(spans))];
    assert GetAll(m, SpanKeys)[0] == JArr(EncodeItems(spans));
  }

  lemma {:induction false} EncodedItems(spans: seq<Span>)
    requires WellFormed(spans)
    ensures ItemsSpans(EncodeItems(spans)) == spans
  {
    if spans != [] {
      var init, x := spans[..|spans| - 1], spans[|spans| - 1];
      assert WellFormed(init) by {
        forall y | y in init ensures y.s <= y.e {
          var a :| 0 <= a < |init| && init[a] == y;
          assert spans[a] == y;
        }
      }
      EncodedItems(init);
      var items := EncodeItems(spans);
      assert items == EncodeItems(init) + [JArr([JInt(x.s), JInt(x.e)])];
      assert items[..|items| - 1] == EncodeItems(init);
      assert x in spans;
      PairItem(x);
      assert init + [x] == spans;
    }
  }

  lemma PairItem(x: Span)
    requires x.s <= x.e
    ensures ItemSpans(JArr([JInt(x.s), JInt(x.e)])) == [x]
  {
    var xs := [JInt(x.s), JInt(x.e)];
    assert IntOrStr(xs[0]) && IntOrStr(xs[1]);
    assert AddPair(xs[0], xs[1]) == [x];
  }

  // ---------- `_overlap` ----------

  /** The fraction num / den. */
  datatype Ratio = Ratio(num: int, den: int)

  function Min(a: int, b: int): int {
    if a <= b then a else b
  }

  /** Line `z` lies in the range `a`. */
  predicate In(a: Span, z: int) {
    a.s <= z <= a.e
  }

  /**
   * `_overlap(a, b)`, the intersection over union of two ranges, as the pair
   * (shared lines, lines in either); 0 / 1 when they share no line.
   */
  function Overlap(a: Span, b: Span): (r: Ratio)
    ensures 0 <= r.num <= r.den && r.den > 0
  {
    var inter := Max(0, Min(a.e, b.e) - Max(a.s, b.s) + 1);
    if inter == 0 then Ratio(0, 1)
    else Ratio(inter, (a.e - a.s + 1) + (b.e - b.s + 1) - inter)
  }

  /** The overlap is positive exactly when the two ranges share a line. */
  lemma OverlapShared(a: Span, b: Span)
    ensures Overlap(a, b).num > 0 <==> exists z :: In(a, z) && In(b, z)
  {
    if Overlap(a, b).num > 0 {
      var z := Max(a.s, b.s);
      assert In(a, z) && In(b, z);
    }
  }

  /** A range that holds a line overlaps itself completely: IoU 1. */
  lemma OverlapSelf(a: Span)
    requires a.s <= a.e
    ensures Overlap(a, a).num == Overlap(a, a).den == a.e - a.s + 1
  {
  }

  /** The overlap does not depend on the order of its arguments. */
  lemma OverlapSymmetric(a: Span, b: Span)
    ensures Overlap(a, b) == Overlap(b, a)
  {
  }

  /** `ratio >= threshold`, compared exactly (both denominators positive). */
  predicate Reaches(r: Ratio, t: Ratio) {
    r.num * t.den >= t.num * r.den
  }

  // ---------- paths ----------

  /** No upper-case ASCII letter and no backslash. */
  predicate Canonical(s: string) {
    forall i :: 0 <= i < |s| ==> !('A' <= s[i] <= 'Z') && s[i] != '\\'
  }

  /** `_normpath(p)` for a non-empty path: normalised, "/" separators, lower case. */
  function NormLower(p: string): (r: string)
    ensures Canonical(r) && r != []
  {
    Lower(ReplaceChar(NormPath(p), '\\', '/'))
  }

  /** The ignored directory names, each with its trailing "/". */
  const IgnoreDirPrefixes: seq<string> := ["tests/", "test/"]

  function IgnoredBy(rel: string, prefs: seq<string>): (b: bool)
    ensures b <==> exists k :: 0 <= k < |prefs| && (Contains(rel, "/" + prefs[k]) || StartsWith(rel, prefs[k]))
  {
    if prefs == [] then false
    else Contains(rel, "/" + prefs[0]) || StartsWith(rel, prefs[0]) || IgnoredBy(rel, prefs[1..])
  }

  /** `_is_ignored_path(rel)`: empty, or under a `tests/` or `test/` directory. */
  function IsIgnoredPath(rel: string): (b: bool)
    ensures b <==> rel == "" || StartsWith(rel, "tests/") || StartsWith(rel, "test/")
                   || Contains(rel, "/tests/") || Contains(rel, "/test/")
  {
    if rel == "" then true
    else
      assert IgnoreDirPrefixes[0] == "tests/" && IgnoreDirPrefixes[1] == "test/";
      assert "/" + IgnoreDirPrefixes[0] == "/tests/" && "/" + IgnoreDirPrefixes[1] == "/test/";
      IgnoredBy(rel, IgnoreDirPrefixes)
  }

  /** The mutants directory as a prefix: normalised, trailing slashes removed, then one "/". */
  function Anchor(md: string): string {
    RStripChar(NormLower(md), '/') + "/"
  }

  /**
   * `_to_rel(p, md)`: the normalised path relative to the mutants directory
   * when it lies inside it (or inside any `_mutants/` directory); else the
   * path itself when relative, or its last two components when absolute.
   */
  function ToRel(p: string, md: string): (r: Option<string>)
    ensures p == "" <==> r == None
    ensures r.Some? ==> Canonical(r.value)
    ensures p != "" && md != "" && StartsWith(NormLower(p), Anchor(md)) ==>
              r == Some(NormLower(p)[|Anchor(md)|..])
    ensures p != "" && md != "" ==>
              forall k :: FirstOccurrence(NormLower(p), Anchor(md), k) ==>
                r == Some(NormLower(p)[k + |Anchor(md)|..])
    ensures p != "" && md != "" && !Contains(NormLower(p), Anchor(md)) ==>
              forall k :: FirstOccurrence(NormLower(p), "_mutants/", k) ==>
                r == Some(NormLower(p)[k + |"_mutants/"|..])
    ensures p != "" && (md == "" || (!Contains(NormLower(p), Anchor(md)) && !Contains(NormLower(p), "_mutants/"))) ==>
              r == Some(Fallback(NormLower(p)))
  {
    if p == "" then None
    else
      var q := NormLower(p);
      if md != "" then
        match UnderDir(q, Anchor(md))
        case Some(rest) => Some(rest)
        case None => Some(Fallback(q))
      else Some(Fallback(q))
  }

  /** The part of `q` after the first `a` (or else after the first `_mutants/`), if either occurs. */
  function UnderDir(q: string, a: string): (r: Option<string>)
    requires Canonical(q)
    ensures r.Some? ==> Canonical(r.value)
    ensures StartsWith(q, a) ==> r == Some(q[|a|..])
    ensures forall k :: FirstOccurrence(q, a, k) ==> r == Some(q[k + |a|..])
    ensures !Contains(q, a) ==> forall k :: FirstOccurrence(q, "_mutants/", k) ==> r == Some(q[k + |"_mutants/"|..])
    ensures r.None? <==> !Contains(q, a) && !Contains(q, "_mutants/")
  {
    var i, j := Find(q, a, 0), Find(q, "_mutants/", 0);
    FoundAt(q, a, i);
    FoundAt(q, "_mutants/", j);
    if StartsWith(q, a) then
      CanonicalSuffix(q, |a|);
      Some(q[|a|..])
    else if i != -1 then
      CanonicalSuffix(q, i + |a|);
      Some(q[i + |a|..])
    else if j != -1 then
      CanonicalSuffix(q, j + 9);
      Some(q[j + 9..])
    else None
  }

  /** What `i == q.find(sub)` says about the occurrences of `sub` in `q`. */
  lemma FoundAt(q: string, sub: string, i: int)
    requires i == Find(q, sub, 0)
    ensures i == -1 <==> !Contains(q, sub)
    ensures i != -1 ==> 0 <= i && i + |sub| <= |q|
    ensures forall k :: FirstOccurrence(q, sub, k) ==> i == k
    ensures StartsWith(q, sub) ==> i == 0
  {
    FindFirst(q, sub);
  }

  lemma CanonicalSuffix(q: string, k: nat)
    requires Canonical(q) && k <= |q|
    ensures Canonical(q[k..])
  {
  }

  /** What `_to_rel` treats as absolute: a leading "/", or a drive colon in the first component. */
  predicate AbsoluteLike(q: string) {
    StartsWith(q, "/") || ':' in Split(q, '/')[0]
  }

  /**
   * A path not under the mutants directory: kept when relative; when
   * absolute, its last two components, a suffix of it with at most one "/".
   */
  function Fallback(q: string): (r: string)
    requires Canonical(q)
    ensures Canonical(r)
    ensures !AbsoluteLike(q) ==> r == q
    ensures AbsoluteLike(q) ==> EndsWith(q, r) && CountChar(r, '/') <= 1
    ensures AbsoluteLike(q) && '/' in q ==>
              var parts := Split(q, '/');
              |parts| >= 2 && r == parts[|parts| - 2] + "/" + parts[|parts| - 1]
  {
    var parts := Split(q, '/');
    CanonicalParts(q, parts);
    FallbackShape(q, parts);
    if !AbsoluteLike(q) then q
    else if |parts| >= 2 then parts[|parts| - 2] + "/" + parts[|parts| - 1]
    else parts[0]
  }

  /** The last two components of `q` end it and hold one "/"; a single component is `q` itself. */
  lemma FallbackShape(q: string, parts: seq<string>)
    requires parts == Split(q, '/')
    ensures |parts| >= 2 ==>
              EndsWith(q, parts[|parts| - 2] + "/" + parts[|parts| - 1])
              && CountChar(parts[|parts| - 2] + "/" + parts[|parts| - 1], '/') == 1
    ensures |parts| == 1 ==> parts[0] == q && CountChar(q, '/') == 0
    ensures '/' in q ==> |parts| >= 2
  {
    SplitJoin(q, '/');
    if |parts| == 1 {
      CountCharNone(q, '/');
    }
    if |parts| >= 2 {
      var x, y := parts[|parts| - 2], parts[|parts| - 1];
      JoinEnds("/", parts);
      CountCharAppend(x + "/", y, '/');
      CountCharAppend(x, "/", '/');
      CountCharNone(x, '/');
      CountCharNone(y, '/');
    }
  }

  lemma CanonicalParts(q: string, parts: seq<string>)
    requires Canonical(q) && parts == Split(q, '/')
    ensures forall k :: 0 <= k < |parts| ==> Canonical(parts[k])
  {
    forall k, i | 0 <= k < |parts| && 0 <= i < |parts[k]|
      ensures !('A' <= parts[k][i] <= 'Z') && parts[k][i] != '\\'
    {
      assert parts[k][i] in q;
    }
  }

  /**
   * `_to_rel` applied to a JSON value: falsy values give None, a string is
   * converted, and any other value makes `os.path.normpath` raise TypeError.
   */
  function ToRelValue(v: Json, md: string): (r: Result<Option<string>>)
    ensures !Truthy(v) ==> r == Success(None)
    ensures v.JStr? && Truthy(v) ==> r == Success(ToRel(v.s, md))
    ensures Truthy(v) && !v.JStr? ==> r.Failure?
  {
    if !Truthy(v) then Success(None)
    else if v.JStr? then Success(ToRel(v.s, md))
    else Failure("TypeError")
  }

  /** `v` is the value of some key, and every key before it has a falsy value. */
  predicate FirstAt(rec: map<string, Json>, keys: seq<string>, v: Json) {
    exists k :: 0 <= k < |keys| && Get(rec, keys[k]) == v && forall j :: 0 <= j < k ==> !Truthy(Get(rec, keys[j]))
  }

  /** The value of the first key whose value is truthy. */
  function FirstTruthy(rec: map<string, Json>, keys: seq<string>): (r: Option<Json>)
    ensures r.Some? ==> Truthy(r.value) && FirstAt(rec, keys, r.value)
    ensures r.None? ==> forall k :: 0 <= k < |keys| ==> !Truthy(Get(rec, keys[k]))
  {
    if keys == [] then None
    else if Truthy(Get(rec, keys[0])) then Some(Get(rec, keys[0]))
    else
      var r := FirstTruthy(rec, keys[1..]);
      assert r.Some? ==> FirstAt(rec, keys, r.value) by {
        if r.Some? {
          var k :| 0 <= k < |keys[1..]| && Get(rec, keys[1..][k]) == r.value
                   && forall j :: 0 <= j < k ==> !Truthy(Get(rec, keys[1..][j]));
          assert forall j :: 0 <= j < k + 1 ==> !Truthy(Get(rec, keys[j])) by {
            forall j | 0 <= j < k + 1 ensures !Truthy(Get(rec, keys[j])) {
              if j > 0 {
                assert keys[j] == keys[1..][j - 1];
              }
            }
          }
        }
      }
      r
  }

  const FileKeys: seq<string> := ["rel_path", "file", "path", "relpath", "filename"]

  /**
   * `_pick_file_key(rec, md)`: the first truthy of rel_path, file, path,
   * relpath, filename; else dst_path or dest_path; else src_path; each
   * converted with `_to_rel`.
   */
  function PickFileKey(rec: map<string, Json>, md: string): (r: Result<Option<string>>)
    ensures FirstTruthy(rec, FileKeys).Some? ==> r == ToRelValue(FirstTruthy(rec, FileKeys).value, md)
    ensures (forall k :: 0 <= k < |FileKeys| ==> !Truthy(Get(rec, FileKeys[k])))
            && !Truthy(Get(rec, "dst_path")) && !Truthy(Get(rec, "dest_path")) && !Truthy(Get(rec, "src_path"))
            ==> r == Success(None)
    ensures r.Success? && r.value.Some? ==> Canonical(r.value.value)
  {
    match FirstTruthy(rec, FileKeys)
    case Some(v) => ToRelValue(v, md)
    case None =>
      var dst := OrChain([Get(rec, "dst_path"), Get(rec, "dest_path")]);
      if Truthy(dst) then ToRelValue(dst, md)
      else
        var src := Get(rec, "src_path");
        if Truthy(src) then ToRelValue(src, md) else Success(None)
  }

  // ---------- predictions per file ----------

  /** One `file: [ranges]` entry of an insertion-ordered dict. */
  datatype FileSpans = FileSpans(file: string, spans: seq<Span>)

  predicate DistinctFiles(m: seq<FileSpans>) {
    forall i, j :: 0 <= i < j < |m| ==> m[i].file != m[j].file
  }

  function Files(m: seq<FileSpans>): set<string> {
    set k | 0 <= k < |m| :: m[k].file
  }

  /** `m.get(f, [])` */
  function Lookup(m: seq<FileSpans>, f: string): seq<Span> {
    if m == [] then []
    else if m[|m| - 1].file == f then m[|m| - 1].spans
    else Lookup(m[..|m| - 1], f)
  }

  /** `m[f].extend(spans)` on an entry that exists. */
  function Update(m: seq<FileSpans>, f: string, spans: seq<Span>): (r: seq<FileSpans>)
    ensures |r| == |m| && forall k :: 0 <= k < |m| ==> r[k].file == m[k].file
  {
    if m == [] then []
    else if m[|m| - 1].file == f then m[..|m| - 1] + [FileSpans(f, m[|m| - 1].spans + spans)]
    else Update(m[..|m| - 1], f, spans) + [m[|m| - 1]]
  }

  /** `m[f].extend(spans)` on a defaultdict(list): a new key goes last. */
  function Extend(m: seq<FileSpans>, f: string, spans: seq<Span>): (r: seq<FileSpans>)
    ensures Files(r) == Files(m) + {f}
    ensures DistinctFiles(m) ==> DistinctFiles(r)
  {
    if f in Files(m) then
      var r := Update(m, f, spans);
      assert Files(r) == Files(m) by {
        assert forall k :: 0 <= k < |m| ==> r[k].file == m[k].file;
      }
      r
    else
      var r := m + [FileSpans(f, spans)];
      assert Files(r) == Files(m) + {f} by {
        assert forall k :: 0 <= k < |m| ==> r[k] == m[k];
        assert r[|m|].file == f;
      }
      r
  }

  /** What `for item in ...` iterates: findings/detections of a dict, a list itself, else []. */
  function Findings(det: Json): Json {
    if det.JObj? then OrChain([Get(det.fields, "findings"), Get(det.fields, "detections"), JArr([])])
    else if det.JArr? then det
    else JArr([])
  }

  /** The file a finding names, made relative. */
  function Target(item: map<string, Json>, md: string): Result<Option<string>> {
    ToRelValue(OrChain([Get(item, "file"), Get(item, "path"), Get(item, "filename")]), md)
  }

  /** The ranges a finding claims. */
  function ClaimedRaw(item: map<string, Json>): Json {
    OrChain(GetAll(item, FindingSpanKeys) + [JArr([])])
  }

  predicate EntryOk(e: FileSpans) {
    !IsIgnoredPath(e.file) && Canonical(e.file) && e.spans != [] && WellFormed(e.spans)
  }

  /** The predictions so far: keys made relative and not ignored, values non-empty well-formed ranges. */
  predicate PredOk(m: seq<FileSpans>) {
    DistinctFiles(m)
    && forall k :: 0 <= k < |m| ==> EntryOk(m[k])
  }

  /** One finding folded into the predictions. */
  function PredStep(m: seq<FileSpans>, x: Json, md: string): (r: Result<seq<FileSpans>>)
    ensures PredOk(m) && r.Success? ==> PredOk(r.value)
  {
    if !x.JObj? then Success(m)
    else
      match Target(x.fields, md)
      case Failure(e) => Failure(e)
      case Success(t) =>
        if t.None? || IsIgnoredPath(t.value) then Success(m)
        else
          var sp := Normalized(ClaimedRaw(x.fields));
          if sp == [] then Success(m)
          else
            ExtendOk(m, t.value, sp);
            Success(Extend(m, t.value, sp))
  }

  lemma ExtendOk(m: seq<FileSpans>, f: string, sp: seq<Span>)
    requires !IsIgnoredPath(f) && Canonical(f) && sp != [] && WellFormed(sp)
    ensures PredOk(m) ==> PredOk(Extend(m, f, sp))
  {
    if PredOk(m) {
      ExtendOkStep(m, f, sp);
    }
  }

  lemma {:induction false} ExtendOkStep(m: seq<FileSpans>, f: string, sp: seq<Span>)
    requires !IsIgnoredPath(f) && Canonical(f) && sp != [] && WellFormed(sp) && PredOk(m)
    ensures PredOk(Extend(m, f, sp))
  {
    if f in Files(m) {
      UpdateOk(m, f, sp);
    }
  }

  lemma {:induction false} UpdateOk(m: seq<FileSpans>, f: string, sp: seq<Span>)
    requires sp != [] && WellFormed(sp) && PredOk(m)
    ensures PredOk(Update(m, f, sp))
  {
    if m != [] {
      var init, l := m[..|m| - 1], m[|m| - 1];
      assert PredOk(init);
      if l.file != f {
        UpdateOk(init, f, sp);
      }
      var r := Update(m, f, sp);
      assert forall k :: 0 <= k < |m| ==> r[k].file == m[k].file;
      assert l in m;
      forall y | y in l.spans + sp ensures y.s <= y.e {
      }
    }
  }

  /** The findings folded in order, stopping at the first exception. */
  function PredFold(items: seq<Json>, md: string): (r: Result<seq<FileSpans>>)
    ensures r.Success? ==> PredOk(r.value)
  {
    if items == [] then Success([])
    else
      match PredFold(items[..|items| - 1], md)
      case Failure(e) => Failure(e)
      case Success(m) => PredStep(m, items[|items| - 1], md)
  }

  /** The predictions of a detection answer, or the exception raised building them. */
  function Predictions(det: Json, md: string): (r: Result<seq<FileSpans>>)
    ensures r.Success? ==> PredOk(r.value)
  {
    match Iterated(Findings(det))
    case None => Failure("TypeError")
    case Some(items) => PredFold(items, md)
  }

  /** One more finding folds onto the predictions built from the ones before it. */
  lemma PredFoldStep(items: seq<Json>, i: nat, md: string, m: seq<FileSpans>)
    requires i < |items| && PredFold(items[..i], md) == Success(m)
    ensures PredFold(items[..i + 1], md) == PredStep(m, items[i], md)
  {
    assert items[..i + 1][..i] == items[..i];
  }

  /** Once a prefix of the findings raised, the whole fold raises the same. */
  lemma {:induction false} FoldFailure(items: seq<Json>, j: nat, md: string)
    requires j <= |items| && PredFold(items[..j], md).Failure?
    ensures PredFold(items, md) == PredFold(items[..j], md)
    decreases |items|
  {
    if j < |items| {
      var init := items[..|items| - 1];
      assert init[..j] == items[..j];
      FoldFailure(init, j, md);
    } else {
      assert items[..j] == items;
    }
  }

  /** The body of the prediction loop, for one finding. */
  method CollectItem(pred: seq<FileSpans>, item: Json, md: string) returns (r: Result<seq<FileSpans>>)
    ensures r == PredStep(pred, item, md)
  {
    if !item.JObj? {
      return Success(pred);
    }
    var t := Target(item.fields, md);
    if t.Failure? {
      return Failure(t.error);
    }
    var rel := t.value;
    if rel.None? || IsIgnoredPath(rel.value) {
      return Success(pred);
    }
    var sp := NormalizeLineSpans(ClaimedRaw(item.fields));
    if sp == [] {
      return Success(pred);
    }
    return Success(Extend(pred, rel.value, sp));
  }

  /** The prediction loop of `evaluate_detection`. */
  method CollectPredictions(det: Json, md: string) returns (r: Result<seq<FileSpans>>)
    ensures r == Predictions(det, md)
    ensures r.Success? ==> PredOk(r.value)
  {
    var findings := JArr([]);
    if det.JObj? {
      findings := OrChain([Get(det.fields, "findings"), Get(det.fields, "detections"), JArr([])]);
    } else if det.JArr? {
      findings := det;
    }
    var it := Iterated(findings);
    if it.None? {
      return Failure("TypeError");
    }
    var items := it.value;
    var pred: seq<FileSpans> := [];
    var i := 0;
    while i < |items|
      invariant 0 <= i <= |items|
      invariant PredFold(items[..i], md) == Success(pred)
    {
      PredFoldStep(items, i, md, pred);
      var step := CollectItem(pred, items[i], md);
      if step.Failure? {
        FoldFailure(items, i + 1, md);
        return step;
      }
      pred := step.value;
      i := i + 1;
    }
    assert items[..|items|] == items;
    return Success(pred);
  }

  // ---------- file-level scoring ----------

  /** The files with at least one predicted range. */
  function PredictedFiles(pred: seq<FileSpans>): set<string> {
    set k | 0 <= k < |pred| && pred[k].spans != [] :: pred[k].file
  }

  datatype FileScore = FileScore(tp: nat, fp: nat, fn: nat, support: nat, predicted: nat,
                                 tpFiles: set<string>, fpFiles: set<string>, fnFiles: set<string>)

  lemma CardSplit(a: set<string>, b: set<string>)
    ensures |a * b| + |a - b| == |a|
  {
    assert a == (a * b) + (a - b);
    assert (a * b) * (a - b) == {};
  }

  /**
   * The file-level counts: hits are predicted mutated files, false alarms
   * predicted files that were not mutated, misses mutated files not predicted.
   */
  function FileLevel(gt: seq<FileSpans>, pred: seq<FileSpans>): (r: FileScore)
    ensures r.tpFiles + r.fnFiles == Files(gt) && r.tpFiles !! r.fnFiles
    ensures r.tpFiles + r.fpFiles == PredictedFiles(pred) && r.tpFiles !! r.fpFiles
    ensures r.fpFiles !! Files(gt) && r.fnFiles !! PredictedFiles(pred)
    ensures r.tp == |r.tpFiles| && r.fp == |r.fpFiles| && r.fn == |r.fnFiles|
    ensures r.support == |Files(gt)| && r.predicted == |PredictedFiles(pred)|
    ensures r.tp + r.fn == r.support && r.tp + r.fp == r.predicted
  {
    var g := Files(gt);
    var p := PredictedFiles(pred);
    CardSplit(g, p);
    CardSplit(p, g);
    assert p * g == g * p;
    FileScore(|p * g|, |p - g|, |g - p|, |g|, |p|, p * g, p - g, g - p)
  }

  // ---------- span-level scoring ----------

  function CountFalse(s: seq<bool>): (n: nat)
    ensures n <= |s|
  {
    if s == [] then 0 else CountFalse(s[..|s| - 1]) + (if s[|s| - 1] then 0 else 1)
  }

  lemma {:induction false} CountFalseSet(s: seq<bool>, i: nat)
    requires i < |s| && !s[i]
    ensures CountFalse(s[i := true]) + 1 == CountFalse(s)
  {
    var n := |s| - 1;
    if i < n {
      assert s[i := true][..n] == s[..n][i := true];
      CountFalseSet(s[..n], i);
    } else {
      assert s[i := true][..n] == s[..n];
    }
  }

  lemma {:induction false} CountFalseAll(n: nat)
    ensures CountFalse(seq(n, _ => false)) == n
  {
    if n > 0 {
      assert seq(n, _ => false)[..n - 1] == seq(n - 1, _ => false);
      CountFalseAll(n - 1);
    }
  }

  /** The number of predictions that found a partner. */
  function Matched(assign: seq<int>): (n: nat)
    ensures n <= |assign|
  {
    if assign == [] then 0 else Matched(assign[..|assign| - 1]) + (if assign[|assign| - 1] >= 0 then 1 else 0)
  }

  /** The first ground-truth range not yet used whose overlap reaches the threshold, or -1. */
  method FirstMatch(used: array<bool>, gts: seq<Span>, p: Span, thresh: Ratio) returns (i: int)
    requires used.Length == |gts|
    ensures -1 <= i < |gts|
    ensures i >= 0 ==> !used[i] && Reaches(Overlap(p, gts[i]), thresh)
    ensures forall j :: 0 <= j < |gts| && (i == -1 || j < i) ==> used[j] || !Reaches(Overlap(p, gts[j]), thresh)
  {
    i := 0;
    while i < |gts|
      invariant 0 <= i <= |gts|
      invariant forall j :: 0 <= j < i ==> used[j] || !Reaches(Overlap(p, gts[j]), thresh)
    {
      if !used[i] && Reaches(Overlap(p, gts[i]), thresh) {
        return;
      }
      i := i + 1;
    }
    i := -1;
  }

  /** Ground-truth range j, when preds[k] passed it by although it overlapped enough, was taken earlier. */
  ghost predicate Skipped(gts: seq<Span>, preds: seq<Span>, thresh: Ratio, assign: seq<int>, k: nat, j: nat)
    requires k < |assign| && k < |preds| && j < |gts|
  {
    (assign[k] == -1 || j < assign[k]) && Reaches(Overlap(preds[k], gts[j]), thresh) ==> j in assign[..k]
  }

  /** Greedy matching of `preds` against `gts` so far: `assign[k]` is the partner of preds[k], or -1. */
  ghost predicate GreedyInv(gts: seq<Span>, preds: seq<Span>, thresh: Ratio, assign: seq<int>) {
    |assign| <= |preds|
    && (forall k :: 0 <= k < |assign| ==> -1 <= assign[k] < |gts|)
    && (forall k :: 0 <= k < |assign| && assign[k] >= 0 ==> Reaches(Overlap(preds[k], gts[assign[k]]), thresh))
    && (forall k, k' :: 0 <= k < k' < |assign| && assign[k] >= 0 ==> assign[k] != assign[k'])
    && (forall k, j :: 0 <= k < |assign| && 0 <= j < |gts| ==> Skipped(gts, preds, thresh, assign, k, j))
  }

  /** The first ground-truth range from `from` on that is not taken and overlaps `p` enough, or -1. */
  function FirstFree(gts: seq<Span>, taken: seq<int>, p: Span, thresh: Ratio, from: nat): (i: int)
    ensures i == -1 || from <= i < |gts|
    ensures i >= 0 ==> i !in taken && Reaches(Overlap(p, gts[i]), thresh)
    ensures forall j :: from <= j < |gts| && (i == -1 || j < i) ==> j in taken || !Reaches(Overlap(p, gts[j]), thresh)
    decreases |gts| - from
  {
    if from >= |gts| then -1
    else if from !in taken && Reaches(Overlap(p, gts[from]), thresh) then from
    else FirstFree(gts, taken, p, thresh, from + 1)
  }

  /** Any index with the three properties of `FirstFree` is the one it returns. */
  lemma FirstFreeUnique(gts: seq<Span>, taken: seq<int>, p: Span, thresh: Ratio, i: int)
    requires -1 <= i < |gts|
    requires i >= 0 ==> i !in taken && Reaches(Overlap(p, gts[i]), thresh)
    requires forall j :: 0 <= j < |gts| && (i == -1 || j < i) ==> j in taken || !Reaches(Overlap(p, gts[j]), thresh)
    ensures i == FirstFree(gts, taken, p, thresh, 0)
  {
  }

  /**
   * The greedy matching of one file as a function: each prediction in turn
   * takes the first ground-truth range not taken by an earlier one and
   * overlapping it enough, or -1.
   */
  function GreedyAssign(gts: seq<Span>, preds: seq<Span>, thresh: Ratio): (a: seq<int>)
    ensures |a| == |preds| && GreedyInv(gts, preds, thresh, a)
  {
    if preds == [] then []
    else
      var n := |preds| - 1;
      var init := GreedyAssign(gts, preds[..n], thresh);
      var i := FirstFree(gts, init, preds[n], thresh, 0);
      GreedyInvWiden(gts, preds, thresh, init, n);
      GreedyStep(gts, preds, thresh, init, i);
      init + [i]
  }

  lemma GreedyInvWiden(gts: seq<Span>, preds: seq<Span>, thresh: Ratio, a: seq<int>, n: nat)
    requires n <= |preds| && GreedyInv(gts, preds[..n], thresh, a)
    ensures GreedyInv(gts, preds, thresh, a)
  {
    forall k, j | 0 <= k < |a| && 0 <= j < |gts|
      ensures Skipped(gts, preds, thresh, a, k, j)
    {
      assert preds[..n][k] == preds[k];
      assert Skipped(gts, preds[..n], thresh, a, k, j);
    }
    forall k | 0 <= k < |a| && a[k] >= 0
      ensures Reaches(Overlap(preds[k], gts[a[k]]), thresh)
    {
      assert preds[..n][k] == preds[k];
    }
  }

  lemma GreedyAssignStep(gts: seq<Span>, preds: seq<Span>, thresh: Ratio, k: nat)
    requires k < |preds|
    ensures GreedyAssign(gts, preds[..k + 1], thresh)
      == GreedyAssign(gts, preds[..k], thresh) + [FirstFree(gts, GreedyAssign(gts, preds[..k], thresh), preds[k], thresh, 0)]
  {
    assert preds[..k + 1][..k] == preds[..k];
    assert preds[..k + 1][k] == preds[k];
  }

  /** The body of the loop over the predictions of one file, for preds[|assign|]. */
  method MatchStep(used: array<bool>, gts: seq<Span>, preds: seq<Span>, thresh: Ratio, k: nat, ghost assign: seq<int>, tp0: nat, fp0: nat)
    returns (i: int, tp: nat, fp: nat)
    requires used.Length == |gts| && k == |assign| < |preds|
    requires forall j :: 0 <= j < |gts| ==> (used[j] <==> j in assign)
    requires GreedyInv(gts, preds, thresh, assign)
    requires tp0 == Matched(assign) && tp0 + fp0 == |assign| && tp0 + CountFalse(used[..]) == |gts|
    modifies used
    ensures forall j :: 0 <= j < |gts| ==> (used[j] <==> j in assign + [i])
    ensures GreedyInv(gts, preds, thresh, assign + [i])
    ensures i == FirstFree(gts, assign, preds[k], thresh, 0)
    ensures tp == Matched(assign + [i]) && tp + fp == |assign| + 1 && tp + CountFalse(used[..]) == |gts|
  {
    i := FirstMatch(used, gts, preds[k], thresh);
    FirstFreeUnique(gts, assign, preds[k], thresh, i);
    GreedyStep(gts, preds, thresh, assign, i);
    assert (assign + [i])[..|assign|] == assign;
    tp, fp := tp0, fp0;
    if i >= 0 {
      CountFalseSet(used[..], i);
      used[i] := true;
      tp := tp + 1;
    } else {
      fp := fp + 1;
    }
  }

  /**
   * The span-level loop for one file: each prediction takes the first unused
   * ground-truth range it overlaps enough, so each ground-truth range is
   * matched at most once; unmatched predictions are false alarms and unused
   * ground-truth ranges are misses.
   */
  method MatchFile(gts: seq<Span>, preds: seq<Span>, thresh: Ratio) returns (tp: nat, fp: nat, fn: nat, ghost assign: seq<int>)
    ensures tp + fn == |gts| && tp + fp == |preds|
    ensures |assign| == |preds| && GreedyInv(gts, preds, thresh, assign)
    ensures assign == GreedyAssign(gts, preds, thresh)
    ensures tp == Matched(GreedyAssign(gts, preds, thresh))
  {
    var used := new bool[|gts|](_ => false);
    assert used[..] == seq(|gts|, _ => false);
    CountFalseAll(|gts|);
    tp, fp := 0, 0;
    assign := [];
    var k := 0;
    while k < |preds|
      invariant 0 <= k <= |preds| && |assign| == k
      invariant forall j :: 0 <= j < |gts| ==> (used[j] <==> j in assign)
      invariant GreedyInv(gts, preds, thresh, assign)
      invariant assign == GreedyAssign(gts, preds[..k], thresh)
      invariant tp == Matched(assign) && tp + fp == k
      invariant tp + CountFalse(used[..]) == |gts|
    {
      GreedyAssignStep(gts, preds, thresh, k);
      var i;
      i, tp, fp := MatchStep(used, gts, preds, thresh, k, assign, tp, fp);
      assign := assign + [i];
      k := k + 1;
    }
    assert preds[..k] == preds;
    fn := CountFalse(used[..]);
  }

  lemma GreedyStep(gts: seq<Span>, preds: seq<Span>, thresh: Ratio, assign: seq<int>, i: int)
    requires GreedyInv(gts, preds, thresh, assign) && |assign| < |preds|
    requires -1 <= i < |gts|
    requires i >= 0 ==> i !in assign && Reaches(Overlap(preds[|assign|], gts[i]), thresh)
    requires forall j :: 0 <= j < |gts| && (i == -1 || j < i) && Reaches(Overlap(preds[|assign|], gts[j]), thresh) ==> j in assign
    ensures GreedyInv(gts, preds, thresh, assign + [i])
  {
    var a := assign + [i];
    assert a[..|assign|] == assign;
    GreedyStepDistinct(assign, i);
    GreedyStepSkipped(gts, preds, thresh, assign, i);
  }

  /** A partner not taken before keeps the partners distinct. */
  lemma GreedyStepDistinct(assign: seq<int>, i: int)
    requires forall k, k' :: 0 <= k < k' < |assign| && assign[k] >= 0 ==> assign[k] != assign[k']
    requires i >= 0 ==> i !in assign
    ensures forall k, k' :: 0 <= k < k' < |assign + [i]| && (assign + [i])[k] >= 0 ==> (assign + [i])[k] != (assign + [i])[k']
  {
    var a := assign + [i];
    var n := |assign|;
    forall k, k' | 0 <= k < k' < |a| && a[k] >= 0
      ensures a[k] != a[k']
    {
      assert a[k] == assign[k];
      if k' == n {
        assert assign[k] in assign;
      } else {
        assert a[k'] == assign[k'];
      }
    }
  }

  /** The ranges the new prediction passes by were all taken earlier. */
  lemma GreedyStepSkipped(gts: seq<Span>, preds: seq<Span>, thresh: Ratio, assign: seq<int>, i: int)
    requires GreedyInv(gts, preds, thresh, assign) && |assign| < |preds|
    requires -1 <= i < |gts|
    requires forall j :: 0 <= j < |gts| && (i == -1 || j < i) && Reaches(Overlap(preds[|assign|], gts[j]), thresh) ==> j in assign
    ensures forall k, j :: 0 <= k < |assign| + 1 && 0 <= j < |gts| ==> Skipped(gts, preds, thresh, assign + [i], k, j)
  {
    var a := assign + [i];
    var n := |assign|;
    assert a[..n] == assign;
    forall k, j | 0 <= k < |a| && 0 <= j < |gts|
      ensures Skipped(gts, preds, thresh, a, k, j)
    {
      if k < n {
        assert a[k] == assign[k] && a[..k] == assign[..k];
        assert Skipped(gts, preds, thresh, assign, k, j);
      }
    }
  }

  /** Total number of ranges over all files. */
  function Total(m: seq<FileSpans>): nat {
    if m == [] then 0 else Total(m[..|m| - 1]) + |m[|m| - 1].spans|
  }

  /** Ranges of the entries whose file is in `fs`. */
  function Inside(m: seq<FileSpans>, fs: set<string>): nat {
    if m == [] then 0 else Inside(m[..|m| - 1], fs) + (if m[|m| - 1].file in fs then |m[|m| - 1].spans| else 0)
  }

  /** Ranges of the entries whose file is not in `fs`. */
  function Outside(m: seq<FileSpans>, fs: set<string>): nat {
    if m == [] then 0 else Outside(m[..|m| - 1], fs) + (if m[|m| - 1].file in fs then 0 else |m[|m| - 1].spans|)
  }

  /** The predicted ranges looked up file by file for the ground-truth files. */
  function SumLookup(gt: seq<FileSpans>, pred: seq<FileSpans>): nat {
    if gt == [] then 0 else SumLookup(gt[..|gt| - 1], pred) + |Lookup(pred, gt[|gt| - 1].file)|
  }

  lemma {:induction false} TotalSplit(m: seq<FileSpans>, fs: set<string>)
    ensures Inside(m, fs) + Outside(m, fs) == Total(m)
  {
    if m != [] {
      TotalSplit(m[..|m| - 1], fs);
    }
  }

  lemma {:induction false} InsideAdd(m: seq<FileSpans>, fs: set<string>, f: string)
    requires f !in fs
    ensures Inside(m, fs + {f}) == Inside(m, fs) + Inside(m, {f})
  {
    if m != [] {
      InsideAdd(m[..|m| - 1], fs, f);
    }
  }

  lemma {:induction false} InsideAbsent(m: seq<FileSpans>, f: string)
    requires f !in Files(m)
    ensures Inside(m, {f}) == 0
  {
    if m != [] {
      var init := m[..|m| - 1];
      assert Files(init) <= Files(m) by {
        forall g | g in Files(init) ensures g in Files(m) {
          var k :| 0 <= k < |init| && init[k].file == g;
          assert m[k].file == g;
        }
      }
      assert m[|m| - 1].file in Files(m);
      InsideAbsent(init, f);
    }
  }

  lemma {:induction false} InsideOne(m: seq<FileSpans>, f: string)
    requires DistinctFiles(m)
    ensures Inside(m, {f}) == |Lookup(m, f)|
  {
    if m != [] {
      var init := m[..|m| - 1];
      assert DistinctFiles(init);
      if m[|m| - 1].file == f {
        assert f !in Files(init) by {
          forall k | 0 <= k < |init| ensures init[k].file != f {
            assert init[k] == m[k];
          }
        }
        InsideAbsent(init, f);
      } else {
        InsideOne(init, f);
      }
    }
  }

  lemma {:induction false} LookupSum(gt: seq<FileSpans>, pred: seq<FileSpans>)
    requires DistinctFiles(gt) && DistinctFiles(pred)
    ensures SumLookup(gt, pred) == Inside(pred, Files(gt))
  {
    if gt == [] {
      assert Files(gt) == {};
      InsideNone(pred);
    } else {
      var init, g := gt[..|gt| - 1], gt[|gt| - 1];
      assert DistinctFiles(init);
      LookupSum(init, pred);
      assert Files(gt) == Files(init) + {g.file} by {
        assert forall k :: 0 <= k < |init| ==> init[k] == gt[k];
      }
      assert g.file !in Files(init) by {
        forall k | 0 <= k < |init| ensures init[k].file != g.file {
          assert init[k] == gt[k];
        }
      }
      InsideAdd(pred, Files(init), g.file);
      InsideOne(pred, g.file);
    }
  }

  lemma {:induction false} InsideNone(m: seq<FileSpans>)
    ensures Inside(m, {}) == 0
  {
    if m != [] {
      InsideNone(m[..|m| - 1]);
    }
  }

  /** The true positives of span-level scoring: the greedy matches of every ground-truth file. */
  function SpanTp(gt: seq<FileSpans>, pred: seq<FileSpans>, thresh: Ratio): nat {
    if gt == [] then 0
    else
      var g := gt[|gt| - 1];
      SpanTp(gt[..|gt| - 1], pred, thresh) + Matched(GreedyAssign(g.spans, Lookup(pred, g.file), thresh))
  }

  /** The ground-truth indices a matching uses. */
  function Partners(a: seq<int>): set<int> {
    if a == [] then {} else Partners(a[..|a| - 1]) + (if a[|a| - 1] >= 0 then {a[|a| - 1]} else {})
  }

  lemma {:induction false} PartnersIn(a: seq<int>)
    ensures forall x :: x in Partners(a) ==> x >= 0 && x in a
  {
    if a != [] {
      var init := a[..|a| - 1];
      PartnersIn(init);
      assert forall x :: x in init ==> x in a;
    }
  }

  lemma {:induction false} PartnersCount(a: seq<int>)
    requires forall k, k' :: 0 <= k < k' < |a| && a[k] >= 0 ==> a[k] != a[k']
    ensures |Partners(a)| == Matched(a)
  {
    if a != [] {
      var n := |a| - 1;
      var init := a[..n];
      assert forall k :: 0 <= k < n ==> init[k] == a[k];
      PartnersCount(init);
      if a[n] >= 0 {
        PartnersIn(init);
        forall k | 0 <= k < n
          ensures init[k] != a[n]
        {
          assert init[k] == a[k];
        }
        assert a[n] !in Partners(init);
        assert |Partners(init) + {a[n]}| == |Partners(init)| + 1;
      }
    }
  }

  lemma {:induction false} BelowCount(s: set<int>, n: nat)
    requires forall x :: x in s ==> 0 <= x < n
    ensures |s| <= n
    decreases n
  {
    if n > 0 {
      BelowCount(s - {n - 1}, n - 1);
      if n - 1 in s {
        assert s == (s - {n - 1}) + {n - 1};
      } else {
        assert s == s - {n - 1};
      }
    } else {
      assert forall x :: x !in s;
      assert s == {};
    }
  }

  /**
   * Each ground-truth range is matched at most once, so a file contributes
   * at most its ground-truth ranges, and at most its predictions, as true
   * positives.
   */
  lemma MatchedBounded(gts: seq<Span>, preds: seq<Span>, thresh: Ratio)
    ensures Matched(GreedyAssign(gts, preds, thresh)) <= |gts|
    ensures Matched(GreedyAssign(gts, preds, thresh)) <= |preds|
  {
    var a := GreedyAssign(gts, preds, thresh);
    PartnersCount(a);
    PartnersIn(a);
    BelowCount(Partners(a), |gts|);
  }

  lemma SpanTpStep(gt: seq<FileSpans>, pred: seq<FileSpans>, thresh: Ratio, i: nat)
    requires i < |gt|
    ensures SpanTp(gt[..i + 1], pred, thresh)
      == SpanTp(gt[..i], pred, thresh) + Matched(GreedyAssign(gt[i].spans, Lookup(pred, gt[i].file), thresh))
    ensures Total(gt[..i + 1]) == Total(gt[..i]) + |gt[i].spans|
    ensures SumLookup(gt[..i + 1], pred) == SumLookup(gt[..i], pred) + |Lookup(pred, gt[i].file)|
  {
    assert gt[..i + 1][..i] == gt[..i];
  }

  lemma OutsideStep(pred: seq<FileSpans>, fs: set<string>, j: nat)
    requires j < |pred|
    ensures Outside(pred[..j + 1], fs) == Outside(pred[..j], fs) + (if pred[j].file in fs then 0 else |pred[j].spans|)
  {
    assert pred[..j + 1][..j] == pred[..j];
  }

  /**
   * The span-level counts: the per-file greedy matching over the ground
   * truth files, plus every predicted range of a file with no ground truth
   * as a false alarm.
   */
  method SpanLevel(gt: seq<FileSpans>, pred: seq<FileSpans>, thresh: Ratio) returns (tp: nat, fp: nat, fn: nat)
    requires DistinctFiles(gt) && DistinctFiles(pred)
    ensures tp == SpanTp(gt, pred, thresh)
    ensures tp + fn == Total(gt)
    ensures tp + fp == Total(pred)
  {
    tp, fp, fn := 0, 0, 0;
    var i := 0;
    while i < |gt|
      invariant 0 <= i <= |gt|
      invariant tp == SpanTp(gt[..i], pred, thresh)
      invariant tp + fn == Total(gt[..i])
      invariant tp + fp == SumLookup(gt[..i], pred)
    {
      var t, f, n, _ := MatchFile(gt[i].spans, Lookup(pred, gt[i].file), thresh);
      tp, fp, fn := tp + t, fp + f, fn + n;
      SpanTpStep(gt, pred, thresh, i);
      i := i + 1;
    }
    assert gt[..|gt|] == gt;
    var gtFiles := Files(gt);
    var j := 0;
    while j < |pred|
      invariant 0 <= j <= |pred|
      invariant tp + fp == SumLookup(gt, pred) + Outside(pred[..j], gtFiles)
    {
      OutsideStep(pred, gtFiles, j);
      if pred[j].file !in gtFiles {
        fp := fp + |pred[j].spans|;
      }
      j := j + 1;
    }
    assert pred[..|pred|] == pred;
    LookupSum(gt, pred);
    TotalSplit(pred, gtFiles);
  }

  // ---------- evaluate_detection ----------

  datatype Score =
    | FileMode(files: FileScore)
    | SpanMode(tp: nat, fp: nat, fn: nat)

  /**
   * `evaluate_detection(detection, mutants_dir, iou_thresh, file_level)` with
   * the ground truth given (it is loaded from the mutants directory).
   */
  method EvaluateDetection(det: Json, gt: seq<FileSpans>, md: string, thresh: Ratio, fileLevel: bool)
    returns (r: Result<Score>)
    requires DistinctFiles(gt)
    ensures r.Failure? <==> Predictions(det, md).Failure?
    ensures r.Success? && fileLevel ==> r.value == FileMode(FileLevel(gt, Predictions(det, md).value))
    ensures r.Success? && !fileLevel ==> r.value.SpanMode? && r.value.tp == SpanTp(gt, Predictions(det, md).value, thresh)
                                         && r.value.tp + r.value.fn == Total(gt)
                                         && r.value.tp + r.value.fp == Total(Predictions(det, md).value)
  {
    var p := CollectPredictions(det, md);
    if p.Failure? {
      return Failure(p.error);
    }
    var pred := p.value;
    if fileLevel {
      return Success(FileMode(FileLevel(gt, pred)));
    }
    var tp, fp, fn := SpanLevel(gt, pred, thresh);
    return Success(SpanMode(tp, fp, fn));
  }
}
