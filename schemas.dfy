/**
 * Validators for the JSON objects a model returns: a localization
 * (`file`, `line_spans`), a repair (`diff`) and a detection (`findings`).
 * Each answers a pair (accepted, message) with an empty message exactly
 * when the object is accepted.
 */
module Schemas {
  import opened Json
  import opened PyStr

  datatype Verdict = Verdict(ok: bool, msg: string)

  /** A well-formed span: a list of exactly two Python ints, first <= second. */
  predicate ValidSpan(p: Json) {
    p.JArr? && |p.items| == 2 && IsPyInt(p.items[0]) && IsPyInt(p.items[1])
    && PyIntValue(p.items[0]) <= PyIntValue(p.items[1])
  }

  /** A list whose every element is a well-formed span (the empty list included). */
  predicate ValidSpans(spans: Json) {
    spans.JArr? && forall k :: 0 <= k < |spans.items| ==> ValidSpan(spans.items[k])
  }

  /** The message for missing required keys, listing them as a Python set. */
  function MissingMessage(names: seq<string>): (msg: string)
    ensures StartsWith(msg, "missing keys: ")
  {
    "missing keys: {" + QuotedList(names) + "}"
  }

  function QuotedList(names: seq<string>): string {
    if names == [] then ""
    else if |names| == 1 then "'" + names[0] + "'"
    else "'" + names[0] + "', " + QuotedList(names[1..])
  }

  /** `is_localization(obj)` */
  function IsLocalization(obj: Json): (v: Verdict)
    ensures v.ok <==> obj.JObj? && "file" in obj.fields && "line_spans" in obj.fields
                      && obj.fields["file"].JStr? && ValidSpans(obj.fields["line_spans"])
    ensures v.ok <==> v.msg == ""
    ensures !obj.JObj? ==> v.msg == "not a dict"
    ensures obj.JObj? && ("file" !in obj.fields || "line_spans" !in obj.fields) ==>
              StartsWith(v.msg, "missing keys: ")
  {
    if !obj.JObj? then Verdict(false, "not a dict")
    else
      var m := obj.fields;
      var missing := (if "file" in m then [] else ["file"]) + (if "line_spans" in m then [] else ["line_spans"]);
      if missing != [] then Verdict(false, MissingMessage(missing))
      else if !m["file"].JStr? then Verdict(false, "file must be str")
      else if !ValidSpans(m["line_spans"]) then Verdict(false, "line_spans must be [[start,end],...] with ints")
      else Verdict(true, "")
  }

  /** `is_repair(obj)`: `diff` must be a string that is not all whitespace. */
  function IsRepair(obj: Json): (v: Verdict)
    ensures v.ok <==> obj.JObj? && "diff" in obj.fields && obj.fields["diff"].JStr?
                      && exists i :: 0 <= i < |obj.fields["diff"].s| && !IsSpace(obj.fields["diff"].s[i])
    ensures v.ok <==> v.msg == ""
    ensures !obj.JObj? ==> v.msg == "not a dict"
    ensures obj.JObj? && "diff" !in obj.fields ==> v.msg == "missing keys: {'diff'}"
  {
    if !obj.JObj? then Verdict(false, "not a dict")
    else if "diff" !in obj.fields then Verdict(false, MissingMessage(["diff"]))
    else if !obj.fields["diff"].JStr? || Strip(obj.fields["diff"].s) == [] then
      Verdict(false, "diff must be non-empty string (unified diff)")
    else Verdict(true, "")
  }

  /**
   * One finding of a detection: a dict with a string `file`; its
   * `line_spans`, when present, a valid span list (absent means none).
   */
  predicate ValidFinding(f: Json) {
    f.JObj? && "file" in f.fields && f.fields["file"].JStr?
    && ("line_spans" in f.fields ==> ValidSpans(f.fields["line_spans"]))
  }

  /** The message for the first rejected finding, checked in list order. */
  function FindingsVerdict(fs: seq<Json>): (v: Verdict)
    ensures v.ok <==> forall k :: 0 <= k < |fs| ==> ValidFinding(fs[k])
    ensures v.ok <==> v.msg == ""
  {
    if fs == [] then Verdict(true, "")
    else
      var f := fs[0];
      if !f.JObj? then Verdict(false, "finding not dict")
      else if "file" !in f.fields || !f.fields["file"].JStr? then Verdict(false, "finding.file")
      else if !ValidSpans(if "line_spans" in f.fields then f.fields["line_spans"] else JArr([])) then
        Verdict(false, "finding.line_spans invalid")
      else
        var rest := FindingsVerdict(fs[1..]);
        assert forall k :: 1 <= k < |fs| ==> fs[k] == fs[1..][k - 1];
        rest
  }

  /** `is_detection(obj)` */
  function IsDetection(obj: Json): (v: Verdict)
    ensures v.ok <==> obj.JObj? && "findings" in obj.fields && obj.fields["findings"].JArr?
                      && forall k :: 0 <= k < |obj.fields["findings"].items| ==>
                           ValidFinding(obj.fields["findings"].items[k])
    ensures v.ok <==> v.msg == ""
  {
    if !obj.JObj? then Verdict(false, "not a dict")
    else if "findings" !in obj.fields || !obj.fields["findings"].JArr? then Verdict(false, "missing findings list")
    else FindingsVerdict(obj.fields["findings"].items)
  }
}
