/**
 * The records of the code graph and the per-node metadata the builder
 * derives: node labels and edge types, the attribute set of a node, the
 * stable id (a SHA-1 prefix of the qualified name), the SHA-256 of the
 * code, a short summary, the source line count, and 1-based line numbers.
 * Hashing and text encoding are parameters (`Env`).
 */
module GraphMetadata {
  import opened Wrappers
  import opened PyStr
  import opened SyntaxTree

  datatype Label =
    | Module | Class | Function | Method
    | If | For | While | Try | With
    | Assignment | Decorator | Docstring
    | Import | ExternalFunction

  datatype EdgeKind = Contains | Imports | Calls

  /** The `label` / `type` text stored on a node. */
  function LabelName(l: Label): string {
    match l
    case Module => "Module"
    case Class => "Class"
    case Function => "Function"
    case Method => "Method"
    case If => "If"
    case For => "For"
    case While => "While"
    case Try => "Try"
    case With => "With"
    case Assignment => "Assignment"
    case Decorator => "Decorator"
    case Docstring => "Docstring"
    case Import => "Import"
    case ExternalFunction => "ExternalFunction"
  }

  /** The `type` text stored on an edge. */
  function EdgeKindName(k: EdgeKind): string {
    match k
    case Contains => "CONTAINS"
    case Imports => "IMPORTS"
    case Calls => "CALLS"
  }

  /** Distinct labels are written as distinct texts. */
  lemma LabelNameInjective(a: Label, b: Label)
    ensures LabelName(a) == LabelName(b) ==> a == b
  {
  }

  /**
   * The functions the builder uses but does not define: UTF-8 decoding with
   * errors ignored, UTF-8 encoding, and the hexadecimal SHA-1 and SHA-256
   * digests.
   */
  datatype Env = Env(
    decode: Bytes -> string,
    encode: string -> Bytes,
    sha1Hex: Bytes -> string,
    sha256Hex: Bytes -> string)

  /** The attributes a caller passes to `add_node` (None where not passed). */
  datatype Attrs = Attrs(
    name: Option<string>,
    qualifiedName: Option<string>,
    code: Option<string>,
    signature: Option<string>,
    docstring: Option<string>,
    modulePath: Option<string>,
    path: Option<string>,
    pathAbs: Option<string>,
    startLine: Option<int>,
    endLine: Option<int>)

  /** The attributes every node starts from. */
  const NoAttrs := Attrs(None, None, None, None, None, None, None, None, None, None)

  /**
   * A graph node as stored in `graph["nodes"]`. Its `code_sha`, `summary`
   * and `sloc` entries are functions of its code, which never changes once
   * the node is added; they are the members `CodeSha`, `Summary` and `LineCount`.
   */
  datatype Node = Node(
    id: nat,
    nodeLabel: Label,
    name: Option<string>,
    qualifiedName: Option<string>,
    code: Option<string>,
    signature: Option<string>,
    docstring: Option<string>,
    sid: string,
    modulePath: Option<string>,
    path: Option<string>,
    pathAbs: Option<string>,
    startLine: Option<int>,
    endLine: Option<int>,
    parentId: Option<nat>)
  {
    function CodeSha(env: Env): Option<string> { CodeSha256(env, code) }
    function Summary(): Option<string> { MakeSummary(code) }
    function LineCount(): nat { Sloc(code) }
  }

  /** A graph edge as stored in `graph["edges"]`. */
  datatype Edge = Edge(source: nat, target: nat, kind: EdgeKind, sourceSid: Option<string>, targetSid: Option<string>)

  /** Python truthiness of an optional string: present and non-empty. */
  predicate Present(s: Option<string>) {
    s.Some? && s.value != ""
  }

  /** The first `n` characters of `s` (`s[:n]`). */
  function Prefix(s: string, n: nat): (r: string)
    ensures |r| == if |s| < n then |s| else n
    ensures r == s[..|r|]
  {
    if |s| <= n then s else s[..n]
  }

  /** `stable_id`: the first 16 hex digits of the SHA-1 of the UTF-8 text. */
  function StableId(env: Env, s: string): (r: string)
    ensures var h := env.sha1Hex(env.encode(s)); |r| <= 16 && |r| <= |h| && r == h[..|r|]
    ensures |env.sha1Hex(env.encode(s))| >= 16 ==> |r| == 16
  {
    Prefix(env.sha1Hex(env.encode(s)), 16)
  }

  /**
   * The text a node's `sid` is derived from: its qualified name, else its
   * name, else its id in decimal; empty strings count as missing.
   */
  function SidKey(id: nat, qualifiedName: Option<string>, name: Option<string>): (k: string)
    ensures k != []
    ensures Present(qualifiedName) ==> k == qualifiedName.value
    ensures !Present(qualifiedName) && Present(name) ==> k == name.value
    ensures !Present(qualifiedName) && !Present(name) ==> k == NatToString(id)
  {
    if Present(qualifiedName) then qualifiedName.value
    else if Present(name) then name.value
    else NatToString(id)
  }

  /** `code_sha256`: None exactly when the code is None or empty. */
  function CodeSha256(env: Env, code: Option<string>): (r: Option<string>)
    ensures r.None? <==> !Present(code)
    ensures r.Some? ==> r.value == env.sha256Hex(env.encode(code.value))
  {
    if Present(code) then Some(env.sha256Hex(env.encode(code.value))) else None
  }

  /** The longest summary `make_summary` returns. */
  const SummaryMax: nat := 400

  /**
   * The lines a summary is built from: the first two, then "..." and the
   * last two when there are more than two.
   */
  function SummaryLines(lines: seq<string>): (r: seq<string>)
    ensures |lines| <= 2 ==> r == lines
    ensures |lines| > 2 ==> |r| == 5 && r[..2] == lines[..2] && r[2] == "..." && r[3..] == lines[|lines| - 2..]
  {
    var head := if |lines| <= 2 then lines else lines[..2];
    var tail := if |lines| > 2 then lines[|lines| - 2..] else [];
    head + (if tail != [] && |lines| > 2 then ["..."] else []) + tail
  }

  /**
   * `make_summary`: None for missing or all-whitespace code; otherwise the
   * summary lines of the stripped code joined by newlines, cut to 400
   * characters.
   */
  function MakeSummary(code: Option<string>): (r: Option<string>)
    ensures r.None? <==> (code.None? || forall i :: 0 <= i < |code.value| ==> IsSpace(code.value[i]))
    ensures r.Some? ==> |r.value| <= SummaryMax
    ensures r.Some? ==> r.value == Prefix(Join("\n", SummaryLines(SplitLines(Strip(code.value)))), SummaryMax)
  {
    if !Present(code) then None
    else
      var lines := SplitLines(Strip(code.value));
      if lines == [] then None
      else Some(Prefix(Join("\n", SummaryLines(lines)), SummaryMax))
  }

  /**
   * With exactly three lines the head and the tail overlap, so the middle
   * line appears twice in the summary.
   */
  lemma SummaryOfThreeLines(a: string, b: string, c: string)
    ensures SummaryLines([a, b, c]) == [a, b, "...", b, c]
  {
  }

  /** `sloc`: 0 for missing or empty code, else its number of lines. */
  function Sloc(code: Option<string>): (n: nat)
    ensures !Present(code) ==> n == 0
    ensures Present(code) ==> n == |SplitLines(code.value)| && n > 0
  {
    if Present(code) then |SplitLines(code.value)| else 0
  }

  /** `_ts_lines`: tree-sitter's 0-based rows as 1-based line numbers. */
  function TsLines(n: TsNode): (r: (int, int))
    ensures r.0 == n.startRow + 1 && r.1 == n.endRow + 1
    ensures n.startRow <= n.endRow ==> r.0 <= r.1
  {
    (n.startRow + 1, n.endRow + 1)
  }

  /**
   * `add_node` as a record: the given attributes, the derived `sid`, and no
   * parent yet.
   */
  function MakeNode(env: Env, id: nat, l: Label, a: Attrs): (n: Node)
    ensures n.id == id && n.nodeLabel == l && n.parentId.None?
    ensures n.sid == StableId(env, SidKey(id, a.qualifiedName, a.name))
    ensures n.code == a.code && n.name == a.name && n.docstring == a.docstring && n.signature == a.signature
    ensures n.modulePath == a.modulePath && n.path == a.path && n.qualifiedName == a.qualifiedName
    ensures n.pathAbs == a.pathAbs && n.startLine == a.startLine && n.endLine == a.endLine
  {
    Node(id, l, a.name, a.qualifiedName, a.code, a.signature, a.docstring,
         StableId(env, SidKey(id, a.qualifiedName, a.name)),
         a.modulePath, a.path, a.pathAbs, a.startLine, a.endLine, None)
  }
}
