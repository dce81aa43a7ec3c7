/**
 * The chunk partitioners. Raw-text mode (`split_text`) takes each file's
 * segments, as the external text splitter cut them, and locates every
 * segment in the file to give it global 1-based line numbers. Node-list
 * mode (`split_ast`) groups graph nodes by file, sorts each file's nodes by
 * their lines, renders each node as a short text block and packs the blocks
 * greedily into chunks under a token budget. The tokenizer and the text
 * splitter are parameters.
 */
module InputSplitter {
  import opened Wrappers
  import opened PyStr

  // ------------------------------------------------------------ raw text

  /** One entry of the bundle's `files` list: its `path` and its `content`, None when absent. */
  datatype BundleFile = BundleFile(path: Option<string>, content: Option<string>)

  /** An entry of the result of `split_text`: the file tree first, then the sections. */
  datatype TextEntry =
    | FileTree(tree: string)
    | TextSection(file: string, section: nat, content: string, startLine: int, endLine: int, numLines: int)

  /** The number of lines of `content` as `split_text` counts them: its newlines plus one. */
  function TotalLines(content: string): nat {
    CountChar(content, '\n') + 1
  }

  /** No prefix holds more newlines than the whole text. */
  lemma CountPrefix(s: string, k: nat, c: char)
    requires k <= |s|
    ensures CountChar(s[..k], c) <= CountChar(s, c)
  {
    assert s == s[..k] + s[k..];
    CountCharAppend(s[..k], s[k..], c);
  }

  /** A longer prefix holds at least as many newlines. */
  lemma CountPrefixMono(s: string, j: nat, k: nat, c: char)
    requires j <= k <= |s|
    ensures CountChar(s[..j], c) <= CountChar(s[..k], c)
  {
    assert s[..j] == s[..k][..j];
    CountPrefix(s[..k], j, c);
  }

  /** The 1-based line on which offset `off` of `content` lies. */
  function LineAt(content: string, off: nat): (r: nat)
    requires off <= |content|
    ensures 1 <= r <= TotalLines(content)
  {
    CountPrefix(content, off, '\n');
    CountChar(content[..off], '\n') + 1
  }

  /**
   * Where a segment is looked for: its first occurrence at or after the
   * cursor, else its first occurrence anywhere; -1 when it does not occur.
   */
  function Locate(content: string, sec: string, scanPos: nat): (off: int)
    ensures off == -1 || OccursAt(content, sec, off)
    ensures Find(content, sec, scanPos) != -1 ==> scanPos <= off && forall i :: scanPos <= i < off ==> !OccursAt(content, sec, i)
    ensures Find(content, sec, scanPos) == -1 && off != -1 ==> forall i :: 0 <= i < off ==> !OccursAt(content, sec, i)
    ensures off == -1 ==> forall i :: 0 <= i ==> !OccursAt(content, sec, i)
  {
    var a := Find(content, sec, scanPos);
    if a != -1 then a else Find(content, sec, 0)
  }

  /** The cursor after the first `k` segments: the end of the last segment located. */
  function ScanPos(content: string, segs: seq<string>, k: nat): (p: nat)
    requires k <= |segs|
    ensures p <= |content|
  {
    if k == 0 then 0
    else
      var p := ScanPos(content, segs, k - 1);
      var off := Locate(content, segs[k - 1], p);
      if off == -1 then p else off + |segs[k - 1]|
  }

  /**
   * The section `split_text` makes of segment `j`: numbered from 1, with the
   * lines of the located occurrence, or the whole file when the segment does
   * not occur.
   */
  function SectionAt(path: string, content: string, segs: seq<string>, j: nat): (e: TextEntry)
    requires j < |segs|
    ensures e.TextSection? && e.file == path && e.section == j + 1 && e.content == segs[j]
    ensures e.numLines == CountChar(segs[j], '\n') + 1
    ensures 1 <= e.startLine <= e.endLine <= TotalLines(content)
    ensures var off := Locate(content, segs[j], ScanPos(content, segs, j));
            && (off != -1 ==> e.startLine == LineAt(content, off) && e.endLine == LineAt(content, off + |segs[j]|))
            && (off == -1 ==> e.startLine == 1 && e.endLine == TotalLines(content))
  {
    var sec := segs[j];
    var off := Locate(content, sec, ScanPos(content, segs, j));
    var lines := if off == -1 then (1, TotalLines(content))
                 else (CountPrefixMono(content, off, off + |sec|, '\n'); (LineAt(content, off), LineAt(content, off + |sec|)));
    TextSection(path, j + 1, sec, lines.0, lines.1, CountChar(sec, '\n') + 1)
  }

  /** The sections of the first `k` segments of one file. */
  function Sections(path: string, content: string, segs: seq<string>, k: nat): (r: seq<TextEntry>)
    requires k <= |segs|
    ensures |r| == k && forall j :: 0 <= j < k ==> r[j] == SectionAt(path, content, segs, j)
  {
    if k == 0 then [] else Sections(path, content, segs, k - 1) + [SectionAt(path, content, segs, k - 1)]
  }

  /**
   * The line-mapping loop of `split_text` for one file: each segment is
   * looked up from the cursor, the cursor moves to the end of the located
   * occurrence, and a segment that is not found spans the whole file.
   */
  method MapSegments(path: string, content: string, segs: seq<string>) returns (out: seq<TextEntry>)
    ensures out == Sections(path, content, segs, |segs|)
  {
    out := [];
    var scanPos: nat := 0;
    var j := 0;
    while j < |segs|
      invariant j <= |segs| && scanPos == ScanPos(content, segs, j)
      invariant out == Sections(path, content, segs, j)
    {
      var e, next := MapSegment(path, content, segs, j, scanPos);
      out := out + [e];
      scanPos := next;
      j := j + 1;
    }
  }

  /** One turn of the loop above: the section of segment `j` and the cursor after it. */
  method MapSegment(path: string, content: string, segs: seq<string>, j: nat, scanPos: nat) returns (e: TextEntry, next: nat)
    requires j < |segs| && scanPos == ScanPos(content, segs, j)
    ensures e == SectionAt(path, content, segs, j) && next == ScanPos(content, segs, j + 1)
  {
    var sec := segs[j];
    var startLine, endLine;
    startLine, endLine, next := LocateLines(content, sec, scanPos);
    e := TextSection(path, j + 1, sec, startLine, endLine, CountChar(sec, '\n') + 1);
  }

  /** One step of the loop above: the lines of segment `sec` looked up from `scanPos`, and the new cursor. */
  method LocateLines(content: string, sec: string, scanPos: nat) returns (startLine: int, endLine: int, next: nat)
    ensures var off := Locate(content, sec, scanPos);
            && (off != -1 ==> startLine == LineAt(content, off) && endLine == LineAt(content, off + |sec|) && next == off + |sec|)
            && (off == -1 ==> startLine == 1 && endLine == TotalLines(content) && next == scanPos)
  {
    var startOff := Find(content, sec, scanPos);
    if startOff == -1 {
      startOff := Find(content, sec, 0);
    }
    next := scanPos;
    if startOff == -1 {
      startLine, endLine := 1, CountChar(content, '\n') + 1;
    } else {
      var endOff := startOff + |sec|;
      startLine, endLine := CountChar(content[..startOff], '\n') + 1, CountChar(content[..endOff], '\n') + 1;
      next := endOff;
    }
  }

  /** What `split_text` produces for one bundle file: nothing when its path or content is empty. */
  function FileSections(f: BundleFile, segmentsOf: string -> seq<string>): seq<TextEntry> {
    if !Present0(f.path) || !Present0(f.content) then []
    else var segs := segmentsOf(f.content.value); Sections(f.path.value, f.content.value, segs, |segs|)
  }

  /** Python truthiness of an optional string. */
  predicate Present0(s: Option<string>) {
    s.Some? && s.value != ""
  }

  /** The sections of the files, file after file. */
  function AllSections(files: seq<BundleFile>, segmentsOf: string -> seq<string>): seq<TextEntry> {
    if files == [] then []
    else AllSections(files[..|files| - 1], segmentsOf) + FileSections(files[|files| - 1], segmentsOf)
  }

  /**
   * `split_text` once the bundle is loaded: the file tree, then the sections
   * of every file with a non-empty path and content, where `segmentsOf` is
   * the text splitter.
   */
  method SplitText(fileTree: string, files: seq<BundleFile>, segmentsOf: string -> seq<string>) returns (out: seq<TextEntry>)
    ensures out == [FileTree(fileTree)] + AllSections(files, segmentsOf)
  {
    var sections: seq<TextEntry> := [];
    var i := 0;
    while i < |files|
      invariant i <= |files| && sections == AllSections(files[..i], segmentsOf)
    {
      var f := files[i];
      var entries: seq<TextEntry> := [];
      if Present0(f.path) && Present0(f.content) {
        entries := MapSegments(f.path.value, f.content.value, segmentsOf(f.content.value));
      }
      AllSectionsSnoc(files, i, segmentsOf, entries);
      sections := sections + entries;
      i := i + 1;
    }
    assert files[..|files|] == files;
    out := [FileTree(fileTree)] + sections;
  }

  lemma AllSectionsSnoc(files: seq<BundleFile>, i: nat, segmentsOf: string -> seq<string>, entries: seq<TextEntry>)
    requires i < |files| && entries == FileSections(files[i], segmentsOf)
    ensures AllSections(files[..i + 1], segmentsOf) == AllSections(files[..i], segmentsOf) + entries
  {
    assert files[..i + 1][..i] == files[..i];
  }

  /** Every entry after the first is a section of a file with a non-empty path, numbered from 1. */
  lemma {:induction false} AllSectionsShape(files: seq<BundleFile>, segmentsOf: string -> seq<string>)
    ensures forall e :: e in AllSections(files, segmentsOf) ==> e.TextSection? && e.file != "" && e.section >= 1
  {
    if files != [] {
      AllSectionsShape(files[..|files| - 1], segmentsOf);
    }
  }

  /**
   * The cursor does not only move forward: "ab" cut into "ab" then "a"
   * puts it at 2, then the second segment is not found from there, is found
   * at offset 0 instead, and the cursor goes back to 1.
   */
  lemma ScanPosCanMoveBack()
    ensures ScanPos("ab", ["ab", "a"], 1) == 2
    ensures ScanPos("ab", ["ab", "a"], 2) == 1
  {
    assert OccursAt("ab", "ab", 0);
    assert Find("ab", "a", 2) == -1;
    assert Find("ab", "a", 0) == 0 by { assert "ab"[0..1] == "a"; }
  }

  /** A segment found from the cursor starts at or after it and ends where the cursor moves. */
  lemma {:induction false} ScanAdvancesWhenFound(content: string, segs: seq<string>, k: nat)
    requires k < |segs|
    requires Find(content, segs[k], ScanPos(content, segs, k)) != -1
    ensures ScanPos(content, segs, k) <= ScanPos(content, segs, k + 1)
  {
  }

  // ------------------------------------------------------------ graph nodes

  /**
   * The fields of a graph.json node that `split_ast` reads. A missing key and
   * a JSON null are both None.
   */
  datatype GraphNode = GraphNode(
    nodeType: Option<string>,
    nodeLabel: Option<string>,
    qualifiedName: Option<string>,
    name: Option<string>,
    startLine: Option<int>,
    endLine: Option<int>,
    code: Option<string>,
    summary: Option<string>,
    modulePath: Option<string>,
    path: Option<string>)

  /** The code limit `split_ast` passes when it renders a node. */
  const CodeMax: nat := 400

  /** `a or b or d` on optional strings, with Python truthiness. */
  function OrElse(a: Option<string>, b: Option<string>, d: string): (r: string)
    ensures Present0(a) ==> r == a.value
    ensures !Present0(a) && Present0(b) ==> r == b.value
    ensures !Present0(a) && !Present0(b) ==> r == d
  {
    if Present0(a) then a.value else if Present0(b) then b.value else d
  }

  /** How a line entry prints in an f-string: the number, or "None". */
  function LineText(o: Option<int>): string {
    if o.Some? then IntToString(o.value) else "None"
  }

  /**
   * The header line of a node block: `[type] name Lstart-end`. The source
   * strips it; HeaderStripped shows that stripping does not change it.
   */
  function Header(n: GraphNode): string {
    "[" + OrElse(n.nodeType, n.nodeLabel, "Node") + "] " + OrElse(n.qualifiedName, n.name, "") + " L" + LineText(n.startLine) + "-" + LineText(n.endLine)
  }

  /** A header starts with '[' and ends with a digit or the "e" of "None", so `.strip()` keeps it whole. */
  lemma HeaderStripped(n: GraphNode)
    ensures Strip(Header(n)) == Header(n)
  {
    var h := Header(n);
    var e := LineText(n.endLine);
    assert h[|h| - 1] == e[|e| - 1];
    if n.endLine.Some? && n.endLine.value < 0 {
      var d := NatToString(-n.endLine.value);
      assert e[|e| - 1] == d[|d| - 1];
    }
    StripKeeps(h);
  }

  /**
   * The code part of a node block cut to `codeMax`: its first and last
   * `codeMax / 2` characters around a "..." line. With `codeMax` 1 the
   * half is 0 and the tail slice `code[-0:]` is the whole code.
   */
  function Shorten(code: string, codeMax: nat): (r: string)
    ensures codeMax == 0 || code == [] || |code| <= codeMax ==> r == code
    ensures codeMax > 0 && |code| > codeMax ==>
      var h := codeMax / 2;
      && |r| >= h + 5
      && r[..h] == code[..h]
      && r[h..h + 5] == "\n...\n"
      && (h > 0 ==> r[h + 5..] == code[|code| - h..] && |r| == 2 * h + 5 <= codeMax + 5)
      && (h == 0 ==> r[5..] == code)
  {
    if codeMax != 0 && code != [] && |code| > codeMax then
      var h := codeMax / 2;
      code[..h] + "\n...\n" + (if h == 0 then code else code[|code| - h..])
    else code
  }

  /** The block `split_ast` renders for one node. */
  function NodeText(n: GraphNode, codeMax: nat): (r: string)
    ensures StartsWith(r, Header(n) + "\n") && EndsWith(r, "\n---\n")
  {
    var code := Shorten(Strip(OrElse(n.code, n.summary, "")), codeMax);
    var r := Header(n) + "\n" + code + "\n---\n";
    assert r[..|Header(n)| + 1] == Header(n) + "\n";
    r
  }

  /** The block of a node in `split_ast`, whose code limit is 400. */
  function Piece(n: GraphNode): string {
    NodeText(n, CodeMax)
  }

  /** The blocks of a run of nodes under the renderer `render`. */
  function Pieces(render: GraphNode -> string, ns: seq<GraphNode>): (r: seq<string>)
    ensures |r| == |ns| && forall k :: 0 <= k < |ns| ==> r[k] == render(ns[k])
  {
    if ns == [] then [] else Pieces(render, ns[..|ns| - 1]) + [render(ns[|ns| - 1])]
  }

  /** `"".join(parts)`. */
  function Concat(parts: seq<string>): string {
    if parts == [] then [] else Concat(parts[..|parts| - 1]) + parts[|parts| - 1]
  }

  /** The token count of a run of blocks under the tokenizer `tok`. */
  function Tokens(tok: string -> nat, parts: seq<string>): nat {
    if parts == [] then 0 else Tokens(tok, parts[..|parts| - 1]) + tok(parts[|parts| - 1])
  }

  /** A tokenizer that gives every non-empty text at least one token. */
  ghost predicate TokPositive(tok: string -> nat) {
    forall s: string {:trigger tok(s)} :: s != [] ==> tok(s) > 0
  }

  /** Every node's block has at least one token. */
  ghost predicate Positive(tok: string -> nat, render: GraphNode -> string) {
    forall n: GraphNode {:trigger render(n)} :: tok(render(n)) > 0
  }

  /** A tokenizer that counts a token for every non-empty text does so for every node block. */
  lemma PiecePositive(tok: string -> nat)
    ensures TokPositive(tok) ==> Positive(tok, Piece)
  {
    if TokPositive(tok) {
      forall n: GraphNode
        ensures tok(Piece(n)) > 0
      {
        assert Piece(n) != [];
      }
    }
  }

  /** Under a positive tokenizer a run of blocks has no tokens exactly when it is empty. */
  lemma TokensPositive(tok: string -> nat, render: GraphNode -> string, ns: seq<GraphNode>)
    requires Positive(tok, render)
    ensures Tokens(tok, Pieces(render, ns)) == 0 <==> ns == []
  {
    if ns != [] {
      assert tok(render(ns[|ns| - 1])) > 0;
    }
  }

  // ------------------------------------------------------------ line spans

  /** A node whose start and end lines are both integers. */
  predicate Spanned(n: GraphNode) {
    n.startLine.Some? && n.endLine.Some?
  }

  /** The least start line among the spanned nodes; None when there is none. */
  function MinStart(ns: seq<GraphNode>): (r: Option<int>)
    ensures r.None? <==> forall k :: 0 <= k < |ns| ==> !Spanned(ns[k])
    ensures r.Some? ==> (forall k :: 0 <= k < |ns| && Spanned(ns[k]) ==> r.value <= ns[k].startLine.value)
                        && exists k :: 0 <= k < |ns| && Spanned(ns[k]) && ns[k].startLine.value == r.value
  {
    if ns == [] then None
    else
      var m := MinStart(ns[..|ns| - 1]);
      var x := ns[|ns| - 1];
      assert forall k :: 0 <= k < |ns| - 1 ==> ns[..|ns| - 1][k] == ns[k];
      if !Spanned(x) then m
      else if m.None? || x.startLine.value < m.value then x.startLine
      else m
  }

  /** The greatest end line among the spanned nodes; None when there is none. */
  function MaxEnd(ns: seq<GraphNode>): (r: Option<int>)
    ensures r.None? <==> forall k :: 0 <= k < |ns| ==> !Spanned(ns[k])
    ensures r.Some? ==> (forall k :: 0 <= k < |ns| && Spanned(ns[k]) ==> ns[k].endLine.value <= r.value)
                        && exists k :: 0 <= k < |ns| && Spanned(ns[k]) && ns[k].endLine.value == r.value
  {
    if ns == [] then None
    else
      var m := MaxEnd(ns[..|ns| - 1]);
      var x := ns[|ns| - 1];
      assert forall k :: 0 <= k < |ns| - 1 ==> ns[..|ns| - 1][k] == ns[k];
      if !Spanned(x) then m
      else if m.None? || x.endLine.value > m.value then x.endLine
      else m
  }

  // ------------------------------------------------------------ packing

  /** A chunk of `split_ast`: its file, its 1-based section, its nodes, their text and line span. */
  datatype Chunk = Chunk(file: string, section: nat, nodes: seq<GraphNode>, content: string, startLine: Option<int>, endLine: Option<int>)

  /** The nodes of the chunks, chunk after chunk. */
  function Flatten(cs: seq<Chunk>): seq<GraphNode> {
    if cs == [] then [] else Flatten(cs[..|cs| - 1]) + cs[|cs| - 1].nodes
  }

  /** Chunk `c` is section `section` of `file`: non-empty, with the text and the line span of its nodes. */
  predicate ChunkOf(c: Chunk, file: string, section: nat, render: GraphNode -> string) {
    && c.file == file && c.section == section && c.nodes != []
    && c.content == Concat(Pieces(render, c.nodes))
    && c.startLine == MinStart(c.nodes) && c.endLine == MaxEnd(c.nodes)
  }

  /** The tokens of a chunk's blocks. */
  function ChunkTokens(tok: string -> nat, render: GraphNode -> string, c: Chunk): nat {
    Tokens(tok, Pieces(render, c.nodes))
  }

  /**
   * The chunks of one file are its sections 1, 2, ... in order, and a chunk
   * of two or more nodes fits the budget.
   */
  predicate ChunksOk(cs: seq<Chunk>, file: string, chunkSize: int, tok: string -> nat, render: GraphNode -> string) {
    forall j :: 0 <= j < |cs| ==>
      ChunkOf(cs[j], file, j + 1, render) && (|cs[j].nodes| >= 2 ==> ChunkTokens(tok, render, cs[j]) <= chunkSize)
  }

  /** Each chunk was closed because the next node's block would not fit beside it. */
  predicate Greedy(cs: seq<Chunk>, chunkSize: int, tok: string -> nat, render: GraphNode -> string) {
    forall j :: 0 <= j < |cs| - 1 && cs[j + 1].nodes != [] ==>
                  ChunkTokens(tok, render, cs[j]) + tok(render(cs[j + 1].nodes[0])) > chunkSize
  }

  /** `_flush`: closes the open chunk as the next section; nothing happens when it is empty. */
  method Flush(file: string, chunks: seq<Chunk>, section: nat, cur: seq<GraphNode>, parts: seq<string>)
    returns (chunks': seq<Chunk>, section': nat)
    ensures cur == [] ==> chunks' == chunks && section' == section
    ensures cur != [] ==>
              section' == section + 1 && chunks' == chunks + [Chunk(file, section + 1, cur, Concat(parts), MinStart(cur), MaxEnd(cur))]
  {
    chunks', section' := chunks, section;
    if cur == [] {
      return;
    }
    section' := section + 1;
    chunks' := chunks + [Chunk(file, section', cur, Concat(parts), MinStart(cur), MaxEnd(cur))];
  }

  /** The open chunk: its blocks and their token count, within the budget once it holds two nodes. */
  predicate Open(chunkSize: int, tok: string -> nat, render: GraphNode -> string, cur: seq<GraphNode>, parts: seq<string>, curTok: nat) {
    parts == Pieces(render, cur) && curTok == Tokens(tok, parts) && (|cur| >= 2 ==> curTok <= chunkSize)
  }

  /** Every node in the closed chunks and in the open chunk is one of the file's nodes. */
  predicate Within(nodes: seq<GraphNode>, chunks: seq<Chunk>, cur: seq<GraphNode>) {
    (forall x :: x in Flatten(chunks) ==> x in nodes) && (forall x :: x in cur ==> x in nodes)
  }

  /** The closed chunks, then the open chunk, are the first `i` nodes. */
  predicate Covers(nodes: seq<GraphNode>, i: nat, chunks: seq<Chunk>, cur: seq<GraphNode>) {
    i <= |nodes| && Flatten(chunks) + cur == nodes[..i]
  }

  /**
   * The closed chunks are greedy, and so is the last one against the open
   * chunk; with nothing open the last one reached the budget by itself.
   */
  predicate GreedyOpen(chunkSize: int, tok: string -> nat, render: GraphNode -> string, chunks: seq<Chunk>, cur: seq<GraphNode>) {
    && Greedy(chunks, chunkSize, tok, render)
    && (|chunks| > 0 && cur == [] ==> ChunkTokens(tok, render, chunks[|chunks| - 1]) >= chunkSize)
    && (|chunks| > 0 && cur != [] ==> ChunkTokens(tok, render, chunks[|chunks| - 1]) + tok(render(cur[0])) > chunkSize)
  }

  /** `_node_text` as the packing loop calls it, through the renderer. */
  function Render(render: GraphNode -> string, n: GraphNode): string {
    render(n)
  }

  /** `_tok_len`: the number of tokens of a block. */
  function Count(tok: string -> nat, s: string): nat {
    tok(s)
  }

  /** The state of the packing loop after the first `i` nodes of a file. */
  ghost predicate PackInv(file: string, nodes: seq<GraphNode>, i: nat, chunkSize: int, tok: string -> nat, render: GraphNode -> string,
                          chunks: seq<Chunk>, section: nat, cur: seq<GraphNode>, parts: seq<string>, curTok: nat)
  {
    && i <= |nodes| && section == |chunks|
    && Open(chunkSize, tok, render, cur, parts, curTok)
    && ChunksOk(chunks, file, chunkSize, tok, render)
    && Within(nodes, chunks, cur)
    && (Positive(tok, render) ==> Covers(nodes, i, chunks, cur) && GreedyOpen(chunkSize, tok, render, chunks, cur))
  }

  /**
   * The packing loop of `split_ast` for one file whose nodes are already
   * sorted: a block that alone reaches the budget becomes a chunk of its
   * own, a block that would overflow the open chunk closes it first, and
   * the last open chunk is closed at the end.
   */
  method PackFile(file: string, nodes: seq<GraphNode>, chunkSize: int, tok: string -> nat, render: GraphNode -> string)
    returns (chunks: seq<Chunk>)
    ensures ChunksOk(chunks, file, chunkSize, tok, render)
    ensures forall x :: x in Flatten(chunks) ==> x in nodes
    ensures Positive(tok, render) ==> Flatten(chunks) == nodes && Greedy(chunks, chunkSize, tok, render)
  {
    chunks := [];
    var cur: seq<GraphNode> := [];
    var parts: seq<string> := [];
    var curTok: nat := 0;
    var section: nat := 0;
    var i := 0;
    PackStart(file, nodes, chunkSize, tok, render);
    while i < |nodes|
      invariant PackInv(file, nodes, i, chunkSize, tok, render, chunks, section, cur, parts, curTok)
    {
      chunks, section, cur, parts, curTok := Place(file, nodes, i, chunkSize, tok, render, chunks, section, cur, parts, curTok);
      i := i + 1;
    }
    chunks := CloseLast(file, nodes, chunkSize, tok, render, chunks, section, cur, parts, curTok);
  }

  lemma PackStart(file: string, nodes: seq<GraphNode>, chunkSize: int, tok: string -> nat, render: GraphNode -> string)
    ensures PackInv(file, nodes, 0, chunkSize, tok, render, [], 0, [], [], 0)
  {
    assert Flatten([]) + [] == nodes[..0];
  }

  /** One turn of the packing loop: node `nodes[i]` joins the open chunk, or starts a new one. */
  method Place(file: string, nodes: seq<GraphNode>, i: nat, chunkSize: int, tok: string -> nat, render: GraphNode -> string,
               chunks0: seq<Chunk>, section0: nat, cur0: seq<GraphNode>, parts0: seq<string>, curTok0: nat)
    returns (chunks: seq<Chunk>, section: nat, cur: seq<GraphNode>, parts: seq<string>, curTok: nat)
    requires i < |nodes| && PackInv(file, nodes, i, chunkSize, tok, render, chunks0, section0, cur0, parts0, curTok0)
    ensures PackInv(file, nodes, i + 1, chunkSize, tok, render, chunks, section, cur, parts, curTok)
  {
    var n := nodes[i];
    var piece := Render(render, n);
    var pieceTokens := Count(tok, piece);
    if curTok0 == 0 && pieceTokens >= chunkSize {
      chunks, section, cur, parts, curTok := PlaceAlone(file, nodes, i, chunkSize, tok, render, chunks0, section0, cur0, parts0, curTok0);
    } else if curTok0 + pieceTokens > chunkSize && cur0 != [] {
      chunks, section, cur, parts, curTok := PlaceAfterClose(file, nodes, i, chunkSize, tok, render, chunks0, section0, cur0, parts0, curTok0);
    } else {
      chunks, section, cur, parts, curTok := PlaceJoin(file, nodes, i, chunkSize, tok, render, chunks0, section0, cur0, parts0, curTok0);
    }
  }

  /** The first branch of the loop body: the block becomes a chunk by itself, which is closed at once. */
  method PlaceAlone(file: string, nodes: seq<GraphNode>, i: nat, chunkSize: int, tok: string -> nat, render: GraphNode -> string,
                    chunks0: seq<Chunk>, section0: nat, cur0: seq<GraphNode>, parts0: seq<string>, curTok0: nat)
    returns (chunks: seq<Chunk>, section: nat, cur: seq<GraphNode>, parts: seq<string>, curTok: nat)
    requires i < |nodes| && PackInv(file, nodes, i, chunkSize, tok, render, chunks0, section0, cur0, parts0, curTok0)
    requires curTok0 == 0 && tok(render(nodes[i])) >= chunkSize
    ensures PackInv(file, nodes, i + 1, chunkSize, tok, render, chunks, section, cur, parts, curTok)
  {
    var n := nodes[i];
    var piece := Render(render, n);
    cur, parts, curTok := [n], [piece], Count(tok, piece);
    chunks, section := Flush(file, chunks0, section0, cur, parts);
    cur, parts, curTok := [], [], 0;
    PlacedAlone(file, nodes, i, chunkSize, tok, render, chunks0, cur0, curTok0, chunks);
  }

  /** The second branch of the loop body: the open chunk is closed and the block opens the next one. */
  method PlaceAfterClose(file: string, nodes: seq<GraphNode>, i: nat, chunkSize: int, tok: string -> nat, render: GraphNode -> string,
                         chunks0: seq<Chunk>, section0: nat, cur0: seq<GraphNode>, parts0: seq<string>, curTok0: nat)
    returns (chunks: seq<Chunk>, section: nat, cur: seq<GraphNode>, parts: seq<string>, curTok: nat)
    requires i < |nodes| && PackInv(file, nodes, i, chunkSize, tok, render, chunks0, section0, cur0, parts0, curTok0)
    requires curTok0 + tok(render(nodes[i])) > chunkSize && cur0 != []
    ensures PackInv(file, nodes, i + 1, chunkSize, tok, render, chunks, section, cur, parts, curTok)
  {
    var n := nodes[i];
    var piece := Render(render, n);
    chunks, section := Flush(file, chunks0, section0, cur0, parts0);
    cur, parts, curTok := [], [], 0;
    PlacedAfterClose(file, nodes, i, chunkSize, tok, render, chunks0, section0, cur0, parts0, curTok0, chunks);
    cur, parts, curTok := cur + [n], parts + [piece], curTok + Count(tok, piece);
    assert cur == [n] && parts == [piece];
  }

  /** The third branch of the loop body: the block joins the open chunk. */
  method PlaceJoin(file: string, nodes: seq<GraphNode>, i: nat, chunkSize: int, tok: string -> nat, render: GraphNode -> string,
                   chunks0: seq<Chunk>, section0: nat, cur0: seq<GraphNode>, parts0: seq<string>, curTok0: nat)
    returns (chunks: seq<Chunk>, section: nat, cur: seq<GraphNode>, parts: seq<string>, curTok: nat)
    requires i < |nodes| && PackInv(file, nodes, i, chunkSize, tok, render, chunks0, section0, cur0, parts0, curTok0)
    requires cur0 == [] || curTok0 + tok(render(nodes[i])) <= chunkSize
    ensures PackInv(file, nodes, i + 1, chunkSize, tok, render, chunks, section, cur, parts, curTok)
  {
    var n := nodes[i];
    var piece := Render(render, n);
    Joined(file, nodes, i, chunkSize, tok, render, chunks0, section0, cur0, parts0, curTok0);
    chunks, section := chunks0, section0;
    cur, parts, curTok := cur0 + [n], parts0 + [piece], curTok0 + Count(tok, piece);
  }

  /** A block that alone reaches the budget, with nothing open, becomes a chunk by itself. */
  lemma PlacedAlone(file: string, nodes: seq<GraphNode>, i: nat, chunkSize: int, tok: string -> nat, render: GraphNode -> string,
                    chunks0: seq<Chunk>, cur0: seq<GraphNode>, curTok0: nat, chunks: seq<Chunk>)
    requires i < |nodes| && ChunksOk(chunks0, file, chunkSize, tok, render) && Within(nodes, chunks0, cur0)
    requires curTok0 == Tokens(tok, Pieces(render, cur0))
    requires Positive(tok, render) ==> Covers(nodes, i, chunks0, cur0) && GreedyOpen(chunkSize, tok, render, chunks0, cur0)
    requires curTok0 == 0 && tok(render(nodes[i])) >= chunkSize
    requires chunks == chunks0 + [Chunk(file, |chunks0| + 1, [nodes[i]], Concat([render(nodes[i])]), MinStart([nodes[i]]), MaxEnd([nodes[i]]))]
    ensures PackInv(file, nodes, i + 1, chunkSize, tok, render, chunks, |chunks0| + 1, [], [], 0)
  {
    var n := nodes[i];
    OpenSingle(chunkSize, tok, render, n);
    ChunkClosed(file, |chunks0|, chunkSize, tok, render, [n], [render(n)], tok(render(n)));
    ChunksOkSnoc(chunks0, chunks[|chunks0|], file, chunkSize, tok, render);
    WithinClose(nodes, chunks0, [n], chunks[|chunks0|]);
    if Positive(tok, render) {
      TokensPositive(tok, render, cur0);
      CoversCloseAlone(nodes, i, chunks0, chunks[|chunks0|]);
      GreedyClose(chunkSize, tok, render, chunks0, chunks[|chunks0|]);
    }
  }

  /** A block that would overflow the open chunk closes it and opens the next one. */
  lemma PlacedAfterClose(file: string, nodes: seq<GraphNode>, i: nat, chunkSize: int, tok: string -> nat, render: GraphNode -> string,
                         chunks0: seq<Chunk>, section0: nat, cur0: seq<GraphNode>, parts0: seq<string>, curTok0: nat, chunks: seq<Chunk>)
    requires i < |nodes| && section0 == |chunks0| && Open(chunkSize, tok, render, cur0, parts0, curTok0)
    requires ChunksOk(chunks0, file, chunkSize, tok, render) && Within(nodes, chunks0, cur0)
    requires Positive(tok, render) ==> Covers(nodes, i, chunks0, cur0) && GreedyOpen(chunkSize, tok, render, chunks0, cur0)
    requires curTok0 + tok(render(nodes[i])) > chunkSize && cur0 != []
    requires chunks == chunks0 + [Chunk(file, section0 + 1, cur0, Concat(parts0), MinStart(cur0), MaxEnd(cur0))]
    ensures PackInv(file, nodes, i + 1, chunkSize, tok, render, chunks, section0 + 1, [nodes[i]], [render(nodes[i])], tok(render(nodes[i])))
  {
    var n := nodes[i];
    OpenSingle(chunkSize, tok, render, n);
    ChunkClosed(file, |chunks0|, chunkSize, tok, render, cur0, parts0, curTok0);
    ChunksOkSnoc(chunks0, chunks[|chunks0|], file, chunkSize, tok, render);
    WithinClose(nodes, chunks0, cur0, chunks[|chunks0|]);
    assert nodes[i] in nodes;
    if Positive(tok, render) {
      CoversCloseOpen(nodes, i, chunks0, cur0, chunks[|chunks0|]);
      GreedyClose(chunkSize, tok, render, chunks0, chunks[|chunks0|]);
    }
  }

  /** A block that fits joins the open chunk. */
  lemma Joined(file: string, nodes: seq<GraphNode>, i: nat, chunkSize: int, tok: string -> nat, render: GraphNode -> string,
               chunks0: seq<Chunk>, section0: nat, cur0: seq<GraphNode>, parts0: seq<string>, curTok0: nat)
    requires i < |nodes| && PackInv(file, nodes, i, chunkSize, tok, render, chunks0, section0, cur0, parts0, curTok0)
    requires cur0 == [] || curTok0 + tok(render(nodes[i])) <= chunkSize
    ensures PackInv(file, nodes, i + 1, chunkSize, tok, render, chunks0, section0,
                    cur0 + [nodes[i]], parts0 + [render(nodes[i])], curTok0 + tok(render(nodes[i])))
  {
    var n := nodes[i];
    OpenSnoc(chunkSize, tok, render, cur0, parts0, curTok0, n);
    assert nodes[i] in nodes;
    if Positive(tok, render) {
      CoversSnoc(nodes, i, chunks0, cur0);
      assert tok(render(n)) > 0;
      if cur0 != [] {
        assert (cur0 + [n])[0] == cur0[0];
      }
    }
  }

  /** The final `_flush` of a file. */
  method CloseLast(file: string, nodes: seq<GraphNode>, chunkSize: int, tok: string -> nat, render: GraphNode -> string,
                   chunks0: seq<Chunk>, section: nat, cur: seq<GraphNode>, parts: seq<string>, curTok: nat)
    returns (chunks: seq<Chunk>)
    requires PackInv(file, nodes, |nodes|, chunkSize, tok, render, chunks0, section, cur, parts, curTok)
    ensures ChunksOk(chunks, file, chunkSize, tok, render)
    ensures forall x :: x in Flatten(chunks) ==> x in nodes
    ensures Positive(tok, render) ==> Flatten(chunks) == nodes && Greedy(chunks, chunkSize, tok, render)
  {
    var section';
    chunks, section' := Flush(file, chunks0, section, cur, parts);
    if cur != [] {
      ChunkClosed(file, |chunks0|, chunkSize, tok, render, cur, parts, curTok);
      ChunksOkSnoc(chunks0, chunks[|chunks0|], file, chunkSize, tok, render);
      WithinClose(nodes, chunks0, cur, chunks[|chunks0|]);
      if Positive(tok, render) {
        FlattenSnoc(chunks0, chunks[|chunks0|]);
        GreedyClose(chunkSize, tok, render, chunks0, chunks[|chunks0|]);
      }
    }
    assert nodes[..|nodes|] == nodes;
  }

  // The small facts the packing steps are made of.

  lemma FlattenSnoc(cs: seq<Chunk>, c: Chunk)
    ensures Flatten(cs + [c]) == Flatten(cs) + c.nodes
  {
    assert (cs + [c])[..|cs|] == cs;
  }

  lemma OpenSingle(chunkSize: int, tok: string -> nat, render: GraphNode -> string, n: GraphNode)
    ensures Open(chunkSize, tok, render, [n], [render(n)], tok(render(n)))
    ensures Concat([render(n)]) == render(n)
  {
    assert [n][..0] == [] && [render(n)][..0] == [];
  }

  lemma OpenSnoc(chunkSize: int, tok: string -> nat, render: GraphNode -> string, cur: seq<GraphNode>, parts: seq<string>, curTok: nat, n: GraphNode)
    requires Open(chunkSize, tok, render, cur, parts, curTok)
    requires cur == [] || curTok + tok(render(n)) <= chunkSize
    ensures Open(chunkSize, tok, render, cur + [n], parts + [render(n)], curTok + tok(render(n)))
  {
    assert (cur + [n])[..|cur|] == cur && (parts + [render(n)])[..|parts|] == parts;
  }

  /** Closing a non-empty open chunk gives a well-formed section with the open chunk's tokens. */
  lemma ChunkClosed(file: string, k: nat, chunkSize: int, tok: string -> nat, render: GraphNode -> string,
                    cur: seq<GraphNode>, parts: seq<string>, curTok: nat)
    requires Open(chunkSize, tok, render, cur, parts, curTok) && cur != []
    ensures var c := Chunk(file, k + 1, cur, Concat(parts), MinStart(cur), MaxEnd(cur));
            ChunkOf(c, file, k + 1, render) && ChunkTokens(tok, render, c) == curTok
            && (|c.nodes| >= 2 ==> ChunkTokens(tok, render, c) <= chunkSize)
  {
  }

  lemma ChunksOkSnoc(cs: seq<Chunk>, c: Chunk, file: string, chunkSize: int, tok: string -> nat, render: GraphNode -> string)
    requires ChunksOk(cs, file, chunkSize, tok, render)
    requires ChunkOf(c, file, |cs| + 1, render) && (|c.nodes| >= 2 ==> ChunkTokens(tok, render, c) <= chunkSize)
    ensures ChunksOk(cs + [c], file, chunkSize, tok, render)
  {
  }

  lemma WithinClose(nodes: seq<GraphNode>, cs: seq<Chunk>, cur: seq<GraphNode>, c: Chunk)
    requires Within(nodes, cs, cur) && c.nodes == cur
    ensures forall x :: x in Flatten(cs + [c]) ==> x in nodes
  {
    FlattenSnoc(cs, c);
  }

  lemma CoversCloseOpen(nodes: seq<GraphNode>, i: nat, cs: seq<Chunk>, cur: seq<GraphNode>, c: Chunk)
    requires Covers(nodes, i, cs, cur) && i < |nodes| && c.nodes == cur
    ensures Covers(nodes, i + 1, cs + [c], [nodes[i]])
  {
    FlattenSnoc(cs, c);
    assert nodes[..i + 1] == nodes[..i] + [nodes[i]];
  }

  lemma CoversCloseAlone(nodes: seq<GraphNode>, i: nat, cs: seq<Chunk>, c: Chunk)
    requires Covers(nodes, i, cs, []) && i < |nodes| && c.nodes == [nodes[i]]
    ensures Covers(nodes, i + 1, cs + [c], [])
  {
    FlattenSnoc(cs, c);
    assert nodes[..i + 1] == nodes[..i] + [nodes[i]];
  }

  lemma CoversSnoc(nodes: seq<GraphNode>, i: nat, cs: seq<Chunk>, cur: seq<GraphNode>)
    requires Covers(nodes, i, cs, cur) && i < |nodes|
    ensures Covers(nodes, i + 1, cs, cur + [nodes[i]])
  {
    assert nodes[..i + 1] == nodes[..i] + [nodes[i]];
  }

  /** A closed chunk keeps the closed chunks greedy when the last one did not leave room for its first node. */
  lemma GreedyClose(chunkSize: int, tok: string -> nat, render: GraphNode -> string, cs: seq<Chunk>, c: Chunk)
    requires Greedy(cs, chunkSize, tok, render) && c.nodes != []
    requires |cs| > 0 ==> ChunkTokens(tok, render, cs[|cs| - 1]) + tok(render(c.nodes[0])) > chunkSize
    ensures Greedy(cs + [c], chunkSize, tok, render)
  {
  }

  // ------------------------------------------------------------ grouping and sorting

  /** The file a node is grouped under: its module, else its path; none when neither is set. */
  function FileKey(n: GraphNode): Option<string> {
    if Present0(n.modulePath) then n.modulePath else if Present0(n.path) then n.path else None
  }

  /** The files of the first `k` nodes, in the order the first node of each is met. */
  function FileOrder(all: seq<GraphNode>, k: nat): seq<string>
    requires k <= |all|
  {
    if k == 0 then []
    else
      var order := FileOrder(all, k - 1);
      var key := FileKey(all[k - 1]);
      if key.Some? && key.value !in order then order + [key.value] else order
  }

  /** The nodes among the first `k` that are grouped under `f`, in input order. */
  function NodesOf(all: seq<GraphNode>, k: nat, f: string): (r: seq<GraphNode>)
    requires k <= |all|
    ensures forall x :: x in r ==> FileKey(x) == Some(f)
  {
    if k == 0 then []
    else NodesOf(all, k - 1, f) + (if FileKey(all[k - 1]) == Some(f) then [all[k - 1]] else [])
  }

  /** The nodes among the first `k` that have a file at all. */
  function Keyed(all: seq<GraphNode>, k: nat): seq<GraphNode>
    requires k <= |all|
  {
    if k == 0 then []
    else Keyed(all, k - 1) + (if FileKey(all[k - 1]).Some? then [all[k - 1]] else [])
  }

  predicate Distinct(fs: seq<string>) {
    forall a, b :: 0 <= a < b < |fs| ==> fs[a] != fs[b]
  }

  /**
   * The file order lists each file once, and exactly the files that have
   * nodes: a file is listed iff some node is grouped under it.
   */
  lemma {:induction false} FileOrderSpec(all: seq<GraphNode>, k: nat)
    requires k <= |all|
    ensures Distinct(FileOrder(all, k))
    ensures forall f :: f in FileOrder(all, k) <==> NodesOf(all, k, f) != []
  {
    if k > 0 {
      FileOrderSpec(all, k - 1);
      forall f
        ensures f in FileOrder(all, k) <==> NodesOf(all, k, f) != []
      {
        assert f in FileOrder(all, k - 1) ==> f in FileOrder(all, k);
      }
    }
  }

  /**
   * The `by_file` loop of `split_ast`: every node with a file is appended to
   * its file's list, a file's list being created when its first node is met.
   * `order` is the key order of the dictionary.
   */
  method GroupByFile(all: seq<GraphNode>) returns (byFile: map<string, seq<GraphNode>>, order: seq<string>)
    ensures order == FileOrder(all, |all|)
    ensures forall f :: f in byFile <==> f in order
    ensures forall f :: f in byFile ==> byFile[f] == NodesOf(all, |all|, f)
  {
    byFile, order := map[], [];
    var i := 0;
    while i < |all|
      invariant i <= |all| && order == FileOrder(all, i)
      invariant forall f :: f in byFile <==> f in order
      invariant forall f :: f in byFile ==> byFile[f] == NodesOf(all, i, f)
    {
      var n := all[i];
      var key := FileKey(n);
      if key.Some? {
        var f := key.value;
        FileOrderSpec(all, i);
        if f !in byFile {
          byFile := byFile[f := []];
          order := order + [f];
        }
        byFile := byFile[f := byFile[f] + [n]];
      }
      i := i + 1;
    }
  }

  /** The sort key of a line: a missing (or zero) line sorts last. */
  function LineKey(line: Option<int>): int {
    if line.Some? && line.value != 0 then line.value else 1_000_000_000_000
  }

  /** Node `a` sorts no later than `b`: by start line, then by end line. */
  predicate KeyLe(a: GraphNode, b: GraphNode) {
    LineKey(a.startLine) < LineKey(b.startLine)
    || (LineKey(a.startLine) == LineKey(b.startLine) && LineKey(a.endLine) <= LineKey(b.endLine))
  }

  predicate SortedByLines(s: seq<GraphNode>) {
    forall a, b :: 0 <= a < b < |s| ==> KeyLe(s[a], s[b])
  }

  /** `x` inserted into the sorted `s` after every node that sorts no later than it. */
  function Insert(x: GraphNode, s: seq<GraphNode>): (r: seq<GraphNode>)
    requires SortedByLines(s)
    ensures forall y :: y in r ==> y in s || y == x
    ensures SortedByLines(r) && multiset(r) == multiset(s) + multiset{x}
  {
    if s == [] || KeyLe(s[|s| - 1], x) then s + [x]
    else
      var last := s[|s| - 1];
      var init := s[..|s| - 1];
      assert s == init + [last];
      var r' := Insert(x, init);
      InsertBelow(x, init, last, r');
      r' + [last]
  }

  lemma InsertBelow(x: GraphNode, init: seq<GraphNode>, last: GraphNode, r': seq<GraphNode>)
    requires SortedByLines(init + [last]) && !KeyLe(last, x)
    requires forall y :: y in r' ==> y in init || y == x
    requires SortedByLines(r')
    ensures SortedByLines(r' + [last])
  {
    var s := init + [last];
    forall y | y in r'
      ensures KeyLe(y, last)
    {
      if y in init {
        var a :| 0 <= a < |init| && init[a] == y;
        assert s[a] == y && s[|init|] == last;
      }
    }
    forall a, b | 0 <= a < b < |r'| + 1
      ensures KeyLe((r' + [last])[a], (r' + [last])[b])
    {
      if b == |r'| {
        assert r'[a] in r';
      } else {
        assert (r' + [last])[a] == r'[a] && (r' + [last])[b] == r'[b];
      }
    }
  }

  /** `nodes.sort(key=...)`: the nodes ordered by their lines. */
  function SortByLines(s: seq<GraphNode>): (r: seq<GraphNode>)
    ensures SortedByLines(r) && multiset(r) == multiset(s)
  {
    if s == [] then []
    else
      assert s == s[..|s| - 1] + [s[|s| - 1]];
      Insert(s[|s| - 1], SortByLines(s[..|s| - 1]))
  }

  /** The sort key of a node: (start line, end line), missing lines last. */
  function KeyOf(x: GraphNode): (int, int) {
    (LineKey(x.startLine), LineKey(x.endLine))
  }

  /** The nodes of `s` whose sort key is `k`, in their order in `s`. */
  function WithKey(s: seq<GraphNode>, k: (int, int)): seq<GraphNode> {
    if s == [] then []
    else WithKey(s[..|s| - 1], k) + (if KeyOf(s[|s| - 1]) == k then [s[|s| - 1]] else [])
  }

  lemma {:induction false} WithKeyAppend(a: seq<GraphNode>, b: seq<GraphNode>, k: (int, int))
    ensures WithKey(a + b, k) == WithKey(a, k) + WithKey(b, k)
    decreases |b|
  {
    if b != [] {
      assert (a + b)[..|a + b| - 1] == a + b[..|b| - 1];
      WithKeyAppend(a, b[..|b| - 1], k);
    } else {
      assert a + b == a;
    }
  }

  /** Inserting `x` puts it after every node of its own key. */
  lemma {:induction false} InsertStable(x: GraphNode, s: seq<GraphNode>, k: (int, int))
    requires SortedByLines(s)
    ensures WithKey(Insert(x, s), k) == WithKey(s, k) + WithKey([x], k)
    decreases |s|
  {
    if s == [] || KeyLe(s[|s| - 1], x) {
      WithKeyAppend(s, [x], k);
    } else {
      var last, init := s[|s| - 1], s[..|s| - 1];
      InsertLater(x, s);
      InsertStable(x, init, k);
      WithKeyAppend(Insert(x, init), [last], k);
      assert s == init + [last];
      WithKeyAppend(init, [last], k);
    }
  }

  /** A last node that sorts after `x` stays last, with a different key. */
  lemma InsertLater(x: GraphNode, s: seq<GraphNode>)
    requires SortedByLines(s) && s != [] && !KeyLe(s[|s| - 1], x)
    ensures SortedByLines(s[..|s| - 1]) && KeyOf(s[|s| - 1]) != KeyOf(x)
    ensures Insert(x, s) == Insert(x, s[..|s| - 1]) + [s[|s| - 1]]
  {
    var init := s[..|s| - 1];
    forall a, b | 0 <= a < b < |init|
      ensures KeyLe(init[a], init[b])
    {
      assert init[a] == s[a] && init[b] == s[b];
    }
  }

  /**
   * The sort is stable: the nodes of one key keep their relative order, as
   * Python's `list.sort` promises.
   */
  lemma {:induction false} SortStable(s: seq<GraphNode>, k: (int, int))
    ensures WithKey(SortByLines(s), k) == WithKey(s, k)
    decreases |s|
  {
    if s != [] {
      SortStable(s[..|s| - 1], k);
      InsertStable(s[|s| - 1], SortByLines(s[..|s| - 1]), k);
    }
  }

  /** The nodes of the files `fs`, file after file, each file's nodes in input order. */
  function Groups(all: seq<GraphNode>, k: nat, fs: seq<string>): seq<GraphNode>
    requires k <= |all|
  {
    if fs == [] then [] else Groups(all, k, fs[..|fs| - 1]) + NodesOf(all, k, fs[|fs| - 1])
  }

  /** Node `k - 1` joins the groups of the files `fs` exactly when its file is one of them. */
  lemma {:induction false} GroupsStep(all: seq<GraphNode>, k: nat, fs: seq<string>)
    requires 0 < k <= |all| && Distinct(fs)
    ensures multiset(Groups(all, k, fs)) == multiset(Groups(all, k - 1, fs)) + Joining(all, k, fs)
  {
    if fs != [] {
      var init, g := fs[..|fs| - 1], fs[|fs| - 1];
      DistinctInit(fs);
      GroupsStep(all, k, init);
      var e := NodesOfStep(all, k, g);
      JoiningSnoc(all, k, fs);
      calc {
        multiset(Groups(all, k, fs));
        multiset(Groups(all, k, init)) + multiset(NodesOf(all, k, g));
        multiset(Groups(all, k - 1, init)) + Joining(all, k, init) + multiset(NodesOf(all, k - 1, g)) + e;
        multiset(Groups(all, k - 1, fs)) + Joining(all, k, fs);
      }
    }
  }

  lemma DistinctInit(fs: seq<string>)
    requires fs != [] && Distinct(fs)
    ensures Distinct(fs[..|fs| - 1]) && fs[|fs| - 1] !in fs[..|fs| - 1]
  {
    var init := fs[..|fs| - 1];
    forall a, b | 0 <= a < b < |init|
      ensures init[a] != init[b]
    {
      assert init[a] == fs[a] && init[b] == fs[b];
    }
  }

  /** What node `k - 1` adds to the group of `g`. */
  lemma NodesOfStep(all: seq<GraphNode>, k: nat, g: string) returns (e: multiset<GraphNode>)
    requires 0 < k <= |all|
    ensures e == if FileKey(all[k - 1]) == Some(g) then multiset{all[k - 1]} else multiset{}
    ensures multiset(NodesOf(all, k, g)) == multiset(NodesOf(all, k - 1, g)) + e
  {
    e := if FileKey(all[k - 1]) == Some(g) then multiset{all[k - 1]} else multiset{};
  }

  lemma JoiningSnoc(all: seq<GraphNode>, k: nat, fs: seq<string>)
    requires 0 < k <= |all| && fs != [] && fs[|fs| - 1] !in fs[..|fs| - 1]
    ensures Joining(all, k, fs) == Joining(all, k, fs[..|fs| - 1])
                                   + if FileKey(all[k - 1]) == Some(fs[|fs| - 1]) then multiset{all[k - 1]} else multiset{}
  {
    assert fs == fs[..|fs| - 1] + [fs[|fs| - 1]];
  }

  /** Node `k - 1` when its file is one of `fs`, and nothing otherwise. */
  function Joining(all: seq<GraphNode>, k: nat, fs: seq<string>): multiset<GraphNode>
    requires 0 < k <= |all|
  {
    var key := FileKey(all[k - 1]);
    if key.Some? && key.value in fs then multiset{all[k - 1]} else multiset{}
  }

  /**
   * Grouping by file is a partition: the groups of all the files, taken
   * together, hold exactly the nodes that have a file.
   */
  lemma {:induction false} GroupsPartition(all: seq<GraphNode>, k: nat)
    requires k <= |all|
    ensures multiset(Groups(all, k, FileOrder(all, k))) == multiset(Keyed(all, k))
  {
    if k > 0 {
      var j :| j + 1 == k;
      GroupsPartition(all, j);
      var e := KeyedStep(all, j, k);
      GroupsGrow(all, j, k, e);
    } else {
      assert FileOrder(all, k) == [] && Keyed(all, k) == [];
    }
  }

  lemma KeyedStep(all: seq<GraphNode>, j: nat, k: nat) returns (e: multiset<GraphNode>)
    requires k == j + 1 <= |all|
    ensures e == if FileKey(all[j]).Some? then multiset{all[j]} else multiset{}
    ensures multiset(Keyed(all, k)) == multiset(Keyed(all, j)) + e
  {
    e := if FileKey(all[j]).Some? then multiset{all[j]} else multiset{};
  }

  /** Node `j` joins the groups, in its file's group, exactly when it has a file. */
  lemma GroupsGrow(all: seq<GraphNode>, j: nat, k: nat, e: multiset<GraphNode>)
    requires k == j + 1 <= |all|
    requires e == if FileKey(all[j]).Some? then multiset{all[j]} else multiset{}
    ensures multiset(Groups(all, k, FileOrder(all, k))) == multiset(Groups(all, j, FileOrder(all, j))) + e
  {
    var order := FileOrder(all, j);
    FileOrderSpec(all, j);
    GroupsStep(all, k, order);
    var key := FileKey(all[j]);
    if key.Some? && key.value !in order {
      PartitionNew(all, k, order, key.value);
    } else {
      assert FileOrder(all, k) == order;
    }
  }

  /** The first node of a new file opens its group at the end. */
  lemma PartitionNew(all: seq<GraphNode>, k: nat, order: seq<string>, f: string)
    requires 0 < k <= |all| && order == FileOrder(all, k - 1)
    requires FileKey(all[k - 1]) == Some(f) && f !in order && NodesOf(all, k - 1, f) == []
    requires multiset(Groups(all, k, order)) == multiset(Groups(all, k - 1, order)) + Joining(all, k, order)
    ensures FileOrder(all, k) == order + [f]
    ensures multiset(Groups(all, k, order + [f])) == multiset(Groups(all, k - 1, order)) + multiset{all[k - 1]}
  {
    assert (order + [f])[..|order|] == order;
    assert NodesOf(all, k, f) == [all[k - 1]];
  }

  /** The nodes of the files `fs`, file after file, each file's nodes sorted by their lines. */
  function SortedGroups(all: seq<GraphNode>, fs: seq<string>): seq<GraphNode> {
    if fs == [] then [] else SortedGroups(all, fs[..|fs| - 1]) + SortByLines(NodesOf(all, |all|, fs[|fs| - 1]))
  }

  lemma {:induction false} SortedGroupsPerm(all: seq<GraphNode>, fs: seq<string>)
    ensures multiset(SortedGroups(all, fs)) == multiset(Groups(all, |all|, fs))
  {
    if fs != [] {
      SortedGroupsPerm(all, fs[..|fs| - 1]);
    }
  }

  /** The chunks of `split_ast` hold every node that has a file, each exactly once. */
  lemma SplitAstCovers(all: seq<GraphNode>)
    ensures multiset(SortedGroups(all, FileOrder(all, |all|))) == multiset(Keyed(all, |all|))
  {
    SortedGroupsPerm(all, FileOrder(all, |all|));
    GroupsPartition(all, |all|);
  }

  // ------------------------------------------------------------ split_ast

  /** Sections are numbered from 1 within each file, restarting when the file changes. */
  predicate Numbered(rs: seq<Chunk>) {
    forall j :: 0 <= j < |rs| ==>
      rs[j].section == if j == 0 || rs[j - 1].file != rs[j].file then 1 else rs[j - 1].section + 1
  }

  /**
   * Every chunk is a well-formed section of its file whose nodes all belong
   * to that file, a chunk of two or more nodes fits the budget, and the
   * sections are numbered per file.
   */
  predicate SplitOk(rs: seq<Chunk>, chunkSize: int, tok: string -> nat, render: GraphNode -> string) {
    Numbered(rs) && forall j :: 0 <= j < |rs| ==> FileChunk(rs[j], chunkSize, tok, render)
  }

  predicate FileChunk(c: Chunk, chunkSize: int, tok: string -> nat, render: GraphNode -> string) {
    && ChunkOf(c, c.file, c.section, render)
    && (|c.nodes| >= 2 ==> ChunkTokens(tok, render, c) <= chunkSize)
    && forall x :: x in c.nodes ==> FileKey(x) == Some(c.file)
  }

  /** Within a file, each chunk was closed because the next node's block would not fit beside it. */
  predicate GreedyWithin(rs: seq<Chunk>, chunkSize: int, tok: string -> nat, render: GraphNode -> string) {
    forall j :: 0 <= j < |rs| - 1 && rs[j].file == rs[j + 1].file && rs[j + 1].nodes != [] ==>
                  ChunkTokens(tok, render, rs[j]) + tok(render(rs[j + 1].nodes[0])) > chunkSize
  }

  /**
   * `split_ast` on the nodes of a graph: the nodes are grouped by file, each
   * file's nodes are sorted by their lines and packed into that file's
   * sections, and the files follow one another in the order their first
   * node was met.
   */
  method SplitAst(all: seq<GraphNode>, chunkSize: int, tok: string -> nat) returns (results: seq<Chunk>)
    ensures SplitOk(results, chunkSize, tok, Piece)
    ensures forall j :: 0 <= j < |results| ==> results[j].file in FileOrder(all, |all|)
    ensures TokPositive(tok) ==>
              Flatten(results) == SortedGroups(all, FileOrder(all, |all|)) && GreedyWithin(results, chunkSize, tok, Piece)
  {
    var byFile, order := GroupByFile(all);
    FileOrderSpec(all, |all|);
    results := PackFiles(all, byFile, order, chunkSize, tok, Piece);
    SplitDone(all, order, results, chunkSize, tok);
  }

  /** The file loop of `split_ast`: each file's sorted nodes packed and appended in turn. */
  method PackFiles(all: seq<GraphNode>, byFile: map<string, seq<GraphNode>>, order: seq<string>,
                   chunkSize: int, tok: string -> nat, render: GraphNode -> string)
    returns (results: seq<Chunk>)
    requires Distinct(order)
    requires forall f :: f in order ==> f in byFile && byFile[f] == NodesOf(all, |all|, f)
    ensures SplitInv(all, order, |order|, results, chunkSize, tok, render)
  {
    results := [];
    var i := 0;
    while i < |order|
      invariant SplitInv(all, order, i, results, chunkSize, tok, render)
    {
      results := AddFile(all, byFile, order, i, results, chunkSize, tok, render);
      i := i + 1;
    }
  }

  /** After the last file the loop state is the result `split_ast` promises. */
  lemma SplitDone(all: seq<GraphNode>, order: seq<string>, results: seq<Chunk>, chunkSize: int, tok: string -> nat)
    requires order == FileOrder(all, |all|)
    requires SplitInv(all, order, |order|, results, chunkSize, tok, Piece)
    ensures SplitOk(results, chunkSize, tok, Piece)
    ensures forall j :: 0 <= j < |results| ==> results[j].file in FileOrder(all, |all|)
    ensures TokPositive(tok) ==>
              Flatten(results) == SortedGroups(all, FileOrder(all, |all|)) && GreedyWithin(results, chunkSize, tok, Piece)
  {
    assert order[..|order|] == order;
    PiecePositive(tok);
  }

  /** The state of the file loop of `split_ast` after the first `i` files. */
  ghost predicate SplitInv(all: seq<GraphNode>, order: seq<string>, i: nat, results: seq<Chunk>,
                           chunkSize: int, tok: string -> nat, render: GraphNode -> string)
  {
    && i <= |order| && SplitOk(results, chunkSize, tok, render)
    && (forall j :: 0 <= j < |results| ==> results[j].file in order[..i])
    && (Positive(tok, render) ==>
          Flatten(results) == SortedGroups(all, order[..i]) && GreedyWithin(results, chunkSize, tok, render))
  }

  /** One turn of the file loop: the file's nodes are sorted, packed, and their sections appended. */
  method AddFile(all: seq<GraphNode>, byFile: map<string, seq<GraphNode>>, order: seq<string>, i: nat, results0: seq<Chunk>,
                 chunkSize: int, tok: string -> nat, render: GraphNode -> string)
    returns (results: seq<Chunk>)
    requires i < |order| && Distinct(order) && order[i] in byFile && byFile[order[i]] == NodesOf(all, |all|, order[i])
    requires SplitInv(all, order, i, results0, chunkSize, tok, render)
    ensures SplitInv(all, order, i + 1, results, chunkSize, tok, render)
  {
    var f := order[i];
    var nodes := SortByLines(byFile[f]);
    var chunks := PackFile(f, nodes, chunkSize, tok, render);
    FileAppended(all, order, i, results0, nodes, chunks, chunkSize, tok, render);
    results := results0 + chunks;
  }

  /** The sections PackFile makes of file `order[i]` extend the loop state to `i + 1` files. */
  lemma FileAppended(all: seq<GraphNode>, order: seq<string>, i: nat, results0: seq<Chunk>, nodes: seq<GraphNode>, chunks: seq<Chunk>,
                     chunkSize: int, tok: string -> nat, render: GraphNode -> string)
    requires i < |order| && Distinct(order) && nodes == SortByLines(NodesOf(all, |all|, order[i]))
    requires SplitInv(all, order, i, results0, chunkSize, tok, render)
    requires ChunksOk(chunks, order[i], chunkSize, tok, render)
    requires forall x :: x in Flatten(chunks) ==> x in nodes
    requires Positive(tok, render) ==> Flatten(chunks) == nodes && Greedy(chunks, chunkSize, tok, render)
    ensures SplitInv(all, order, i + 1, results0 + chunks, chunkSize, tok, render)
  {
    ChunksOfFile(all, order[i], nodes, chunks);
    AppendFile(render, results0, chunks, order, i, chunkSize, tok);
    if Positive(tok, render) {
      AppendCovers(all, order, i, results0, chunks);
      AppendGreedy(render, results0, chunks, order, i, chunkSize, tok);
    }
  }

  lemma ChunksOfFile(all: seq<GraphNode>, f: string, nodes: seq<GraphNode>, chunks: seq<Chunk>)
    requires nodes == SortByLines(NodesOf(all, |all|, f))
    requires forall x :: x in Flatten(chunks) ==> x in nodes
    ensures forall x :: x in Flatten(chunks) ==> FileKey(x) == Some(f)
  {
    forall x | x in Flatten(chunks)
      ensures FileKey(x) == Some(f)
    {
      assert x in multiset(NodesOf(all, |all|, f));
    }
  }

  lemma AppendCovers(all: seq<GraphNode>, order: seq<string>, i: nat, results0: seq<Chunk>, chunks: seq<Chunk>)
    requires i < |order| && Flatten(results0) == SortedGroups(all, order[..i])
    requires Flatten(chunks) == SortByLines(NodesOf(all, |all|, order[i]))
    ensures Flatten(results0 + chunks) == SortedGroups(all, order[..i + 1])
  {
    FlattenAppend(results0, chunks);
    TakeSnoc(order, i);
    SortedGroupsSnoc(all, order[..i], order[i]);
  }

  lemma TakeSnoc(s: seq<string>, i: nat)
    requires i < |s|
    ensures s[..i + 1] == s[..i] + [s[i]]
  {
  }

  lemma SortedGroupsSnoc(all: seq<GraphNode>, fs: seq<string>, f: string)
    ensures SortedGroups(all, fs + [f]) == SortedGroups(all, fs) + SortByLines(NodesOf(all, |all|, f))
  {
    assert (fs + [f])[..|fs|] == fs;
  }

  /** The sections of one more file keep the chunks well formed and numbered. */
  lemma AppendFile(render: GraphNode -> string, rs: seq<Chunk>, cs: seq<Chunk>, order: seq<string>, i: nat, chunkSize: int, tok: string -> nat)
    requires i < |order| && Distinct(order) && SplitOk(rs, chunkSize, tok, render)
    requires forall j :: 0 <= j < |rs| ==> rs[j].file in order[..i]
    requires ChunksOk(cs, order[i], chunkSize, tok, render)
    requires forall x :: x in Flatten(cs) ==> FileKey(x) == Some(order[i])
    ensures SplitOk(rs + cs, chunkSize, tok, render)
    ensures forall j :: 0 <= j < |rs + cs| ==> (rs + cs)[j].file in order[..i + 1]
  {
    NotEarlier(order, i);
    AppendNumbered(render, rs, cs, order[..i], order[i], chunkSize, tok);
    AppendChunks(render, rs, cs, order[i], chunkSize, tok);
    assert order[..i + 1] == order[..i] + [order[i]];
  }

  lemma AppendNumbered(render: GraphNode -> string, rs: seq<Chunk>, cs: seq<Chunk>, done: seq<string>, f: string, chunkSize: int, tok: string -> nat)
    requires Numbered(rs) && f !in done && (forall j :: 0 <= j < |rs| ==> rs[j].file in done)
    requires ChunksOk(cs, f, chunkSize, tok, render)
    ensures Numbered(rs + cs)
  {
    forall j | 0 <= j < |rs + cs|
      ensures (rs + cs)[j].section
              == if j == 0 || (rs + cs)[j - 1].file != (rs + cs)[j].file then 1 else (rs + cs)[j - 1].section + 1
    {
      if j >= |rs| {
        assert (rs + cs)[j] == cs[j - |rs|];
        if j > |rs| {
          assert (rs + cs)[j - 1] == cs[j - 1 - |rs|];
        } else if j > 0 {
          assert (rs + cs)[j - 1].file in done;
        }
      }
    }
  }

  lemma AppendChunks(render: GraphNode -> string, rs: seq<Chunk>, cs: seq<Chunk>, f: string, chunkSize: int, tok: string -> nat)
    requires SplitOk(rs, chunkSize, tok, render) && ChunksOk(cs, f, chunkSize, tok, render)
    requires forall x :: x in Flatten(cs) ==> FileKey(x) == Some(f)
    ensures forall j :: 0 <= j < |rs + cs| ==> FileChunk((rs + cs)[j], chunkSize, tok, render)
  {
    forall j | 0 <= j < |rs + cs|
      ensures FileChunk((rs + cs)[j], chunkSize, tok, render)
    {
      if j < |rs| {
        assert (rs + cs)[j] == rs[j];
      } else {
        var t := j - |rs|;
        assert (rs + cs)[j] == cs[t];
        InFlatten(cs, t);
      }
    }
  }

  /** Within the new file the sections are greedy; across the file boundary there is nothing to show. */
  lemma AppendGreedy(render: GraphNode -> string, rs: seq<Chunk>, cs: seq<Chunk>, order: seq<string>, i: nat, chunkSize: int, tok: string -> nat)
    requires i < |order| && Distinct(order)
    requires forall j :: 0 <= j < |rs| ==> rs[j].file in order[..i]
    requires ChunksOk(cs, order[i], chunkSize, tok, render)
    requires GreedyWithin(rs, chunkSize, tok, render) && Greedy(cs, chunkSize, tok, render)
    ensures GreedyWithin(rs + cs, chunkSize, tok, render)
  {
    NotEarlier(order, i);
  }

  lemma NotEarlier(order: seq<string>, i: nat)
    requires i < |order| && Distinct(order)
    ensures order[i] !in order[..i]
  {
  }

  lemma {:induction false} InFlatten(cs: seq<Chunk>, t: nat)
    requires t < |cs|
    ensures forall x :: x in cs[t].nodes ==> x in Flatten(cs)
  {
    var init := cs[..|cs| - 1];
    if t < |cs| - 1 {
      InFlatten(init, t);
      assert init[t] == cs[t];
    }
  }

  lemma {:induction false} FlattenAppend(rs: seq<Chunk>, cs: seq<Chunk>)
    ensures Flatten(rs + cs) == Flatten(rs) + Flatten(cs)
  {
    if cs != [] {
      var init := cs[..|cs| - 1];
      FlattenAppend(rs, init);
      assert (rs + cs)[..|rs + cs| - 1] == rs + init;
      assert (rs + cs)[|rs + cs| - 1] == cs[|cs| - 1];
    } else {
      assert rs + cs == rs;
    }
  }
}
