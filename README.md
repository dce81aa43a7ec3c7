# LLM_Code_Repair core, modelled in Dafny

The repository injects faults into a Python code base and asks a language
model to locate and repair them. This project models its deterministic core:

- **Code-graph builder** (`scripts/graph_builder.py`, with
  `scripts/entity_extractor.py`). A `CodeGraphBuilder` object makes two
  passes over tree-sitter parse trees.
  - Pass 1 creates Module, Class, Function/Method, control-flow, Assignment,
    Decorator and Docstring nodes, each with a CONTAINS edge. Docstrings are
    recognised by position, which is what `is_docstring` evidently intends:
    as written, its `is` tests never hold (see "## Findings"). It records
    qualified names in a symbol table where the last write wins, then pushes
    the module path down each file's CONTAINS subtree.
  - Pass 2 adds IMPORTS edges, and CALLS edges resolved first in the
    caller's scope, then at module level, else to a fresh ExternalFunction
    node per call site.
  - Modules: `SyntaxTree` (the parse tree as a datatype), `EntityExtractor`,
    `GraphMetadata` (node and edge records, `stable_id`, `make_summary`,
    `sloc`), `GraphBuilder` (the class, with loops and frames), `GraphSpec`
    (value-level definitions of both passes and the lemmas about them).
- **Prompt chunking** (`src/input_splitter.py`, module `InputSplitter`).
  - `split_ast` groups graph nodes by file, sorts them by lines and packs
    their rendered blocks greedily under a token budget.
  - `split_text` maps pre-split text segments back to 1-based line ranges
    with a search cursor.
- **Line ranges and detection scoring** (module `Spans`, the range merge
  shared by two tools; module `EvalDetection` for `src/eval_detection.py`).
  It covers range normalisation, IoU as an exact ratio, path normalisation
  and the ignore rule, file-level set counts and span-level greedy
  one-to-one matching.
- **Trace-index rebuilder** (`reconstruct_graph_index_from_trace.py`, module
  `TraceIndex`): the string-aware bracket matcher, the prompt-header parser,
  the per-record accumulation and the final compaction.
- **Static patch scoring** (`src/eval_static.py`, module `EvalStatic`). It
  parses unified-diff `+++`/`@@` headers as described under "Detailed
  Description of Unified Format" in the GNU diffutils manual, and counts
  mutated files, overlaps, syntax checks and operator-reversal hits.
- **Answer validators** (`src/schemas.py`, module `Schemas`), over a JSON
  datatype (module `Json`).
- **Fault injectors** (`scripts/generate_faulty_mutate.py`, module
  `FaultyMutate`; `scripts/generate_faulty_code.py`, module `FaultyCode`).
  They are operator-swap visitors over a small Python AST datatype, plus the
  per-file record, summary and walk logic.
- **Small helpers**: `_safe_name` (`RunLog`) and the mode check and
  chunk-size rule of `main.py` (`MainConfig`).

The help modules are `Wrappers` (`Option`, `Result`) and `PyStr` (Python
string semantics: `strip`, `split`, `splitlines`, `find`, `int()`, ASCII
`lower`). A Python exception is modelled as a `Result.Failure`.
Hashes, UTF-8 decoding, the tokenizer, the text splitter, the Python parser
and unparser, and file contents are parameters of the model.

Behaviour of the code worth noting:

- Import nodes and ExternalFunction nodes get no CONTAINS edge; they receive
  only the IMPORTS or CALLS edge of their site.
- The search cursor of `split_text` does not only move forward. A segment
  that is not found from the cursor is searched for from offset 0, and the
  cursor then moves back (`InputSplitter.ScanPosCanMoveBack`).
- In `split_ast`, the claim that every node lands in exactly one chunk
  needs every non-empty block to have at least one token. With a tokenizer
  that gives an empty count, `current_nodes = [n]` can drop the open chunk.
  The coverage results are proved under that condition (`TokPositive`).
- The two fault injectors recognise test directories differently. The
  tracked one lowers the case of each path part and the untracked one does
  not (`FaultyCode.TestDirCaseDiffers`).

## Model

| member | source | states |
|---|---|---|
| RunLog.SafeName | src/runlog.py:4-5 | length is min(len, 180); every character is alphanumeric or one of `._-+`; safe characters keep their place and the others become `_` |
| RunLog.SafeNameIdempotent | src/runlog.py:4-5 | sanitising a sanitised name changes nothing |
| MainConfig.ChunkSize | main.py:93-100 | "mistral" in the lower-cased name gives 30000, checked first; else "deepseek-coder" gives 14000, else "gemma2" gives 6000, else 8000 |
| MainConfig.ChunkSizeIgnoresCase | main.py:94 | the chunk size of a name equals that of its lower-cased form |
| MainConfig.Configure | main.py:88-100 | rejected exactly when the mode is neither "text" nor "graph"; otherwise the chunk size of the model |
| Schemas.IsLocalization | src/schemas.py:11-25 | accepted iff a dict with both keys, a string `file` and a list of [int, int] pairs with first <= second (empty list allowed); message empty iff accepted; "not a dict" and "missing keys: ..." cases |
| Schemas.IsRepair | src/schemas.py:27-35 | accepted iff a dict whose `diff` is a string with a non-whitespace character; message empty iff accepted; the missing-key message |
| Schemas.FindingsVerdict | src/schemas.py:41-50 | accepted iff every finding is a dict with a string `file` and well-formed spans (a missing `line_spans` is []) |
| Schemas.IsDetection | src/schemas.py:37-50 | accepted iff a dict with a `findings` list whose findings all pass; an empty list is accepted; message empty iff accepted |
| EntityExtractor.RecognisersExclusive | scripts/entity_extractor.py:9-51 | the kind predicates hold for disjoint sets of kind tags |
| EntityExtractor.GetCode | scripts/entity_extractor.py:84-85 | the decoded source bytes from the start byte up to, not including, the end byte |
| EntityExtractor.GetName | scripts/entity_extractor.py:78-82 | the text of the first `identifier` child, "" when there is none |
| EntityExtractor.SignatureOf | scripts/entity_extractor.py:91-103 | name plus parameters text when a `parameters` field exists; else the name, or None when the name is empty |
| EntityExtractor.GetDocstringText | scripts/entity_extractor.py:105-126 | only the first child of the first `block` is inspected; a `string`, or an `expression_statement` starting with one, gives its stripped text; else None |
| EntityExtractor.ExtractCalledName | scripts/entity_extractor.py:132-174 | None without a `function` field or when nothing is collected; one collected token is returned as is, several are joined with "." (object before attribute) |
| EntityExtractor.ChainParts | scripts/entity_extractor.py:143-156 | the walk over an attribute chain of identifiers collects exactly its names, the object's before the attribute's |
| EntityExtractor.CalledNameOfChain | scripts/entity_extractor.py:132-174 | the callee of `obj.method.attr(...)` is "obj.method.attr": the object's dotted name, a dot, then the last attribute |
| EntityExtractor.CalledNameOfIdentifier | scripts/entity_extractor.py:145-146 | the callee of a bare identifier is its text |
| EntityExtractor.CalledNameOfDottedName | scripts/entity_extractor.py:158-161 | the callee of a `dotted_name` is its whole text, kept as one token |
| EntityExtractor.DocstringPosition | scripts/entity_extractor.py:53-72 | by position, a child is a docstring iff it is a triple-quoted string and either the first child, or the first child of an `expression_statement` that is itself a first child |
| EntityExtractor.DocstringIdentityFails | scripts/entity_extractor.py:67-70 | with `is` on wrapper objects that `.parent` and `.children` build afresh, the test as written holds for no node |
| EntityExtractor.DocstringsDiffer | scripts/entity_extractor.py:53-72 | a block opening with a triple-quoted string statement: that string is a docstring by position and not as written |
| GraphMetadata.StableId | scripts/graph_builder.py:29-31 | the first 16 characters of the SHA-1 hex digest of the UTF-8 text |
| GraphMetadata.SidKey | scripts/graph_builder.py:86 | the qualified name, else the name, else the id as decimal text; never empty |
| GraphMetadata.CodeSha256 | scripts/graph_builder.py:33-36 | None exactly when the code is None or empty; else the SHA-256 hex digest |
| GraphMetadata.SummaryLines | scripts/graph_builder.py:44-46 | up to two lines are kept as they are; more give the first two, "...", then the last two |
| GraphMetadata.MakeSummary | scripts/graph_builder.py:38-47 | None exactly for missing or all-whitespace code; otherwise at most 400 characters of the joined summary lines of the stripped code |
| GraphMetadata.SummaryOfThreeLines | scripts/graph_builder.py:44-46 | with three lines the middle line appears twice, around "..." |
| GraphMetadata.Sloc | scripts/graph_builder.py:49-50 | 0 for missing or empty code, else the number of lines (at least 1) |
| GraphMetadata.TsLines | scripts/graph_builder.py:52-56 | 0-based rows become 1-based lines, in order |
| GraphMetadata.MakeNode | scripts/graph_builder.py:80-98 | the record `add_node` builds: given id and label, no parent, sid from SidKey, every given attribute (name, code, paths, start and end line, and the rest) |
| GraphBuilder.CodeGraphBuilder.constructor | scripts/graph_builder.py:60-75 | empty graph, id counter at 0, empty symbol table, parents and file stores |
| GraphBuilder.CodeGraphBuilder.AddNode | scripts/graph_builder.py:80-102 | returns the next id, the counter advances by one, the record is appended at index id; nothing else changes |
| GraphBuilder.CodeGraphBuilder.AddEdge | scripts/graph_builder.py:104-118 | exactly one edge appended, with the endpoint sids (None when unknown); only CONTAINS sets `parents[dst]` and the target's parent id; IMPORTS and CALLS leave both alone |
| GraphBuilder.CodeGraphBuilder.Define | scripts/graph_builder.py:147 | the symbol table maps the name to the id and nothing else changes |
| GraphBuilder.CodeGraphBuilder.RegisterDefs | scripts/graph_builder.py:175-277 | appends exactly the records and CONTAINS arcs of the pass-1 walk of the subtree and registers its qualified names; the builder stays valid |
| GraphBuilder.CodeGraphBuilder.RegisterDefinition | scripts/graph_builder.py:176-216 | a class or function: its record, its symbol, its CONTAINS arc, then its children walked in its qualified scope |
| GraphBuilder.CodeGraphBuilder.RegisterControlFlow | scripts/graph_builder.py:218-253 | a control-flow node and its CONTAINS arc; its children are walked in the same scope |
| GraphBuilder.CodeGraphBuilder.RegisterLeaf | scripts/graph_builder.py:255-273 | an assignment, decorator or docstring gives one node and its arc, and is not descended into |
| GraphBuilder.CodeGraphBuilder.RegisterChildren | scripts/graph_builder.py:275-277 | the children's walks appended one after the other, with the same parent and scope |
| GraphBuilder.CodeGraphBuilder.RegisterFile | scripts/graph_builder.py:128-129 | source and tree stored; a new file joins the end of the file order, a seen one keeps its place |
| GraphBuilder.CodeGraphBuilder.AddModule | scripts/graph_builder.py:131-147 | the Module node, named after the file and spanning all its lines, is appended and registered under the module name |
| GraphBuilder.CodeGraphBuilder.FirstPass | scripts/graph_builder.py:123-150 | old nodes kept as a prefix; the Module node, then the walk of its tree; every new node carries the file's module path |
| GraphBuilder.CodeGraphBuilder.WalkModule | scripts/graph_builder.py:149-150 | the walk of the tree below the Module node, then the module path of every node from the Module node on |
| GraphBuilder.CodeGraphBuilder.IndexChildren | scripts/graph_builder.py:157-160 | the child index is each source's CONTAINS targets in edge order |
| GraphBuilder.CodeGraphBuilder.PropagateModule | scripts/graph_builder.py:152-173 | the explicit-stack visit sets the module path on exactly the CONTAINS subtree of the root; edges, ids and symbols do not change |
| GraphBuilder.CodeGraphBuilder.ResolveSite | scripts/graph_builder.py:289-314 | an import gives an Import node and an IMPORTS edge; a call gives a CALLS edge to the resolved symbol or to a new ExternalFunction node |
| GraphBuilder.CodeGraphBuilder.ResolveEdges | scripts/graph_builder.py:288-317 | appends exactly what resolving the subtree's sites in order appends; it does not descend into import or call nodes |
| GraphBuilder.CodeGraphBuilder.ResolveChildren | scripts/graph_builder.py:316-317 | the children's sites resolved one after the other with the same parent and scope |
| GraphBuilder.CodeGraphBuilder.SecondPass | scripts/graph_builder.py:282-286 | files in first-parse order, each from its module node; everything appended is shaped as PassShaped states |
| GraphSpec.WalkShaped | scripts/graph_builder.py:175-277 | each created entry hangs from the anchor or from an earlier non-leaf entry, in the scope that parent passes down |
| GraphSpec.MethodExactlyUnderClass | scripts/graph_builder.py:201-202 | a function is labelled Method exactly when its graph parent is a Class; no walk creates a Module |
| GraphSpec.QualifiedByParent | scripts/graph_builder.py:180-200 | a class or function nested in a class or function is qualified by its parent's qualified name plus "." plus its name |
| GraphSpec.LastWriteWins | scripts/graph_builder.py:190 | a registered name maps to the last node registered under it; other names keep their old entry or stay absent |
| GraphSpec.WalkCovered | scripts/graph_builder.py:191-277 | every node a walk creates lies in the CONTAINS subtree of its anchor |
| GraphSpec.WalkPropagated | scripts/graph_builder.py:150-173 | after a file's walk, propagation from its Module node sets the path on the Module node and every newer node, and only there |
| GraphSpec.ChildIndexSpec | scripts/graph_builder.py:157-160 | a node is listed as a child of p iff some CONTAINS edge goes from p to it |
| GraphSpec.FrontierEnd | scripts/graph_builder.py:162-173 | when the stack is empty the visited set is exactly the CONTAINS subtree of the root |
| GraphSpec.CallTarget | scripts/graph_builder.py:299-307 | `scope.callee` when the table has it, else `callee`, else nothing; a result is a symbol-table id |
| GraphSpec.FuncName | scripts/graph_builder.py:297-298 | the extracted dotted name, else the stripped call text up to its first "(" |
| GraphSpec.SiteLinksShaped | scripts/graph_builder.py:289-314 | what one site appends: fresh Import or ExternalFunction nodes without parent or path, and edges from the module node that are never CONTAINS |
| GraphSpec.PassTwoShaped | scripts/graph_builder.py:282-317 | every edge of pass 2 is IMPORTS or CALLS and leaves the module node of one of the files |
| GraphSpec.BaseNameSuffix | scripts/graph_builder.py:132 | the base name is the suffix after the last "/" (the whole path when there is none) |
| GraphSpec.ModuleName | scripts/graph_builder.py:132 | the base name without its extension |
| GraphSpec.ModuleNode | scripts/graph_builder.py:131-146 | the Module record: named and qualified by the module name, lines 1 to newline count plus 1 |
| GraphSpec.Build | scripts/graph_builder.py:181-273 | the record of a pass-1 entry, with its parent id set as the CONTAINS edge sets it |
| GraphSpec.ForestSnoc | scripts/graph_builder.py:104-118 | a CONTAINS arc from an older node to the newest node keeps the CONTAINS arcs a forest |
| InputSplitter.LineAt | src/input_splitter.py:74-75 | one plus the newlines before the offset, between 1 and the file's line count |
| InputSplitter.Locate | src/input_splitter.py:65-67 | the first occurrence at or after the cursor, else the first occurrence anywhere, else -1 |
| InputSplitter.ScanPos | src/input_splitter.py:62-76 | the cursor after k segments lies within the content |
| InputSplitter.SectionAt | src/input_splitter.py:63-89 | section j+1 of the file with that segment's text and line count; lines of the located occurrence, or the whole file when not found |
| InputSplitter.MapSegments | src/input_splitter.py:62-89 | the line-mapping loop gives exactly the sections of all segments |
| InputSplitter.MapSegment | src/input_splitter.py:63-89 | one turn gives the segment's section and the cursor after it |
| InputSplitter.LocateLines | src/input_splitter.py:64-80 | start and end line of the located segment and the new cursor; lines 1 to count+1 when the segment does not occur |
| InputSplitter.SplitText | src/input_splitter.py:48-89 | the file tree first, then the sections of every file with a non-empty path and content |
| InputSplitter.AllSectionsShape | src/input_splitter.py:51-89 | every entry after the first is a section of a file with a non-empty path, numbered from 1 |
| InputSplitter.ScanPosCanMoveBack | src/input_splitter.py:65-76 | for "ab" cut into "ab" then "a" the cursor goes from 2 back to 1 |
| InputSplitter.ScanAdvancesWhenFound | src/input_splitter.py:65-76 | a segment found from the cursor does move the cursor forward |
| InputSplitter.OrElse | src/input_splitter.py:115-116 | `a or b or default` under Python truthiness |
| InputSplitter.HeaderStripped | src/input_splitter.py:119 | stripping the `[type] name Ls-e` header leaves it unchanged |
| InputSplitter.Shorten | src/input_splitter.py:121-123 | empty code, code within the limit, or a zero limit is kept; longer code becomes its first h = limit/2 characters, "\n...\n", then its last h characters; for a limit of 1, h is 0 and `code[-0:]` keeps the whole code after the marker |
| InputSplitter.NodeText | src/input_splitter.py:111-124 | the block is the header, "\n", the shortened code, then "\n---\n" |
| InputSplitter.Pieces | src/input_splitter.py:190-191 | one rendered block per node, in order |
| InputSplitter.TokensPositive | src/input_splitter.py:193-205 | under a positive tokenizer a run of blocks has no tokens iff it is empty |
| InputSplitter.MinStart | src/input_splitter.py:170-176 | the least start line over nodes with integer start and end lines, None when there is none |
| InputSplitter.MaxEnd | src/input_splitter.py:170-176 | the greatest end line over the same nodes, None when there is none |
| InputSplitter.Flush | src/input_splitter.py:165-188 | nothing when the open chunk is empty; else the next section, with the chunk's nodes, joined text and line span, is appended and the chunk reset |
| InputSplitter.PackFile | src/input_splitter.py:190-207 | sections 1..k of the file; a chunk of two or more nodes fits the budget; nodes kept in order; each chunk closed only when the next block did not fit |
| InputSplitter.Place | src/input_splitter.py:190-205 | one turn of the packing loop keeps the packing invariant |
| InputSplitter.PlaceAlone | src/input_splitter.py:193-198 | with nothing open, a block that reaches the budget becomes a one-node chunk at once |
| InputSplitter.PlaceAfterClose | src/input_splitter.py:200-205 | a block that would overflow the open chunk closes it and opens the next one |
| InputSplitter.PlaceJoin | src/input_splitter.py:203-205 | a block that fits joins the open chunk |
| InputSplitter.CloseLast | src/input_splitter.py:207 | the final flush leaves well-formed sections that hold only nodes of the file; under a positive tokenizer they hold every node, in order, and are greedy |
| InputSplitter.NodesOf | src/input_splitter.py:149-153 | the nodes grouped under a file all have that file as module or path |
| InputSplitter.FileOrderSpec | src/input_splitter.py:148-153 | the file order lists each file once, and a file is listed iff some node is grouped under it |
| InputSplitter.GroupByFile | src/input_splitter.py:148-153 | keys in first-seen order; each key maps to its nodes in input order; nodes with neither module nor path are dropped |
| InputSplitter.SortByLines | src/input_splitter.py:158 | sorted by (start line, end line) with missing lines last, and a permutation of the input |
| InputSplitter.SortStable | src/input_splitter.py:158 | the sort is stable: nodes with the same (start line, end line) key keep their input order |
| InputSplitter.GroupsPartition | src/input_splitter.py:149-153 | taken together, the groups hold exactly the nodes that have a file |
| InputSplitter.SplitAstCovers | src/input_splitter.py:149-207 | the sorted groups hold every node with a file, each exactly once |
| InputSplitter.SplitAst | src/input_splitter.py:142-209 | every chunk is a well-formed section of a file named by its nodes; sections numbered from 1 per file; multi-node chunks fit the budget; under a positive tokenizer the chunks are the sorted groups and greedy |
| InputSplitter.AddFile | src/input_splitter.py:157-207 | one file's sections appended keep the file-loop invariant |
| InputSplitter.PackFiles | src/input_splitter.py:157-207 | after every file, the sections are numbered per file, within budget, and under a positive tokenizer hold the sorted groups in file order, greedily |
| Spans.Sort | src/eval_detection.py:48 | sorted by (start, end) and a permutation of the input |
| Spans.MergeOrdered | src/eval_detection.py:45-55 | the merge is sorted and each range starts more than one line after the previous one ends |
| Spans.MergeCovers | src/eval_detection.py:45-55 | for ranges that each hold a line, the merge covers exactly the same lines and its ranges each hold a line |
| Spans.MergeIdempotent | src/eval_detection.py:45-55 | merging a merged list returns it unchanged |
| Spans.MergeSpans | reconstruct_graph_index_from_trace.py:69-78 | the sort-then-stretch loop computes the merge, with both properties above |
| EvalDetection.AddPair | src/eval_detection.py:10-16 | one range [int(a), int(b)] iff both convert and a <= b, else nothing |
| EvalDetection.NormalizeLineSpans | src/eval_detection.py:8-43 | every emitted range holds a line; [] for anything but a list or dict |
| EvalDetection.Normalized | src/eval_detection.py:8-43 | the same, as a function of the raw value |
| EvalDetection.NormalizeEncoded | src/eval_detection.py:26-31 | well-formed ranges written as [[s, e], ...] normalise back to themselves |
| EvalDetection.NormalizeEncodedDict | src/eval_detection.py:19-21 | the same ranges under a `line_spans` key normalise back to themselves |
| EvalDetection.Overlap | src/eval_detection.py:57-63 | IoU as a pair (shared lines, lines in either) with 0 <= num <= den and den > 0 |
| EvalDetection.OverlapShared | src/eval_detection.py:59-61 | the overlap is positive exactly when the ranges share a line |
| EvalDetection.OverlapSelf | src/eval_detection.py:57-63 | a range overlaps itself with IoU 1 |
| EvalDetection.OverlapSymmetric | src/eval_detection.py:57-63 | the overlap does not depend on argument order |
| EvalDetection.NormLower | src/eval_detection.py:65-68 | the normalised path uses "/" and no upper-case letter |
| EvalDetection.IsIgnoredPath | src/eval_detection.py:72-79 | true iff empty, starting with `tests/` or `test/`, or containing `/tests/` or `/test/` |
| EvalDetection.ToRel | src/eval_detection.py:81-110 | None iff the path is empty; else, on the normalised path, the remainder after the first `<mutants dir>/` (at the start or anywhere); failing that the remainder after the first `_mutants/`; failing both, or with no mutants dir, the fallback; every result is lower case with "/" separators |
| EvalDetection.UnderDir | src/eval_detection.py:94-102 | the remainder after the first occurrence of the anchor, else after the first `_mutants/`; None iff neither occurs |
| EvalDetection.Fallback | src/eval_detection.py:104-110 | a path that is neither absolute nor drive-like is kept; an absolute one with a "/" gives its last two components joined by "/"; the result is a suffix with at most one "/" |
| EvalDetection.PickFileKey | src/eval_detection.py:112-123 | the first truthy of the five path keys, else dst/dest path, else src path, converted; None when none is set |
| EvalDetection.Extend | src/eval_detection.py:224 | a new file goes last, the file set grows by that file, and keys stay distinct |
| EvalDetection.Predictions | src/eval_detection.py:207-224 | every key is made relative and not ignored; every value is a non-empty list of well-formed ranges; a finding's ranges come from `line_spans`, `spans`, `ranges` or `lines`, never from `lineRanges` at finding level |
| EvalDetection.CollectPredictions | src/eval_detection.py:207-224 | the prediction loop computes Predictions |
| EvalDetection.FileLevel | src/eval_detection.py:226-247 | tp/fp/fn files are P∩G, P\G and G\P; tp+fn is the number of mutated files and tp+fp the number of predicted files |
| EvalDetection.FirstMatch | src/eval_detection.py:259-264 | the first unused ground-truth range whose overlap reaches the threshold, or -1 when every one is used or too far |
| EvalDetection.MatchFile | src/eval_detection.py:255-267 | greedy matching of one file: each ground-truth range matched at most once; tp+fn = ground-truth ranges, tp+fp = predicted ranges |
| EvalDetection.GreedyAssign | src/eval_detection.py:257-266 | the partner of each prediction is the first ground-truth range not taken earlier whose overlap reaches the threshold, or -1; partners are distinct and every range passed by was taken |
| EvalDetection.PartnersCount | src/eval_detection.py:259-264 | with distinct partners, the number of matched predictions is the number of ground-truth ranges used |
| EvalDetection.MatchedBounded | src/eval_detection.py:255-267 | the matches of one file are at most its ground-truth ranges and at most its predicted ranges |
| EvalDetection.SpanLevel | src/eval_detection.py:254-271 | tp is the sum over ground-truth files of their greedy matches (SpanTp); tp+fn is the total number of ground-truth ranges and tp+fp the total number of predicted ranges |
| EvalDetection.EvaluateDetection | src/eval_detection.py:189-277 | fails iff building the predictions raises; file mode gives FileLevel of the predictions; span mode gives tp = SpanTp of the predictions, tp+fn = ground-truth ranges and tp+fp = predicted ranges |
| TraceIndex.FindBalanced | reconstruct_graph_index_from_trace.py:29-45 | -1 unless text[start] opens; else the first position where the depth outside strings returns to 0 (a closing character), or -1 when it never does |
| TraceIndex.DepthCounts | reconstruct_graph_index_from_trace.py:40-42 | outside strings the depth is the opening minus the closing characters |
| TraceIndex.StringLiteralNeutral | reconstruct_graph_index_from_trace.py:34-39 | a whole string literal, brackets inside included, leaves the depth unchanged |
| TraceIndex.EscapedChar | reconstruct_graph_index_from_trace.py:35-36 | inside a string a backslash makes the next character, a quote included, plain text |
| TraceIndex.FileLine | reconstruct_graph_index_from_trace.py:83-84 | the path taken from a `FILE:` line is stripped |
| TraceIndex.FileLineRoundTrip | reconstruct_graph_index_from_trace.py:83-84 | `FILE: <path>` gives the path back |
| TraceIndex.LinesLineRoundTrip | reconstruct_graph_index_from_trace.py:85-87 | `ORIGINAL GRAPH CHUNK LINES: s - e` gives (s, e) back |
| TraceIndex.LastSomeWins | reconstruct_graph_index_from_trace.py:80-88 | the value is that of the last accepted line, None when no line is accepted |
| TraceIndex.ParseFileAndLines | reconstruct_graph_index_from_trace.py:80-88 | the last FILE line and the last chunk-lines line win |
| TraceIndex.AppendNew | reconstruct_graph_index_from_trace.py:137-142 | the old list is a prefix; added strings are non-empty and new; the list holds no duplicates |
| TraceIndex.AppendNewExtends | reconstruct_graph_index_from_trace.py:139-142 | the list afterwards is the old list followed by the new non-empty strings of the values, each once, in order |
| TraceIndex.RiskyOf | reconstruct_graph_index_from_trace.py:145-158 | kept iff an int pair with loc_s <= loc_e; shifted by s_line - 1 when the chunk start is known |
| TraceIndex.AppendRisky | reconstruct_graph_index_from_trace.py:145-158 | the risky-range loop appends RiskyList, whose ranges each hold a line |
| TraceIndex.UpdateSlot | reconstruct_graph_index_from_trace.py:136-158 | raises iff the risky list is not iterable; otherwise each list extended without duplicates and risky ranges appended |
| TraceIndex.SlotAfterOk | reconstruct_graph_index_from_trace.py:136-158 | the slot update raises iff the risky list is not iterable; else each name list is extended by its values and the risky list grows by RiskyList |
| TraceIndex.AcceptedSameFile | reconstruct_graph_index_from_trace.py:128-131 | an accepted answer names exactly the prompt's file |
| TraceIndex.AddHit | reconstruct_graph_index_from_trace.py:133-158 | hits grow by one, the file joins the files seen and the summary keys; other slots unchanged |
| TraceIndex.HitAfterShape | reconstruct_graph_index_from_trace.py:133-158 | an accepted answer raises iff its risky list is not iterable; else hits grow by one, the file joins the keys and attempts stay |
| TraceIndex.HitAfterSlots | reconstruct_graph_index_from_trace.py:133-158 | the file's slot becomes its old slot, or an empty one, updated by the answer; every other slot is unchanged |
| TraceIndex.ReadRecord | reconstruct_graph_index_from_trace.py:120-131 | a non-string prompt raises AttributeError; a hit names a non-empty file that the answer's `file` field repeats |
| TraceIndex.IndexRecord | reconstruct_graph_index_from_trace.py:119-158 | computes IndexStep: a non-string prompt raises; attempts unchanged, old files kept, hits grow by at most one |
| TraceIndex.IndexStepShape | reconstruct_graph_index_from_trace.py:119-158 | the same bounds for the step as a function |
| TraceIndex.AddRecord | reconstruct_graph_index_from_trace.py:114-158 | computes RecordStep: a non-dict raises; non-indexing records change nothing; indexing records count one attempt |
| TraceIndex.RecordStepShape | reconstruct_graph_index_from_trace.py:114-158 | the same cases for the step as a function |
| TraceIndex.RecordStepHits | reconstruct_graph_index_from_trace.py:114-134 | a record adds one hit and its file exactly when it is an accepted indexing record |
| TraceIndex.HitsCounted | reconstruct_graph_index_from_trace.py:105-134 | after the whole trace, hits are the accepted indexing records and the keys are the files they name |
| TraceIndex.HitCountZero | reconstruct_graph_index_from_trace.py:133-134 | no hits iff no file seen |
| TraceIndex.Take | reconstruct_graph_index_from_trace.py:162-164 | a prefix of at most 50 elements, all of a shorter list |
| TraceIndex.CompactedDone | reconstruct_graph_index_from_trace.py:161-167 | compacted lists are duplicate-free and at most 50 long; risky ranges merged, at most 50, only recorded lines, all of them when the merge has at most 50 |
| TraceIndex.CompactedCovers | reconstruct_graph_index_from_trace.py:165-167 | the compacted risky ranges cover only recorded lines, and exactly the recorded lines when the merge has at most 50 ranges |
| TraceIndex.CompactSlot | reconstruct_graph_index_from_trace.py:161-167 | the loop body computes the compaction of the slot |
| TraceIndex.Compact | reconstruct_graph_index_from_trace.py:161-165 | same keys, each slot compacted |
| TraceIndex.Accumulate | reconstruct_graph_index_from_trace.py:105-158 | computes the fold of RecordStep: attempts count the indexing records; a non-dict record raises |
| TraceIndex.Reconstruct | reconstruct_graph_index_from_trace.py:90-175 | succeeds iff the fold does; attempts = orig_chunks = indexing records; hits = accepted indexing records; summary keys = the files they name; files = summary keys <= hits <= attempts; every slot compacted |
| TraceIndex.CompactAsWritten | reconstruct_graph_index_from_trace.py:161-167 | as written, the loop succeeds only on an empty summary map |
| TraceIndex.ReconstructAsWritten | reconstruct_graph_index_from_trace.py:90-175 | as written, a cache is produced only for a trace with no accepted answer |
| EvalStatic.SpanOverlapShared | src/eval_static.py:26-27 | for ranges that each hold a line, they overlap iff they share a line |
| EvalStatic.SpanOverlapSymmetric | src/eval_static.py:26-27 | the overlap test is symmetric |
| EvalStatic.HeaderFile | src/eval_static.py:36-39 | a file name exactly for lines starting with "+++ " |
| EvalStatic.HeaderFileGitForm | src/eval_static.py:36-39 | `+++ b/<path>` names `<path>` |
| EvalStatic.HeaderFilePlainForm | src/eval_static.py:36-39 | `+++ <path>` names `<path>` |
| EvalStatic.FirstPlus | src/eval_static.py:46 | a part starting with "+" with no such part before it, None when there is none (Python's IndexError) |
| EvalStatic.RangeOf | src/eval_static.py:48-52 | (ns, ns + max(nc - 1, 0)) when both convert |
| EvalStatic.HunkSpan | src/eval_static.py:41-56 | a hunk header that parses gives a range with start <= end |
| EvalStatic.HunkSpanWords | src/eval_static.py:44-46 | for `@@ a b @@` with two words, `b` the first starting with "+", the range is the one named after its "+" |
| EvalStatic.HunkSpanTail | src/eval_static.py:41-52 | over digit strings, the span of `@@ -d0,d1 +d2,d3 @@` is the range `d2,d3` names: the "+" word is found after the "-" word and its sign is dropped |
| EvalStatic.HunkSpanHeader | src/eval_static.py:41-52 | `@@ -os,oc +ns,nc @@` gives (ns, ns + max(nc - 1, 0)) |
| EvalStatic.HunkSpanHeaderBare | src/eval_static.py:41-52 | `@@ -os,oc +ns @@` gives the one line (ns, ns) |
| EvalStatic.RangeSpanCount | src/eval_static.py:48-52 | `+ns,nc` gives nc lines from ns; a count of 0 still gives line ns |
| EvalStatic.RangeSpanBare | src/eval_static.py:50 | a bare `+ns` gives the single line ns |
| EvalStatic.DiffFrom | src/eval_static.py:35-56 | the current file always has an entry; ranges hold a line; the files with an entry are exactly those a header names, with or without hunks |
| EvalStatic.HunksBeforeHeader | src/eval_static.py:53-54 | hunks before the first `+++` header add nothing |
| EvalStatic.GuessPatchSpans | src/eval_static.py:29-57 | the loop over the diff's lines computes Diff; every range holds a line; keys are exactly the named files |
| EvalStatic.MutSpan | src/eval_static.py:107-109 | nothing when `lineno` is falsy; else (int(lineno), int(end_lineno or lineno)) |
| EvalStatic.CollectMutSpans | src/eval_static.py:105-109 | the first mutation loop computes MutSpans, or its first exception |
| EvalStatic.AnyOverlap | src/eval_static.py:112 | true iff some mutation range overlaps some patch range |
| EvalStatic.Reversal | src/eval_static.py:117-126 | at most one try per mutation, and a hit only when tried |
| EvalStatic.CountReversals | src/eval_static.py:116-126 | the reversal loop gives hits <= tried <= the number of mutations |
| EvalStatic.EntryTally | src/eval_static.py:97-126 | a counted entry adds one file; touched and syntax-ok are at most 1; hits <= tried |
| EvalStatic.EntryScore | src/eval_static.py:90-126 | only mutated, ok entries with a ".py" rel_path are counted |
| EvalStatic.LogTally | src/eval_static.py:90-126 | total = counted entries; touched <= total; syntax-ok <= total; reversal hits <= reversal total |
| EvalStatic.ScoreEntry | src/eval_static.py:90-126 | the loop body computes EntryScore |
| EvalStatic.EvaluatePatch | src/eval_static.py:59-127 | the counters over the log against the diff's hunk ranges, with the bounds above |
| FaultyMutate.SwapCmp | scripts/generate_faulty_mutate.py:32-47 | Eq and NotEq swap, Gt becomes Lt and Lt becomes Gt; the operator changes iff it is one of those four |
| FaultyMutate.SwapBin | scripts/generate_faulty_mutate.py:61-75 | Add and Sub swap, Mult and Div swap; any other operator is unchanged |
| FaultyMutate.SwapBool | scripts/generate_faulty_mutate.py:77-85 | And and Or swap |
| FaultyMutate.SwapsInvolutive | scripts/generate_faulty_mutate.py:32-85 | applying each swap twice restores the operator |
| FaultyMutate.CmpLabel | scripts/generate_faulty_mutate.py:34-46 | a change label exactly for the operators that are swapped |
| FaultyMutate.BinLabel | scripts/generate_faulty_mutate.py:63-74 | a change label exactly for the operators that are swapped |
| FaultyMutate.CmpLabelNamesSwap | scripts/generate_faulty_mutate.py:37-46 | the label reads "old→new" with the names of the operator and its swap |
| FaultyMutate.BinLabelNamesSwap | scripts/generate_faulty_mutate.py:65-74 | the same for arithmetic operators |
| FaultyMutate.BoolLabelNamesSwap | scripts/generate_faulty_mutate.py:80-84 | the same for boolean operators |
| FaultyMutate.SwapOps | scripts/generate_faulty_mutate.py:34-46 | every comparison operator swapped in place, same length |
| FaultyMutate.MutatedUpTo | scripts/generate_faulty_mutate.py:33 | the first n children each replaced by its mutant |
| FaultyMutate.MutateTwice | scripts/generate_faulty_mutate.py:32-94 | on trees without unary operators, mutating twice restores the tree |
| FaultyMutate.NoRecordNoChange | scripts/generate_faulty_mutate.py:20-94 | a tree that yields no record is left unchanged |
| FaultyMutate.ChangedIffRecorded | scripts/generate_faulty_mutate.py:20-94 | on trees without unary operators, the tree changes iff some record is made |
| FaultyMutate.CmpReversalToken | scripts/generate_faulty_mutate.py:37-40 | the labels of swapped Eq/NotEq are the ones the static scorer maps to the restoring token |
| FaultyMutate.BinReversalToken | scripts/generate_faulty_mutate.py:65-74 | the same for Add/Sub and Mult/Div |
| FaultyMutate.BoolReversalToken | scripts/generate_faulty_mutate.py:80-84 | the same for And/Or |
| FaultyMutate.OtherChangesUnchecked | scripts/generate_faulty_mutate.py:41-46 | Gt/Lt swaps, constants and `not` changes are never checked for reversal |
| FaultyMutate.MultiMutator.constructor | scripts/generate_faulty_mutate.py:15-17 | no recorded mutations |
| FaultyMutate.MultiMutator.AddMut | scripts/generate_faulty_mutate.py:20-29 | exactly one record appended |
| FaultyMutate.MultiMutator.Visit | scripts/generate_faulty_mutate.py:32-94 | returns the mutant of the tree and appends exactly its records, children first |
| FaultyMutate.MultiMutator.GenericVisit | scripts/generate_faulty_mutate.py:33 | each child replaced by its mutant, records appended in child order |
| FaultyMutate.MultiMutator.VisitOps | scripts/generate_faulty_mutate.py:61-85 | the node's own operator change and its record |
| FaultyMutate.MultiMutator.VisitCompareOps | scripts/generate_faulty_mutate.py:34-46 | each comparison operator swapped in order, one record per swap |
| FaultyMutate.SummaryCounts | scripts/generate_faulty_mutate.py:149-153 | counts sum to the number of mutations; keys distinct; each type counted as often as it occurs |
| FaultyMutate.Summarize | scripts/generate_faulty_mutate.py:149-153 | the summary loop computes the per-type counts |
| FaultyMutate.FileRecordShape | scripts/generate_faulty_mutate.py:103-156 | ok iff no error iff something is written; mutation count is the number of records and the counts sum to it; a failure has no mutations; on success the records and text are those of the mutant |
| FaultyMutate.MutateFile | scripts/generate_faulty_mutate.py:99-156 | the record and the written text: read, parse, unparse and write errors in that order, then success |
| FaultyMutate.EntryAction | scripts/generate_faulty_mutate.py:187-228 | a .py file outside test directories is "mutated" iff ok, else "skipped"; any other file is "copied" or "copy_failed" with no mutations |
| FaultyMutate.GenerateLog | scripts/generate_faulty_mutate.py:177-228 | one entry per file outside `.git` directories, in walk order |
| FaultyMutate.ProcessFile | scripts/generate_faulty_mutate.py:189-228 | the entry for one file |
| FaultyMutate.SummaryPartitions | scripts/generate_faulty_mutate.py:235-237 | mutated, copied and skipped counts add up to the entries |
| FaultyMutate.EvaluatorCountsMutated | scripts/generate_faulty_mutate.py:198 | the static scorer counts an entry iff it is mutated and its path ends ".py" |
| FaultyMutate.EvaluatorReadsMutations | scripts/generate_faulty_mutate.py:146 | the scorer reads back exactly the written mutation records |
| FaultyMutate.EvaluatorReadsLines | scripts/generate_faulty_mutate.py:25-28 | a record's lineno/end_lineno read back as the same line range |
| FaultyCode.SameMutant | scripts/generate_faulty_code.py:10-54 | the untracked visitor gives the same mutant as the tracked one |
| FaultyCode.SwapOpsInPlace | scripts/generate_faulty_code.py:13-21 | each array slot holds the swap of its old operator |
| FaultyCode.Visit | scripts/generate_faulty_code.py:10-54 | children visited first, then the node's own change; `not x` becomes x, another unary op is wrapped in Not, booleans negated |
| FaultyCode.LogFile.constructor | scripts/generate_faulty_code.py:98 | an empty log |
| FaultyCode.LogFile.Write | scripts/generate_faulty_code.py:75 | one line appended |
| FaultyCode.OutcomeCases | scripts/generate_faulty_code.py:58-75 | skipped without an exception iff the parse fails; written iff read, parse, unparse and write succeed; the text is the mutant's |
| FaultyCode.SameOutput | scripts/generate_faulty_code.py:58-75 | when the tracked record is ok, this script writes the same text; a parse failure is skipped here and not ok there |
| FaultyCode.MutateFile | scripts/generate_faulty_code.py:58-75 | the outcome, and one log line `src\n` only when the mutant is written |
| FaultyCode.TestDirNarrower | scripts/generate_faulty_code.py:108 | every test directory of this script is one for the tracked script |
| FaultyCode.TestDirCaseDiffers | scripts/generate_faulty_code.py:108 | "Tests" is a test directory for the tracked script and not for this one |

## Findings

| source | as written | input that shows it | evidently intended | confidence | as-written member | corrected member |
|---|---|---|---|---|---|---|
| reconstruct_graph_index_from_trace.py:166 | the clearing line builds `[[s, e, ""]]` with names `main` never binds (they are bound only inside the comprehension on line 165), so it raises NameError on the first slot | a trace with one `gindex_` record whose answer is accepted: it creates a slot, and the compaction raises before the cache is written | the slot's risky ranges replaced by the first 50 merged ranges, as line 167 does | high; not executed | TraceIndex.ReconstructAsWritten | TraceIndex.Reconstruct |
| scripts/entity_extractor.py:67-70 | `parent.children[0] is node` and `parent.parent.children[0] is parent` compare wrapper objects; py-tree-sitter builds a new wrapper on each read of `.parent` and new wrappers for the children list of a new parent, so neither test can hold and no Docstring node is ever created | a module whose source is `"""doc"""`: the string is the first child of an `expression_statement` that is the module's first child | a leading triple-quoted string is a docstring, tested by position | medium (depends on py-tree-sitter's wrapper identity); not executed | EntityExtractor.IsDocstringAsWritten | EntityExtractor.IsDocstring |

## Left out

- Tree-sitter setup and parsing: the parse tree is an input (`SyntaxTree.TsNode`), and file reads are inputs too.
- SHA-1, SHA-256, UTF-8 encoding and `decode("utf-8", "ignore")` are function parameters (`Env`, `Decoder`); nothing is assumed of them.
- `save` and `save_stride_index` (scripts/graph_builder.py:322-338): JSON and NDJSON writing is I/O.
- Path handling in `first_pass` (`os.path.relpath`, `abspath`): the relative and absolute paths are inputs.
- The tiktoken tokenizer and the LangChain text splitter are inputs: `tok: string -> nat` and `segmentsOf: string -> seq<string>`. `_tok_len`, JSON loading and the telemetry prints are not modelled.
- `split_text`'s `except Exception` around the line mapping is not modelled: the mapping operations raise nothing.
- `_load_mutations` (src/eval_detection.py:127-185): the ground truth is an input of `EvaluateDetection`.
- Floating-point precision, recall, F1 and the rates of the static scorer are not modelled. The IoU threshold is compared as an exact ratio.
- `coerce_json_like`, `try_load_json` and `extract_first_json` are regex and JSON work: the answer's JSON is a parameter `extract`. Reading the trace file (blank and non-JSON lines are skipped) and writing the cache are I/O, so the records are given already parsed.
- TraceIndex.Slot: the reason text of a risky range is dropped, because the compaction replaces it with "".
- `load_mutation_log`, `_read` and `_ast_ok` (src/eval_static.py:5-24): file contents and the syntax check are parameters (`Files`).
- `ast.parse` and `astor.to_source` are the `Codec` parameter. `ast.fix_missing_locations` and `copy_location` are not modelled; a new `Not` node has no location.
- In-place AST updates are modelled on values, so the mutators return new trees and aliasing between AST nodes is not captured.
- Untracked script: `visit_NameConstant` is assumed to receive boolean constants, as Python 3.8 to 3.13 dispatch them.
- Directory walking, `rmtree`, `copy2`, `makedirs` and `os.path.join`/`relpath` are filesystem I/O: each file's outcome is an input.
- The `setdefault("path", ...)` and `setdefault("module", ...)` calls of `_propagate_module` (scripts/graph_builder.py:165-172) change nothing, because `add_node` already sets both keys on every node; the model leaves them out.
- `generate_faulty_code`'s walk is not modelled beyond its test-directory rule; its copy and read failures are uncaught exceptions (`Failure`).
- `clone_repo_if_needed` is a subprocess call.
- `RunLogger` (src/runlog.py:7-34) is file appends under a lock: I/O and concurrency.
- EntityExtractor.IsDocstring: the graph passes use the positional reading; the as-written identity tests are modelled by `IsDocstringAsWritten` alone, so the graph the program as written builds (with no Docstring node) is not modelled.
- RunLog.SafeName: `isalnum` is modelled for ASCII only, not for non-ASCII letters and digits.
- PyStr.ParseInt: accepts optional surrounding whitespace, a sign and ASCII digits only. Python's `int()` also accepts `_` between digits (`"1_0"`) and non-ASCII decimal digits, which the model rejects; so the model skips or raises on such numbers in line pairs, risky ranges, hunk headers and mutation line numbers.
- `\d` and `\s` in the trace tool's regexes are modelled as ASCII digits and ASCII whitespace. `lower()` is ASCII-only throughout.
- Schemas.IsLocalization: when both keys are missing, Python prints the set in hash order; the model lists `file` first.
- The orchestration of `main.py` is not modelled (artifact building, model dispatch, reports, bug-report loading); only the mode check and the chunk-size rule are.
- The network and subprocess files are outside the core (model calls, git sandbox, issue download, coverage). So are the stub files and `scripts/code_to_text.py` (directory rendering).
