/**
 * What the two passes of the code-graph builder append to the graph, as
 * functions of the syntax tree, the source and the builder's state before
 * the walk. Pass 1 is described by the list of entries it creates, in
 * creation order; pass 2 by the import statements and call sites it
 * visits. The builder's methods are proved to append exactly the nodes and
 * edges these describe; the lemmas here state what those sequences satisfy.
 */
module GraphSpec {
  import opened Wrappers
  import opened PyStr
  import opened SyntaxTree
  import opened EntityExtractor
  import opened GraphMetadata

  /** An edge without its sids: endpoints and type. */
  datatype Arc = Arc(source: nat, target: nat, kind: EdgeKind)

  function ArcOf(e: Edge): Arc {
    Arc(e.source, e.target, e.kind)
  }

  function Arcs(es: seq<Edge>): (r: seq<Arc>)
    ensures |r| == |es|
  {
    seq(|es|, i requires 0 <= i < |es| => ArcOf(es[i]))
  }

  lemma AppendAssoc<T>(a: seq<T>, b: seq<T>, c: seq<T>)
    ensures a + b + c == a + (b + c)
  {
  }

  /** Replacing the element just appended is appending the replacement. */
  /** Appending leaves the first `k` elements where they were. */
  lemma AppendKeeps<T>(a: seq<T>, b: seq<T>, c: seq<T>, k: nat)
    requires c == a + b && k < |a|
    ensures |c| == |a| + |b| && c[k] == a[k] && c[..k] == a[..k]
  {
  }

  lemma SnocUpdate<T>(s: seq<T>, x: T, y: T)
    ensures (s + [x])[|s| := y] == s + [y]
  {
  }

  lemma ArcsSnoc(es: seq<Edge>, e: Edge)
    ensures Arcs(es + [e]) == Arcs(es) + [ArcOf(e)]
  {
    assert forall i :: 0 <= i < |es| ==> (es + [e])[i] == es[i];
  }

  /** `node_by_id.get(i, {}).get("sid")` */
  function SidAt(ns: seq<Node>, i: nat): Option<string> {
    if i < |ns| then Some(ns[i].sid) else None
  }

  /** Every edge joins two existing nodes and carries their sids. */
  ghost predicate EdgesFit(ns: seq<Node>, es: seq<Edge>) {
    forall k :: 0 <= k < |es| ==>
      && es[k].source < |ns| && es[k].target < |ns|
      && es[k].sourceSid == SidAt(ns, es[k].source)
      && es[k].targetSid == SidAt(ns, es[k].target)
  }

  /**
   * The CONTAINS edges form a forest hanging from Module nodes: each goes
   * from an older node to a newer one, which records the source as its
   * parent and is not a Module; no node is the target of two of them.
   */
  ghost predicate ForestOf(ns: seq<Node>, es: seq<Edge>) {
    && (forall k :: 0 <= k < |es| && es[k].kind == Contains ==>
          && es[k].source < es[k].target < |ns|
          && ns[es[k].target].parentId == Some(es[k].source)
          && ns[es[k].target].nodeLabel != Module)
    && UniqueParents(Arcs(es))
  }

  /**
   * A CONTAINS edge from an older node into the newest node, which no edge
   * reaches yet and which is not a Module, keeps the edges fitting and the
   * forest, once the target records its parent; the parent index gains the
   * pair.
   */
  lemma ContainsSnoc(ns: seq<Node>, es: seq<Edge>, src: nat, dst: nat)
    requires dst < |ns|
    ensures (&& EdgesFit(ns, es) && ForestOf(ns, es)
             && src < dst && dst + 1 == |ns| && ns[dst].nodeLabel != Module
             && forall k :: 0 <= k < |es| ==> es[k].target < dst) ==>
            var es' := es + [Edge(src, dst, Contains, SidAt(ns, src), SidAt(ns, dst))];
            var ns' := ns[dst := ns[dst].(parentId := Some(src))];
            && EdgesFit(ns', es') && ForestOf(ns', es')
            && ParentIndex(Arcs(es')) == ParentIndex(Arcs(es))[dst := src]
  {
    var e := Edge(src, dst, Contains, SidAt(ns, src), SidAt(ns, dst));
    var es' := es + [e];
    var ns' := ns[dst := ns[dst].(parentId := Some(src))];
    if && EdgesFit(ns, es) && ForestOf(ns, es)
       && src < dst && dst + 1 == |ns| && ns[dst].nodeLabel != Module
       && forall k :: 0 <= k < |es| ==> es[k].target < dst {
      ArcsSnoc(es, e);
      assert Arcs(es')[..|es|] == Arcs(es);
      assert forall i :: SidAt(ns', i) == SidAt(ns, i);
      forall k | 0 <= k < |es'| && es'[k].kind == Contains
        ensures es'[k].source < es'[k].target < |ns'| && ns'[es'[k].target].parentId == Some(es'[k].source)
                && ns'[es'[k].target].nodeLabel != Module
      {
        if k < |es| {
          assert es'[k] == es[k];
        }
      }
      ForestSnoc(Arcs(es), src, dst);
    }
  }

  /** An IMPORTS or CALLS edge between existing nodes keeps the edges fitting, the forest and the parent index. */
  lemma CrossSnoc(ns: seq<Node>, es: seq<Edge>, src: nat, dst: nat, kind: EdgeKind)
    requires kind != Contains
    ensures (EdgesFit(ns, es) && ForestOf(ns, es) && src < |ns| && dst < |ns|) ==>
            var es' := es + [Edge(src, dst, kind, SidAt(ns, src), SidAt(ns, dst))];
            && EdgesFit(ns, es') && ForestOf(ns, es')
            && ParentIndex(Arcs(es')) == ParentIndex(Arcs(es))
  {
    var e := Edge(src, dst, kind, SidAt(ns, src), SidAt(ns, dst));
    var es' := es + [e];
    if EdgesFit(ns, es) && ForestOf(ns, es) && src < |ns| && dst < |ns| {
      ArcsSnoc(es, e);
      assert Arcs(es')[..|es|] == Arcs(es);
      forall k | 0 <= k < |es'| && es'[k].kind == Contains
        ensures es'[k].source < es'[k].target < |ns| && ns[es'[k].target].parentId == Some(es'[k].source)
                && ns[es'[k].target].nodeLabel != Module
      {
        assert k < |es| && es'[k] == es[k];
      }
      var a := Arcs(es');
      forall i, j | 0 <= i < j < |a| && a[i].kind == Contains && a[j].kind == Contains
        ensures a[i].target != a[j].target
      {
        assert j < |es| && a[i] == Arcs(es)[i] && a[j] == Arcs(es)[j];
      }
    }
  }

  // ----------------------------------------------------------------- paths

  /** Index of the last occurrence of `c` in `s`, or -1. */
  function LastIndex(s: string, c: char): (r: int)
    ensures -1 <= r < |s|
    ensures r >= 0 ==> s[r] == c
    ensures forall i :: r < i < |s| ==> s[i] != c
  {
    if s == [] then -1 else if s[|s| - 1] == c then |s| - 1 else LastIndex(s[..|s| - 1], c)
  }

  /** `os.path.basename(p)`: the text after the last "/", collected from the end. */
  function BaseName(p: string): (r: string)
    ensures forall i :: 0 <= i < |r| ==> r[i] != '/'
  {
    if p == [] || p[|p| - 1] == '/' then [] else BaseName(p[..|p| - 1]) + [p[|p| - 1]]
  }

  /** The base name is the suffix of the path after its last "/" (all of it when there is none). */
  lemma {:induction false} BaseNameSuffix(p: string)
    ensures BaseName(p) == p[LastIndex(p, '/') + 1..]
  {
    if p != [] && p[|p| - 1] != '/' {
      var q := p[..|p| - 1];
      BaseNameSuffix(q);
      assert LastIndex(p, '/') == LastIndex(q, '/');
      assert p[LastIndex(p, '/') + 1..] == q[LastIndex(q, '/') + 1..] + [p[|p| - 1]];
    }
  }

  /**
   * `os.path.splitext(b)[0]` for a name without "/": cut at the last dot,
   * unless only dots come before it (".bashrc" has no extension).
   */
  function StripExtension(b: string): (r: string)
    ensures |r| <= |b| && r == b[..|r|]
    ensures r != b ==> exists i :: 0 <= i < |r| && r[i] != '.'
  {
    var d := LastIndex(b, '.');
    if d > 0 && exists i :: 0 <= i < d && b[i] != '.' then b[..d] else b
  }

  /** The module name of a file: its base name without extension. */
  function ModuleName(path: string): (r: string)
    ensures forall i :: 0 <= i < |r| ==> r[i] != '/'
  {
    StripExtension(BaseName(path))
  }

  /** The Module node `first_pass` creates: named after the file, spanning all its lines. */
  function ModuleNode(env: Env, id: nat, name: string, path: string, absPath: string, text: string): (nd: Node)
    ensures nd.id == id && nd.nodeLabel == Module && nd.parentId.None?
    ensures nd.qualifiedName == Some(name) && nd.path == Some(path) && nd.modulePath == Some(path)
    ensures nd.startLine == Some(1) && nd.endLine == Some(CountChar(text, '\n') + 1)
  {
    MakeNode(env, id, Module, NoAttrs.(
      name := Some(name), qualifiedName := Some(name), code := Some(text),
      path := Some(path), pathAbs := Some(absPath), modulePath := Some(path),
      startLine := Some(1), endLine := Some(CountChar(text, '\n') + 1)))
  }

  // ---------------------------------------------------------------- pass 1

  /**
   * Where a walk hangs its nodes: the id and label of the graph parent and
   * the scope name passed down.
   */
  datatype Anchor = Anchor(id: nat, parentLabel: Label, scope: string)

  /**
   * A node pass 1 creates, before its record is built: the syntax node, the
   * label chosen for it, the id of its graph parent, and the scope it was
   * created in.
   */
  datatype Entry = Entry(syn: TsNode, nodeLabel: Label, parent: nat, scope: string)

  /** Labels whose nodes open a new scope (their qualified name). */
  predicate IsDefLabel(l: Label) {
    l == Class || l == Function || l == Method
  }

  /** Labels of the nodes whose syntax subtree is not walked. */
  predicate IsLeafLabel(l: Label) {
    l == Assignment || l == Decorator || l == Docstring
  }

  /** The label of a control-flow statement. */
  function ControlFlowLabel(n: TsNode): Label
    requires IsControlFlow(n)
  {
    if IsIf(n) then If else if IsFor(n) then For else if IsWhile(n) then While
    else if IsTry(n) then Try else With
  }

  /** The label of a node whose children are walked: a function is a Method exactly under a Class. */
  function NestedLabel(n: TsNode, parentLabel: Label): Label
    requires IsClass(n) || IsFunction(n) || IsControlFlow(n)
  {
    if IsClass(n) then Class
    else if IsFunction(n) then (if parentLabel == Class then Method else Function)
    else ControlFlowLabel(n)
  }

  /** The label of a statement recorded but not walked into. */
  function LeafLabel(n: TsNode): Label {
    if IsAssignment(n) then Assignment else if IsDecorator(n) then Decorator else Docstring
  }

  /** The scope an entry passes to its children: its qualified name for a class or function. */
  function ScopeBelow(decode: Decoder, src: Bytes, e: Entry): string {
    if IsDefLabel(e.nodeLabel) then e.scope + "." + NameOf(decode, e.syn, src) else e.scope
  }

  /**
   * The attributes `_register_defs` passes to `add_node`: code and lines for
   * every entry; name, qualified name and docstring for a class or
   * function, and the signature for a function or method.
   */
  function EntryAttrs(decode: Decoder, src: Bytes, e: Entry): Attrs {
    var lines := TsLines(e.syn);
    var code := Some(GetCode(decode, e.syn, src));
    if IsDefLabel(e.nodeLabel) then
      NoAttrs.(
        name := Some(NameOf(decode, e.syn, src)), qualifiedName := Some(ScopeBelow(decode, src, e)),
        code := code, signature := if e.nodeLabel == Class then None else SignatureOf(decode, e.syn, src),
        docstring := DocstringOf(decode, e.syn, src), startLine := Some(lines.0), endLine := Some(lines.1))
    else
      NoAttrs.(code := code, startLine := Some(lines.0), endLine := Some(lines.1))
  }

  /** The record of an entry with id `id`, once add_edge(CONTAINS) has set its parent. */
  function Build(env: Env, src: Bytes, e: Entry, id: nat): (nd: Node)
    ensures nd.id == id && nd.nodeLabel == e.nodeLabel && nd.parentId == Some(e.parent)
    ensures nd.path.None? && nd.modulePath.None?
    ensures IsDefLabel(e.nodeLabel) ==>
              nd.name == Some(NameOf(env.decode, e.syn, src))
              && nd.qualifiedName == Some(e.scope + "." + nd.name.value)
    ensures !IsDefLabel(e.nodeLabel) ==> nd.name.None? && nd.qualifiedName.None?
    ensures nd.code == Some(GetCode(env.decode, e.syn, src))
  {
    MakeNode(env, id, e.nodeLabel, EntryAttrs(env.decode, src, e)).(parentId := Some(e.parent))
  }

  /** `f` applied to each element and its number, counting from `next`. */
  function Numbered<A, B>(f: (A, nat) -> B, xs: seq<A>, next: nat): (ys: seq<B>)
    ensures |ys| == |xs|
  {
    seq(|xs|, k requires 0 <= k < |xs| => f(xs[k], next + k))
  }

  lemma NumberedAppend<A, B>(f: (A, nat) -> B, a: seq<A>, b: seq<A>, next: nat)
    ensures Numbered(f, a + b, next) == Numbered(f, a, next) + Numbered(f, b, next + |a|)
  {
    var l := Numbered(f, a + b, next);
    var r := Numbered(f, a, next) + Numbered(f, b, next + |a|);
    forall k | 0 <= k < |l| ensures l[k] == r[k] {
      if k >= |a| { assert (a + b)[k] == b[k - |a|]; }
    }
  }

  /** `Build` as a function value. */
  function Builder(env: Env, src: Bytes): (Entry, nat) -> Node {
    (e: Entry, id: nat) => Build(env, src, e, id)
  }

  /** The records of consecutive entries, numbered from `next`. */
  function EntryNodes(env: Env, src: Bytes, es: seq<Entry>, next: nat): (ns: seq<Node>)
    ensures |ns| == |es|
  {
    Numbered(Builder(env, src), es, next)
  }

  /** The CONTAINS edge of an entry numbered `id`, from its parent. */
  function ContainsArc(): (Entry, nat) -> Arc {
    (e: Entry, id: nat) => Arc(e.parent, id, Contains)
  }

  /** The CONTAINS edge of each entry, from its parent to its own id. */
  function EntryArcs(es: seq<Entry>, next: nat): (r: seq<Arc>)
    ensures |r| == |es|
  {
    Numbered(ContainsArc(), es, next)
  }

  lemma EntryNodesAppend(env: Env, src: Bytes, a: seq<Entry>, b: seq<Entry>, next: nat)
    ensures EntryNodes(env, src, a + b, next) == EntryNodes(env, src, a, next) + EntryNodes(env, src, b, next + |a|)
  {
    NumberedAppend(Builder(env, src), a, b, next);
  }

  lemma EntryArcsAppend(a: seq<Entry>, b: seq<Entry>, next: nat)
    ensures EntryArcs(a + b, next) == EntryArcs(a, next) + EntryArcs(b, next + |a|)
  {
    NumberedAppend(ContainsArc(), a, b, next);
  }

  /**
   * Two walks appended one after the other leave the nodes, edges and
   * symbol table that the concatenated walk leaves.
   */
  lemma ExtendsTrans(env: Env, src: Bytes, n0: seq<Node>, a0: seq<Arc>, s0: map<string, nat>,
                     n1: seq<Node>, a1: seq<Arc>, s1: map<string, nat>,
                     n2: seq<Node>, a2: seq<Arc>, s2: map<string, nat>, b: seq<Entry>, w: seq<Entry>)
    requires n1 == n0 + EntryNodes(env, src, b, |n0|) && a1 == a0 + EntryArcs(b, |n0|)
    requires s1 == SymbolsAfter(s0, EntryNodes(env, src, b, |n0|))
    requires n2 == n1 + EntryNodes(env, src, w, |n1|) && a2 == a1 + EntryArcs(w, |n1|)
    requires s2 == SymbolsAfter(s1, EntryNodes(env, src, w, |n1|))
    ensures n2 == n0 + EntryNodes(env, src, b + w, |n0|) && a2 == a0 + EntryArcs(b + w, |n0|)
    ensures s2 == SymbolsAfter(s0, EntryNodes(env, src, b + w, |n0|))
  {
    assert |n1| == |n0| + |b|;
    NumberedTrans(Builder(env, src), n0, n1, n2, b, w, |n0|, |n1|);
    NumberedTrans(ContainsArc(), a0, a1, a2, b, w, |n0|, |n1|);
    SymbolsAfterAppend(s0, EntryNodes(env, src, b, |n0|), EntryNodes(env, src, w, |n1|));
  }

  /** Two numbered appends, one after the other, as one. */
  lemma NumberedTrans<A, B>(f: (A, nat) -> B, n0: seq<B>, n1: seq<B>, n2: seq<B>, b: seq<A>, w: seq<A>, i: nat, j: nat)
    requires n1 == n0 + Numbered(f, b, i) && n2 == n1 + Numbered(f, w, j) && j == i + |b|
    ensures Numbered(f, b + w, i) == Numbered(f, b, i) + Numbered(f, w, j)
    ensures n2 == n0 + Numbered(f, b + w, i)
  {
    NumberedAppend(f, b, w, i);
    AppendAssoc(n0, Numbered(f, b, i), Numbered(f, w, j));
  }

  /**
   * `_register_defs(n, src, a.id, a.scope)`: a class, function or
   * control-flow statement creates one entry under the anchor and walks its
   * children under that entry (classes and functions with their qualified
   * name as the new scope); an assignment, decorator or docstring creates
   * one entry and is not walked into; anything else creates nothing and
   * walks its children with the same anchor. `next` is the id the first
   * new node gets.
   */
  function Walk(decode: Decoder, ctx: Context, n: TsNode, src: Bytes, next: nat, a: Anchor): seq<Entry>
    decreases n, 1
  {
    if IsClass(n) || IsFunction(n) || IsControlFlow(n) then
      var e := Entry(n, NestedLabel(n, a.parentLabel), a.id, a.scope);
      [e] + WalkChildren(decode, ctx, n, |n.children|, src, next + 1, Anchor(next, e.nodeLabel, ScopeBelow(decode, src, e)))
    else if IsAssignment(n) || IsDecorator(n) || IsDocstring(decode, n, ctx, src) then
      [Entry(n, LeafLabel(n), a.id, a.scope)]
    else
      WalkChildren(decode, ctx, n, |n.children|, src, next, a)
  }

  /** The walks of the first `k` children of `n`, one after the other. */
  function WalkChildren(decode: Decoder, ctx: Context, n: TsNode, k: nat, src: Bytes, next: nat, a: Anchor): seq<Entry>
    requires k <= |n.children|
    decreases n, 0, k
  {
    if k == 0 then []
    else
      var es := WalkChildren(decode, ctx, n, k - 1, src, next, a);
      es + Walk(decode, ChildContext(n, ctx, k - 1), n.children[k - 1], src, next + |es|, a)
  }

  /** One entry: its record, its CONTAINS arc, and the symbol it adds when it is a definition. */
  lemma SingleEntry(env: Env, src: Bytes, e: Entry, next: nat, s: map<string, nat>)
    ensures EntryNodes(env, src, [e], next) == [Build(env, src, e, next)]
    ensures EntryArcs([e], next) == [Arc(e.parent, next, Contains)]
    ensures SymbolsAfter(s, [Build(env, src, e, next)])
            == if IsDefLabel(e.nodeLabel) then s[ScopeBelow(env.decode, src, e) := next] else s
  {
    assert [Build(env, src, e, next)][..0] == [];
  }

  /**
   * The attributes of a class or function, assembled from its name,
   * qualified name, docstring and signature, are those of its entry.
   */
  lemma DefinitionAttrs(decode: Decoder, src: Bytes, e: Entry, name: string, qname: string,
                        doc: Option<string>, sig: Option<string>, lines: (int, int), attrs: Attrs)
    requires IsDefLabel(e.nodeLabel) && lines == TsLines(e.syn)
    requires name == NameOf(decode, e.syn, src) && qname == e.scope + "." + name
    requires doc == DocstringOf(decode, e.syn, src)
    requires sig == if e.nodeLabel == Class then None else SignatureOf(decode, e.syn, src)
    requires attrs == NoAttrs.(
               name := Some(name), qualifiedName := Some(qname), code := Some(GetCode(decode, e.syn, src)),
               signature := sig, docstring := doc, startLine := Some(lines.0), endLine := Some(lines.1))
    ensures attrs == EntryAttrs(decode, src, e) && qname == ScopeBelow(decode, src, e)
  {
  }

  /**
   * The walk of a class, function or control-flow statement: its own entry,
   * then its children's walk anchored at it, numbered from `m`.
   */
  lemma WalkNested(decode: Decoder, ctx: Context, n: TsNode, src: Bytes, next: nat, a: Anchor,
                   e: Entry, m: nat, b: Anchor, kids: seq<Entry>)
    requires IsClass(n) || IsFunction(n) || IsControlFlow(n)
    requires e == Entry(n, NestedLabel(n, a.parentLabel), a.id, a.scope)
    requires m == next + 1 && b == Anchor(next, e.nodeLabel, ScopeBelow(decode, src, e))
    requires kids == WalkChildren(decode, ctx, n, |n.children|, src, m, b)
    ensures Walk(decode, ctx, n, src, next, a) == [e] + kids
  {
  }

  /** The walk of one more child appends that child's walk, numbered on from the entries so far. */
  lemma WalkChildrenSnoc(decode: Decoder, ctx: Context, n: TsNode, k: nat, src: Bytes, next: nat, a: Anchor,
                         done: seq<Entry>, m: nat, w: seq<Entry>)
    requires k < |n.children| && done == WalkChildren(decode, ctx, n, k, src, next, a)
    requires m == next + |done| && w == Walk(decode, ChildContext(n, ctx, k), n.children[k], src, m, a)
    ensures WalkChildren(decode, ctx, n, k + 1, src, next, a) == done + w
  {
  }

  /**
   * The laws relating an entry to its graph parent: it was created in the
   * scope the parent passes down, it is a pass-1 label (never a Module), and
   * a function is a Method exactly when its parent is a Class.
   */
  predicate Fits(e: Entry, parentLabel: Label, scope: string) {
    && e.scope == scope
    && e.nodeLabel != Module && e.nodeLabel != Import && e.nodeLabel != ExternalFunction
    && ((e.nodeLabel == Method || e.nodeLabel == Function) ==> (e.nodeLabel == Method <==> parentLabel == Class))
  }

  /**
   * The k-th entry hangs from the anchor, or from an earlier entry that is not
   * a leaf, and fits that parent.
   */
  predicate EntryShaped(decode: Decoder, src: Bytes, es: seq<Entry>, next: nat, a: Anchor, k: nat)
    requires k < |es|
  {
    var e := es[k];
    if e.parent == a.id then Fits(e, a.parentLabel, a.scope)
    else
      && next <= e.parent < next + k
      && !IsLeafLabel(es[e.parent - next].nodeLabel)
      && Fits(e, es[e.parent - next].nodeLabel, ScopeBelow(decode, src, es[e.parent - next]))
  }

  /** Every entry is shaped; the anchor is older than every new node. */
  predicate Shaped(decode: Decoder, src: Bytes, es: seq<Entry>, next: nat, a: Anchor) {
    && a.id < next
    && forall k {:trigger EntryShaped(decode, src, es, next, a, k)} :: 0 <= k < |es| ==> EntryShaped(decode, src, es, next, a, k)
  }

  lemma ShapedAppend(decode: Decoder, src: Bytes, es1: seq<Entry>, es2: seq<Entry>, next: nat, a: Anchor)
    requires Shaped(decode, src, es1, next, a) && Shaped(decode, src, es2, next + |es1|, a)
    ensures Shaped(decode, src, es1 + es2, next, a)
  {
    var es := es1 + es2;
    forall k | 0 <= k < |es| ensures EntryShaped(decode, src, es, next, a, k) {
      if k < |es1| {
        assert EntryShaped(decode, src, es1, next, a, k);
        assert es[k] == es1[k];
        if es[k].parent != a.id {
          assert es[es[k].parent - next] == es1[es[k].parent - next];
        }
      } else {
        var j := k - |es1|;
        assert EntryShaped(decode, src, es2, next + |es1|, a, j);
        assert es[k] == es2[j];
        if es[k].parent != a.id {
          var q := es2[j].parent - (next + |es1|);
          assert es[es[k].parent - next] == es2[q];
        }
      }
    }
  }

  lemma ShapedCons(decode: Decoder, src: Bytes, e: Entry, kids: seq<Entry>, next: nat, a: Anchor)
    requires a.id < next && e.parent == a.id && Fits(e, a.parentLabel, a.scope) && !IsLeafLabel(e.nodeLabel)
    requires Shaped(decode, src, kids, next + 1, Anchor(next, e.nodeLabel, ScopeBelow(decode, src, e)))
    ensures Shaped(decode, src, [e] + kids, next, a)
  {
    var b := Anchor(next, e.nodeLabel, ScopeBelow(decode, src, e));
    var es := [e] + kids;
    forall k | 0 <= k < |es| ensures EntryShaped(decode, src, es, next, a, k) {
      if k > 0 {
        var j := k - 1;
        assert EntryShaped(decode, src, kids, next + 1, b, j);
        assert es[k] == kids[j];
        if kids[j].parent != next {
          assert es[kids[j].parent - next] == kids[kids[j].parent - (next + 1)];
        } else {
          assert es[0] == e;
        }
      }
    }
  }

  /**
   * Whatever a walk creates is shaped: each entry hangs from the anchor or
   * from an earlier non-leaf entry, and fits it.
   */
  lemma {:induction false} WalkShaped(decode: Decoder, ctx: Context, n: TsNode, src: Bytes, next: nat, a: Anchor)
    requires a.id < next
    ensures Shaped(decode, src, Walk(decode, ctx, n, src, next, a), next, a)
    decreases n, 1
  {
    if IsClass(n) || IsFunction(n) || IsControlFlow(n) {
      var e := Entry(n, NestedLabel(n, a.parentLabel), a.id, a.scope);
      var b := Anchor(next, e.nodeLabel, ScopeBelow(decode, src, e));
      WalkChildrenShaped(decode, ctx, n, |n.children|, src, next + 1, b);
      ShapedCons(decode, src, e, WalkChildren(decode, ctx, n, |n.children|, src, next + 1, b), next, a);
    } else if IsAssignment(n) || IsDecorator(n) || IsDocstring(decode, n, ctx, src) {
      assert EntryShaped(decode, src, Walk(decode, ctx, n, src, next, a), next, a, 0);
    } else {
      WalkChildrenShaped(decode, ctx, n, |n.children|, src, next, a);
    }
  }

  lemma {:induction false} WalkChildrenShaped(decode: Decoder, ctx: Context, n: TsNode, k: nat, src: Bytes, next: nat, a: Anchor)
    requires k <= |n.children| && a.id < next
    ensures Shaped(decode, src, WalkChildren(decode, ctx, n, k, src, next, a), next, a)
    decreases n, 0, k
  {
    if k > 0 {
      var es := WalkChildren(decode, ctx, n, k - 1, src, next, a);
      WalkChildrenShaped(decode, ctx, n, k - 1, src, next, a);
      WalkShaped(decode, ChildContext(n, ctx, k - 1), n.children[k - 1], src, next + |es|, a);
      ShapedAppend(decode, src, es, Walk(decode, ChildContext(n, ctx, k - 1), n.children[k - 1], src, next + |es|, a), next, a);
    }
  }

  /** The label of the graph parent of the k-th entry. */
  function ParentLabelOf(es: seq<Entry>, next: nat, a: Anchor, k: nat): Label
    requires k < |es|
  {
    var p := es[k].parent;
    if p == a.id || p < next || p - next >= |es| then a.parentLabel else es[p - next].nodeLabel
  }

  /** In a shaped walk a function is a Method exactly when its graph parent is a Class. */
  lemma MethodExactlyUnderClass(decode: Decoder, src: Bytes, es: seq<Entry>, next: nat, a: Anchor, k: nat)
    requires Shaped(decode, src, es, next, a) && k < |es|
    ensures es[k].nodeLabel == Method ==> ParentLabelOf(es, next, a, k) == Class
    ensures es[k].nodeLabel == Function ==> ParentLabelOf(es, next, a, k) != Class
    ensures es[k].nodeLabel != Module
  {
    assert EntryShaped(decode, src, es, next, a, k);
  }

  /**
   * In a shaped walk a class or function nested in another class or
   * function is qualified by its parent's qualified name.
   */
  lemma QualifiedByParent(env: Env, src: Bytes, es: seq<Entry>, next: nat, a: Anchor, k: nat)
    requires Shaped(env.decode, src, es, next, a) && k < |es|
    ensures var p := es[k].parent;
            p != a.id ==>
              && next <= p < next + k
              && (IsDefLabel(es[k].nodeLabel) && IsDefLabel(es[p - next].nodeLabel) ==>
                    var nd := Build(env, src, es[k], next + k);
                    nd.qualifiedName == Some(Build(env, src, es[p - next], p).qualifiedName.value + "." + nd.name.value))
  {
    assert EntryShaped(env.decode, src, es, next, a, k);
  }

  // ------------------------------------------------------ symbols, parents

  /** A node that writes `q` into the symbol table: a class, function or method named `q`. */
  predicate Registers(nd: Node, q: string) {
    IsDefLabel(nd.nodeLabel) && nd.qualifiedName == Some(q)
  }

  /**
   * The symbol table after the appended nodes have registered themselves in
   * creation order (`symbol_table[qname] = id`).
   */
  function SymbolsAfter(m: map<string, nat>, ns: seq<Node>): (r: map<string, nat>)
    ensures m.Keys <= r.Keys
    decreases |ns|
  {
    if ns == [] then m
    else
      var m1 := SymbolsAfter(m, ns[..|ns| - 1]);
      var last := ns[|ns| - 1];
      if IsDefLabel(last.nodeLabel) && last.qualifiedName.Some? then m1[last.qualifiedName.value := last.id] else m1
  }

  lemma {:induction false} SymbolsAfterAppend(m: map<string, nat>, a: seq<Node>, b: seq<Node>)
    ensures SymbolsAfter(m, a + b) == SymbolsAfter(SymbolsAfter(m, a), b)
    decreases |b|
  {
    if b == [] {
      assert a + b == a;
    } else {
      assert (a + b)[..|a + b| - 1] == a + b[..|b| - 1];
      assert (a + b)[|a + b| - 1] == b[|b| - 1];
      SymbolsAfterAppend(m, a, b[..|b| - 1]);
    }
  }

  /**
   * Last write wins: a name registered by some appended node maps to the
   * id of the last such node.
   */
  lemma {:induction false} LastWriteWins(m: map<string, nat>, ns: seq<Node>, q: string)
    ensures (exists k :: 0 <= k < |ns| && Registers(ns[k], q)) ==>
              q in SymbolsAfter(m, ns)
              && exists k :: 0 <= k < |ns| && Registers(ns[k], q) && SymbolsAfter(m, ns)[q] == ns[k].id
                             && forall j :: k < j < |ns| ==> !Registers(ns[j], q)
    decreases |ns|
  {
    if ns != [] && exists k :: 0 <= k < |ns| && Registers(ns[k], q) {
      var init := ns[..|ns| - 1];
      var last := ns[|ns| - 1];
      if Registers(last, q) {
        assert SymbolsAfter(m, ns)[q] == last.id;
      } else {
        var k :| 0 <= k < |ns| && Registers(ns[k], q);
        assert k < |init| && init[k] == ns[k];
        LastWriteWins(m, init, q);
        var k' :| 0 <= k' < |init| && Registers(init[k'], q) && SymbolsAfter(m, init)[q] == init[k'].id
                  && forall j :: k' < j < |init| ==> !Registers(init[j], q);
        assert init[k'] == ns[k'];
        assert forall j :: k' < j < |ns| ==> !Registers(ns[j], q) by {
          assert forall j :: k' < j < |init| ==> init[j] == ns[j];
        }
      }
    }
  }

  /** A name no appended node registers keeps its old entry, or stays absent. */
  lemma {:induction false} UnwrittenKept(m: map<string, nat>, ns: seq<Node>, q: string)
    ensures (forall k :: 0 <= k < |ns| ==> !Registers(ns[k], q)) ==>
              (q in SymbolsAfter(m, ns) <==> q in m) && (q in m ==> SymbolsAfter(m, ns)[q] == m[q])
    decreases |ns|
  {
    if ns != [] && forall k :: 0 <= k < |ns| ==> !Registers(ns[k], q) {
      var init := ns[..|ns| - 1];
      assert forall k :: 0 <= k < |init| ==> init[k] == ns[k];
      UnwrittenKept(m, init, q);
    }
  }

  /** `parents` after the given edges: every CONTAINS edge maps its target to its source. */
  function ParentIndex(arcs: seq<Arc>): map<nat, nat>
    decreases |arcs|
  {
    if arcs == [] then map[]
    else
      var p := ParentIndex(arcs[..|arcs| - 1]);
      var e := arcs[|arcs| - 1];
      if e.kind == Contains then p[e.target := e.source] else p
  }

  // --------------------------------------------------- module propagation

  /**
   * `x` lies in the CONTAINS subtree of `root`: it is the root, or the
   * target of a CONTAINS edge whose (smaller) source lies in that subtree.
   */
  ghost predicate InSubtree(arcs: seq<Arc>, root: nat, x: nat)
    decreases x
  {
    x == root
    || exists j :: 0 <= j < |arcs| && arcs[j].kind == Contains && arcs[j].target == x && arcs[j].source < x
                   && InSubtree(arcs, root, arcs[j].source)
  }

  /** A subtree holds no node older than its root. */
  lemma {:induction false} SubtreeAboveRoot(arcs: seq<Arc>, root: nat, x: nat)
    ensures InSubtree(arcs, root, x) ==> root <= x
    decreases x
  {
    if x != root && InSubtree(arcs, root, x) {
      var j :| 0 <= j < |arcs| && arcs[j].kind == Contains && arcs[j].target == x && arcs[j].source < x
               && InSubtree(arcs, root, arcs[j].source);
      SubtreeAboveRoot(arcs, root, arcs[j].source);
    }
  }

  /**
   * Every node created by a walk anchored at `a.id` lies in the CONTAINS
   * subtree of `a.id`, once its edges are in the graph at offset `off`.
   */
  lemma {:induction false} WalkInSubtree(decode: Decoder, src: Bytes, es: seq<Entry>, next: nat, a: Anchor,
                                         arcs: seq<Arc>, off: nat, k: nat)
    requires Shaped(decode, src, es, next, a)
    requires off + |es| <= |arcs| && arcs[off..off + |es|] == EntryArcs(es, next)
    requires k < |es|
    ensures InSubtree(arcs, a.id, next + k)
    decreases k
  {
    assert EntryShaped(decode, src, es, next, a, k);
    assert arcs[off + k] == arcs[off..off + |es|][k];
    if es[k].parent != a.id {
      WalkInSubtree(decode, src, es, next, a, arcs, off, es[k].parent - next);
    }
  }

  /** Every node a walk anchored at `a.id` creates lies in the subtree of `a.id`. */
  lemma WalkCovered(decode: Decoder, src: Bytes, es: seq<Entry>, next: nat, a: Anchor, arcs0: seq<Arc>, arcs: seq<Arc>)
    requires Shaped(decode, src, es, next, a)
    requires arcs == arcs0 + EntryArcs(es, next)
    ensures forall x :: next <= x < next + |es| ==> InSubtree(arcs, a.id, x)
  {
    assert arcs[|arcs0|..|arcs0| + |es|] == EntryArcs(es, next);
    forall x | next <= x < next + |es| ensures InSubtree(arcs, a.id, x) {
      WalkInSubtree(decode, src, es, next, a, arcs, |arcs0|, x - next);
    }
  }

  /**
   * `_propagate_module(root)` as a value: every node in the CONTAINS subtree
   * of `root` gets `module` set to `path`; nothing else changes.
   */
  ghost function Propagated(ns: seq<Node>, arcs: seq<Arc>, root: nat, path: Option<string>): (r: seq<Node>)
    ensures |r| == |ns|
  {
    seq(|ns|, i requires 0 <= i < |ns| => if InSubtree(arcs, root, i) then ns[i].(modulePath := path) else ns[i])
  }

  /**
   * Propagating from a root whose subtree is the root and every newer node
   * leaves the older nodes alone and gives the root and the newer ones the path.
   */
  lemma PropagatedTail(ns: seq<Node>, arcs: seq<Arc>, root: nat, path: Option<string>)
    requires root < |ns|
    requires forall x :: root < x < |ns| ==> InSubtree(arcs, root, x)
    ensures Propagated(ns, arcs, root, path)[..root] == ns[..root]
    ensures forall i :: root <= i < |ns| ==> Propagated(ns, arcs, root, path)[i] == ns[i].(modulePath := path)
  {
    forall i | 0 <= i < root ensures !InSubtree(arcs, root, i) {
      SubtreeAboveRoot(arcs, root, i);
    }
  }

  /**
   * After the walk of a file anchored at its Module node `a.id`, whose
   * entries are the nodes after the Module node and whose edges close the
   * edge list, propagating from the Module node changes exactly the Module
   * node and the newer ones.
   */
  lemma WalkPropagated(decode: Decoder, ctx: Context, tree: TsNode, src: Bytes, a: Anchor,
                       ns: seq<Node>, arcs0: seq<Arc>, arcs: seq<Arc>, path: Option<string>, r: seq<Node>)
    requires |ns| == a.id + 1 + |Walk(decode, ctx, tree, src, a.id + 1, a)|
    requires arcs == arcs0 + EntryArcs(Walk(decode, ctx, tree, src, a.id + 1, a), a.id + 1)
    requires r == Propagated(ns, arcs, a.id, path)
    ensures |r| == |ns| && r[..a.id] == ns[..a.id]
    ensures forall i :: a.id <= i < |r| ==> r[i].modulePath == path
  {
    var es := Walk(decode, ctx, tree, src, a.id + 1, a);
    WalkShaped(decode, ctx, tree, src, a.id + 1, a);
    WalkCovered(decode, src, es, a.id + 1, a, arcs0, arcs);
    PropagatedTail(ns, arcs, a.id, path);
  }

  /** No node is the target of two CONTAINS edges. */
  predicate UniqueParents(arcs: seq<Arc>) {
    forall i, j :: 0 <= i < j < |arcs| && arcs[i].kind == Contains && arcs[j].kind == Contains ==>
      arcs[i].target != arcs[j].target
  }

  /**
   * A CONTAINS edge into a node no earlier edge points to keeps the parents
   * unique, and records its source as that node's parent.
   */
  lemma ForestSnoc(arcs: seq<Arc>, src: nat, dst: nat)
    requires UniqueParents(arcs)
    requires forall k :: 0 <= k < |arcs| ==> arcs[k].target < dst
    ensures UniqueParents(arcs + [Arc(src, dst, Contains)])
    ensures ParentIndex(arcs + [Arc(src, dst, Contains)]) == ParentIndex(arcs)[dst := src]
  {
    var arcs' := arcs + [Arc(src, dst, Contains)];
    assert arcs'[..|arcs|] == arcs;
    UniqueParentsSnoc(arcs, arcs', dst);
  }

  lemma UniqueParentsSnoc(arcs: seq<Arc>, arcs': seq<Arc>, dst: nat)
    requires UniqueParents(arcs)
    requires forall k :: 0 <= k < |arcs| ==> arcs[k].target < dst
    requires |arcs'| == |arcs| + 1 && arcs'[..|arcs|] == arcs && arcs'[|arcs|].target == dst
    ensures UniqueParents(arcs')
  {
    forall i, j | 0 <= i < j < |arcs'| && arcs'[i].kind == Contains && arcs'[j].kind == Contains
      ensures arcs'[i].target != arcs'[j].target
    {
      assert arcs'[i] == arcs[i];
      if j < |arcs| {
        assert arcs'[j] == arcs[j];
      }
    }
  }

  /** The children list of `p` in the index, empty when `p` has none. */
  function Lookup(m: map<nat, seq<nat>>, p: nat): seq<nat> {
    if p in m then m[p] else []
  }

  /** The child index `_propagate_module` builds: each source's CONTAINS targets, in edge order. */
  function ChildIndex(arcs: seq<Arc>): map<nat, seq<nat>>
    decreases |arcs|
  {
    if arcs == [] then map[]
    else
      var m := ChildIndex(arcs[..|arcs| - 1]);
      var e := arcs[|arcs| - 1];
      if e.kind == Contains then m[e.source := Lookup(m, e.source) + [e.target]] else m
  }

  /** The children listed for `p` are exactly the targets of CONTAINS edges from `p`. */
  lemma {:induction false} ChildIndexSpec(arcs: seq<Arc>, p: nat)
    ensures forall x :: x in Lookup(ChildIndex(arcs), p) <==>
              exists j :: 0 <= j < |arcs| && arcs[j].kind == Contains && arcs[j].source == p && arcs[j].target == x
    decreases |arcs|
  {
    if arcs != [] {
      var init := arcs[..|arcs| - 1];
      ChildIndexSpec(init, p);
      forall x ensures x in Lookup(ChildIndex(arcs), p) <==>
                       exists j :: 0 <= j < |arcs| && arcs[j].kind == Contains && arcs[j].source == p && arcs[j].target == x
      {
        if exists j :: 0 <= j < |arcs| && arcs[j].kind == Contains && arcs[j].source == p && arcs[j].target == x {
          var j :| 0 <= j < |arcs| && arcs[j].kind == Contains && arcs[j].source == p && arcs[j].target == x;
          if j < |init| { assert init[j] == arcs[j]; }
        }
        if x in Lookup(ChildIndex(init), p) {
          var j :| 0 <= j < |init| && init[j].kind == Contains && init[j].source == p && init[j].target == x;
          assert arcs[j] == init[j];
        }
      }
    }
  }

  predicate Distinct(s: seq<nat>) {
    forall i, j :: 0 <= i < j < |s| ==> s[i] != s[j]
  }

  /** With unique parents no child is listed twice. */
  lemma {:induction false} ChildIndexDistinct(arcs: seq<Arc>, p: nat)
    requires UniqueParents(arcs)
    ensures Distinct(Lookup(ChildIndex(arcs), p))
    decreases |arcs|
  {
    if arcs != [] {
      var init := arcs[..|arcs| - 1];
      var e := arcs[|arcs| - 1];
      assert UniqueParents(init);
      ChildIndexDistinct(init, p);
      if e.kind == Contains && e.source == p {
        ChildIndexSpec(init, p);
        var before := Lookup(ChildIndex(init), p);
        assert e.target !in before;
        var cs := before + [e.target];
        assert Lookup(ChildIndex(arcs), p) == cs;
        forall i, j | 0 <= i < j < |cs| ensures cs[i] != cs[j] {
          assert cs[i] == before[i];
          if j == |before| { assert cs[i] in before; } else { assert cs[j] == before[j]; }
        }
      }
    }
  }

  /** `y` is the target of a CONTAINS edge whose source is in `s`. */
  ghost predicate HasParentIn(arcs: seq<Arc>, y: nat, s: set<nat>) {
    exists j :: 0 <= j < |arcs| && arcs[j].kind == Contains && arcs[j].target == y && arcs[j].source in s
  }

  /**
   * A child of `cur` is neither visited nor waiting, when every such node
   * other than the root has its parent already visited, `cur` has not been
   * visited, and no CONTAINS edge targets the root.
   */
  lemma ChildNotSeen(arcs: seq<Arc>, root: nat, cur: nat, x: nat, stack: seq<nat>, done: set<nat>)
    requires UniqueParents(arcs)
    requires forall j :: 0 <= j < |arcs| && arcs[j].kind == Contains ==> arcs[j].target != root
    requires cur !in done
    requires exists j :: 0 <= j < |arcs| && arcs[j].kind == Contains && arcs[j].source == cur && arcs[j].target == x
    requires forall y {:trigger HasParentIn(arcs, y, done)} :: (y in done || y in stack) && y != root ==> HasParentIn(arcs, y, done)
    ensures x !in done && x !in stack
  {
    assert x in done || x in stack ==> HasParentIn(arcs, x, done);
  }

  /** A set holding the root and closed under listed children holds the root's whole subtree. */
  lemma {:induction false} SubtreeClosed(arcs: seq<Arc>, root: nat, done: set<nat>, x: nat)
    requires root in done
    requires forall p, y :: p in done && y in Lookup(ChildIndex(arcs), p) ==> y in done
    requires InSubtree(arcs, root, x)
    ensures x in done
    decreases x
  {
    if x != root {
      var j :| 0 <= j < |arcs| && arcs[j].kind == Contains && arcs[j].target == x && arcs[j].source < x
               && InSubtree(arcs, root, arcs[j].source);
      SubtreeClosed(arcs, root, done, arcs[j].source);
      ChildIndexSpec(arcs, arcs[j].source);
    }
  }

  /**
   * The CONTAINS edges of a graph with `n` nodes form a forest in which
   * `root` has no parent: each goes from an older node to a newer one and
   * no node is the target of two of them.
   */
  predicate RootedForest(arcs: seq<Arc>, n: nat, root: nat) {
    && root < n
    && UniqueParents(arcs)
    && (forall j :: 0 <= j < |arcs| && arcs[j].kind == Contains ==>
          arcs[j].source < arcs[j].target < n && arcs[j].target != root)
  }

  /**
   * What holds before each round of the `_propagate_module` loop: the
   * visited nodes and the waiting ones (the stack, without repeats) lie in
   * the subtree of `root` and are disjoint; the root is one of them; each
   * of them except the root has its parent visited; and every child of a
   * visited node is visited or waiting.
   */
  ghost predicate Frontier(arcs: seq<Arc>, root: nat, n: nat, children: map<nat, seq<nat>>,
                           stack: seq<nat>, done: set<nat>) {
    && (forall x :: x in done ==> x < n && InSubtree(arcs, root, x))
    && (forall i :: 0 <= i < |stack| ==> stack[i] < n && InSubtree(arcs, root, stack[i]) && stack[i] !in done)
    && Distinct(stack)
    && (root in done || root in stack)
    && (forall y {:trigger HasParentIn(arcs, y, done)} :: (y in done || y in stack) && y != root ==> HasParentIn(arcs, y, done))
    && (forall p, y :: p in done && y in Lookup(children, p) ==> y in done || y in stack)
  }

  lemma DistinctAppend(a: seq<nat>, b: seq<nat>)
    requires Distinct(a) && Distinct(b) && forall x :: x in b ==> x !in a
    ensures Distinct(a + b)
  {
    forall i, j | 0 <= i < j < |a + b| ensures (a + b)[i] != (a + b)[j] {
      if j < |a| {
        assert (a + b)[i] == a[i] && (a + b)[j] == a[j];
      } else if i < |a| {
        assert (a + b)[i] == a[i] && (a + b)[j] == b[j - |a|] && b[j - |a|] in b;
      } else {
        assert (a + b)[i] == b[i - |a|] && (a + b)[j] == b[j - |a|];
      }
    }
  }

  /** The node ids below `n`. */
  function Below(n: nat): (r: set<nat>)
    ensures forall x: nat :: x in r <==> x < n
  {
    if n == 0 then {} else Below(n - 1) + {n - 1}
  }

  lemma FrontierStart(arcs: seq<Arc>, root: nat, n: nat, children: map<nat, seq<nat>>)
    requires root < n
    ensures Frontier(arcs, root, n, children, [root], {})
  {
  }

  /** The children of the popped node are new, lie in the subtree, and have it as their visited parent. */
  lemma StepChildren(arcs: seq<Arc>, root: nat, n: nat, stack: seq<nat>, done: set<nat>, cur: nat, cs: seq<nat>)
    requires RootedForest(arcs, n, root)
    requires cur in stack && cur !in done && InSubtree(arcs, root, cur)
    requires forall y {:trigger HasParentIn(arcs, y, done)} :: (y in done || y in stack) && y != root ==> HasParentIn(arcs, y, done)
    requires forall x :: x in cs ==>
               exists j :: 0 <= j < |arcs| && arcs[j].kind == Contains && arcs[j].source == cur && arcs[j].target == x
    ensures forall x :: x in cs ==>
              x < n && InSubtree(arcs, root, x) && x !in done && x !in stack && HasParentIn(arcs, x, done + {cur})
  {
    forall x | x in cs
      ensures x < n && InSubtree(arcs, root, x) && x !in done && x !in stack && HasParentIn(arcs, x, done + {cur})
    {
      var j :| 0 <= j < |arcs| && arcs[j].kind == Contains && arcs[j].source == cur && arcs[j].target == x;
      assert arcs[j].source in done + {cur};
      ChildNotSeen(arcs, root, cur, x, stack, done);
    }
  }

  /** Visiting one more node keeps every waiting or visited node's parent visited. */
  lemma StepParents(arcs: seq<Arc>, root: nat, stack: seq<nat>, rest: seq<nat>, cs: seq<nat>, done: set<nat>, cur: nat)
    requires cur in stack && forall y :: y in rest ==> y in stack
    requires forall y {:trigger HasParentIn(arcs, y, done)} :: (y in done || y in stack) && y != root ==> HasParentIn(arcs, y, done)
    requires forall x :: x in cs ==> HasParentIn(arcs, x, done + {cur})
    ensures forall y {:trigger HasParentIn(arcs, y, done + {cur})} :: (y in done + {cur} || y in rest + cs) && y != root ==> HasParentIn(arcs, y, done + {cur})
  {
    forall y | (y in done + {cur} || y in rest + cs) && y != root ensures HasParentIn(arcs, y, done + {cur}) {
      if y !in cs {
        assert HasParentIn(arcs, y, done);
        var j :| 0 <= j < |arcs| && arcs[j].kind == Contains && arcs[j].target == y && arcs[j].source in done;
        assert arcs[j].source in done + {cur};
      }
    }
  }

  /** The stack after the round holds subtree nodes not yet visited. */
  lemma StepStack(arcs: seq<Arc>, root: nat, n: nat, stack: seq<nat>, done: set<nat>, cur: nat, cs: seq<nat>)
    requires stack != [] && cur == stack[|stack| - 1] && Distinct(stack)
    requires forall i :: 0 <= i < |stack| ==> stack[i] < n && InSubtree(arcs, root, stack[i]) && stack[i] !in done
    requires forall x :: x in cs ==> x < n && InSubtree(arcs, root, x) && x !in done && x !in stack
    ensures var s' := stack[..|stack| - 1] + cs;
            forall i :: 0 <= i < |s'| ==> s'[i] < n && InSubtree(arcs, root, s'[i]) && s'[i] !in done + {cur}
  {
    var rest := stack[..|stack| - 1];
    forall i | 0 <= i < |rest + cs| ensures (rest + cs)[i] < n && InSubtree(arcs, root, (rest + cs)[i]) && (rest + cs)[i] !in done + {cur} {
      if i < |rest| {
        assert (rest + cs)[i] == stack[i] && stack[i] != stack[|stack| - 1];
      } else {
        assert (rest + cs)[i] in cs;
      }
    }
  }

  /** After the round every child of a visited node is visited or waiting. */
  lemma StepClosed(children: map<nat, seq<nat>>, stack: seq<nat>, done: set<nat>, cur: nat, cs: seq<nat>)
    requires stack != [] && cur == stack[|stack| - 1] && cs == Lookup(children, cur)
    requires forall p, y :: p in done && y in Lookup(children, p) ==> y in done || y in stack
    ensures forall p, y :: p in done + {cur} && y in Lookup(children, p) ==>
              y in done + {cur} || y in stack[..|stack| - 1] + cs
  {
    var rest := stack[..|stack| - 1];
    forall p, y | p in done + {cur} && y in Lookup(children, p) ensures y in done + {cur} || y in rest + cs {
      if p != cur && y != cur {
        assert y in stack ==> y in rest;
      }
    }
  }

  lemma FrontierIntro(arcs: seq<Arc>, root: nat, n: nat, children: map<nat, seq<nat>>, stack: seq<nat>, done: set<nat>)
    requires forall x :: x in done ==> x < n && InSubtree(arcs, root, x)
    requires forall i :: 0 <= i < |stack| ==> stack[i] < n && InSubtree(arcs, root, stack[i]) && stack[i] !in done
    requires Distinct(stack)
    requires root in done || root in stack
    requires forall y {:trigger HasParentIn(arcs, y, done)} :: (y in done || y in stack) && y != root ==> HasParentIn(arcs, y, done)
    requires forall p, y :: p in done && y in Lookup(children, p) ==> y in done || y in stack
    ensures Frontier(arcs, root, n, children, stack, done)
  {
  }

  /** The popped node joins the visited ones, and the root stays visited or waiting. */
  lemma StepVisited(arcs: seq<Arc>, root: nat, n: nat, stack: seq<nat>, done: set<nat>, cs: seq<nat>)
    requires stack != []
    requires forall x :: x in done ==> x < n && InSubtree(arcs, root, x)
    requires forall i :: 0 <= i < |stack| ==> stack[i] < n && InSubtree(arcs, root, stack[i]) && stack[i] !in done
    requires root in done || root in stack
    ensures stack[|stack| - 1] !in done && stack[|stack| - 1] < n
    ensures forall x :: x in done + {stack[|stack| - 1]} ==> x < n && InSubtree(arcs, root, x)
    ensures root in done + {stack[|stack| - 1]} || root in stack[..|stack| - 1] + cs
  {
    var last := |stack| - 1;
    if root !in done && root != stack[last] {
      var i :| 0 <= i < |stack| && stack[i] == root;
      assert (stack[..last] + cs)[i] == root;
    }
  }

  /**
   * One round: popping the last waiting node, visiting it and pushing its
   * children keeps the frontier, and the popped node was not yet visited.
   */
  lemma FrontierStep(arcs: seq<Arc>, root: nat, n: nat, children: map<nat, seq<nat>>, stack: seq<nat>, done: set<nat>)
    requires RootedForest(arcs, n, root)
    requires Frontier(arcs, root, n, children, stack, done) && stack != []
    requires var cs := Lookup(children, stack[|stack| - 1]);
             && Distinct(cs)
             && forall x :: x in cs ==>
                  exists j :: 0 <= j < |arcs| && arcs[j].kind == Contains && arcs[j].source == stack[|stack| - 1] && arcs[j].target == x
    ensures stack[|stack| - 1] !in done && stack[|stack| - 1] < n
    ensures var cur: nat := stack[|stack| - 1];
            Frontier(arcs, root, n, children, stack[..|stack| - 1] + Lookup(children, cur), done + {cur})
  {
    var cur: nat := stack[|stack| - 1];
    var cs: seq<nat> := Lookup(children, cur);
    StepVisited(arcs, root, n, stack, done, cs);
    StepChildren(arcs, root, n, stack, done, cur, cs);
    assert forall y :: y in stack[..|stack| - 1] ==> y in stack;
    StepParents(arcs, root, stack, stack[..|stack| - 1], cs, done, cur);
    assert Distinct(stack[..|stack| - 1]);
    DistinctAppend(stack[..|stack| - 1], cs);
    StepStack(arcs, root, n, stack, done, cur, cs);
    StepClosed(children, stack, done, cur, cs);
    FrontierIntro(arcs, root, n, children, stack[..|stack| - 1] + cs, done + {cur});
  }

  lemma FrontierEnd(arcs: seq<Arc>, root: nat, n: nat, children: map<nat, seq<nat>>, done: set<nat>, x: nat)
    requires children == ChildIndex(arcs) && Frontier(arcs, root, n, children, [], done)
    ensures x in done <==> InSubtree(arcs, root, x)
  {
    if InSubtree(arcs, root, x) {
      SubtreeClosed(arcs, root, done, x);
    }
  }

  // ---------------------------------------------------------------- pass 2

  /**
   * The nodes `_resolve_edges` acts on, in traversal order: an import
   * statement or a call is a site and is not descended into; any other node
   * contributes the sites of its children.
   */
  function Sites(n: TsNode): seq<TsNode>
    decreases n, 1
  {
    if IsImport(n) || IsCall(n) then [n] else SitesChildren(n, |n.children|)
  }

  function SitesChildren(n: TsNode, k: nat): seq<TsNode>
    requires k <= |n.children|
    decreases n, 0, k
  {
    if k == 0 then [] else SitesChildren(n, k - 1) + Sites(n.children[k - 1])
  }

  /** Every site is an import statement or a call. */
  lemma {:induction false} SitesAreSites(n: TsNode)
    ensures forall s :: s in Sites(n) ==> IsImport(s) || IsCall(s)
    decreases n, 1
  {
    if !(IsImport(n) || IsCall(n)) {
      SitesChildrenAreSites(n, |n.children|);
    }
  }

  lemma {:induction false} SitesChildrenAreSites(n: TsNode, k: nat)
    requires k <= |n.children|
    ensures forall s :: s in SitesChildren(n, k) ==> IsImport(s) || IsCall(s)
    decreases n, 0, k
  {
    if k > 0 {
      SitesChildrenAreSites(n, k - 1);
      SitesAreSites(n.children[k - 1]);
    }
  }

  /**
   * Call resolution: the name qualified by the scope when the symbol table
   * has it, else the bare name when it has that, else nothing.
   */
  function CallTarget(syms: map<string, nat>, scope: string, callee: string): (r: Option<nat>)
    ensures scope + "." + callee in syms ==> r == Some(syms[scope + "." + callee])
    ensures scope + "." + callee !in syms && callee in syms ==> r == Some(syms[callee])
    ensures scope + "." + callee !in syms && callee !in syms ==> r.None?
    ensures r.Some? ==> r.value in syms.Values
  {
    if scope + "." + callee in syms then Some(syms[scope + "." + callee])
    else if callee in syms then Some(syms[callee])
    else None
  }

  /**
   * The callee name of a call site: the extracted dotted name, or when that
   * is missing or empty the call's stripped text up to its first "(".
   */
  function FuncName(decode: Decoder, n: TsNode, src: Bytes): (r: string)
    ensures Present(ExtractCalledName(decode, n, src)) ==> r == ExtractCalledName(decode, n, src).value
    ensures !Present(ExtractCalledName(decode, n, src)) ==> forall i :: 0 <= i < |r| ==> r[i] != '('
  {
    var c := ExtractCalledName(decode, n, src);
    if Present(c) then c.value else BeforeFirst(Strip(GetCode(decode, n, src)), '(')
  }

  /** The Import node `_resolve_edges` creates: the stripped statement text and its lines. */
  function ImportNode(env: Env, n: TsNode, src: Bytes, id: nat): Node {
    var lines := TsLines(n);
    MakeNode(env, id, Import, NoAttrs.(
      code := Some(Strip(GetCode(env.decode, n, src))),
      startLine := Some(lines.0), endLine := Some(lines.1)))
  }

  /** The ExternalFunction node created for an unresolved call site. */
  function ExternalNode(env: Env, callee: string, id: nat): Node {
    MakeNode(env, id, ExternalFunction, NoAttrs.(name := Some(callee), qualifiedName := Some(callee)))
  }

  /** What pass 2 appends: Import and ExternalFunction nodes, IMPORTS and CALLS edges. */
  datatype Links = Links(nodes: seq<Node>, arcs: seq<Arc>)

  function LinksThen(a: Links, b: Links): Links {
    Links(a.nodes + b.nodes, a.arcs + b.arcs)
  }

  /**
   * One site resolved from the module node `parent` in scope `scope`: an
   * import gets an Import node and an IMPORTS edge to it; a call gets a
   * CALLS edge to the symbol it resolves to, or else to a new
   * ExternalFunction node named after the callee.
   */
  function SiteLinks(env: Env, src: Bytes, syms: map<string, nat>, parent: nat, scope: string, s: TsNode, next: nat): (l: Links)
    ensures |l.arcs| == 1 && l.arcs[0].source == parent && |l.nodes| <= 1
    ensures IsImport(s) ==> l.nodes == [ImportNode(env, s, src, next)] && l.arcs[0] == Arc(parent, next, Imports)
    ensures !IsImport(s) ==>
              var t := CallTarget(syms, scope, FuncName(env.decode, s, src));
              && l.arcs[0].kind == Calls
              && (t.Some? ==> l.nodes == [] && l.arcs[0].target == t.value)
              && (t.None? ==> l.nodes == [ExternalNode(env, FuncName(env.decode, s, src), next)] && l.arcs[0].target == next)
  {
    if IsImport(s) then
      Links([ImportNode(env, s, src, next)], [Arc(parent, next, Imports)])
    else
      var callee := FuncName(env.decode, s, src);
      match CallTarget(syms, scope, callee)
      case Some(t) => Links([], [Arc(parent, t, Calls)])
      case None => Links([ExternalNode(env, callee, next)], [Arc(parent, next, Calls)])
  }

  /** What resolving one site appends, given the id its new node would get. */
  type Resolver = (TsNode, nat) -> Links

  /** `SiteLinks` for one module and scope. */
  function SiteResolver(env: Env, src: Bytes, syms: map<string, nat>, parent: nat, scope: string): Resolver {
    (s: TsNode, id: nat) => SiteLinks(env, src, syms, parent, scope, s, id)
  }

  /** The sites resolved one after the other; each new node takes the next id. */
  function SitesLinks(step: Resolver, ss: seq<TsNode>, next: nat): Links
    decreases |ss|
  {
    if ss == [] then Links([], [])
    else
      var l := SitesLinks(step, ss[..|ss| - 1], next);
      LinksThen(l, step(ss[|ss| - 1], next + |l.nodes|))
  }

  lemma {:induction false} SitesLinksAppend(step: Resolver, a: seq<TsNode>, b: seq<TsNode>, next: nat)
    ensures var la := SitesLinks(step, a, next);
            SitesLinks(step, a + b, next) == LinksThen(la, SitesLinks(step, b, next + |la.nodes|))
    decreases |b|
  {
    if b == [] {
      assert a + b == a;
    } else {
      assert (a + b)[..|a + b| - 1] == a + b[..|b| - 1];
      assert (a + b)[|a + b| - 1] == b[|b| - 1];
      SitesLinksAppend(step, a, b[..|b| - 1], next);
    }
  }

  /** `SitesLinksAppend` with the id the second part starts from given by the caller. */
  /** A site node is its own only site: its links are the links of that one step. */
  lemma SiteLinksOne(step: Resolver, n: TsNode, next: nat)
    requires IsImport(n) || IsCall(n)
    ensures SitesLinks(step, Sites(n), next) == step(n, next)
  {
    assert [n][..0] == [];
    assert LinksThen(Links([], []), step(n, next)) == step(n, next);
  }

  lemma SitesLinksAt(step: Resolver, a: seq<TsNode>, b: seq<TsNode>, next: nat, at: nat)
    requires at == next + |SitesLinks(step, a, next).nodes|
    ensures SitesLinks(step, a + b, next) == LinksThen(SitesLinks(step, a, next), SitesLinks(step, b, at))
  {
    SitesLinksAppend(step, a, b, next);
  }

  /** Appending the links of two rounds one after the other appends their concatenation. */
  lemma LinksAppended(n0: seq<Node>, a0: seq<Arc>, l1: Links, l2: Links,
                      n1: seq<Node>, a1: seq<Arc>, n2: seq<Node>, a2: seq<Arc>)
    requires n1 == n0 + l1.nodes && a1 == a0 + l1.arcs
    requires n2 == n1 + l2.nodes && a2 == a1 + l2.arcs
    ensures n2 == n0 + LinksThen(l1, l2).nodes && a2 == a0 + LinksThen(l1, l2).arcs
  {
    AppendAssoc(n0, l1.nodes, l2.nodes);
    AppendAssoc(a0, l1.arcs, l2.arcs);
  }

  /** The sites of one more child are resolved after those of the children before it. */
  lemma ChildLinks(step: Resolver, n: TsNode, k: nat, next: nat, at: nat)
    requires 0 < k <= |n.children| && at == next + |SitesLinks(step, SitesChildren(n, k - 1), next).nodes|
    ensures SitesLinks(step, SitesChildren(n, k), next)
            == LinksThen(SitesLinks(step, SitesChildren(n, k - 1), next), SitesLinks(step, Sites(n.children[k - 1]), at))
  {
    SitesLinksAt(step, SitesChildren(n, k - 1), Sites(n.children[k - 1]), next, at);
  }

  /**
   * The shape of what pass 2 appends for one file: fresh Import and
   * ExternalFunction nodes without parent or module, at most one per edge;
   * edges that all leave the module node and none of them CONTAINS; an
   * IMPORTS edge targets an appended Import node, a CALLS edge a
   * symbol-table entry or an appended ExternalFunction node.
   */
  predicate LinksShaped(l: Links, next: nat, parent: nat, syms: map<string, nat>) {
    && |l.nodes| <= |l.arcs|
    && (forall k :: 0 <= k < |l.nodes| ==> LinkNodeShaped(l.nodes[k], next + k))
    && (forall j :: 0 <= j < |l.arcs| ==> LinkArcShaped(l.arcs[j], l.nodes, next, parent, syms))
  }

  /** An appended node: numbered in order, an Import or ExternalFunction node, with no parent or path. */
  predicate LinkNodeShaped(nd: Node, id: nat) {
    && nd.id == id
    && (nd.nodeLabel == Import || nd.nodeLabel == ExternalFunction)
    && nd.parentId.None? && nd.modulePath.None? && nd.path.None?
  }

  /** An appended arc, given the nodes appended with it from id `next` on. */
  predicate LinkArcShaped(e: Arc, ns: seq<Node>, next: nat, parent: nat, syms: map<string, nat>) {
    && e.source == parent
    && e.kind != Contains
    && (e.kind == Imports ==> next <= e.target < next + |ns| && ns[e.target - next].nodeLabel == Import)
    && (e.kind == Calls ==>
          e.target in syms.Values
          || (next <= e.target < next + |ns| && ns[e.target - next].nodeLabel == ExternalFunction))
  }

  /** An arc stays shaped when more nodes are appended after those it refers to. */
  lemma LinkArcShapedExtend(e: Arc, ns: seq<Node>, more: seq<Node>, next: nat, parent: nat, syms: map<string, nat>)
    requires LinkArcShaped(e, ns, next, parent, syms)
    ensures LinkArcShaped(e, ns + more, next, parent, syms)
  {
    if next <= e.target < next + |ns| {
      assert (ns + more)[e.target - next] == ns[e.target - next];
    }
  }

  /** An arc shaped against later nodes stays shaped when earlier nodes are put in front of them. */
  lemma LinkArcShapedPrefix(e: Arc, before: seq<Node>, ns: seq<Node>, next: nat, parent: nat, syms: map<string, nat>)
    requires LinkArcShaped(e, ns, next + |before|, parent, syms)
    ensures LinkArcShaped(e, before + ns, next, parent, syms)
  {
    if next + |before| <= e.target < next + |before| + |ns| {
      assert (before + ns)[e.target - next] == ns[e.target - next - |before|];
    }
  }

  lemma LinksShapedThen(a: Links, b: Links, next: nat, parent: nat, syms: map<string, nat>)
    requires LinksShaped(a, next, parent, syms)
    requires LinksShaped(b, next + |a.nodes|, parent, syms)
    ensures LinksShaped(LinksThen(a, b), next, parent, syms)
  {
    var l := LinksThen(a, b);
    forall k | 0 <= k < |l.nodes| ensures LinkNodeShaped(l.nodes[k], next + k) {
      if k >= |a.nodes| {
        assert l.nodes[k] == b.nodes[k - |a.nodes|];
      }
    }
    forall j | 0 <= j < |l.arcs| ensures LinkArcShaped(l.arcs[j], l.nodes, next, parent, syms) {
      if j < |a.arcs| {
        assert l.arcs[j] == a.arcs[j];
        LinkArcShapedExtend(a.arcs[j], a.nodes, b.nodes, next, parent, syms);
      } else {
        assert l.arcs[j] == b.arcs[j - |a.arcs|];
        LinkArcShapedPrefix(b.arcs[j - |a.arcs|], a.nodes, b.nodes, next, parent, syms);
      }
    }
  }

  /** What one site appends is shaped. */
  lemma SiteLinksShaped(env: Env, src: Bytes, syms: map<string, nat>, parent: nat, scope: string, s: TsNode, next: nat)
    ensures LinksShaped(SiteLinks(env, src, syms, parent, scope, s, next), next, parent, syms)
  {
    var l := SiteLinks(env, src, syms, parent, scope, s, next);
    if IsImport(s) {
      assert LinkNodeShaped(ImportNode(env, s, src, next), next);
      assert LinkArcShaped(l.arcs[0], l.nodes, next, parent, syms);
    } else {
      var callee := FuncName(env.decode, s, src);
      if CallTarget(syms, scope, callee).None? {
        assert LinkNodeShaped(ExternalNode(env, callee, next), next);
      }
      assert LinkArcShaped(l.arcs[0], l.nodes, next, parent, syms);
    }
  }

  /** Whatever pass 2 appends for a list of sites is shaped, when each site's links are. */
  lemma {:induction false} SitesLinksShaped(step: Resolver, parent: nat, syms: map<string, nat>, ss: seq<TsNode>, next: nat)
    requires forall s, id :: LinksShaped(step(s, id), id, parent, syms)
    ensures LinksShaped(SitesLinks(step, ss, next), next, parent, syms)
    decreases |ss|
  {
    if ss != [] {
      var l := SitesLinks(step, ss[..|ss| - 1], next);
      SitesLinksShaped(step, parent, syms, ss[..|ss| - 1], next);
      LinksShapedThen(l, step(ss[|ss| - 1], next + |l.nodes|), next, parent, syms);
    }
  }

  /** The resolver of a module is shaped, so everything pass 2 appends for the module is. */
  lemma FileLinksShaped(env: Env, src: Bytes, syms: map<string, nat>, m: string, tree: TsNode, next: nat)
    requires m in syms
    ensures LinksShaped(FileLinks(env, src, syms, m, tree, next), next, syms[m], syms)
  {
    var step := SiteResolver(env, src, syms, syms[m], m);
    forall s, id ensures LinksShaped(step(s, id), id, syms[m], syms) {
      SiteLinksShaped(env, src, syms, syms[m], m, s, id);
    }
    SitesLinksShaped(step, syms[m], syms, Sites(tree), next);
  }

  /** Every file that pass 2 can visit: its tree, its source and its module's entry in the symbol table. */
  predicate FilesResolvable(fs: seq<string>, trees: map<string, TsNode>, sources: map<string, Bytes>, syms: map<string, nat>) {
    forall i {:trigger ModuleName(fs[i])} :: 0 <= i < |fs| ==> fs[i] in trees && fs[i] in sources && ModuleName(fs[i]) in syms
  }

  /**
   * The file bookkeeping: the file order lists each parsed file once, the
   * parsed files are exactly those listed, and each can be resolved.
   */
  ghost predicate FilesKnownOf(fs: seq<string>, trees: map<string, TsNode>, sources: map<string, Bytes>, syms: map<string, nat>) {
    && (forall i, j :: 0 <= i < j < |fs| ==> fs[i] != fs[j])
    && trees.Keys == Listed(fs)
    && FilesResolvable(fs, trees, sources, syms)
  }

  /** The paths a file order lists. */
  function Listed(fs: seq<string>): set<string> {
    if fs == [] then {} else Listed(fs[..|fs| - 1]) + {fs[|fs| - 1]}
  }

  lemma {:induction false} ListedSpec(fs: seq<string>, f: string)
    ensures f in Listed(fs) <==> f in fs
  {
    if fs != [] {
      ListedSpec(fs[..|fs| - 1], f);
      assert fs == fs[..|fs| - 1] + [fs[|fs| - 1]];
    }
  }

  /** Recording a new parsed file whose module is registered keeps the bookkeeping. */
  lemma FilesKnownAddNew(fs: seq<string>, trees: map<string, TsNode>, sources: map<string, Bytes>, syms: map<string, nat>,
                         f: string, src: Bytes, t: TsNode)
    requires FilesKnownOf(fs, trees, sources, syms) && ModuleName(f) in syms && f !in trees
    ensures FilesKnownOf(fs + [f], trees[f := t], sources[f := src], syms)
  {
    var fs' := fs + [f];
    assert fs'[..|fs|] == fs;
    ListedSpec(fs, f);
    forall i | 0 <= i < |fs'| ensures fs'[i] in trees[f := t] && fs'[i] in sources[f := src] && ModuleName(fs'[i]) in syms {
      if i < |fs| {
        assert fs'[i] == fs[i] && ModuleName(fs[i]) in syms;
      }
    }
  }

  /** Parsing a listed file again replaces its tree and source and keeps the bookkeeping. */
  lemma FilesKnownAddSeen(fs: seq<string>, trees: map<string, TsNode>, sources: map<string, Bytes>, syms: map<string, nat>,
                          f: string, src: Bytes, t: TsNode)
    requires FilesKnownOf(fs, trees, sources, syms) && f in trees
    ensures FilesKnownOf(fs, trees[f := t], sources[f := src], syms)
  {
    forall i | 0 <= i < |fs| ensures fs[i] in trees[f := t] && fs[i] in sources[f := src] && ModuleName(fs[i]) in syms {
      assert ModuleName(fs[i]) in syms;
    }
  }

  /** Registering more names keeps every file resolvable. */
  lemma FilesKnownGrow(fs: seq<string>, trees: map<string, TsNode>, sources: map<string, Bytes>, syms: map<string, nat>,
                       q: string, id: nat)
    requires FilesKnownOf(fs, trees, sources, syms)
    ensures FilesKnownOf(fs, trees, sources, syms[q := id])
  {
    forall i | 0 <= i < |fs|
      ensures ModuleName(fs[i]) in syms[q := id]
    {
      assert ModuleName(fs[i]) in syms;
    }
  }

  /** What pass 2 appends for one file: its sites resolved from its module node, in the module's scope. */
  function FileLinks(env: Env, src: Bytes, syms: map<string, nat>, m: string, tree: TsNode, next: nat): Links
    requires m in syms
  {
    SitesLinks(SiteResolver(env, src, syms, syms[m], m), Sites(tree), next)
  }

  /** What pass 2 appends for a file, given the id its first new node would get. */
  type FileResolver = (string, nat) -> Links

  /**
   * `FileLinks` for the files of one builder state; a file without a tree,
   * a source or a module entry contributes nothing (pass 2 never meets one).
   */
  function FileResolverOf(env: Env, trees: map<string, TsNode>, sources: map<string, Bytes>, syms: map<string, nat>): FileResolver {
    (f: string, id: nat) =>
      if f in trees && f in sources && ModuleName(f) in syms
      then FileLinks(env, sources[f], syms, ModuleName(f), trees[f], id)
      else Links([], [])
  }

  /** Pass 2 over the first `k` files of `fs`, file after file, numbering new nodes from `next`. */
  function PassFold(fr: FileResolver, fs: seq<string>, next: nat, k: nat): Links
    requires k <= |fs|
  {
    if k == 0 then Links([], [])
    else
      var l := PassFold(fr, fs, next, k - 1);
      LinksThen(l, fr(fs[k - 1], next + |l.nodes|))
  }

  /** One more file: its links follow those of the files before it. */
  lemma PassFoldStep(fr: FileResolver, fs: seq<string>, next: nat, i: nat, at: nat)
    requires i < |fs| && at == next + |PassFold(fr, fs, next, i).nodes|
    ensures PassFold(fr, fs, next, i + 1) == LinksThen(PassFold(fr, fs, next, i), fr(fs[i], at))
  {
  }

  /** For a file pass 2 can visit, the resolver gives that file's links. */
  lemma FileResolverAt(env: Env, trees: map<string, TsNode>, sources: map<string, Bytes>, syms: map<string, nat>,
                       f: string, id: nat)
    requires f in trees && f in sources && ModuleName(f) in syms
    ensures FileResolverOf(env, trees, sources, syms)(f, id)
            == SitesLinks(SiteResolver(env, sources[f], syms, syms[ModuleName(f)], ModuleName(f)), Sites(trees[f]), id)
  {
  }

  /**
   * `second_pass`: the files' sites resolved file after file, each from the
   * module node the symbol table holds under the file's module name and in
   * that scope.
   */
  function PassTwo(env: Env, fs: seq<string>, trees: map<string, TsNode>, sources: map<string, Bytes>,
                   syms: map<string, nat>, next: nat): Links
  {
    PassFold(FileResolverOf(env, trees, sources, syms), fs, next, |fs|)
  }

  /**
   * The shape of what pass 2 appends over the files `fs`: fresh Import and
   * ExternalFunction nodes with no parent and no module, and IMPORTS and
   * CALLS edges (never CONTAINS) that each leave the module node of one of
   * the files.
   */
  predicate PassShaped(l: Links, next: nat, fs: seq<string>, syms: map<string, nat>) {
    && (forall k :: 0 <= k < |l.nodes| ==> LinkNodeShaped(l.nodes[k], next + k))
    && (forall j :: 0 <= j < |l.arcs| ==> l.arcs[j].kind != Contains && LeavesModule(l.arcs[j], fs, syms))
  }

  /** The arc leaves the module node of one of the files `fs`. */
  predicate LeavesModule(e: Arc, fs: seq<string>, syms: map<string, nat>) {
    exists i :: 0 <= i < |fs| && ModuleName(fs[i]) in syms && e.source == syms[ModuleName(fs[i])]
  }

  lemma PassShapedThen(a: Links, b: Links, next: nat, fs: seq<string>, i: nat, syms: map<string, nat>)
    requires i < |fs| && PassShaped(a, next, fs, syms)
    requires ModuleName(fs[i]) in syms && LinksShaped(b, next + |a.nodes|, syms[ModuleName(fs[i])], syms)
    ensures PassShaped(LinksThen(a, b), next, fs, syms)
  {
    var l := LinksThen(a, b);
    forall k | 0 <= k < |l.nodes| ensures LinkNodeShaped(l.nodes[k], next + k) {
      if k >= |a.nodes| {
        assert l.nodes[k] == b.nodes[k - |a.nodes|];
      }
    }
    forall j | 0 <= j < |l.arcs| ensures l.arcs[j].kind != Contains && LeavesModule(l.arcs[j], fs, syms) {
      if j < |a.arcs| {
        assert l.arcs[j] == a.arcs[j];
      } else {
        assert l.arcs[j] == b.arcs[j - |a.arcs|];
        assert LinkArcShaped(b.arcs[j - |a.arcs|], b.nodes, next + |a.nodes|, syms[ModuleName(fs[i])], syms);
      }
    }
  }

  /** The links `fr` gives file `f` are shaped, from the file's module node. */
  predicate FileShaped(fr: FileResolver, f: string, id: nat, syms: map<string, nat>) {
    ModuleName(f) in syms && LinksShaped(fr(f, id), id, syms[ModuleName(f)], syms)
  }

  /** Pass 2 over files whose own links are shaped leaves shaped links behind. */
  lemma {:induction false} PassFoldShaped(fr: FileResolver, fs: seq<string>, syms: map<string, nat>, next: nat, k: nat)
    requires k <= |fs|
    requires forall i, id :: 0 <= i < |fs| ==> FileShaped(fr, fs[i], id, syms)
    ensures PassShaped(PassFold(fr, fs, next, k), next, fs, syms)
  {
    if k > 0 {
      var l := PassFold(fr, fs, next, k - 1);
      PassFoldShaped(fr, fs, syms, next, k - 1);
      var id := next + |l.nodes|;
      assert FileShaped(fr, fs[k - 1], id, syms);
      PassShapedThen(l, fr(fs[k - 1], id), next, fs, k - 1, syms);
      assert PassFold(fr, fs, next, k) == LinksThen(l, fr(fs[k - 1], id));
    }
  }

  /** Everything pass 2 appends is shaped. */
  lemma PassTwoShaped(env: Env, fs: seq<string>, trees: map<string, TsNode>, sources: map<string, Bytes>,
                      syms: map<string, nat>, next: nat)
    requires FilesResolvable(fs, trees, sources, syms)
    ensures PassShaped(PassTwo(env, fs, trees, sources, syms, next), next, fs, syms)
  {
    var fr := FileResolverOf(env, trees, sources, syms);
    forall i, id | 0 <= i < |fs| ensures FileShaped(fr, fs[i], id, syms) {
      assert ModuleName(fs[i]) in syms;
      FileLinksShaped(env, sources[fs[i]], syms, ModuleName(fs[i]), trees[fs[i]], id);
    }
    PassFoldShaped(fr, fs, syms, next, |fs|);
  }
}
