/**
 * The two-pass code-graph builder. Pass 1 (`FirstPass`) adds one Module
 * node per file and walks its syntax tree, registering classes,
 * functions/methods, control-flow statements, assignments, decorators and
 * docstrings with a CONTAINS edge each, then fills in the module path of
 * the file's subtree. Pass 2 (`SecondPass`) walks every file again and adds
 * IMPORTS and CALLS edges from the module node.
 *
 * `nodes` is both `graph["nodes"]` and `node_by_id`: the node with id `i`
 * is `nodes[i]`, so a write through `node_by_id` is a write to `nodes`.
 */
module GraphBuilder {
  import opened Wrappers
  import opened PyStr
  import opened SyntaxTree
  import opened EntityExtractor
  import opened GraphMetadata
  import opened GraphSpec

  class CodeGraphBuilder {
    const env: Env
    /** The absolute repository root, when paths are to be stored relative to it. */
    const rootDir: Option<string>

    var nodes: seq<Node>
    var edges: seq<Edge>
    /** The next id `node_ids` hands out. */
    var nextId: nat
    /** `symbol_table`: qualified name to node id. */
    var symbols: map<string, nat>
    /** `parents`: child id to parent id, for CONTAINS edges. */
    var parents: map<nat, nat>
    var fileSources: map<string, Bytes>
    var astTrees: map<string, TsNode>
    /** The keys of `ast_trees` in insertion order. */
    var fileOrder: seq<string>

    /** Node ids are 0, 1, 2, ... in creation order, and `nextId` is the next one. */
    ghost predicate NodesIndexed()
      reads this
    {
      nextId == |nodes| && forall i :: 0 <= i < |nodes| ==> nodes[i].id == i
    }

    /** Every edge joins two existing nodes and carries their sids. */
    ghost predicate EdgesInRange()
      reads this
    {
      EdgesFit(nodes, edges)
    }

    /** The CONTAINS edges form a forest hanging from Module nodes. */
    ghost predicate ContainsForest()
      reads this
    {
      ForestOf(nodes, edges)
    }

    /** The files seen so far: each has its source, its tree and its module name in the symbol table. */
    ghost predicate FilesKnown()
      reads this
    {
      FilesKnownOf(fileOrder, astTrees, fileSources, symbols)
    }

    ghost predicate Valid()
      reads this
    {
      && NodesIndexed()
      && EdgesInRange()
      && ContainsForest()
      && parents == ParentIndex(Arcs(edges))
      && (forall q :: q in symbols ==> symbols[q] < |nodes|)
      && FilesKnown()
    }

    /**
     * What a walk of pass 1 leaves behind: the records of its entries
     * appended to the nodes (numbered on from the old node count), their
     * CONTAINS edges appended, and their qualified names registered.
     */
    ghost predicate Extends(nodes0: seq<Node>, arcs0: seq<Arc>, symbols0: map<string, nat>, src: Bytes, es: seq<Entry>)
      reads this
    {
      && nodes == nodes0 + EntryNodes(env, src, es, |nodes0|)
      && Arcs(edges) == arcs0 + EntryArcs(es, |nodes0|)
      && symbols == SymbolsAfter(symbols0, EntryNodes(env, src, es, |nodes0|))
    }

    constructor (env: Env, rootDir: Option<string>)
      ensures Valid()
      ensures this.env == env && this.rootDir == rootDir
      ensures nodes == [] && edges == [] && nextId == 0 && symbols == map[] && parents == map[]
      ensures fileSources == map[] && astTrees == map[] && fileOrder == []
    {
      this.env := env;
      this.rootDir := rootDir;
      nodes := [];
      edges := [];
      nextId := 0;
      symbols := map[];
      parents := map[];
      fileSources := map[];
      astTrees := map[];
      fileOrder := [];
    }

    /**
     * `add_node`: take the next id, build the node record (its attributes,
     * its sid, no parent) and append it.
     */
    method AddNode(l: Label, a: Attrs) returns (id: nat)
      modifies this
      ensures id == old(nextId) && nextId == old(nextId) + 1
      ensures nodes == old(nodes) + [MakeNode(env, id, l, a)]
      ensures edges == old(edges) && symbols == old(symbols) && parents == old(parents)
      ensures fileSources == old(fileSources) && astTrees == old(astTrees) && fileOrder == old(fileOrder)
      ensures old(Valid()) ==> Valid()
    {
      id := nextId;
      nextId := nextId + 1;
      nodes := nodes + [MakeNode(env, id, l, a)];
      assert forall i :: 0 <= i < |old(nodes)| ==> SidAt(nodes, i) == SidAt(old(nodes), i);
    }

    /**
     * `add_edge`: append one edge carrying the sids of its endpoints (None
     * for an unknown id). Only a CONTAINS edge records the parent, in
     * `parents` and in the target's `parent_id`.
     */
    method AddEdge(src: nat, dst: nat, kind: EdgeKind)
      requires Valid()
      modifies this
      ensures edges == old(edges) + [Edge(src, dst, kind, SidAt(old(nodes), src), SidAt(old(nodes), dst))]
      ensures Arcs(edges) == Arcs(old(edges)) + [Arc(src, dst, kind)]
      ensures kind == Contains ==> parents == old(parents)[dst := src]
      ensures kind == Contains ==>
                nodes == if dst < |old(nodes)| then old(nodes)[dst := old(nodes)[dst].(parentId := Some(src))] else old(nodes)
      ensures kind != Contains ==> parents == old(parents) && nodes == old(nodes)
      ensures nextId == old(nextId) && symbols == old(symbols)
      ensures fileSources == old(fileSources) && astTrees == old(astTrees) && fileOrder == old(fileOrder)
      ensures kind != Contains && src < |old(nodes)| && dst < |old(nodes)| ==> Valid()
      ensures (&& kind == Contains && src < dst && dst + 1 == |old(nodes)|
               && old(nodes)[dst].nodeLabel != Module
               && (forall k :: 0 <= k < |old(edges)| ==> old(edges)[k].target < dst)) ==> Valid()
    {
      var e := Edge(src, dst, kind, SidAt(nodes, src), SidAt(nodes, dst));
      ArcsSnoc(edges, e);
      if kind == Contains {
        if dst < |nodes| {
          ContainsSnoc(nodes, edges, src, dst);
        }
        edges, parents, nodes := edges + [e], parents[dst := src],
          if dst < |nodes| then nodes[dst := nodes[dst].(parentId := Some(src))] else nodes;
      } else {
        CrossSnoc(nodes, edges, src, dst, kind);
        edges := edges + [e];
      }
    }

    /** Record a qualified name in the symbol table (a later definition replaces an earlier one). */
    method Define(qname: string, id: nat)
      requires Valid() && id < |nodes|
      modifies this
      ensures symbols == old(symbols)[qname := id]
      ensures nodes == old(nodes) && edges == old(edges) && nextId == old(nextId) && parents == old(parents)
      ensures fileSources == old(fileSources) && astTrees == old(astTrees) && fileOrder == old(fileOrder)
      ensures Valid()
    {
      FilesKnownGrow(fileOrder, astTrees, fileSources, symbols, qname, id);
      symbols := symbols[qname := id];
      assert NodesIndexed() && EdgesInRange() && ContainsForest();
    }

    /** The anchor a walk from node `parentId` with scope `scope` starts from. */
    ghost function AnchorAt(parentId: nat, scope: string): Anchor
      reads this
      requires parentId < |nodes|
    {
      Anchor(parentId, nodes[parentId].nodeLabel, scope)
    }

    /**
     * `_register_defs(n, src, parentId, scope)`: appends exactly the records
     * and CONTAINS edges of the entries of `Walk`, and registers their
     * qualified names.
     */
    method RegisterDefs(n: TsNode, ctx: Context, src: Bytes, parentId: nat, scope: string)
      requires Valid() && parentId < |nodes|
      modifies this
      ensures Valid()
      ensures Extends(old(nodes), Arcs(old(edges)), old(symbols), src,
                      Walk(env.decode, ctx, n, src, old(nextId), old(AnchorAt(parentId, scope))))
      ensures fileSources == old(fileSources) && astTrees == old(astTrees) && fileOrder == old(fileOrder)
      decreases n, 2
    {
      if IsClass(n) || IsFunction(n) {
        RegisterDefinition(n, ctx, src, parentId, scope);
      } else if IsControlFlow(n) {
        RegisterControlFlow(n, ctx, src, parentId, scope);
      } else if IsAssignment(n) || IsDecorator(n) || IsDocstring(env.decode, n, ctx, src) {
        RegisterLeaf(n, ctx, src, parentId, scope);
      } else {
        RegisterChildren(n, ctx, src, parentId, scope);
      }
    }

    /**
     * A class or function: its node (a Method when the parent node is a
     * Class), its qualified name in the symbol table, its CONTAINS edge,
     * then its children with the qualified name as scope.
     */
    method RegisterDefinition(n: TsNode, ctx: Context, src: Bytes, parentId: nat, scope: string)
      requires Valid() && parentId < |nodes| && (IsClass(n) || IsFunction(n))
      modifies this
      ensures Valid()
      ensures Extends(old(nodes), Arcs(old(edges)), old(symbols), src,
                      Walk(env.decode, ctx, n, src, old(nextId), old(AnchorAt(parentId, scope))))
      ensures fileSources == old(fileSources) && astTrees == old(astTrees) && fileOrder == old(fileOrder)
      decreases n, 1
    {
      ghost var next := nextId;
      ghost var a := AnchorAt(parentId, scope);
      var lines := TsLines(n);
      var name := GetName(env.decode, n, src);
      var qname := scope + "." + name;
      var doc := GetDocstringText(env.decode, n, src);
      var parentLabel := nodes[parentId].nodeLabel;
      var l := NestedLabel(n, parentLabel);
      var sig := if l == Class then None else SignatureOf(env.decode, n, src);
      var attrs := NoAttrs.(
        name := Some(name), qualifiedName := Some(qname), code := Some(GetCode(env.decode, n, src)),
        signature := sig, docstring := doc, startLine := Some(lines.0), endLine := Some(lines.1));
      ghost var e := Entry(n, l, parentId, scope);
      DefinitionAttrs(env.decode, src, e, name, qname, doc, sig, lines, attrs);
      SingleEntry(env, src, e, next, symbols);
      ghost var nd := Build(env, src, e, next);
      assert nd == MakeNode(env, next, l, attrs).(parentId := Some(parentId));
      SnocUpdate(nodes, MakeNode(env, next, l, attrs), nd);
      var defId := AddNode(l, attrs);
      Define(qname, defId);
      AddEdge(parentId, defId, Contains);
      ghost var n1, a1, s1 := nodes, Arcs(edges), symbols;
      ghost var kids := WalkChildren(env.decode, ctx, n, |n.children|, src, nextId, AnchorAt(defId, qname));
      WalkNested(env.decode, ctx, n, src, next, a, e, nextId, AnchorAt(defId, qname), kids);
      RegisterChildren(n, ctx, src, defId, qname);
      ExtendsTrans(env, src, old(nodes), Arcs(old(edges)), old(symbols), n1, a1, s1, nodes, Arcs(edges), symbols, [e], kids);
    }

    /** A control-flow statement: its node and CONTAINS edge, then its children in the same scope. */
    method RegisterControlFlow(n: TsNode, ctx: Context, src: Bytes, parentId: nat, scope: string)
      requires Valid() && parentId < |nodes| && IsControlFlow(n) && !IsClass(n) && !IsFunction(n)
      modifies this
      ensures Valid()
      ensures Extends(old(nodes), Arcs(old(edges)), old(symbols), src,
                      Walk(env.decode, ctx, n, src, old(nextId), old(AnchorAt(parentId, scope))))
      ensures fileSources == old(fileSources) && astTrees == old(astTrees) && fileOrder == old(fileOrder)
      decreases n, 1
    {
      ghost var next := nextId;
      ghost var a := AnchorAt(parentId, scope);
      ghost var e := Entry(n, NestedLabel(n, a.parentLabel), parentId, scope);
      var lines := TsLines(n);
      var attrs := NoAttrs.(code := Some(GetCode(env.decode, n, src)), startLine := Some(lines.0), endLine := Some(lines.1));
      assert attrs == EntryAttrs(env.decode, src, e) && ControlFlowLabel(n) == e.nodeLabel && scope == ScopeBelow(env.decode, src, e);
      SingleEntry(env, src, e, next, symbols);
      ghost var nd := Build(env, src, e, next);
      assert nd == MakeNode(env, next, ControlFlowLabel(n), attrs).(parentId := Some(parentId));
      SnocUpdate(nodes, MakeNode(env, next, ControlFlowLabel(n), attrs), nd);
      var cfId := AddNode(ControlFlowLabel(n), attrs);
      AddEdge(parentId, cfId, Contains);
      ghost var n1, a1, s1 := nodes, Arcs(edges), symbols;
      ghost var kids := WalkChildren(env.decode, ctx, n, |n.children|, src, nextId, AnchorAt(cfId, scope));
      WalkNested(env.decode, ctx, n, src, next, a, e, nextId, AnchorAt(cfId, scope), kids);
      RegisterChildren(n, ctx, src, cfId, scope);
      ExtendsTrans(env, src, old(nodes), Arcs(old(edges)), old(symbols), n1, a1, s1, nodes, Arcs(edges), symbols, [e], kids);
    }

    /** An assignment, decorator or docstring: one node and its CONTAINS edge; not walked into. */
    method RegisterLeaf(n: TsNode, ctx: Context, src: Bytes, parentId: nat, scope: string)
      requires Valid() && parentId < |nodes| && !IsClass(n) && !IsFunction(n) && !IsControlFlow(n)
      requires IsAssignment(n) || IsDecorator(n) || IsDocstring(env.decode, n, ctx, src)
      modifies this
      ensures Valid()
      ensures Extends(old(nodes), Arcs(old(edges)), old(symbols), src,
                      Walk(env.decode, ctx, n, src, old(nextId), old(AnchorAt(parentId, scope))))
      ensures fileSources == old(fileSources) && astTrees == old(astTrees) && fileOrder == old(fileOrder)
    {
      ghost var next := nextId;
      ghost var e := Entry(n, LeafLabel(n), parentId, scope);
      var lines := TsLines(n);
      var attrs := NoAttrs.(code := Some(GetCode(env.decode, n, src)), startLine := Some(lines.0), endLine := Some(lines.1));
      assert attrs == EntryAttrs(env.decode, src, e);
      SingleEntry(env, src, e, next, symbols);
      ghost var nd := Build(env, src, e, next);
      assert nd == MakeNode(env, next, LeafLabel(n), attrs).(parentId := Some(parentId));
      SnocUpdate(nodes, MakeNode(env, next, LeafLabel(n), attrs), nd);
      var leafId := AddNode(LeafLabel(n), attrs);
      AddEdge(parentId, leafId, Contains);
    }

    /** `for child in node.children: self._register_defs(child, ...)` */
    method RegisterChildren(n: TsNode, ctx: Context, src: Bytes, parentId: nat, scope: string)
      requires Valid() && parentId < |nodes|
      modifies this
      ensures Valid()
      ensures Extends(old(nodes), Arcs(old(edges)), old(symbols), src,
                      WalkChildren(env.decode, ctx, n, |n.children|, src, old(nextId), old(AnchorAt(parentId, scope))))
      ensures fileSources == old(fileSources) && astTrees == old(astTrees) && fileOrder == old(fileOrder)
      decreases n, 0
    {
      ghost var a := AnchorAt(parentId, scope);
      ghost var done: seq<Entry> := [];
      assert EntryNodes(env, src, [], nextId) == [] && EntryArcs([], nextId) == [];
      var i := 0;
      while i < |n.children|
        invariant 0 <= i <= |n.children|
        invariant Valid() && parentId < |nodes| && AnchorAt(parentId, scope) == a
        invariant done == WalkChildren(env.decode, ctx, n, i, src, old(nextId), a)
        invariant Extends(old(nodes), Arcs(old(edges)), old(symbols), src, done)
        invariant fileSources == old(fileSources) && astTrees == old(astTrees) && fileOrder == old(fileOrder)
      {
        done := RegisterChild(n, ctx, i, src, parentId, scope, old(nodes), Arcs(old(edges)), old(symbols), done);
        i := i + 1;
      }
    }

    /**
     * One round of the loop over the children: `_register_defs` on child
     * `i`, whose walk is appended to the entries `done` of the children
     * before it.
     */
    method RegisterChild(n: TsNode, ctx: Context, i: nat, src: Bytes, parentId: nat, scope: string,
                         ghost n0: seq<Node>, ghost a0: seq<Arc>, ghost s0: map<string, nat>, ghost done: seq<Entry>)
      returns (ghost done': seq<Entry>)
      requires Valid() && parentId < |n0| <= |nodes| && i < |n.children|
      requires done == WalkChildren(env.decode, ctx, n, i, src, |n0|, AnchorAt(parentId, scope))
      requires Extends(n0, a0, s0, src, done)
      modifies this
      ensures Valid() && parentId < |nodes| && AnchorAt(parentId, scope) == old(AnchorAt(parentId, scope))
      ensures done' == WalkChildren(env.decode, ctx, n, i + 1, src, |n0|, old(AnchorAt(parentId, scope)))
      ensures Extends(n0, a0, s0, src, done')
      ensures fileSources == old(fileSources) && astTrees == old(astTrees) && fileOrder == old(fileOrder)
      decreases n, 0, |n.children| - i
    {
      ghost var n1, a1, s1 := nodes, Arcs(edges), symbols;
      ghost var w := Walk(env.decode, ChildContext(n, ctx, i), n.children[i], src, nextId, AnchorAt(parentId, scope));
      WalkChildrenSnoc(env.decode, ctx, n, i, src, |n0|, AnchorAt(parentId, scope), done, nextId, w);
      RegisterDefs(n.children[i], ChildContext(n, ctx, i), src, parentId, scope);
      ExtendsTrans(env, src, n0, a0, s0, n1, a1, s1, nodes, Arcs(edges), symbols, done, w);
      done' := done + w;
    }

    /**
     * `file_sources[f] = source; ast_trees[f] = tree`: a new file joins the
     * end of the file order, a seen one keeps its place.
     */
    method RegisterFile(filePath: string, source: Bytes, tree: TsNode)
      requires Valid() && ModuleName(filePath) in symbols
      modifies this
      ensures fileSources == old(fileSources)[filePath := source] && astTrees == old(astTrees)[filePath := tree]
      ensures fileOrder == if filePath in old(astTrees) then old(fileOrder) else old(fileOrder) + [filePath]
      ensures nodes == old(nodes) && edges == old(edges) && nextId == old(nextId)
      ensures symbols == old(symbols) && parents == old(parents)
      ensures Valid()
    {
      if filePath in astTrees {
        FilesKnownAddSeen(fileOrder, astTrees, fileSources, symbols, filePath, source, tree);
      } else {
        FilesKnownAddNew(fileOrder, astTrees, fileSources, symbols, filePath, source, tree);
        fileOrder := fileOrder + [filePath];
      }
      fileSources, astTrees := fileSources[filePath := source], astTrees[filePath := tree];
      assert NodesIndexed() && EdgesInRange() && ContainsForest();
    }

    /**
     * The start of `first_pass`: the file's source and tree recorded, its
     * Module node added and registered under the module name.
     */
    method AddModule(filePath: string, source: Bytes, tree: TsNode, path: string, absPath: string) returns (moduleId: nat)
      requires Valid()
      modifies this
      ensures moduleId == |old(nodes)| && nextId == moduleId + 1
      ensures nodes == old(nodes) + [ModuleNode(env, moduleId, ModuleName(filePath), path, absPath, env.decode(source))]
      ensures edges == old(edges) && parents == old(parents)
      ensures symbols == old(symbols)[ModuleName(filePath) := moduleId]
      ensures fileSources == old(fileSources)[filePath := source] && astTrees == old(astTrees)[filePath := tree]
      ensures fileOrder == if filePath in old(astTrees) then old(fileOrder) else old(fileOrder) + [filePath]
      ensures Valid()
    {
      var m := ModuleName(filePath);
      var text := env.decode(source);
      var attrs := NoAttrs.(
        name := Some(m), qualifiedName := Some(m), code := Some(text), path := Some(path),
        pathAbs := Some(absPath), modulePath := Some(path), startLine := Some(1), endLine := Some(CountChar(text, '\n') + 1));
      assert MakeNode(env, nextId, Module, attrs) == ModuleNode(env, nextId, m, path, absPath, text);
      moduleId := AddNode(Module, attrs);
      Define(m, moduleId);
      RegisterFile(filePath, source, tree);
    }

    /**
     * `first_pass(file_path)` on the file's bytes and parse tree: a Module
     * node named after the file, registered under that name, then the
     * definitions and statements of its tree, then the module path of its
     * subtree. `relPath` and `absPath` are the file's path relative to the
     * root directory and its absolute path.
     */
    method FirstPass(filePath: string, source: Bytes, tree: TsNode, relPath: string, absPath: string)
      requires Valid()
      modifies this
      ensures Valid()
      ensures var id := |old(nodes)|;
              var m := ModuleName(filePath);
              var path := if rootDir.Some? then relPath else absPath;
              var es := Walk(env.decode, RootContext, tree, source, id + 1, Anchor(id, Module, m));
              && nodes == Propagated(old(nodes) + [ModuleNode(env, id, m, path, absPath, env.decode(source))]
                                      + EntryNodes(env, source, es, id + 1), Arcs(edges), id, Some(path))
              && Arcs(edges) == Arcs(old(edges)) + EntryArcs(es, id + 1)
              && symbols == SymbolsAfter(old(symbols)[m := id], EntryNodes(env, source, es, id + 1))
      ensures |nodes| > |old(nodes)| && nodes[..|old(nodes)|] == old(nodes)
      ensures forall i :: |old(nodes)| <= i < |nodes| ==>
                nodes[i].modulePath == Some(if rootDir.Some? then relPath else absPath)
      ensures fileSources == old(fileSources)[filePath := source] && astTrees == old(astTrees)[filePath := tree]
      ensures fileOrder == if filePath in old(astTrees) then old(fileOrder) else old(fileOrder) + [filePath]
    {
      var path := if rootDir.Some? then relPath else absPath;
      var m := ModuleName(filePath);
      ghost var id := nextId;
      var moduleId := AddModule(filePath, source, tree, path, absPath);
      ghost var n1 := nodes;
      WalkModule(tree, source, moduleId, m, path);
      assert nodes[..id] == n1[..id] == old(nodes);
    }

    /**
     * The rest of `first_pass`, once the Module node `moduleId` is the
     * newest node: the definitions and statements of the tree under it,
     * then the module path of its subtree.
     */
    method WalkModule(tree: TsNode, source: Bytes, moduleId: nat, m: string, path: string)
      requires Valid() && moduleId + 1 == |nodes|
      requires nodes[moduleId].nodeLabel == Module && nodes[moduleId].path == Some(path)
      modifies this
      ensures Valid()
      ensures var es := Walk(env.decode, RootContext, tree, source, moduleId + 1, Anchor(moduleId, Module, m));
              && nodes == Propagated(old(nodes) + EntryNodes(env, source, es, moduleId + 1), Arcs(edges), moduleId, Some(path))
              && Arcs(edges) == Arcs(old(edges)) + EntryArcs(es, moduleId + 1)
              && symbols == SymbolsAfter(old(symbols), EntryNodes(env, source, es, moduleId + 1))
      ensures |nodes| > moduleId && nodes[..moduleId] == old(nodes)[..moduleId]
      ensures forall i :: moduleId <= i < |nodes| ==> nodes[i].modulePath == Some(path)
      ensures fileSources == old(fileSources) && astTrees == old(astTrees) && fileOrder == old(fileOrder)
    {
      ghost var n1, a1 := nodes, Arcs(edges);
      ghost var a := AnchorAt(moduleId, m);
      ghost var es := Walk(env.decode, RootContext, tree, source, moduleId + 1, a);
      RegisterDefs(tree, RootContext, source, moduleId, m);
      ghost var n2, a2 := nodes, Arcs(edges);
      ghost var added := EntryNodes(env, source, es, moduleId + 1);
      assert n2 == n1 + added && a2 == a1 + EntryArcs(es, moduleId + 1);
      AppendKeeps(n1, added, n2, moduleId);
      PropagateModule(moduleId);
      WalkPropagated(env.decode, RootContext, tree, source, a, n2, a1, a2, Some(path), nodes);
    }

    /** The CONTAINS edges of a valid builder form a forest in which no Module node has a parent. */
    lemma ForestAt(root: nat)
      requires Valid() && root < |nodes| && nodes[root].nodeLabel == Module
      ensures RootedForest(Arcs(edges), |nodes|, root)
    {
      var arcs := Arcs(edges);
      forall j | 0 <= j < |arcs| && arcs[j].kind == Contains
        ensures arcs[j].source < arcs[j].target < |nodes| && arcs[j].target != root
      {
        assert arcs[j] == ArcOf(edges[j]);
      }
    }

    /** `children = defaultdict(list)` filled from the CONTAINS edges, in edge order. */
    method IndexChildren() returns (children: map<nat, seq<nat>>)
      ensures children == ChildIndex(Arcs(edges))
    {
      ghost var arcs := Arcs(edges);
      children := map[];
      var k := 0;
      while k < |edges|
        invariant k <= |edges| && children == ChildIndex(arcs[..k])
      {
        assert arcs[..k + 1][..k] == arcs[..k] && arcs[..k + 1][k] == ArcOf(edges[k]);
        if edges[k].kind == Contains {
          children := children[edges[k].source := Lookup(children, edges[k].source) + [edges[k].target]];
        }
        k := k + 1;
      }
      assert arcs[..|edges|] == arcs;
    }

    /**
     * `_propagate_module(root)`: index the CONTAINS edges by source, then
     * visit the subtree of `root` from an explicit stack, setting `module`
     * on every visited node to the root's `path`.
     */
    method PropagateModule(root: nat)
      requires Valid() && root < |nodes| && nodes[root].nodeLabel == Module
      modifies this
      ensures nodes == Propagated(old(nodes), Arcs(edges), root, old(nodes)[root].path)
      ensures edges == old(edges) && nextId == old(nextId) && symbols == old(symbols) && parents == old(parents)
      ensures fileSources == old(fileSources) && astTrees == old(astTrees) && fileOrder == old(fileOrder)
      ensures Valid()
    {
      ghost var n0 := nodes;
      ghost var arcs := Arcs(edges);
      var modPath := nodes[root].path;
      ForestAt(root);
      var children := IndexChildren();
      var stack: seq<nat> := [root];
      ghost var done: set<nat> := {};
      FrontierStart(arcs, root, |n0|, children);
      while stack != []
        invariant Valid() && Frontier(arcs, root, |n0|, children, stack, done)
        invariant |nodes| == |n0|
        invariant forall i :: 0 <= i < |n0| ==> nodes[i] == if i in done then n0[i].(modulePath := modPath) else n0[i]
        invariant edges == old(edges) && nextId == old(nextId) && symbols == old(symbols) && parents == old(parents)
        invariant fileSources == old(fileSources) && astTrees == old(astTrees) && fileOrder == old(fileOrder)
        decreases Below(|n0|) - done
      {
        var cur := stack[|stack| - 1];
        ChildIndexSpec(arcs, cur);
        ChildIndexDistinct(arcs, cur);
        FrontierStep(arcs, root, |n0|, children, stack, done);
        SetModule(cur, modPath);
        stack := stack[..|stack| - 1] + Lookup(children, cur);
        done := done + {cur};
      }
      forall i | 0 <= i < |n0| ensures nodes[i] == Propagated(n0, arcs, root, modPath)[i] {
        FrontierEnd(arcs, root, |n0|, children, done, i);
      }
    }

    /** `node_by_id[i]["module"] = path`: only that node's module path changes. */
    method SetModule(i: nat, path: Option<string>)
      requires Valid() && i < |nodes|
      modifies this
      ensures nodes == old(nodes)[i := old(nodes)[i].(modulePath := path)]
      ensures edges == old(edges) && nextId == old(nextId) && symbols == old(symbols) && parents == old(parents)
      ensures fileSources == old(fileSources) && astTrees == old(astTrees) && fileOrder == old(fileOrder)
      ensures Valid()
    {
      nodes := nodes[i := nodes[i].(modulePath := path)];
      assert forall k :: SidAt(nodes, k) == SidAt(old(nodes), k);
      assert NodesIndexed() && EdgesInRange() && ContainsForest();
      assert FilesKnown();
    }

    // ------------------------------------------------------------- pass 2

    /** What pass 2 leaves behind: the links' nodes and arcs appended to the given ones. */
    ghost predicate Appended(nodes0: seq<Node>, arcs0: seq<Arc>, l: Links)
      reads this
    {
      nodes == nodes0 + l.nodes && Arcs(edges) == arcs0 + l.arcs
    }

    /**
     * `_resolve_edges` on an import statement or a call: an Import node and
     * an IMPORTS edge to it, or a CALLS edge to the symbol the callee
     * resolves to, or to a new ExternalFunction node.
     */
    method ResolveSite(s: TsNode, src: Bytes, parentId: nat, scope: string)
      requires Valid() && parentId < |nodes| && (IsImport(s) || IsCall(s))
      modifies this
      ensures Valid()
      ensures Appended(old(nodes), Arcs(old(edges)), SiteLinks(env, src, symbols, parentId, scope, s, old(nextId)))
      ensures symbols == old(symbols) && parents == old(parents)
      ensures fileSources == old(fileSources) && astTrees == old(astTrees) && fileOrder == old(fileOrder)
    {
      ghost var l := SiteLinks(env, src, symbols, parentId, scope, s, nextId);
      if IsImport(s) {
        var lines := TsLines(s);
        var attrs := NoAttrs.(code := Some(Strip(GetCode(env.decode, s, src))), startLine := Some(lines.0), endLine := Some(lines.1));
        assert MakeNode(env, nextId, Import, attrs) == ImportNode(env, s, src, nextId);
        var importId := AddNode(Import, attrs);
        AddEdge(parentId, importId, Imports);
      } else {
        var callName := ExtractCalledName(env.decode, s, src);
        var funcName := if Present(callName) then callName.value else BeforeFirst(Strip(GetCode(env.decode, s, src)), '(');
        assert funcName == FuncName(env.decode, s, src);
        var sameScope := scope + "." + funcName;
        if sameScope in symbols {
          AddEdge(parentId, symbols[sameScope], Calls);
        } else if funcName in symbols {
          AddEdge(parentId, symbols[funcName], Calls);
        } else {
          var extId := AddNode(ExternalFunction, NoAttrs.(name := Some(funcName), qualifiedName := Some(funcName)));
          AddEdge(parentId, extId, Calls);
        }
      }
    }

    /**
     * `_resolve_edges(n, src, parentId, scope)`: appends exactly what
     * resolving the sites of `n` one after the other appends.
     */
    method ResolveEdges(n: TsNode, src: Bytes, parentId: nat, scope: string)
      requires Valid() && parentId < |nodes|
      modifies this
      ensures Valid()
      ensures Appended(old(nodes), Arcs(old(edges)), SitesLinks(SiteResolver(env, src, symbols, parentId, scope), Sites(n), old(nextId)))
      ensures symbols == old(symbols) && parents == old(parents)
      ensures fileSources == old(fileSources) && astTrees == old(astTrees) && fileOrder == old(fileOrder)
      decreases n, 1
    {
      ghost var step := SiteResolver(env, src, symbols, parentId, scope);
      if IsImport(n) || IsCall(n) {
        SiteLinksOne(step, n, nextId);
        ResolveSite(n, src, parentId, scope);
      } else {
        ResolveChildren(n, src, parentId, scope);
      }
    }

    /** `for child in node.children: self._resolve_edges(child, ...)` */
    method ResolveChildren(n: TsNode, src: Bytes, parentId: nat, scope: string)
      requires Valid() && parentId < |nodes|
      modifies this
      ensures Valid()
      ensures Appended(old(nodes), Arcs(old(edges)),
                       SitesLinks(SiteResolver(env, src, symbols, parentId, scope), SitesChildren(n, |n.children|), old(nextId)))
      ensures symbols == old(symbols) && parents == old(parents)
      ensures fileSources == old(fileSources) && astTrees == old(astTrees) && fileOrder == old(fileOrder)
      decreases n, 0
    {
      ghost var step := SiteResolver(env, src, symbols, parentId, scope);
      assert nodes == old(nodes) + [] && Arcs(edges) == Arcs(old(edges)) + [];
      var i := 0;
      while i < |n.children|
        invariant 0 <= i <= |n.children|
        invariant Valid() && parentId < |nodes| && step == SiteResolver(env, src, symbols, parentId, scope)
        invariant Appended(old(nodes), Arcs(old(edges)), SitesLinks(step, SitesChildren(n, i), old(nextId)))
        invariant symbols == old(symbols) && parents == old(parents)
        invariant fileSources == old(fileSources) && astTrees == old(astTrees) && fileOrder == old(fileOrder)
      {
        ResolveChild(n, i, src, parentId, scope, old(nodes), Arcs(old(edges)), step);
        i := i + 1;
      }
    }

    /** One round of the loop over the children: the sites of child `i` resolved after those before it. */
    method ResolveChild(n: TsNode, i: nat, src: Bytes, parentId: nat, scope: string,
                        ghost n0: seq<Node>, ghost a0: seq<Arc>, ghost step: Resolver)
      requires Valid() && parentId < |nodes| && i < |n.children|
      requires step == SiteResolver(env, src, symbols, parentId, scope)
      requires Appended(n0, a0, SitesLinks(step, SitesChildren(n, i), |n0|))
      modifies this
      ensures Valid() && parentId < |nodes|
      ensures Appended(n0, a0, SitesLinks(step, SitesChildren(n, i + 1), |n0|))
      ensures symbols == old(symbols) && parents == old(parents)
      ensures fileSources == old(fileSources) && astTrees == old(astTrees) && fileOrder == old(fileOrder)
      decreases n, 0, |n.children| - i
    {
      ghost var before := SitesLinks(step, SitesChildren(n, i), |n0|);
      assert nextId == |n0| + |before.nodes|;
      ChildLinks(step, n, i + 1, |n0|, nextId);
      ghost var n1, a1 := nodes, Arcs(edges);
      ResolveEdges(n.children[i], src, parentId, scope);
      LinksAppended(n0, a0, before, SitesLinks(step, Sites(n.children[i]), old(nextId)), n1, a1, nodes, Arcs(edges));
    }

    /**
     * `second_pass`: the files in the order they were first parsed, each
     * resolved from the module node registered under its module name and in
     * that scope.
     */
    method SecondPass()
      requires Valid()
      modifies this
      ensures Valid()
      ensures Appended(old(nodes), Arcs(old(edges)), PassTwo(env, fileOrder, astTrees, fileSources, symbols, old(nextId)))
      ensures PassShaped(PassTwo(env, fileOrder, astTrees, fileSources, symbols, old(nextId)), old(nextId), fileOrder, symbols)
      ensures symbols == old(symbols) && parents == old(parents)
      ensures fileSources == old(fileSources) && astTrees == old(astTrees) && fileOrder == old(fileOrder)
    {
      ghost var fr := FileResolverOf(env, astTrees, fileSources, symbols);
      assert nodes == old(nodes) + [] && Arcs(edges) == Arcs(old(edges)) + [];
      var i := 0;
      while i < |fileOrder|
        invariant 0 <= i <= |fileOrder|
        invariant Valid() && fr == FileResolverOf(env, astTrees, fileSources, symbols)
        invariant Appended(old(nodes), Arcs(old(edges)), PassFold(fr, fileOrder, old(nextId), i))
        invariant symbols == old(symbols) && parents == old(parents)
        invariant fileSources == old(fileSources) && astTrees == old(astTrees) && fileOrder == old(fileOrder)
      {
        ResolveFile(i, old(nodes), Arcs(old(edges)), fr);
        i := i + 1;
      }
      PassTwoShaped(env, fileOrder, astTrees, fileSources, symbols, old(nextId));
    }

    /** One round of `second_pass`: the sites of file `i`, resolved after the files before it. */
    method ResolveFile(i: nat, ghost n0: seq<Node>, ghost a0: seq<Arc>, ghost fr: FileResolver)
      requires Valid() && i < |fileOrder|
      requires fr == FileResolverOf(env, astTrees, fileSources, symbols)
      requires Appended(n0, a0, PassFold(fr, fileOrder, |n0|, i))
      modifies this
      ensures fileSources == old(fileSources) && astTrees == old(astTrees) && fileOrder == old(fileOrder)
      ensures symbols == old(symbols) && parents == old(parents)
      ensures Valid()
      ensures Appended(n0, a0, PassFold(fr, fileOrder, |n0|, i + 1))
    {
      var filePath := fileOrder[i];
      var moduleName := ModuleName(filePath);
      assert filePath in astTrees && filePath in fileSources && moduleName in symbols;
      var moduleId := symbols[moduleName];
      ghost var before := PassFold(fr, fileOrder, |n0|, i);
      assert nextId == |n0| + |before.nodes|;
      PassFoldStep(fr, fileOrder, |n0|, i, nextId);
      FileResolverAt(env, astTrees, fileSources, symbols, filePath, nextId);
      ghost var n1, a1 := nodes, Arcs(edges);
      ResolveEdges(astTrees[filePath], fileSources[filePath], moduleId, moduleName);
      LinksAppended(n0, a0, before, fr(filePath, old(nextId)), n1, a1, nodes, Arcs(edges));
    }
  }
}
