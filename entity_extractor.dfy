/**
 * Recognisers and text extractors over tree-sitter Python nodes: which
 * grammar kinds count as classes, functions, imports, calls, control flow,
 * assignments, decorators and docstrings, and how names, signatures,
 * docstrings and callee names are read from a node and the source bytes.
 * UTF-8 decoding with errors ignored is the `decode` parameter.
 */
module EntityExtractor {
  import opened Wrappers
  import opened PyStr
  import opened SyntaxTree

  /** `bytes.decode("utf-8", errors="ignore")`, supplied by the caller. */
  type Decoder = Bytes -> string

  predicate IsClass(n: TsNode) { n.kind == "class_definition" }
  predicate IsFunction(n: TsNode) { n.kind == "function_definition" }
  predicate IsMethod(n: TsNode, parent: TsNode) { IsFunction(n) && parent.kind == "class_definition" }
  predicate IsImport(n: TsNode) { n.kind == "import_statement" || n.kind == "import_from_statement" }
  predicate IsCall(n: TsNode) { n.kind == "call" }
  predicate IsIf(n: TsNode) { n.kind == "if_statement" }
  predicate IsFor(n: TsNode) { n.kind == "for_statement" }
  predicate IsWhile(n: TsNode) { n.kind == "while_statement" }
  predicate IsTry(n: TsNode) { n.kind == "try_statement" }
  predicate IsWith(n: TsNode) { n.kind == "with_statement" }
  predicate IsAssignment(n: TsNode) { n.kind == "assignment" || n.kind == "augmented_assignment" }
  predicate IsDecorator(n: TsNode) { n.kind == "decorator" }

  /** A control-flow statement: if, for, while, try or with. */
  predicate IsControlFlow(n: TsNode) {
    IsIf(n) || IsFor(n) || IsWhile(n) || IsTry(n) || IsWith(n)
  }

  /**
   * The recognisers are mutually exclusive, so the order in which the graph
   * builder tries them never matters.
   */
  lemma RecognisersExclusive(n: TsNode)
    ensures IsClass(n) ==> !IsFunction(n) && !IsControlFlow(n) && !IsAssignment(n) && !IsDecorator(n) && !IsImport(n) && !IsCall(n)
    ensures IsFunction(n) ==> !IsControlFlow(n) && !IsAssignment(n) && !IsDecorator(n) && !IsImport(n) && !IsCall(n)
    ensures IsControlFlow(n) ==> !IsAssignment(n) && !IsDecorator(n) && !IsImport(n) && !IsCall(n)
    ensures IsAssignment(n) ==> !IsDecorator(n) && !IsImport(n) && !IsCall(n)
    ensures IsImport(n) ==> !IsCall(n) && n.kind != "string"
  {
  }

  /** `get_code`: the source bytes of the node's span, decoded. */
  function GetCode(decode: Decoder, n: TsNode, src: Bytes): (r: string)
    ensures n.startByte <= n.endByte <= |src| ==> r == decode(src[n.startByte..n.endByte])
  {
    decode(Slice(src, n.startByte, n.endByte))
  }

  /**
   * Where a node sits in the tree, the part `is_docstring` inspects: whether
   * it has a parent, the parent's kind, whether it is the parent's first
   * child, and whether the parent is the first child of its own parent.
   */
  datatype Context = Context(hasParent: bool, parentKind: string, isFirstChild: bool, parentIsFirstChild: bool)

  /** The context of the root node, which has no parent. */
  const RootContext := Context(false, "", false, false)

  /** The context of the `i`-th child of `parent`, itself in context `ctx`. */
  function ChildContext(parent: TsNode, ctx: Context, i: nat): Context {
    Context(true, parent.kind, i == 0, ctx.hasParent && ctx.isFirstChild)
  }

  predicate TripleQuoted(text: string) {
    StartsWith(text, "'''") || StartsWith(text, "\"\"\"")
  }

  /**
   * `is_docstring`: a `string` node with a parent, whose stripped text opens
   * with triple quotes, and which is its parent's first child or sits under
   * an `expression_statement` that is the grandparent's first child.
   */
  predicate IsDocstring(decode: Decoder, n: TsNode, ctx: Context, src: Bytes) {
    n.kind == "string" && ctx.hasParent && TripleQuoted(Strip(GetCode(decode, n, src)))
    && (ctx.isFirstChild || (ctx.parentKind == "expression_statement" && ctx.parentIsFirstChild))
  }

  /**
   * The docstring test by position: the `i`-th child of `p` is a docstring
   * iff it is a triple-quoted string and is either the first child, or the
   * first child of an `expression_statement` that is itself a first child.
   */
  lemma DocstringPosition(decode: Decoder, p: TsNode, ctx: Context, i: nat, src: Bytes)
    requires i < |p.children|
    ensures IsDocstring(decode, p.children[i], ChildContext(p, ctx, i), src)
            <==> p.children[i].kind == "string" && TripleQuoted(Strip(GetCode(decode, p.children[i], src)))
                 && (i == 0 || (p.kind == "expression_statement" && ctx.hasParent && ctx.isFirstChild))
  {
  }

  /**
   * A Python wrapper object of a tree node. py-tree-sitter builds a new
   * wrapper on every read of `.parent`, and a wrapper's `.children` list
   * holds wrappers built for that list, so a wrapper is a node together with
   * the number of the read that built it.
   */
  datatype Wrapper = Wrapper(node: TsNode, serial: nat)

  /** Python's `a is b`: one and the same wrapper object. */
  predicate Is(a: Wrapper, b: Wrapper) { a == b }

  /** `w.children[0]`, where `w` wraps `p` and its children list is built by read `serial`. */
  function FirstChildWrapper(p: TsNode, serial: nat): (r: Option<Wrapper>)
    ensures r.Some? <==> p.children != []
    ensures r.Some? ==> r.value.node == p.children[0] && r.value.serial == serial
  {
    if p.children == [] then None else Some(Wrapper(p.children[0], serial))
  }

  /**
   * `is_docstring` as written, with `is` on wrappers. `h` wraps the node and
   * was built before the call; the reads inside the call are numbered from
   * `next` on: `node.parent` (a wrapper of `parent`), `parent.children`,
   * `parent.parent` (a wrapper of `grand`) and its `.children`.
   */
  predicate IsDocstringAsWritten(decode: Decoder, h: Wrapper, parent: Option<TsNode>, grand: Option<TsNode>, src: Bytes, next: nat)
  {
    var n := h.node;
    n.kind == "string" && parent.Some? && TripleQuoted(Strip(GetCode(decode, n, src)))
    && var p := Wrapper(parent.value, next);
       var c := FirstChildWrapper(parent.value, next + 1);
       ((c.Some? && Is(c.value, h))
        || (parent.value.kind == "expression_statement" && grand.Some?
            && var g := FirstChildWrapper(grand.value, next + 3);
               g.Some? && Is(g.value, p)))
  }

  /**
   * The identity tests of `is_docstring` never hold: each compares a wrapper
   * built inside the call with one built earlier, so as written no node is a
   * docstring.
   */
  lemma DocstringIdentityFails(decode: Decoder, h: Wrapper, parent: Option<TsNode>, grand: Option<TsNode>, src: Bytes, next: nat)
    requires h.serial < next
    ensures !IsDocstringAsWritten(decode, h, parent, grand, src, next)
  {
  }

  /**
   * A module or block opening with `"""text"""`: its first statement is an
   * `expression_statement` whose first child is the string. By position it
   * is a docstring; as written it is not.
   */
  lemma DocstringsDiffer(decode: Decoder, block: TsNode, ctx: Context, src: Bytes, h: Wrapper, next: nat)
    requires block.children != [] && block.children[0].kind == "expression_statement"
    requires block.children[0].children != [] && block.children[0].children[0].kind == "string"
    requires TripleQuoted(Strip(GetCode(decode, block.children[0].children[0], src)))
    requires h.node == block.children[0].children[0] && h.serial < next
    ensures IsDocstring(decode, h.node, ChildContext(block.children[0], ChildContext(block, ctx, 0), 0), src)
    ensures !IsDocstringAsWritten(decode, h, Some(block.children[0]), Some(block), src, next)
  {
  }

  /** Index of the first node of the given kind in `cs`, or `|cs|`. */
  function FirstOfKind(cs: seq<TsNode>, kind: string): (i: nat)
    ensures i <= |cs|
    ensures i < |cs| ==> cs[i].kind == kind
    ensures forall j :: 0 <= j < i ==> cs[j].kind != kind
  {
    if cs == [] then 0 else if cs[0].kind == kind then 0 else 1 + FirstOfKind(cs[1..], kind)
  }

  /** The name `get_name` reads: the text of the first `identifier` child, or "". */
  function NameOf(decode: Decoder, n: TsNode, src: Bytes): string {
    var i := FirstOfKind(n.children, "identifier");
    if i < |n.children| then GetCode(decode, n.children[i], src) else ""
  }

  /** `get_name`: scan the children and return at the first identifier. */
  method GetName(decode: Decoder, n: TsNode, src: Bytes) returns (name: string)
    ensures name == NameOf(decode, n, src)
    ensures (forall j :: 0 <= j < |n.children| ==> n.children[j].kind != "identifier") ==> name == ""
    ensures (exists j :: 0 <= j < |n.children| && n.children[j].kind == "identifier") ==>
              exists j :: 0 <= j < |n.children| && n.children[j].kind == "identifier"
                          && name == GetCode(decode, n.children[j], src)
                          && forall k :: 0 <= k < j ==> n.children[k].kind != "identifier"
  {
    var i := 0;
    while i < |n.children|
      invariant 0 <= i <= |n.children|
      invariant forall j :: 0 <= j < i ==> n.children[j].kind != "identifier"
    {
      if n.children[i].kind == "identifier" {
        assert FirstOfKind(n.children, "identifier") == i;
        return GetCode(decode, n.children[i], src);
      }
      i := i + 1;
    }
    assert FirstOfKind(n.children, "identifier") == |n.children|;
    return "";
  }

  /**
   * `get_signature`: the name followed by the text of the `parameters`
   * field when there is one; otherwise the name, or None for an empty name.
   */
  function SignatureOf(decode: Decoder, n: TsNode, src: Bytes): (r: Option<string>)
    ensures ChildByField(n, "parameters").Some? ==>
              r == Some(NameOf(decode, n, src) + GetCode(decode, ChildByField(n, "parameters").value, src))
    ensures ChildByField(n, "parameters").None? ==>
              (r.None? <==> NameOf(decode, n, src) == "") && (r.Some? ==> r.value == NameOf(decode, n, src))
    ensures r.Some? ==> StartsWith(r.value, NameOf(decode, n, src))
  {
    var name := NameOf(decode, n, src);
    match ChildByField(n, "parameters")
    case Some(params) => Some(name + GetCode(decode, params, src))
    case None => if name == "" then None else Some(name)
  }

  /**
   * The docstring `get_docstring_text` reads: the first child of the first
   * `block` child, when that is a `string` or an `expression_statement`
   * whose first child is a `string`; stripped.
   */
  function DocstringOf(decode: Decoder, n: TsNode, src: Bytes): Option<string> {
    var b := FirstOfKind(n.children, "block");
    if b == |n.children| || n.children[b].children == [] then None
    else
      var first := n.children[b].children[0];
      if first.kind == "expression_statement" && first.children != [] && first.children[0].kind == "string" then
        Some(Strip(GetCode(decode, first.children[0], src)))
      else if first.kind == "string" then Some(Strip(GetCode(decode, first, src)))
      else None
  }

  /**
   * `get_docstring_text`: find the first block child, then look only at that
   * block's first statement.
   */
  method GetDocstringText(decode: Decoder, n: TsNode, src: Bytes) returns (doc: Option<string>)
    ensures doc == DocstringOf(decode, n, src)
    ensures doc.Some? ==> exists s: TsNode :: s.kind == "string" && doc.value == Strip(GetCode(decode, s, src))
    ensures (forall j :: 0 <= j < |n.children| ==> n.children[j].kind != "block") ==> doc.None?
  {
    var block: Option<TsNode> := None;
    var i := 0;
    while i < |n.children|
      invariant 0 <= i <= |n.children|
      invariant forall j :: 0 <= j < i ==> n.children[j].kind != "block"
      invariant block.None?
    {
      if n.children[i].kind == "block" {
        block := Some(n.children[i]);
        break;
      }
      i := i + 1;
    }
    assert block.Some? ==> i < |n.children| && block.value == n.children[i] && FirstOfKind(n.children, "block") == i;
    assert block.None? ==> FirstOfKind(n.children, "block") == |n.children|;
    if block.Some? && block.value.children != [] {
      var first := block.value.children[0];
      if first.kind == "expression_statement" && first.children != [] {
        var s := first.children[0];
        if s.kind == "string" {
          return Some(Strip(GetCode(decode, s, src)));
        }
      }
      if first.kind == "string" {
        return Some(Strip(GetCode(decode, first, src)));
      }
    }
    return None;
  }

  /**
   * The identifiers `walk` collects from a callee expression: an identifier
   * contributes its text; an attribute contributes its object's parts, then
   * its attribute identifier; a dotted name contributes its whole text as
   * one part; any other node contributes its children's parts in order.
   */
  function CalleeParts(decode: Decoder, n: TsNode, src: Bytes): (parts: seq<string>)
    decreases n, 1
  {
    var own := if n.kind == "identifier" then [GetCode(decode, n, src)] else [];
    if n.kind == "attribute" then
      var oi := FieldIndex(n, "object");
      var ai := FieldIndex(n, "attribute");
      own
      + (if oi < |n.children| then CalleeParts(decode, n.children[oi], src) else [])
      + (if ai < |n.children| && n.children[ai].kind == "identifier" then [GetCode(decode, n.children[ai], src)] else [])
    else if n.kind == "dotted_name" then own + [GetCode(decode, n, src)]
    else own + ChildrenParts(decode, n, |n.children|, src)
  }

  /** The parts collected from the first `k` children of `n`, in order. */
  function ChildrenParts(decode: Decoder, n: TsNode, k: nat, src: Bytes): seq<string>
    requires k <= |n.children|
    decreases n, 0, k
  {
    if k == 0 then [] else ChildrenParts(decode, n, k - 1, src) + CalleeParts(decode, n.children[k - 1], src)
  }

  /**
   * `extract_called_name`: None without a `function` field or when nothing
   * was collected; a single collected part containing a dot is returned as
   * it is, and otherwise the parts are joined with ".". Both branches give
   * the same string, so the result is always the parts joined with ".".
   */
  function ExtractCalledName(decode: Decoder, call: TsNode, src: Bytes): (r: Option<string>)
    ensures ChildByField(call, "function").None? ==> r.None?
    ensures ChildByField(call, "function").Some? ==>
              var parts := CalleeParts(decode, ChildByField(call, "function").value, src);
              (r.None? <==> parts == []) && (r.Some? ==> r.value == Join(".", parts))
  {
    match ChildByField(call, "function")
    case None => None
    case Some(f) =>
      var parts := CalleeParts(decode, f, src);
      if parts == [] then None
      else if |parts| == 1 && Contains(parts[0], ".") then Some(parts[0])
      else Some(Join(".", parts))
  }

  /**
   * `n` is an attribute chain over identifiers spelling `names`: a leaf
   * identifier spelling the one name, or an `attribute` whose `object` is a
   * chain spelling all names but the last and whose `attribute` is an
   * identifier spelling the last.
   */
  predicate AttributeChain(decode: Decoder, n: TsNode, src: Bytes, names: seq<string>)
    decreases n
  {
    if n.kind == "identifier" then n.children == [] && names == [GetCode(decode, n, src)]
    else
      var oi := FieldIndex(n, "object");
      var ai := FieldIndex(n, "attribute");
      n.kind == "attribute" && |names| >= 2 && oi < |n.children| && ai < |n.children|
      && n.children[ai].kind == "identifier" && GetCode(decode, n.children[ai], src) == names[|names| - 1]
      && AttributeChain(decode, n.children[oi], src, names[..|names| - 1])
  }

  /** The walk collects the names of an attribute chain, object before attribute. */
  lemma {:induction false} ChainParts(decode: Decoder, n: TsNode, src: Bytes, names: seq<string>)
    requires AttributeChain(decode, n, src, names)
    ensures CalleeParts(decode, n, src) == names
    decreases n
  {
    if n.kind == "identifier" {
      IdentifierParts(decode, n, src);
    } else {
      var init := names[..|names| - 1];
      AttributeParts(decode, n, src);
      ChainParts(decode, n.children[FieldIndex(n, "object")], src, init);
      assert names == init + [names[|names| - 1]];
    }
  }

  /** A leaf identifier: its own text is the one part. */
  lemma IdentifierParts(decode: Decoder, n: TsNode, src: Bytes)
    requires n.kind == "identifier" && n.children == []
    ensures CalleeParts(decode, n, src) == [GetCode(decode, n, src)]
  {
  }

  /** An attribute with an identifier for its attribute: the object's parts, then that name. */
  lemma AttributeParts(decode: Decoder, n: TsNode, src: Bytes)
    requires n.kind == "attribute"
    requires FieldIndex(n, "object") < |n.children| && FieldIndex(n, "attribute") < |n.children|
    requires n.children[FieldIndex(n, "attribute")].kind == "identifier"
    ensures CalleeParts(decode, n, src)
            == CalleeParts(decode, n.children[FieldIndex(n, "object")], src)
               + [GetCode(decode, n.children[FieldIndex(n, "attribute")], src)]
  {
  }

  /**
   * The callee of `obj.method.attr(...)`: the chain's names joined with
   * dots, the last name after the dotted name of the object.
   */
  lemma CalledNameOfChain(decode: Decoder, call: TsNode, src: Bytes, names: seq<string>)
    requires ChildByField(call, "function").Some?
    requires AttributeChain(decode, ChildByField(call, "function").value, src, names)
    ensures ExtractCalledName(decode, call, src) == Some(Join(".", names))
    ensures |names| >= 2 ==>
              ExtractCalledName(decode, call, src)
              == Some(Join(".", names[..|names| - 1]) + "." + names[|names| - 1])
  {
    ChainParts(decode, ChildByField(call, "function").value, src, names);
    if |names| >= 2 {
      JoinSnoc(".", names[..|names| - 1], names[|names| - 1]);
      assert names[..|names| - 1] + [names[|names| - 1]] == names;
    }
  }

  /** The callee of `f(...)` with `f` a bare identifier is its text. */
  lemma CalledNameOfIdentifier(decode: Decoder, call: TsNode, src: Bytes)
    requires ChildByField(call, "function").Some?
    requires ChildByField(call, "function").value.kind == "identifier"
    requires ChildByField(call, "function").value.children == []
    ensures ExtractCalledName(decode, call, src) == Some(GetCode(decode, ChildByField(call, "function").value, src))
  {
    CalledNameOfChain(decode, call, src, [GetCode(decode, ChildByField(call, "function").value, src)]);
  }

  /** The callee of a `dotted_name` is the whole dotted text, as one token. */
  lemma CalledNameOfDottedName(decode: Decoder, call: TsNode, src: Bytes)
    requires ChildByField(call, "function").Some?
    requires ChildByField(call, "function").value.kind == "dotted_name"
    ensures ExtractCalledName(decode, call, src) == Some(GetCode(decode, ChildByField(call, "function").value, src))
  {
  }
}
