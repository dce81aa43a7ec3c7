/**
 * The tree-sitter syntax tree the graph builder walks, as a value: each node
 * has its grammar kind, the field name under which its parent holds it (""
 * for none), its byte span and row span in the source, and its children in
 * source order. The source file itself is a byte sequence.
 */
module SyntaxTree {
  import opened Wrappers

  type Byte = bv8
  type Bytes = seq<Byte>

  datatype TsNode = TsNode(
    kind: string,
    field: string,
    startByte: nat,
    endByte: nat,
    startRow: nat,
    endRow: nat,
    children: seq<TsNode>)

  /**
   * Python's `src[a:b]` on bytes: the bounds are clamped to the sequence and
   * an empty slice results when `a` is not before `b`.
   */
  function Slice(src: Bytes, a: nat, b: nat): (r: Bytes)
    ensures a <= b <= |src| ==> r == src[a..b]
    ensures |r| <= |src|
    ensures (b <= a || |src| <= a) ==> r == []
  {
    var hi := if b <= |src| then b else |src|;
    if a < hi then src[a..hi] else []
  }

  /**
   * Index of the first child held under field `name`, or the number of
   * children when there is none (`child_by_field_name`).
   */
  function FieldIndex(n: TsNode, name: string): (i: nat)
    ensures i <= |n.children|
    ensures i < |n.children| ==> n.children[i].field == name
    ensures forall j :: 0 <= j < i ==> n.children[j].field != name
  {
    FieldIndexFrom(n.children, name, 0)
  }

  function FieldIndexFrom(cs: seq<TsNode>, name: string, j: nat): (i: nat)
    requires j <= |cs|
    ensures j <= i <= |cs|
    ensures i < |cs| ==> cs[i].field == name
    ensures forall k :: j <= k < i ==> cs[k].field != name
    decreases |cs| - j
  {
    if j == |cs| || cs[j].field == name then j else FieldIndexFrom(cs, name, j + 1)
  }

  /** `node.child_by_field_name(name)` */
  function ChildByField(n: TsNode, name: string): (r: Option<TsNode>)
    ensures r.Some? <==> exists j :: 0 <= j < |n.children| && n.children[j].field == name
    ensures r.Some? ==> r.value.field == name
  {
    var i := FieldIndex(n, name);
    if i < |n.children| then Some(n.children[i]) else None
  }
}
