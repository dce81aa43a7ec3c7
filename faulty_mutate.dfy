/**
 * The tracked fault injector: a visitor over a Python syntax tree that
 * swaps comparison, arithmetic and boolean operators, negates boolean
 * constants and adds or removes `not`, recording one entry per change;
 * the per-file record built around it; and the classification of every
 * file of the walked repository into the JSON log.
 */
module FaultyMutate {
  import opened Wrappers
  import opened PyStr
  import opened Json
  import opened Spans
  import EvalStatic

  // ---------- the syntax tree ----------

  datatype CmpOp = Eq | NotEq | Lt | LtE | Gt | GtE | Is | IsNot | In | NotIn
  datatype BinOpKind = Add | Sub | Mult | MatMult | Div | Mod | Pow | LShift | RShift | BitOr | BitXor | BitAnd | FloorDiv
  datatype BoolOpKind = And | Or
  datatype UnaryOpKind = Invert | Not | UAdd | USub

  /** A constant's value; only booleans are told apart by the mutator. */
  datatype Value = VBool(b: bool) | VInt(i: int) | VStr(s: string) | VNone | VOther

  /** `lineno`, `col_offset`, `end_lineno`, `end_col_offset`; None on a node built by the mutator. */
  datatype Loc = Loc(lineno: Option<int>, col: Option<int>, endLineno: Option<int>, endCol: Option<int>)

  const NoLoc := Loc(None, None, None, None)

  /** What a node other than a unary operation is. */
  datatype Kind =
    | Constant(value: Value)
    | Compare(ops: seq<CmpOp>)
    | BinOp(op: BinOpKind)
    | BoolOp(boolOp: BoolOpKind)
    | Other(name: string)

  /**
   * A syntax tree. A unary operation holds its operand; every other node
   * holds its child nodes in field order (a comparison: the left operand,
   * then the comparators; a binary operation: left, right; a boolean
   * operation: its values; a statement or module: its parts).
   */
  datatype PyAst =
    | UnaryOp(op: UnaryOpKind, operand: PyAst, loc: Loc)
    | Node(kind: Kind, loc: Loc, children: seq<PyAst>)

  // ---------- the swaps ----------

  /** `visit_Compare`: Eq and NotEq trade places, Gt becomes Lt and Lt becomes Gt. */
  function SwapCmp(o: CmpOp): (r: CmpOp)
    ensures r == o <==> o != Eq && o != NotEq && o != Gt && o != Lt
  {
    match o
    case Eq => NotEq
    case NotEq => Eq
    case Gt => Lt
    case Lt => Gt
    case _ => o
  }

  /** `visit_BinOp`: Add and Sub trade places, Mult and Div trade places. */
  function SwapBin(o: BinOpKind): (r: BinOpKind)
    ensures r == o <==> o != Add && o != Sub && o != Mult && o != Div
  {
    match o
    case Add => Sub
    case Sub => Add
    case Mult => Div
    case Div => Mult
    case _ => o
  }

  /** `visit_BoolOp`: And and Or trade places. */
  function SwapBool(o: BoolOpKind): (r: BoolOpKind)
    ensures r != o
  {
    if o == And then Or else And
  }

  /** Each swap undoes itself. */
  lemma SwapsInvolutive(c: CmpOp, b: BinOpKind, l: BoolOpKind)
    ensures SwapCmp(SwapCmp(c)) == c && SwapBin(SwapBin(b)) == b && SwapBool(SwapBool(l)) == l
  {
  }

  /** The class names Python gives the operators. */
  function CmpName(o: CmpOp): string {
    match o
    case Eq => "Eq" case NotEq => "NotEq" case Lt => "Lt" case LtE => "LtE" case Gt => "Gt"
    case GtE => "GtE" case Is => "Is" case IsNot => "IsNot" case In => "In" case NotIn => "NotIn"
  }

  function BinName(o: BinOpKind): string {
    match o
    case Add => "Add" case Sub => "Sub" case Mult => "Mult" case MatMult => "MatMult" case Div => "Div"
    case Mod => "Mod" case Pow => "Pow" case LShift => "LShift" case RShift => "RShift"
    case BitOr => "BitOr" case BitXor => "BitXor" case BitAnd => "BitAnd" case FloorDiv => "FloorDiv"
  }

  function BoolName(o: BoolOpKind): string {
    if o == And then "And" else "Or"
  }

  /** The change label recorded for a comparison operator, when it is swapped. */
  function CmpLabel(o: CmpOp): (r: Option<string>)
    ensures r.Some? <==> SwapCmp(o) != o
  {
    match o
    case Eq => Some("Eq→NotEq")
    case NotEq => Some("NotEq→Eq")
    case Gt => Some("Gt→Lt")
    case Lt => Some("Lt→Gt")
    case _ => None
  }

  function BinLabel(o: BinOpKind): (r: Option<string>)
    ensures r.Some? <==> SwapBin(o) != o
  {
    match o
    case Add => Some("Add→Sub")
    case Sub => Some("Sub→Add")
    case Mult => Some("Mult→Div")
    case Div => Some("Div→Mult")
    case _ => None
  }

  function BoolLabel(o: BoolOpKind): string {
    if o == And then "And→Or" else "Or→And"
  }

  /** Every label names the operator before the change and the one after it. */
  lemma CmpLabelNamesSwap(c: CmpOp)
    ensures CmpLabel(c).Some? ==> CmpLabel(c).value == CmpName(c) + "→" + CmpName(SwapCmp(c))
  {
  }

  lemma BinLabelNamesSwap(b: BinOpKind)
    ensures BinLabel(b).Some? ==> BinLabel(b).value == BinName(b) + "→" + BinName(SwapBin(b))
  {
  }

  lemma BoolLabelNamesSwap(l: BoolOpKind)
    ensures BoolLabel(l) == BoolName(l) + "→" + BoolName(SwapBool(l))
  {
  }

  /** `f"{node.value}→{not node.value}"` */
  function ConstLabel(b: bool): string {
    if b then "True→False" else "False→True"
  }

  // ---------- the mutant and the records ----------

  /** One entry of `self.mutations`. */
  datatype MutRecord = MutRecord(node: string, change: string, loc: Loc)

  /** `node.ops[i] = swap(op)` for every operator of a comparison. */
  function SwapOps(ops: seq<CmpOp>): (r: seq<CmpOp>)
    ensures |r| == |ops| && forall i :: 0 <= i < |ops| ==> r[i] == SwapCmp(ops[i])
  {
    if ops == [] then [] else SwapOps(ops[..|ops| - 1]) + [SwapCmp(ops[|ops| - 1])]
  }

  /** The records of a comparison's operator loop: one per swapped operator, in operator order. */
  function CmpRecords(ops: seq<CmpOp>, loc: Loc): (r: seq<MutRecord>)
    ensures |r| <= |ops|
  {
    if ops == [] then []
    else
      var o := ops[|ops| - 1];
      CmpRecords(ops[..|ops| - 1], loc) + (if CmpLabel(o).Some? then [MutRecord("Compare", CmpLabel(o).value, loc)] else [])
  }

  function SwapKind(k: Kind): Kind {
    match k
    case Compare(ops) => Compare(SwapOps(ops))
    case BinOp(o) => BinOp(SwapBin(o))
    case BoolOp(o) => BoolOp(SwapBool(o))
    case _ => k
  }

  /** The records a node other than a unary operation adds after its children's. */
  function OwnRecords(k: Kind, loc: Loc): seq<MutRecord> {
    match k
    case Constant(v) => if v.VBool? then [MutRecord("Constant", ConstLabel(v.b), loc)] else []
    case Compare(ops) => CmpRecords(ops, loc)
    case BinOp(o) => if BinLabel(o).Some? then [MutRecord("BinOp", BinLabel(o).value, loc)] else []
    case BoolOp(o) => [MutRecord("BoolOp", BoolLabel(o), loc)]
    case Other(_) => []
  }

  /**
   * The tree `MultiMutator().visit(tree)` returns. Children are visited
   * first. A boolean constant is replaced by its negation at the same
   * location, other constants are left alone (and their children are not
   * visited); `not x` becomes the mutated `x`; any other unary operation is
   * wrapped in a new `not`.
   */
  function Mutated(e: PyAst): PyAst
    decreases e, 1
  {
    match e
    case UnaryOp(op, x, loc) =>
      if op == Not then Mutated(x) else UnaryOp(Not, UnaryOp(op, Mutated(x), loc), NoLoc)
    case Node(k, loc, cs) =>
      if k.Constant? then
        if k.value.VBool? then Node(Constant(VBool(!k.value.b)), loc, cs) else e
      else Node(SwapKind(k), loc, MutatedUpTo(e, |cs|))
  }

  /** The first `n` children, mutated. */
  function MutatedUpTo(e: PyAst, n: nat): (r: seq<PyAst>)
    requires e.Node? && n <= |e.children|
    ensures |r| == n && forall i :: 0 <= i < n ==> r[i] == Mutated(e.children[i])
    decreases e, 0, n
  {
    if n == 0 then [] else MutatedUpTo(e, n - 1) + [Mutated(e.children[n - 1])]
  }

  /** `self.mutations` after visiting `e`: the children's records in order, then the node's own. */
  function Records(e: PyAst): seq<MutRecord>
    decreases e, 1
  {
    match e
    case UnaryOp(op, x, loc) => Records(x) + [MutRecord("UnaryOp", if op == Not then "Remove Not" else "Add Not", loc)]
    case Node(k, loc, cs) =>
      if k.Constant? then OwnRecords(k, loc) else RecordsUpTo(e, |cs|) + OwnRecords(k, loc)
  }

  function RecordsUpTo(e: PyAst, n: nat): seq<MutRecord>
    requires e.Node? && n <= |e.children|
    decreases e, 0, n
  {
    if n == 0 then [] else RecordsUpTo(e, n - 1) + Records(e.children[n - 1])
  }

  // ---------- what the mutant and the records say ----------

  /** No unary operation anywhere in the tree. */
  predicate UnaryFree(e: PyAst)
    decreases e
  {
    e.Node? && forall i :: 0 <= i < |e.children| ==> UnaryFree(e.children[i])
  }

  /** Without unary operations, mutating a mutant gives back the original tree. */
  lemma {:induction false} MutateTwice(e: PyAst)
    requires UnaryFree(e)
    ensures Mutated(Mutated(e)) == e
    decreases e
  {
    var m := Mutated(e);
    if !e.kind.Constant? {
      forall i | 0 <= i < |e.children| ensures Mutated(m.children[i]) == e.children[i] {
        MutateTwice(e.children[i]);
      }
      SwapsKindTwice(e.kind);
      assert Mutated(m) == Node(SwapKind(m.kind), m.loc, MutatedUpTo(m, |m.children|));
    }
  }

  lemma SwapsKindTwice(k: Kind)
    ensures SwapKind(SwapKind(k)) == k
  {
    if k.Compare? {
      assert SwapOps(SwapOps(k.ops)) == k.ops;
    }
  }

  /** A tree that records nothing comes out unchanged. */
  lemma {:induction false} NoRecordNoChange(e: PyAst)
    requires Records(e) == []
    ensures Mutated(e) == e
    decreases e, 1
  {
    if e.Node? && !e.kind.Constant? {
      NoRecordNoChangeUpTo(e, |e.children|);
      assert e.children[..|e.children|] == e.children;
      NoChangeKind(e.kind, e.loc);
    }
  }

  lemma {:induction false} NoRecordNoChangeUpTo(e: PyAst, n: nat)
    requires e.Node? && n <= |e.children| && RecordsUpTo(e, n) == []
    ensures MutatedUpTo(e, n) == e.children[..n]
    decreases e, 0, n
  {
    if n > 0 {
      NoRecordNoChangeUpTo(e, n - 1);
      NoRecordNoChange(e.children[n - 1]);
      assert e.children[..n] == e.children[..n - 1] + [e.children[n - 1]];
    }
  }

  lemma NoChangeKind(k: Kind, loc: Loc)
    requires OwnRecords(k, loc) == []
    ensures SwapKind(k) == k
  {
    if k.Compare? {
      CmpRecordsNone(k.ops, loc);
    }
  }

  lemma {:induction false} CmpRecordsNone(ops: seq<CmpOp>, loc: Loc)
    requires CmpRecords(ops, loc) == []
    ensures SwapOps(ops) == ops
  {
    if ops != [] {
      CmpRecordsNone(ops[..|ops| - 1], loc);
      assert ops == ops[..|ops| - 1] + [ops[|ops| - 1]];
    }
  }

  /** Without unary operations, a tree comes out changed exactly when something was recorded. */
  lemma {:induction false} ChangedIffRecorded(e: PyAst)
    requires UnaryFree(e)
    ensures Mutated(e) == e <==> Records(e) == []
    decreases e, 1
  {
    if Records(e) == [] {
      NoRecordNoChange(e);
    } else if !e.kind.Constant? {
      if OwnRecords(e.kind, e.loc) != [] {
        KindChanges(e.kind, e.loc);
      } else {
        var j := RecordedChild(e, |e.children|);
        ChangedIffRecorded(e.children[j]);
        assert Mutated(e).children[j] == Mutated(e.children[j]);
      }
    }
  }

  /** Some child among the first `n` records something, when they record something together. */
  lemma {:induction false} RecordedChild(e: PyAst, n: nat) returns (j: nat)
    requires e.Node? && n <= |e.children| && RecordsUpTo(e, n) != []
    ensures j < n && Records(e.children[j]) != []
    decreases n
  {
    if Records(e.children[n - 1]) != [] {
      j := n - 1;
    } else {
      j := RecordedChild(e, n - 1);
    }
  }

  lemma KindChanges(k: Kind, loc: Loc)
    requires !k.Constant? && OwnRecords(k, loc) != []
    ensures SwapKind(k) != k
  {
    if k.Compare? {
      var i := CmpRecordedOp(k.ops, loc);
      assert SwapOps(k.ops)[i] != k.ops[i];
    }
  }

  lemma {:induction false} CmpRecordedOp(ops: seq<CmpOp>, loc: Loc) returns (i: nat)
    requires CmpRecords(ops, loc) != []
    ensures i < |ops| && CmpLabel(ops[i]).Some?
  {
    if CmpLabel(ops[|ops| - 1]).Some? {
      i := |ops| - 1;
    } else {
      i := CmpRecordedOp(ops[..|ops| - 1], loc);
    }
  }

  /** The Python token of each operator the static evaluator can look for. */
  function Token(change: string): Option<string> {
    EvalStatic.WantedToken(change)
  }

  /**
   * The static evaluator's reversal check looks, for each swapped
   * equality, arithmetic or boolean operator, for the token of the
   * ORIGINAL operator; Gt/Lt swaps, constants and `not` changes are not
   * checked.
   */
  lemma CmpReversalToken(c: CmpOp)
    ensures CmpLabel(c).Some? ==>
      Token(CmpLabel(c).value) == (if c == Eq then Some("==") else if c == NotEq then Some("!=") else None)
  {
  }

  lemma BinReversalToken(b: BinOpKind)
    ensures BinLabel(b).Some? ==>
      Token(BinLabel(b).value) == Some(if b == Add then "+" else if b == Sub then "-" else if b == Mult then "*" else "/")
  {
  }

  lemma BoolReversalToken(l: BoolOpKind)
    ensures Token(BoolLabel(l)) == Some(if l == And then " and " else " or ")
  {
  }

  lemma OtherChangesUnchecked(b: bool)
    ensures Token(ConstLabel(b)).None? && Token("Remove Not").None? && Token("Add Not").None?
  {
  }

  // ---------- MultiMutator ----------

  /** `MultiMutator`: the visitor and the list of changes it has made so far. */
  class MultiMutator {
    var mutations: seq<MutRecord>

    constructor()
      ensures mutations == []
    {
      mutations := [];
    }

    /** `_add_mut(node, node_type, change)` */
    method AddMut(loc: Loc, nodeType: string, change: string)
      modifies this
      ensures mutations == old(mutations) + [MutRecord(nodeType, change, loc)]
    {
      mutations := mutations + [MutRecord(nodeType, change, loc)];
    }

    /** `visit(node)`: returns the mutant and appends the records of the whole subtree. */
    method Visit(e: PyAst) returns (r: PyAst)
      modifies this
      ensures r == Mutated(e)
      ensures mutations == old(mutations) + Records(e)
      decreases e, 2
    {
      match e
      case UnaryOp(op, x, loc) =>
        var x' := Visit(x);
        if op == Not {
          AddMut(loc, "UnaryOp", "Remove Not");
          r := x';
        } else {
          AddMut(loc, "UnaryOp", "Add Not");
          r := UnaryOp(Not, UnaryOp(op, x', loc), NoLoc);
        }
      case Node(k, loc, cs) =>
        if k.Constant? {
          if k.value.VBool? {
            AddMut(loc, "Constant", ConstLabel(k.value.b));
            r := Node(Constant(VBool(!k.value.b)), loc, cs);
          } else {
            r := e;
          }
        } else {
          var cs' := GenericVisit(e);
          var k' := VisitOps(k, loc);
          r := Node(k', loc, cs');
        }
    }

    /** `generic_visit(node)`: each child visited in turn and replaced by its mutant. */
    method GenericVisit(e: PyAst) returns (cs': seq<PyAst>)
      requires e.Node?
      modifies this
      ensures cs' == MutatedUpTo(e, |e.children|)
      ensures mutations == old(mutations) + RecordsUpTo(e, |e.children|)
      decreases e, 1
    {
      cs' := [];
      var i := 0;
      while i < |e.children|
        invariant 0 <= i <= |e.children|
        invariant cs' == MutatedUpTo(e, i)
        invariant mutations == old(mutations) + RecordsUpTo(e, i)
      {
        var c := Visit(e.children[i]);
        cs' := cs' + [c];
        i := i + 1;
      }
    }

    /** The operator part of `visit_Compare`, `visit_BinOp` and `visit_BoolOp`, after the children. */
    method VisitOps(k: Kind, loc: Loc) returns (k': Kind)
      requires !k.Constant?
      modifies this
      ensures k' == SwapKind(k)
      ensures mutations == old(mutations) + OwnRecords(k, loc)
    {
      match k
      case Compare(ops) =>
        var ops' := VisitCompareOps(ops, loc);
        k' := Compare(ops');
      case BinOp(o) =>
        if BinLabel(o).Some? {
          AddMut(loc, "BinOp", BinLabel(o).value);
        }
        k' := BinOp(SwapBin(o));
      case BoolOp(o) =>
        AddMut(loc, "BoolOp", BoolLabel(o));
        k' := BoolOp(SwapBool(o));
      case Other(_) =>
        k' := k;
    }

    /** `for i, op in enumerate(node.ops): node.ops[i] = ...; self._add_mut(...)` */
    method VisitCompareOps(ops: seq<CmpOp>, loc: Loc) returns (ops': seq<CmpOp>)
      modifies this
      ensures ops' == SwapOps(ops)
      ensures mutations == old(mutations) + CmpRecords(ops, loc)
    {
      ops' := ops;
      var i := 0;
      while i < |ops|
        invariant 0 <= i <= |ops| && |ops'| == |ops|
        invariant ops'[..i] == SwapOps(ops[..i]) && ops'[i..] == ops[i..]
        invariant mutations == old(mutations) + CmpRecords(ops[..i], loc)
      {
        var o := ops[i];
        assert ops[..i + 1][..i] == ops[..i];
        var lbl := CmpLabel(o);
        if lbl.Some? {
          AddMut(loc, "Compare", lbl.value);
        }
        ops' := ops'[i := SwapCmp(o)];
        i := i + 1;
      }
      assert ops[..|ops|] == ops;
    }
  }

  // ---------- mutations_by_type ----------

  /** A dict from node type to count, in insertion order. */
  type Counts = seq<(string, nat)>

  /** `summary.get(k, 0)` */
  function CountOf(s: Counts, k: string): nat {
    if s == [] then 0 else if s[0].0 == k then s[0].1 else CountOf(s[1..], k)
  }

  function Keys(s: Counts): set<string> {
    if s == [] then {} else {s[0].0} + Keys(s[1..])
  }

  /** No node type appears twice. */
  predicate KeysDistinct(s: Counts) {
    s == [] || (s[0].0 !in Keys(s[1..]) && KeysDistinct(s[1..]))
  }

  /** `summary[k] = summary.get(k, 0) + 1`: an existing key is updated in place, a new one appended. */
  function Bump(s: Counts, k: string): (r: Counts)
    ensures |r| == |s| || r == s + [(k, 1)]
  {
    if s == [] then [(k, 1)]
    else if s[0].0 == k then [(k, s[0].1 + 1)] + s[1..]
    else [s[0]] + Bump(s[1..], k)
  }

  /** The sum of the counts. */
  function Total(s: Counts): nat {
    if s == [] then 0 else s[0].1 + Total(s[1..])
  }

  /** The summary after the loop over `ms`. */
  function SummaryOf(ms: seq<MutRecord>): Counts {
    if ms == [] then [] else Bump(SummaryOf(ms[..|ms| - 1]), ms[|ms| - 1].node)
  }

  /** How many records have node type `k`. */
  function NodeCount(ms: seq<MutRecord>, k: string): nat {
    if ms == [] then 0 else NodeCount(ms[..|ms| - 1], k) + (if ms[|ms| - 1].node == k then 1 else 0)
  }

  lemma {:induction false} BumpTotal(s: Counts, k: string)
    ensures Total(Bump(s, k)) == Total(s) + 1
  {
    if s != [] && s[0].0 != k {
      BumpTotal(s[1..], k);
      assert ([s[0]] + Bump(s[1..], k))[1..] == Bump(s[1..], k);
    } else if s != [] {
      assert ([(k, s[0].1 + 1)] + s[1..])[1..] == s[1..];
    }
  }

  lemma {:induction false} BumpKeys(s: Counts, k: string)
    ensures Keys(Bump(s, k)) == Keys(s) + {k}
  {
    if s != [] && s[0].0 != k {
      BumpKeys(s[1..], k);
      assert ([s[0]] + Bump(s[1..], k))[1..] == Bump(s[1..], k);
    } else if s != [] {
      assert ([(k, s[0].1 + 1)] + s[1..])[1..] == s[1..];
    }
  }

  lemma {:induction false} BumpDistinct(s: Counts, k: string)
    requires KeysDistinct(s)
    ensures KeysDistinct(Bump(s, k))
  {
    if s != [] && s[0].0 != k {
      BumpDistinct(s[1..], k);
      BumpKeys(s[1..], k);
      assert ([s[0]] + Bump(s[1..], k))[1..] == Bump(s[1..], k);
    } else if s != [] {
      assert ([(k, s[0].1 + 1)] + s[1..])[1..] == s[1..];
    }
  }

  lemma {:induction false} BumpCount(s: Counts, k: string, q: string)
    ensures CountOf(Bump(s, k), q) == CountOf(s, q) + (if q == k then 1 else 0)
  {
    if s != [] && s[0].0 != k {
      BumpCount(s[1..], k, q);
      assert ([s[0]] + Bump(s[1..], k))[1..] == Bump(s[1..], k);
    } else if s != [] {
      assert ([(k, s[0].1 + 1)] + s[1..])[1..] == s[1..];
    }
  }

  /**
   * `mutations_by_type` counts every record once: its counts add up to the
   * number of records, each type's count is the number of records of that
   * type, and no type appears twice.
   */
  lemma {:induction false} SummaryCounts(ms: seq<MutRecord>)
    ensures Total(SummaryOf(ms)) == |ms|
    ensures KeysDistinct(SummaryOf(ms))
    ensures forall k :: CountOf(SummaryOf(ms), k) == NodeCount(ms, k)
  {
    if ms != [] {
      var init := ms[..|ms| - 1];
      SummaryCounts(init);
      BumpTotal(SummaryOf(init), ms[|ms| - 1].node);
      BumpDistinct(SummaryOf(init), ms[|ms| - 1].node);
      forall k ensures CountOf(SummaryOf(ms), k) == NodeCount(ms, k) {
        BumpCount(SummaryOf(init), ms[|ms| - 1].node, k);
      }
    }
  }

  /** The loop that builds `summary`. */
  method Summarize(ms: seq<MutRecord>) returns (summary: Counts)
    ensures summary == SummaryOf(ms)
  {
    summary := [];
    var i := 0;
    while i < |ms|
      invariant 0 <= i <= |ms|
      invariant summary == SummaryOf(ms[..i])
    {
      assert ms[..i + 1][..i] == ms[..i];
      summary := Bump(summary, ms[i].node);
      i := i + 1;
    }
    assert ms[..|ms|] == ms;
  }

  // ---------- mutate_file ----------

  /** The record `mutate_file` returns. */
  datatype FileRecord = FileRecord(
    srcPath: string, dstPath: string, ok: bool, error: Option<string>,
    count: nat, byType: Counts, mutations: seq<MutRecord>)

  /** The record of a file that failed at some stage, with the stage's error message. */
  function Failed(src: string, dst: string, message: string): FileRecord {
    FileRecord(src, dst, false, Some(message), 0, [], [])
  }

  /**
   * What the file system and the foreign libraries answer, as inputs: the
   * contents read (or the read exception's text), the exception text of a
   * failed write, and of a failed copy.
   */
  datatype FileIo = FileIo(read: Result<string>, writeErr: Option<string>, copyErr: Option<string>)

  /** `ast.parse` and `astor.to_source`, each with the exception text it may raise. */
  datatype Codec = Codec(parse: string -> Result<PyAst>, unparse: PyAst -> Result<string>)

  /**
   * `mutate_file(src_path, dst_path)`: read, parse, mutate, unparse and
   * write; the first stage that fails gives its error; on success the
   * record holds the mutations and their counts.
   */
  function FileRecordOf(src: string, dst: string, io: FileIo, codec: Codec): FileRecord {
    match io.read
    case Failure(e) => Failed(src, dst, "read_error: " + e)
    case Success(code) =>
      match codec.parse(code)
      case Failure(e) => Failed(src, dst, "parse_error: " + e)
      case Success(tree) =>
        match codec.unparse(Mutated(tree))
        case Failure(e) => Failed(src, dst, "unparse_error: " + e)
        case Success(_) =>
          if io.writeErr.Some? then Failed(src, dst, "write_error: " + io.writeErr.value)
          else
            var ms := Records(tree);
            FileRecord(src, dst, true, None, |ms|, SummaryOf(ms), ms)
  }

  /** The text written to `dst_path`, when the write succeeds. */
  function WrittenOf(io: FileIo, codec: Codec): Option<string> {
    if io.read.Success? && codec.parse(io.read.value).Success?
       && codec.unparse(Mutated(codec.parse(io.read.value).value)).Success? && io.writeErr.None?
    then Some(codec.unparse(Mutated(codec.parse(io.read.value).value)).value)
    else None
  }

  /**
   * A successful record counts its mutations and sums them by type to the
   * same count; a failed one carries an error and no mutations.
   */
  lemma FileRecordShape(src: string, dst: string, io: FileIo, codec: Codec)
    ensures var r := FileRecordOf(src, dst, io, codec);
      (r.ok <==> r.error.None?) && r.count == |r.mutations| && Total(r.byType) == r.count
      && (!r.ok ==> r.mutations == [] && r.byType == [])
      && (r.ok <==> WrittenOf(io, codec).Some?)
      && (r.ok ==>
            io.read.Success? && codec.parse(io.read.value).Success?
            && r.mutations == Records(codec.parse(io.read.value).value)
            && WrittenOf(io, codec) == codec.unparse(Mutated(codec.parse(io.read.value).value)).ToOption())
  {
    var r := FileRecordOf(src, dst, io, codec);
    if r.ok {
      SummaryCounts(r.mutations);
    }
  }

  /** `mutate_file`: returns the record, and the text it wrote to `dst_path`. */
  method MutateFile(src: string, dst: string, io: FileIo, codec: Codec) returns (rec: FileRecord, written: Option<string>)
    ensures rec == FileRecordOf(src, dst, io, codec)
    ensures written == WrittenOf(io, codec)
  {
    written := None;
    if io.read.Failure? {
      return Failed(src, dst, "read_error: " + io.read.error), None;
    }
    var parsed := codec.parse(io.read.value);
    if parsed.Failure? {
      return Failed(src, dst, "parse_error: " + parsed.error), None;
    }
    var mutator := new MultiMutator();
    var tree := mutator.Visit(parsed.value);
    var code := codec.unparse(tree);
    if code.Failure? {
      return Failed(src, dst, "unparse_error: " + code.error), None;
    }
    if io.writeErr.Some? {
      return Failed(src, dst, "write_error: " + io.writeErr.value), None;
    }
    written := Some(code.value);
    var summary := Summarize(mutator.mutations);
    assert mutator.mutations == Records(parsed.value);
    rec := FileRecord(src, dst, true, None, |mutator.mutations|, summary, mutator.mutations);
  }

  // ---------- generate_faulty_mutant_code: the per-file log entries ----------

  /** One file of the walk: its directory, name, source and destination paths, repo-relative path, and what I/O answers. */
  datatype WalkFile = WalkFile(root: string, name: string, src: string, dst: string, rel: string, io: FileIo)

  /** One entry of `mutated_files.json`. */
  datatype LogEntry = LogEntry(rec: FileRecord, rel: string, isTestDir: bool, action: string)

  /** `'.git' in root.split(os.sep)` */
  predicate UnderGit(root: string) {
    var parts := Split(root, '/');
    exists k :: 0 <= k < |parts| && parts[k] == ".git"
  }

  /** `any(p.lower() in ("tests", "test") for p in parts)` */
  predicate IsTestDir(root: string) {
    var parts := Split(root, '/');
    exists k :: 0 <= k < |parts| && (Lower(parts[k]) == "tests" || Lower(parts[k]) == "test")
  }

  /** A `.py` file outside test directories is mutated; any other file is copied. */
  predicate Mutable(f: WalkFile) {
    EndsWith(f.name, ".py") && !IsTestDir(f.root)
  }

  /** The log entry of one file. */
  function EntryOf(f: WalkFile, codec: Codec): LogEntry {
    if Mutable(f) then
      var rec := FileRecordOf(f.src, f.dst, f.io, codec);
      LogEntry(rec, f.rel, false, if rec.ok then "mutated" else "skipped")
    else
      var test := IsTestDir(f.root);
      match f.io.copyErr
      case None => LogEntry(FileRecord(f.src, f.dst, true, None, 0, [], []), f.rel, test, "copied")
      case Some(e) => LogEntry(Failed(f.src, f.dst, "copy_error: " + e), f.rel, test, "copy_failed")
  }

  /**
   * The classification of a file: a mutable file is "mutated" exactly when
   * its record is ok and "skipped" otherwise; any other file is "copied" or
   * "copy_failed" and carries no mutations.
   */
  lemma EntryAction(f: WalkFile, codec: Codec)
    ensures var e := EntryOf(f, codec);
      (e.action == "mutated" <==> Mutable(f) && e.rec.ok)
      && (e.action == "skipped" <==> Mutable(f) && !e.rec.ok)
      && (e.action == "copied" <==> !Mutable(f) && f.io.copyErr.None?)
      && (e.action == "copy_failed" <==> !Mutable(f) && f.io.copyErr.Some?)
      && (!Mutable(f) ==> e.rec.mutations == [] && e.rec.count == 0)
      && (e.action == "copied" <==> !Mutable(f) && e.rec.ok)
  {
  }

  /** The log: one entry per file, in walk order, skipping files under `.git`. */
  function LogOf(walk: seq<WalkFile>, codec: Codec): seq<LogEntry> {
    if walk == [] then []
    else
      var f := walk[|walk| - 1];
      LogOf(walk[..|walk| - 1], codec) + (if UnderGit(f.root) then [] else [EntryOf(f, codec)])
  }

  /** The walk loop that appends to `log_entries`. */
  method GenerateLog(walk: seq<WalkFile>, codec: Codec) returns (log: seq<LogEntry>)
    ensures log == LogOf(walk, codec)
  {
    log := [];
    var i := 0;
    while i < |walk|
      invariant 0 <= i <= |walk|
      invariant log == LogOf(walk[..i], codec)
    {
      var f := walk[i];
      assert walk[..i + 1][..i] == walk[..i];
      if !UnderGit(f.root) {
        var e := ProcessFile(f, codec);
        log := log + [e];
      }
      i := i + 1;
    }
    assert walk[..|walk|] == walk;
  }

  /** The body of the walk for one file. */
  method ProcessFile(f: WalkFile, codec: Codec) returns (e: LogEntry)
    ensures e == EntryOf(f, codec)
  {
    if EndsWith(f.name, ".py") && !IsTestDir(f.root) {
      var rec, _ := MutateFile(f.src, f.dst, f.io, codec);
      e := LogEntry(rec, f.rel, false, if rec.ok then "mutated" else "skipped");
    } else if f.io.copyErr.None? {
      e := LogEntry(FileRecord(f.src, f.dst, true, None, 0, [], []), f.rel, IsTestDir(f.root), "copied");
    } else {
      e := LogEntry(Failed(f.src, f.dst, "copy_error: " + f.io.copyErr.value), f.rel, IsTestDir(f.root), "copy_failed");
    }
  }

  /** How many entries have the action. */
  function ActionCount(log: seq<LogEntry>, action: string): nat {
    if log == [] then 0
    else ActionCount(log[..|log| - 1], action) + (if log[|log| - 1].action == action then 1 else 0)
  }

  /** The closing summary: mutated (and ok), copied, and skipped or failed. */
  function Summary(log: seq<LogEntry>): (nat, nat, nat) {
    (ActionCount(log, "mutated"), ActionCount(log, "copied"),
     ActionCount(log, "skipped") + ActionCount(log, "copy_failed"))
  }

  /** Every entry of the log falls in exactly one of the three counts of the closing summary. */
  lemma {:induction false} SummaryPartitions(walk: seq<WalkFile>, codec: Codec)
    ensures var s := Summary(LogOf(walk, codec)); s.0 + s.1 + s.2 == |LogOf(walk, codec)|
  {
    if walk != [] {
      var init := walk[..|walk| - 1];
      SummaryPartitions(init, codec);
      var f := walk[|walk| - 1];
      var l0 := LogOf(init, codec);
      if !UnderGit(f.root) {
        var l := l0 + [EntryOf(f, codec)];
        assert l[..|l| - 1] == l0;
        EntryAction(f, codec);
      } else {
        assert LogOf(walk, codec) == l0;
      }
    }
  }

  // ---------- the log as the static evaluator reads it ----------

  function OptInt(o: Option<int>): Json {
    if o.Some? then JInt(o.value) else JNull
  }

  /** One mutation as JSON. */
  function RecordJson(m: MutRecord): Json {
    JObj(map["node" := JStr(m.node), "change" := JStr(m.change),
             "lineno" := OptInt(m.loc.lineno), "col" := OptInt(m.loc.col),
             "end_lineno" := OptInt(m.loc.endLineno), "end_col" := OptInt(m.loc.endCol)])
  }

  function CountsJson(s: Counts): map<string, Json> {
    if s == [] then map[] else CountsJson(s[..|s| - 1])[s[|s| - 1].0 := JInt(s[|s| - 1].1)]
  }

  function RecordsJson(ms: seq<MutRecord>): (r: seq<Json>)
    ensures |r| == |ms| && forall i :: 0 <= i < |ms| ==> r[i] == RecordJson(ms[i])
  {
    if ms == [] then [] else RecordsJson(ms[..|ms| - 1]) + [RecordJson(ms[|ms| - 1])]
  }

  /** One log entry as JSON. */
  function EntryJson(e: LogEntry): Json {
    var r := e.rec;
    JObj(map["src_path" := JStr(r.srcPath), "dst_path" := JStr(r.dstPath), "ok" := JBool(r.ok),
             "error" := (if r.error.Some? then JStr(r.error.value) else JNull),
             "mutation_count" := JInt(r.count), "mutations_by_type" := JObj(CountsJson(r.byType)),
             "mutations" := JArr(RecordsJson(r.mutations)),
             "rel_path" := JStr(e.rel), "is_test_dir" := JBool(e.isTestDir), "action" := JStr(e.action)])
  }

  /**
   * The static evaluator counts an entry of this log exactly when it was
   * mutated and its path ends in ".py".
   */
  lemma EvaluatorCountsMutated(f: WalkFile, codec: Codec)
    ensures var e := EntryOf(f, codec);
      EvalStatic.CountedPath(EntryJson(e).fields)
        == Success(if e.action == "mutated" && EndsWith(f.rel, ".py") then Some(f.rel) else None)
  {
    EntryAction(f, codec);
    assert EndsWith(f.rel, ".py") ==> f.rel != [];
  }

  /** The static evaluator reads an entry's mutations back as they were logged. */
  lemma EvaluatorReadsMutations(e: LogEntry)
    ensures EvalStatic.Mutations(EntryJson(e).fields) == Success(RecordsJson(e.rec.mutations))
  {
  }

  /** The line of a record's end: `end_lineno or lineno`. */
  function EndLine(m: MutRecord): Option<int> {
    if m.loc.endLineno.Some? && m.loc.endLineno.value != 0 then m.loc.endLineno else m.loc.lineno
  }

  /**
   * The static evaluator reads a record's line range back from the log: a
   * record with a (non-zero) line number gives the range from it to its end
   * line, and one without gives none.
   */
  lemma EvaluatorReadsLines(m: MutRecord)
    ensures m.loc.lineno.Some? && m.loc.lineno.value != 0 ==>
      EvalStatic.MutSpan(RecordJson(m)) == Success(Some(Span(m.loc.lineno.value, EndLine(m).value)))
    ensures m.loc.lineno.None? ==> EvalStatic.MutSpan(RecordJson(m)) == Success(None)
  {
    var j := RecordJson(m);
    assert Get(j.fields, "lineno") == OptInt(m.loc.lineno);
    assert Get(j.fields, "end_lineno") == OptInt(m.loc.endLineno);
  }
}
