/**
 * The untracked fault injector: the same operator swaps, constant
 * negations and `not` changes as the tracked one, with no records, and a
 * per-file step that writes the mutant and appends the source path to a
 * plain-text log only when the file parses.
 */
module FaultyCode {
  import opened Wrappers
  import opened PyStr
  import FaultyMutate

  type PyAst = FaultyMutate.PyAst

  /**
   * The tree `MultiMutator().visit(tree)` returns: children first, then the
   * node's own change. Booleans reach `visit_NameConstant`, which negates
   * them in place; other constants are returned as they are.
   */
  function Transform(e: PyAst): PyAst
    decreases e
  {
    match e
    case UnaryOp(op, x, loc) =>
      if op == FaultyMutate.Not then Transform(x)
      else FaultyMutate.UnaryOp(FaultyMutate.Not, FaultyMutate.UnaryOp(op, Transform(x), loc), FaultyMutate.NoLoc)
    case Node(k, loc, cs) =>
      if k.Constant? then
        if k.value.VBool? then FaultyMutate.Node(FaultyMutate.Constant(FaultyMutate.VBool(!k.value.b)), loc, cs) else e
      else FaultyMutate.Node(FaultyMutate.SwapKind(k), loc, seq(|cs|, i requires 0 <= i < |cs| => Transform(cs[i])))
  }

  /** The untracked and the tracked mutators produce the same mutant from every tree. */
  lemma {:induction false} SameMutant(e: PyAst)
    ensures Transform(e) == FaultyMutate.Mutated(e)
    decreases e
  {
    match e
    case UnaryOp(op, x, loc) =>
      SameMutant(x);
    case Node(k, loc, cs) =>
      if !k.Constant? {
        forall i | 0 <= i < |cs| ensures Transform(cs[i]) == FaultyMutate.Mutated(cs[i]) {
          SameMutant(cs[i]);
        }
      }
  }

  /** `node.ops[i] = ...` for every operator of a comparison, in place. */
  method SwapOpsInPlace(ops: array<FaultyMutate.CmpOp>)
    modifies ops
    ensures forall j :: 0 <= j < ops.Length ==> ops[j] == FaultyMutate.SwapCmp(old(ops[j]))
  {
    var i := 0;
    while i < ops.Length
      invariant 0 <= i <= ops.Length
      invariant forall j :: 0 <= j < i ==> ops[j] == FaultyMutate.SwapCmp(old(ops[j]))
      invariant forall j :: i <= j < ops.Length ==> ops[j] == old(ops[j])
    {
      ops[i] := FaultyMutate.SwapCmp(ops[i]);
      i := i + 1;
    }
  }

  /** `visit(node)`: children visited in turn, then the node's own change. */
  method Visit(e: PyAst) returns (r: PyAst)
    ensures r == Transform(e)
    decreases e
  {
    match e
    case UnaryOp(op, x, loc) =>
      var x' := Visit(x);
      if op == FaultyMutate.Not {
        r := x';
      } else {
        r := FaultyMutate.UnaryOp(FaultyMutate.Not, FaultyMutate.UnaryOp(op, x', loc), FaultyMutate.NoLoc);
      }
    case Node(k, loc, cs) =>
      if k.Constant? {
        r := if k.value.VBool? then FaultyMutate.Node(FaultyMutate.Constant(FaultyMutate.VBool(!k.value.b)), loc, cs) else e;
        return;
      }
      var cs' := [];
      var i := 0;
      while i < |cs|
        invariant 0 <= i <= |cs| && |cs'| == i
        invariant forall j :: 0 <= j < i ==> cs'[j] == Transform(cs[j])
      {
        var c := Visit(cs[i]);
        cs' := cs' + [c];
        i := i + 1;
      }
      var k' := k;
      if k.Compare? {
        var a := new FaultyMutate.CmpOp[|k.ops|](j requires 0 <= j < |k.ops| => k.ops[j]);
        assert a[..] == k.ops;
        SwapOpsInPlace(a);
        assert a[..] == FaultyMutate.SwapOps(k.ops);
        k' := FaultyMutate.Compare(a[..]);
      } else if k.BinOp? {
        k' := FaultyMutate.BinOp(FaultyMutate.SwapBin(k.op));
      } else if k.BoolOp? {
        k' := FaultyMutate.BoolOp(FaultyMutate.SwapBool(k.boolOp));
      }
      assert cs' == seq(|cs|, j requires 0 <= j < |cs| => Transform(cs[j]));
      r := FaultyMutate.Node(k', loc, cs');
  }

  /** The open `mutated_files.txt`: the lines written to it so far. */
  class LogFile {
    var lines: seq<string>

    constructor()
      ensures lines == []
    {
      lines := [];
    }

    method Write(line: string)
      modifies this
      ensures lines == old(lines) + [line]
    {
      lines := lines + [line];
    }
  }

  /**
   * What `mutate_file` does with one file: the text it writes to `dst_path`
   * (None when the parse fails and the file is skipped), or the exception
   * of a failed read, unparse or write, which it does not catch.
   */
  function Outcome(io: FaultyMutate.FileIo, codec: FaultyMutate.Codec): Result<Option<string>> {
    match io.read
    case Failure(e) => Failure(e)
    case Success(code) =>
      match codec.parse(code)
      case Failure(_) => Success(None)
      case Success(tree) =>
        match codec.unparse(Transform(tree))
        case Failure(e) => Failure(e)
        case Success(text) => if io.writeErr.Some? then Failure(io.writeErr.value) else Success(Some(text))
  }

  /**
   * A file is written, and only then logged, exactly when it is read, parses,
   * unparses and is written; a file that does not parse is skipped without
   * an exception; what is written is the source of the mutant.
   */
  lemma OutcomeCases(io: FaultyMutate.FileIo, codec: FaultyMutate.Codec)
    ensures Outcome(io, codec) == Success(None) <==> io.read.Success? && codec.parse(io.read.value).Failure?
    ensures Outcome(io, codec).Success? && Outcome(io, codec).value.Some? <==>
      io.read.Success? && codec.parse(io.read.value).Success?
      && codec.unparse(FaultyMutate.Mutated(codec.parse(io.read.value).value)).Success? && io.writeErr.None?
    ensures Outcome(io, codec).Success? && Outcome(io, codec).value.Some? ==>
      Some(Outcome(io, codec).value.value) == FaultyMutate.WrittenOf(io, codec)
  {
    if io.read.Success? && codec.parse(io.read.value).Success? {
      SameMutant(codec.parse(io.read.value).value);
    }
  }

  /**
   * The tracked and the untracked scripts write the same text for a file:
   * whenever the tracked record is ok, this variant writes the same
   * mutant; and a file the tracked script records as a parse error is one
   * this variant skips.
   */
  lemma SameOutput(src: string, dst: string, io: FaultyMutate.FileIo, codec: FaultyMutate.Codec)
    ensures FaultyMutate.FileRecordOf(src, dst, io, codec).ok ==>
      Outcome(io, codec) == Success(FaultyMutate.WrittenOf(io, codec))
    ensures io.read.Success? && codec.parse(io.read.value).Failure? ==>
      Outcome(io, codec) == Success(None) && !FaultyMutate.FileRecordOf(src, dst, io, codec).ok
  {
    OutcomeCases(io, codec);
    FaultyMutate.FileRecordShape(src, dst, io, codec);
  }

  /** `mutate_file(src_path, dst_path, log_file)` */
  method MutateFile(src: string, io: FaultyMutate.FileIo, codec: FaultyMutate.Codec, log: LogFile)
    returns (r: Result<Option<string>>)
    modifies log
    ensures r == Outcome(io, codec)
    ensures log.lines == old(log.lines) + (if r.Success? && r.value.Some? then [src + "\n"] else [])
  {
    if io.read.Failure? {
      return Failure(io.read.error);
    }
    var parsed := codec.parse(io.read.value);
    if parsed.Failure? {
      return Success(None);
    }
    var tree := Visit(parsed.value);
    var text := codec.unparse(tree);
    if text.Failure? {
      return Failure(text.error);
    }
    if io.writeErr.Some? {
      return Failure(io.writeErr.value);
    }
    log.Write(src + "\n");
    r := Success(Some(text.value));
  }

  /** `'tests' in parts or 'test' in parts`: compared as written, without lowering the case. */
  predicate IsTestDir(root: string) {
    var parts := Split(root, '/');
    exists k :: 0 <= k < |parts| && (parts[k] == "tests" || parts[k] == "test")
  }

  /** Every directory this variant treats as a test directory the tracked one does too. */
  lemma TestDirNarrower(root: string)
    ensures IsTestDir(root) ==> FaultyMutate.IsTestDir(root)
  {
    if IsTestDir(root) {
      var parts := Split(root, '/');
      var k :| 0 <= k < |parts| && (parts[k] == "tests" || parts[k] == "test");
      LowerFixed(parts[k]);
    }
  }

  lemma LowerFixed(s: string)
    requires s == "tests" || s == "test"
    ensures Lower(s) == s
  {
    assert forall i :: 0 <= i < |s| ==> LowerChar(s[i]) == s[i];
  }

  /**
   * The converse fails: a `.py` file directly under `Tests` is copied by
   * the tracked script and mutated by this one.
   */
  lemma TestDirCaseDiffers()
    ensures FaultyMutate.IsTestDir("Tests") && !IsTestDir("Tests")
  {
    SplitNoSeparator("Tests", '/');
    LowerTests();
    assert Split("Tests", '/')[0] == "Tests";
    assert "Tests" != "tests" by {
      assert "Tests"[0] != "tests"[0];
    }
    assert "Tests" != "test" by {
      assert |"Tests"| != |"test"|;
    }
  }

  lemma SplitNoSeparator(s: string, sep: char)
    requires forall i :: 0 <= i < |s| ==> s[i] != sep
    ensures Split(s, sep) == [s]
  {
    assert |BeforeFirst(s, sep)| == |s|;
  }

  lemma LowerTests()
    ensures Lower("Tests") == "tests"
  {
    assert forall i :: 0 <= i < 5 ==> Lower("Tests")[i] == "tests"[i];
  }
}
