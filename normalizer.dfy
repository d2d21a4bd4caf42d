/** The normalizer as the program runs it: a builder object owning the node arena, whose
    methods attach nodes, walk the raw parse tree and rewire the unary operators in place,
    and the entry point `normalize_ast`. Each method is proved to leave exactly the outcome
    and the arena that the functions of `NormalizerSpec` describe. */
module Normalizer {
  import opened Wrappers
  import opened Strings
  import opened BashAst
  import opened NormTree
  import opened CommandText
  import opened NormalizerSpec

  class TreeBuilder {
    /** The lexical collaborators and the `normalize_digits` switch. */
    const ctx: Ctx
    /** Every node created so far; index 0 is `Node(kind="root", value="root")`. */
    var nodes: Forest

    constructor (ctx: Ctx)
      ensures this.ctx == ctx && nodes == [RootNode]
    {
      this.ctx := ctx;
      nodes := [RootNode];
    }

    /** `attach_to_tree(node, parent)`. */
    method AttachToTree(n: nat, p: nat)
      requires Valid(nodes) && n < |nodes| && p < |nodes|
      modifies this
      ensures nodes == Attach(old(nodes), n, p)
    {
      var lsb := GetRightChild(nodes, p);
      nodes := nodes[n := nodes[n].(parent := Some(p), lsb := lsb)];
      nodes := nodes[p := nodes[p].(children := nodes[p].children + [n])];
      if lsb.Some? {
        nodes := nodes[lsb.value := nodes[lsb.value].(rsb := Some(n))];
      }
    }

    /** Creates a node of the given kind and value and attaches it under `p`. */
    method AttachNewNode(kind: Kind, value: string, p: nat) returns (n: nat)
      requires Valid(nodes) && p < |nodes|
      modifies this
      ensures n == |old(nodes)| && nodes == AttachNew(old(nodes), kind, value, p)
    {
      ValidAppend(nodes, Fresh(kind, value));
      nodes := nodes + [Fresh(kind, value)];
      n := |nodes| - 1;
      AttachToTree(n, p);
    }

    /** `ArgumentNode(kind=arg_type, value=normalize_word(...))` attached under `current`. */
    method EmitArgument(w: string, argType: Kind, current: Option<nat>) returns (o: Outcome)
      requires Valid(nodes) && RefOk(current, |nodes|)
      modifies this
      ensures Run(o, nodes) == EmitLeaf(ctx, w, argType, current, old(nodes))
    {
      if current.None? {
        return Crash(AttributeMissing);
      }
      var value := NormalizeWord(ctx.lex, w, ctx.normalizeDigits);
      var _ := AttachNewNode(argType, value, current.value);
      o := Ok;
    }

    /** `for child in node.parts: normalize(child, current)`. */
    method NormalizeParts(raw: RawNode, current: Option<nat>) returns (o: Outcome)
      requires Valid(nodes) && RefOk(current, |nodes|)
      modifies this
      ensures Run(o, nodes) == NormParts(ctx, raw, 0, current, old(nodes))
      decreases raw, 1, |raw.parts|
    {
      var i := 0;
      while i < |raw.parts|
        invariant i <= |raw.parts|
        invariant Valid(nodes) && RefOk(current, |nodes|)
        invariant NormParts(ctx, raw, 0, current, old(nodes)) == NormParts(ctx, raw, i, current, nodes)
      {
        o := Normalize(raw.parts[i], current, Untyped);
        if !o.Ok? {
          return;
        }
        i := i + 1;
      }
      o := Ok;
    }

    /** A substitution node attached under `current`, with the parts normalized beneath it. */
    method AttachSubstitution(raw: RawNode, kind: Kind, value: string, current: Option<nat>) returns (o: Outcome)
      requires Valid(nodes) && RefOk(current, |nodes|)
      modifies this
      ensures Run(o, nodes) == Substitution(ctx, raw, kind, value, current, old(nodes))
      decreases raw, 1, |raw.parts| + 1
    {
      if current.None? {
        return Crash(AttributeMissing);
      }
      var n := AttachNewNode(kind, value, current.value);
      o := NormalizeParts(raw, Some(n));
    }

    /** `normalize(node, current, arg_type)`. */
    method Normalize(raw: RawNode, current: Option<nat>, argType: Kind) returns (o: Outcome)
      requires Valid(nodes) && RefOk(current, |nodes|)
      modifies this
      ensures Run(o, nodes) == Norm(ctx, raw, current, argType, old(nodes))
      decreases raw, 3, 0
    {
      if raw.kind == "word" {
        o := NormalizeWordNode(raw, current, argType);
      } else if raw.kind == "pipeline" {
        o := NormalizePipeline(raw, current);
      } else if raw.kind == "list" {
        if !raw.hasParts {
          return Crash(AttributeMissing);
        }
        if |raw.parts| > 2 {
          return Crash(NonExceptionRaised);
        }
        o := NormalizeParts(raw, current);
      } else if raw.kind == "commandsubstitution" || raw.kind == "processsubstitution" {
        if raw.command.None? {
          return Rejected(NotANode);
        }
        o := Normalize(raw.command.value, current, Untyped);
      } else if raw.kind == "command" {
        o := NormalizeSimpleCommand(raw, current);
      } else if raw.hasParts {
        o := NormalizeParts(raw, current);
      } else if raw.kind in UnsupportedKinds {
        o := Rejected(UnsupportedMessage(raw.kind));
      } else {
        o := Ok;
      }
    }

    /** The `word` branch of `normalize`. */
    method NormalizeWordNode(raw: RawNode, current: Option<nat>, argType: Kind) returns (o: Outcome)
      requires Valid(nodes) && RefOk(current, |nodes|)
      modifies this
      ensures Run(o, nodes) == WordNorm(ctx, raw, current, argType, old(nodes))
      decreases raw, 2, 0
    {
      if !raw.hasParts {
        return Crash(AttributeMissing);
      }
      if |raw.parts| > 0 && raw.parts[0].kind != "tilde" {
        if raw.parts[0].kind == "processsubstitution" {
          if Contains(raw.word, ">") {
            o := AttachSubstitution(raw, ProcessSubstitution, ">", current);
          } else if Contains(raw.word, "<") {
            o := AttachSubstitution(raw, ProcessSubstitution, "<", current);
          } else {
            o := Ok;
          }
        } else if raw.parts[0].kind == "commandsubstitution" {
          o := AttachSubstitution(raw, CommandSubstitution, "", current);
        } else if raw.parts[0].kind == "parameter" {
          o := EmitArgument(raw.word, argType, current);
        } else {
          o := NormalizeParts(raw, current);
        }
      } else {
        o := EmitArgument(raw.word, argType, current);
      }
    }

    /** The `pipeline` branch of `normalize`. */
    method NormalizePipeline(raw: RawNode, current: Option<nat>) returns (o: Outcome)
      requires Valid(nodes) && RefOk(current, |nodes|)
      modifies this
      ensures Run(o, nodes) == PipelineNorm(ctx, raw, current, old(nodes))
      decreases raw, 2, 0
    {
      if current.None? {
        return Crash(AttributeMissing);
      }
      var pipe := AttachNewNode(Pipeline, "", current.value);
      if !raw.hasParts {
        return Crash(AttributeMissing);
      }
      if |raw.parts| % 2 == 0 {
        return Exit;
      }
      ghost var f1 := nodes;
      assert PipelineNorm(ctx, raw, current, old(nodes)) == PipelineParts(ctx, raw, 0, pipe, f1);
      var i := 0;
      while i < |raw.parts|
        invariant i <= |raw.parts|
        invariant Valid(nodes) && pipe < |nodes|
        invariant PipelineParts(ctx, raw, 0, pipe, f1) == PipelineParts(ctx, raw, i, pipe, nodes)
      {
        var part := raw.parts[i];
        ghost var before := nodes;
        if part.kind == "command" {
          o := Normalize(part, Some(pipe), Untyped);
          assert Run(o, nodes) == Norm(ctx, part, Some(pipe), Untyped, before);
          if !o.Ok? {
            return;
          }
        } else if part.kind != "pipe" {
          return Exit;
        }
        i := i + 1;
      }
      o := Ok;
    }

    /** `normalize_command(node, current)`: the scan over the parts, carrying the cursor, the
        two flags and the two lists of logic operators, then the unary post-pass. */
    method NormalizeSimpleCommand(raw: RawNode, current: Option<nat>) returns (o: Outcome)
      requires Valid(nodes) && RefOk(current, |nodes|)
      modifies this
      ensures Run(o, nodes) == NormalizeCommand(ctx, raw, current, old(nodes))
      decreases raw, 2, 0
    {
      if !raw.hasParts {
        return Crash(AttributeMissing);
      }
      var attachPoint := current;
      var endOfOptions := false;
      var endOfCommand := false;
      var unaryOps: seq<nat> := [];
      var binaryOps: seq<nat> := [];
      ghost var st0 := ScanState(current, false, false, [], []);

      var i := 0;
      while i < |raw.parts|
        invariant i <= |raw.parts|
        invariant Valid(nodes)
        invariant ScanOk(ScanState(attachPoint, endOfOptions, endOfCommand, unaryOps, binaryOps), nodes)
        invariant ScanFrom(ctx, raw, 0, st0, old(nodes)) ==
                  ScanFrom(ctx, raw, i, ScanState(attachPoint, endOfOptions, endOfCommand, unaryOps, binaryOps), nodes)
      {
        var r := ScanStep(raw, i, ScanState(attachPoint, endOfOptions, endOfCommand, unaryOps, binaryOps));
        if !r.outcome.Ok? {
          return r.outcome;
        }
        attachPoint, endOfOptions, endOfCommand := r.state.cursor, r.state.endOfOptions, r.state.endOfCommand;
        unaryOps, binaryOps := r.state.unaryOps, r.state.binaryOps;
        i := i + 1;
      }
      o := AbsorbUnaryOps(unaryOps);
    }

    /** One pass of the scan loop over the `i`-th part of a simple command: a pending end of
        a command moves the cursor up first. */
    method ScanStep(raw: RawNode, i: nat, st: ScanState) returns (r: ScanRun)
      requires i < |raw.parts|
      requires Valid(nodes) && ScanOk(st, nodes)
      modifies this
      ensures r == Step(ctx, raw, i, st, old(nodes)) && r.forest == nodes
      decreases raw, 0, 1
    {
      var attachPoint := st.cursor;
      if st.endOfCommand {
        if attachPoint.None? || nodes[attachPoint.value].parent.None? {
          return ScanRun(Crash(AttributeMissing), st, nodes);
        }
        attachPoint := nodes[attachPoint.value].parent;
        if nodes[attachPoint.value].kind == Flag {
          attachPoint := nodes[attachPoint.value].parent;
        } else if nodes[attachPoint.value].kind != HeadCommand {
          return ScanRun(Exit, st, nodes);
        }
      }
      r := ScanPart(raw, i, st.(cursor := attachPoint, endOfCommand := false));
    }

    /** The branches of the scan loop on one part. */
    method ScanPart(raw: RawNode, i: nat, st: ScanState) returns (r: ScanRun)
      requires i < |raw.parts|
      requires Valid(nodes) && ScanOk(st, nodes)
      modifies this
      ensures r == Dispatch(ctx, raw, i, st, old(nodes)) && r.forest == nodes
      decreases raw, 0, 0
    {
      var child := raw.parts[i];
      var attachPoint := st.cursor;
      if child.kind != "word" {
        return ScanRun(Exit, st, nodes);
      }
      if child.word == "--" {
        r := ScanRun(Ok, st.(endOfOptions := true), nodes);
      } else if child.word == ";" {
        r := ScanRun(Ok, st.(endOfCommand := true), nodes);
      } else if IsUnaryLogicOp(child.word) {
        r := AttachLogicOp(child.word, UnaryLogicOp, st);
      } else if IsBinaryLogicOp(child.word) {
        r := AttachLogicOp(child.word, BinaryLogicOp, st);
      } else if child.word in ctx.lex.headCommands {
        if |child.word| == child.pos.1 - child.pos.0 {
          var o := Normalize(child, attachPoint, HeadCommand);
          if !o.Ok? {
            return ScanRun(o, st, nodes);
          }
          if attachPoint.None? {
            return ScanRun(Crash(AttributeMissing), st, nodes);
          }
          attachPoint := GetRightChild(nodes, attachPoint.value);
        }
        r := ScanRun(Ok, st.(cursor := attachPoint), nodes);
      } else if ctx.lex.isOption(child.word) && !st.endOfOptions {
        var a := FindAttachPoint(ctx.lex, child.word, attachPoint, nodes);
        if a.Unresolved? {
          return ScanRun(a.outcome, st, nodes);
        }
        attachPoint := a.point;
        var o := Normalize(child, attachPoint, Flag);
        if !o.Ok? {
          return ScanRun(o, st.(cursor := attachPoint), nodes);
        }
        if attachPoint.None? {
          return ScanRun(Crash(AttributeMissing), st.(cursor := attachPoint), nodes);
        }
        attachPoint := GetRightChild(nodes, attachPoint.value);
        r := ScanRun(Ok, st.(cursor := attachPoint), nodes);
      } else {
        var o := Normalize(child, attachPoint, Argument);
        r := ScanRun(o, st, nodes);
      }
    }

    /** A logic operator node attached where `find_attach_point` says, and appended to the
        list of unary or of binary operators. */
    method AttachLogicOp(w: string, kind: Kind, st: ScanState) returns (r: ScanRun)
      requires kind == UnaryLogicOp || kind == BinaryLogicOp
      requires Valid(nodes) && ScanOk(st, nodes)
      modifies this
      ensures r == AttachOp(ctx, w, kind, st, old(nodes)) && r.forest == nodes
    {
      var a := FindAttachPoint(ctx.lex, w, st.cursor, nodes);
      if a.Unresolved? {
        return ScanRun(a.outcome, st, nodes);
      }
      if a.point.None? {
        return ScanRun(Crash(AttributeMissing), st.(cursor := None), nodes);
      }
      var n := AttachNewNode(kind, w, a.point.value);
      if kind == UnaryLogicOp {
        r := ScanRun(Ok, st.(cursor := a.point, unaryOps := st.unaryOps + [n]), nodes);
      } else {
        r := ScanRun(Ok, st.(cursor := a.point, binaryOps := st.binaryOps + [n]), nodes);
      }
    }

    /** The post-pass of `normalize_command`: for each recorded unary operator in turn, its
        right sibling is removed from the operator's parent and appended as the operator's
        child, with the links the source clears. */
    method AbsorbUnaryOps(ops: seq<nat>) returns (o: Outcome)
      requires Valid(nodes) && forall k :: 0 <= k < |ops| ==> ops[k] < |nodes|
      modifies this
      ensures Run(o, nodes) == Absorb(ops, 0, old(nodes))
    {
      for i := 0 to |ops|
        invariant Valid(nodes) && |nodes| == |old(nodes)|
        invariant Absorb(ops, 0, old(nodes)) == Absorb(ops, i, nodes)
      {
        var op := ops[i];
        var rsb := nodes[op].rsb;
        if rsb.None? {
          return Crash(AssertionFailed);
        }
        var x := rsb.value;
        if nodes[op].parent.None? {
          return Crash(AttributeMissing);
        }
        var par := nodes[op].parent.value;
        if x !in nodes[par].children {
          return Rejected(NotInList);
        }
        ghost var f := nodes;
        nodes := nodes[par := nodes[par].(children := RemoveFirst(nodes[par].children, x))];
        nodes := nodes[x := nodes[x].(parent := Some(op), lsb := None, rsb := None)];
        nodes := nodes[op := nodes[op].(children := nodes[op].children + [x])];
        nodes := nodes[op := nodes[op].(rsb := None)];
        assert nodes == Reparent(f, op, x, par);
      }
      o := Ok;
    }
  }

  /** `normalize_ast(cmd, normalize_digits)`, with the parser passed in as `parse`. */
  method NormalizeAst(lex: Lexicon, cmd: string, normalizeDigits: bool, parse: string -> ParseResult)
    returns (r: AstResult)
    ensures r == NormalizeAstSpec(lex, cmd, normalizeDigits, parse)
  {
    var c := Strip(Replace(cmd, "\n", " "));
    c := SpecialCommandNormalization(c);
    assert c == CleanCommand(cmd);
    if c == "" {
      return NoTree;
    }
    r := NormalizeParsed(Ctx(lex, normalizeDigits), parse(c));
  }

  /** The part of `normalize_ast` after the parser has answered. */
  method NormalizeParsed(ctx: Ctx, parsed: ParseResult) returns (r: AstResult)
    ensures r == AstFromParse(ctx, parsed)
  {
    if parsed.ParseFailed? {
      if parsed.error == OtherParserException {
        return Aborted(Crash(ParserCrashed));
      }
      return NoTree;
    }
    var tree := parsed.trees;
    if |tree| == 0 {
      return Aborted(Crash(IndexOutOfRange));
    }
    var builder := new TreeBuilder(ctx);
    var o := builder.Normalize(tree[0], Some(0), Untyped);
    match o
    case Ok => r := Tree(builder.nodes);
    case Rejected(_) => r := NoTree;
    case _ => r := Aborted(o);
  }
}
