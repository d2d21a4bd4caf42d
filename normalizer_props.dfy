/** Properties of the normalizer, stated over the functions of `NormalizerSpec` and so, by
    the contracts of its methods, over what `TreeBuilder` does. */
module NormalizerProps {
  import opened Wrappers
  import opened Strings
  import opened BashAst
  import opened NormTree
  import opened CommandText
  import opened NormalizerSpec

  /** No word is both a unary and a binary logic operator. */
  lemma LogicOperatorsDisjoint(w: string)
    ensures !(IsUnaryLogicOp(w) && IsBinaryLogicOp(w))
    ensures IsUnaryLogicOp(w) <==> w == "!" || w == "-not"
  {
  }

  /** A word without substitution parts: it becomes one leaf. */
  predicate PlainWord(raw: RawNode)
  {
    raw.kind == "word" && raw.hasParts && (|raw.parts| == 0 || raw.parts[0].kind == "tilde")
  }

  /** A word the scan does not treat as a marker (`--`, `;`) or as a logic operator. */
  predicate OrdinaryWord(w: string)
  {
    w != "--" && w != ";" && !IsUnaryLogicOp(w) && !IsBinaryLogicOp(w)
  }

  /** A plain word becomes exactly one leaf of the requested kind under the cursor, carrying
      the normalized word; without a cursor the attach fails. */
  lemma PlainWordOneLeaf(ctx: Ctx, raw: RawNode, cur: Option<nat>, argType: Kind, f: Forest)
    requires Valid(f) && RefOk(cur, |f|) && PlainWord(raw)
    ensures var r := Norm(ctx, raw, cur, argType, f);
      && (cur.None? ==> r == Run(Crash(AttributeMissing), f))
      && (cur.Some? ==>
            && r.outcome == Ok
            && r.forest == AttachNew(f, argType, NormalizeWord(ctx.lex, raw.word, ctx.normalizeDigits), cur.value)
            && r.forest[|f|].parent == cur
            && r.forest[cur.value].children == f[cur.value].children + [|f|])
  {
    if cur.Some? {
      AttachNewFacts(f, argType, NormalizeWord(ctx.lex, raw.word, ctx.normalizeDigits), cur.value);
    }
  }

  /** A process substitution takes `>` when the word contains `>`, else `<` when it contains
      `<`, and otherwise nothing is attached; the value always passes the node's own check. */
  lemma ProcessSubstitutionDirection(ctx: Ctx, raw: RawNode, cur: Option<nat>, argType: Kind, f: Forest)
    requires Valid(f) && RefOk(cur, |f|) && cur.Some?
    requires raw.kind == "word" && raw.hasParts && |raw.parts| > 0
    requires raw.parts[0].kind == "processsubstitution"
    ensures var r := Norm(ctx, raw, cur, argType, f);
      && (Contains(raw.word, ">") || Contains(raw.word, "<") ==>
            && |r.forest| > |f| && r.forest[|f|].kind == ProcessSubstitution
            && ProcessSubstitutionCheck(r.forest[|f|].value) == Ok
            && (r.forest[|f|].value == ">" <==> Contains(raw.word, ">")))
      && (!Contains(raw.word, ">") && !Contains(raw.word, "<") ==> r == Run(Ok, f))
  {
  }

  /** A pipeline node is attached first; an even number of parts then ends the process. */
  lemma EvenPipelineExits(ctx: Ctx, raw: RawNode, cur: Option<nat>, argType: Kind, f: Forest)
    requires Valid(f) && RefOk(cur, |f|) && cur.Some?
    requires raw.kind == "pipeline" && raw.hasParts && |raw.parts| % 2 == 0
    ensures Norm(ctx, raw, cur, argType, f) == Run(Exit, AttachNew(f, Pipeline, "", cur.value))
  {
  }

  /** In a pipeline, `pipe` parts create nothing and any part that is neither a command nor
      a pipe ends the process. */
  lemma PipelinePartKinds(ctx: Ctx, raw: RawNode, i: nat, pipe: nat, f: Forest)
    requires i < |raw.parts| && Valid(f) && pipe < |f|
    ensures raw.parts[i].kind == "pipe" ==>
              PipelineParts(ctx, raw, i, pipe, f) == PipelineParts(ctx, raw, i + 1, pipe, f)
    ensures raw.parts[i].kind != "pipe" && raw.parts[i].kind != "command" ==>
              PipelineParts(ctx, raw, i, pipe, f) == Run(Exit, f)
  {
  }

  /** A list of more than two parts raises a plain string, which nothing catches. */
  lemma LongListCrashes(ctx: Ctx, raw: RawNode, cur: Option<nat>, argType: Kind, f: Forest)
    requires Valid(f) && RefOk(cur, |f|)
    requires raw.kind == "list" && raw.hasParts && |raw.parts| > 2
    ensures Norm(ctx, raw, cur, argType, f) == Run(Crash(NonExceptionRaised), f)
  {
  }

  /** The kind names `normalize` handles first. */
  predicate HandledKind(k: string)
  {
    k == "word" || k == "pipeline" || k == "list" || k == "commandsubstitution" ||
    k == "processsubstitution" || k == "command"
  }

  /** No unsupported kind is one of the kinds handled before the unsupported-kind checks. */
  lemma UnsupportedNotHandled(k: string)
    requires k in UnsupportedKinds
    ensures !HandledKind(k)
  {
  }

  /** A part-less node of an unsupported kind raises `ValueError` with its message. */
  lemma UnsupportedKindRejected(ctx: Ctx, raw: RawNode, cur: Option<nat>, argType: Kind, f: Forest)
    requires Valid(f) && RefOk(cur, |f|)
    requires raw.kind in UnsupportedKinds && !raw.hasParts
    ensures Norm(ctx, raw, cur, argType, f) == Run(Rejected(UnsupportedMessage(raw.kind)), f)
  {
    UnsupportedNotHandled(raw.kind);
  }

  /** A node of an unsupported kind that has parts is passed through to its parts before any
      unsupported-kind check. */
  lemma PassThroughBeforeUnsupported(ctx: Ctx, raw: RawNode, cur: Option<nat>, argType: Kind, f: Forest)
    requires Valid(f) && RefOk(cur, |f|)
    requires raw.kind in UnsupportedKinds && raw.hasParts
    ensures Norm(ctx, raw, cur, argType, f) == NormParts(ctx, raw, 0, cur, f)
  {
    UnsupportedNotHandled(raw.kind);
  }

  /** A part-less node of any other unknown kind emits nothing. */
  lemma UnknownKindIgnored(ctx: Ctx, raw: RawNode, cur: Option<nat>, argType: Kind, f: Forest)
    requires Valid(f) && RefOk(cur, |f|)
    requires raw.kind !in UnsupportedKinds && !raw.hasParts
    requires !HandledKind(raw.kind)
    ensures Norm(ctx, raw, cur, argType, f) == Run(Ok, f)
  {
  }

  /** A `command` node is handed to `normalize_command` at the cursor. */
  lemma CommandDispatch(ctx: Ctx, raw: RawNode, cur: Option<nat>, argType: Kind, f: Forest)
    requires Valid(f) && RefOk(cur, |f|) && raw.kind == "command"
    ensures Norm(ctx, raw, cur, argType, f) == NormalizeCommand(ctx, raw, cur, f)
  {
    assert raw.kind[0] == 'c' && |raw.kind| == 7;
  }

  /** A substitution node whose nested command is missing is not an `ast.node`. */
  lemma MissingNestedCommandRejected(ctx: Ctx, raw: RawNode, cur: Option<nat>, argType: Kind, f: Forest)
    requires Valid(f) && RefOk(cur, |f|)
    requires raw.kind == "commandsubstitution" || raw.kind == "processsubstitution"
    requires raw.command.None?
    ensures Norm(ctx, raw, cur, argType, f) == Run(Rejected(NotANode), f)
  {
  }

  /** `--` and `;` emit no node: they only set `END_OF_OPTIONS` or `END_OF_COMMAND`. */
  lemma MarkersEmitNothing(ctx: Ctx, raw: RawNode, i: nat, st: ScanState, f: Forest)
    requires i < |raw.parts| && Valid(f) && ScanOk(st, f) && !st.endOfCommand
    requires raw.parts[i].kind == "word"
    ensures raw.parts[i].word == "--" ==> Step(ctx, raw, i, st, f) == ScanRun(Ok, st.(endOfOptions := true), f)
    ensures raw.parts[i].word == ";" ==> Step(ctx, raw, i, st, f) == ScanRun(Ok, st.(endOfCommand := true), f)
  {
  }

  /** After a `;`, the next part first closes the utility: from a cursor whose parent is a
      flag the scan resumes at that flag's parent, from one whose parent is a head command
      it resumes at the head command, and any other parent ends the process. */
  lemma SemicolonClosesUtility(ctx: Ctx, raw: RawNode, i: nat, st: ScanState, f: Forest)
    requires i < |raw.parts| && Valid(f) && ScanOk(st, f) && st.endOfCommand
    requires st.cursor.Some? && f[st.cursor.value].parent.Some?
    ensures var up := f[st.cursor.value].parent.value;
      && (f[up].kind == Flag ==>
            Step(ctx, raw, i, st, f) == Dispatch(ctx, raw, i, st.(cursor := f[up].parent, endOfCommand := false), f))
      && (f[up].kind == HeadCommand ==>
            Step(ctx, raw, i, st, f) == Dispatch(ctx, raw, i, st.(cursor := Some(up), endOfCommand := false), f))
      && (f[up].kind != Flag && f[up].kind != HeadCommand ==> Step(ctx, raw, i, st, f) == ScanRun(Exit, st, f))
  {
  }

  /** A head-command word inside quotation marks (its length differs from its source span)
      attaches nothing and leaves the cursor where it was. */
  lemma QuotedHeadCommandDropped(ctx: Ctx, raw: RawNode, i: nat, st: ScanState, f: Forest)
    requires i < |raw.parts| && Valid(f) && ScanOk(st, f) && !st.endOfCommand
    requires raw.parts[i].kind == "word" && OrdinaryWord(raw.parts[i].word)
    requires raw.parts[i].word in ctx.lex.headCommands
    requires |raw.parts[i].word| != raw.parts[i].pos.1 - raw.parts[i].pos.0
    ensures Step(ctx, raw, i, st, f) == ScanRun(Ok, st, f)
  {
  }

  /** An unquoted head command becomes a leaf under the cursor, and the cursor moves onto it. */
  lemma HeadCommandBecomesCursor(ctx: Ctx, raw: RawNode, i: nat, st: ScanState, f: Forest)
    requires i < |raw.parts| && Valid(f) && ScanOk(st, f) && !st.endOfCommand && st.cursor.Some?
    requires PlainWord(raw.parts[i]) && OrdinaryWord(raw.parts[i].word)
    requires raw.parts[i].word in ctx.lex.headCommands
    requires |raw.parts[i].word| == raw.parts[i].pos.1 - raw.parts[i].pos.0
    ensures var w := raw.parts[i].word;
      Step(ctx, raw, i, st, f) ==
        ScanRun(Ok, st.(cursor := Some(|f|)),
                AttachNew(f, HeadCommand, NormalizeWord(ctx.lex, w, ctx.normalizeDigits), st.cursor.value))
  {
    var w := raw.parts[i].word;
    PlainWordOneLeaf(ctx, raw.parts[i], st.cursor, HeadCommand, f);
    AttachNewFacts(f, HeadCommand, NormalizeWord(ctx.lex, w, ctx.normalizeDigits), st.cursor.value);
  }

  /** Before `--`, an option-shaped word becomes a flag, with its text untouched by digit
      canonicalisation: under a head-command cursor, or beside a flag cursor (under that
      flag's parent); the cursor moves onto the new flag. */
  lemma OptionBecomesFlag(ctx: Ctx, raw: RawNode, i: nat, st: ScanState, f: Forest)
    requires i < |raw.parts| && Valid(f) && ScanOk(st, f) && !st.endOfCommand && !st.endOfOptions
    requires PlainWord(raw.parts[i]) && OrdinaryWord(raw.parts[i].word)
    requires raw.parts[i].word !in ctx.lex.headCommands && ctx.lex.isOption(raw.parts[i].word)
    requires st.cursor.Some?
    ensures var c := st.cursor.value;
      var w := raw.parts[i].word;
      && (f[c].kind == HeadCommand ==>
            Step(ctx, raw, i, st, f) == ScanRun(Ok, st.(cursor := Some(|f|)), AttachNew(f, Flag, w, c)))
      && (f[c].kind == Flag && f[c].parent.Some? ==>
            Step(ctx, raw, i, st, f) == ScanRun(Ok, st.(cursor := Some(|f|)), AttachNew(f, Flag, w, f[c].parent.value)))
      && (f[c].kind != Flag && f[c].kind != HeadCommand ==> Step(ctx, raw, i, st, f) == ScanRun(Exit, st, f))
  {
    var c := st.cursor.value;
    var child := raw.parts[i];
    var w := child.word;
    var a := FindAttachPoint(ctx.lex, w, st.cursor, f);
    OptionStep(ctx, raw, i, st, f);
    assert NormalizeWord(ctx.lex, w, ctx.normalizeDigits) == w;
    if f[c].kind == HeadCommand {
      assert a == Resolved(st.cursor);
      PlainWordOneLeaf(ctx, child, st.cursor, Flag, f);
      AttachNewFacts(f, Flag, w, c);
    } else if f[c].kind == Flag {
      assert a == Resolved(f[c].parent);
      if f[c].parent.Some? {
        PlainWordOneLeaf(ctx, child, f[c].parent, Flag, f);
        AttachNewFacts(f, Flag, w, f[c].parent.value);
      }
    } else {
      assert a == Unresolved(Exit);
    }
  }

  /** Before `--`, an option-shaped word is attached where `find_attach_point` says, and the
      cursor then moves onto the node's last child. */
  lemma OptionStep(ctx: Ctx, raw: RawNode, i: nat, st: ScanState, f: Forest)
    requires i < |raw.parts| && Valid(f) && ScanOk(st, f) && !st.endOfCommand && !st.endOfOptions
    requires PlainWord(raw.parts[i]) && OrdinaryWord(raw.parts[i].word)
    requires raw.parts[i].word !in ctx.lex.headCommands && ctx.lex.isOption(raw.parts[i].word)
    ensures var a := FindAttachPoint(ctx.lex, raw.parts[i].word, st.cursor, f);
      Step(ctx, raw, i, st, f) ==
        if a.Unresolved? then ScanRun(a.outcome, st, f)
        else Descend(Norm(ctx, raw.parts[i], a.point, Flag, f), st.(cursor := a.point), f)
  {
    assert Step(ctx, raw, i, st, f) == Dispatch(ctx, raw, i, st, f);
  }

  /** Any other word, and an option-shaped word after `--`, becomes an argument leaf under the
      cursor, and the cursor stays. */
  lemma WordBecomesArgument(ctx: Ctx, raw: RawNode, i: nat, st: ScanState, f: Forest)
    requires i < |raw.parts| && Valid(f) && ScanOk(st, f) && !st.endOfCommand && st.cursor.Some?
    requires PlainWord(raw.parts[i]) && OrdinaryWord(raw.parts[i].word)
    requires raw.parts[i].word !in ctx.lex.headCommands
    requires !ctx.lex.isOption(raw.parts[i].word) || st.endOfOptions
    ensures var w := raw.parts[i].word;
      Step(ctx, raw, i, st, f) ==
        ScanRun(Ok, st, AttachNew(f, Argument, NormalizeWord(ctx.lex, w, ctx.normalizeDigits), st.cursor.value))
  {
    PlainWordOneLeaf(ctx, raw.parts[i], st.cursor, Argument, f);
  }

  /** A logic operator is attached where `find_attach_point` says and recorded in its list;
      the node starts without children. */
  lemma LogicOperatorRecorded(ctx: Ctx, raw: RawNode, i: nat, st: ScanState, f: Forest)
    requires i < |raw.parts| && Valid(f) && ScanOk(st, f) && !st.endOfCommand
    requires raw.parts[i].kind == "word"
    requires IsUnaryLogicOp(raw.parts[i].word) || IsBinaryLogicOp(raw.parts[i].word)
    ensures var r := Step(ctx, raw, i, st, f);
      r.outcome.Ok? ==>
        && |r.forest| == |f| + 1 && r.forest[|f|].value == raw.parts[i].word && r.forest[|f|].children == []
        && (IsUnaryLogicOp(raw.parts[i].word) ==>
              r.forest[|f|].kind == UnaryLogicOp && r.state.unaryOps == st.unaryOps + [|f|] && r.state.binaryOps == st.binaryOps)
        && (IsBinaryLogicOp(raw.parts[i].word) ==>
              r.forest[|f|].kind == BinaryLogicOp && r.state.binaryOps == st.binaryOps + [|f|] && r.state.unaryOps == st.unaryOps)
  {
    var w := raw.parts[i].word;
    LogicOperatorsDisjoint(w);
    var a := FindAttachPoint(ctx.lex, w, st.cursor, f);
    if a.Resolved? && a.point.Some? {
      var kind := if IsUnaryLogicOp(w) then UnaryLogicOp else BinaryLogicOp;
      AttachNewFacts(f, kind, w, a.point.value);
    }
  }

  /** In a consistent tree, absorbing a unary operator `op` whose right sibling is `x` moves
      `x` from `op`'s parent to the end of `op`'s children, clears the links the source
      clears, and changes no other node. */
  lemma AbsorbMovesRightSibling(op: nat, f: Forest)
    requires Shaped(f) && op < |f| && f[op].rsb.Some?
    ensures var x := f[op].rsb.value;
      var g := AbsorbOne(op, f).forest;
      && AbsorbOne(op, f).outcome == Ok
      && f[op].parent.Some?
      && var par := f[op].parent.value;
      && g[op].children == f[op].children + [x] && g[op].rsb == None
      && g[x].parent == Some(op) && g[x].lsb == None && g[x].rsb == None
      && x in f[par].children && x !in g[par].children
      && multiset(g[par].children) == multiset(f[par].children) - multiset{x}
      && forall i :: 0 <= i < |f| && i != op && i != x && i != par ==> g[i] == f[i]
  {
    var x := f[op].rsb.value;
    assert f[op].parent.Some? && f[x].parent == f[op].parent;
    var par := f[op].parent.value;
    assert x in f[par].children;
    ReparentShaped(f, op, x, par);
    var g := Reparent(f, op, x, par);
    assert AbsorbOne(op, f) == Run(Ok, g);
    ReparentFacts(f, op, x, par);
    RemoveFirstNoDup(f[par].children, x);
    forall i | 0 <= i < |f| && i != op && i != x && i != par
      ensures g[i] == f[i]
    {
      ReparentFrame(f, op, x, par, i);
    }
  }

  /** `! ! x`: the first operator absorbs the second, whose right sibling is thereby cleared,
      so the second fails the assertion of the post-pass. */
  lemma ConsecutiveUnaryOpsCrash(a: nat, b: nat, f: Forest)
    requires Shaped(f) && a < |f| && b < |f| && f[a].rsb == Some(b)
    ensures Absorb([a, b], 0, f).outcome == Crash(AssertionFailed)
  {
    AbsorbMovesRightSibling(a, f);
    var g := AbsorbOne(a, f).forest;
    assert g[b].rsb == None;
    assert [a, b][1] == b;
  }

  /** In a consistent tree the post-pass succeeds exactly when every operator, in turn, still
      has a right sibling when its turn comes; otherwise it fails the assertion. */
  lemma AbsorbNeverRejects(ops: seq<nat>, f: Forest)
    requires Shaped(f) && forall k :: 0 <= k < |ops| ==> ops[k] < |f|
    ensures Absorb(ops, 0, f).outcome == Ok || Absorb(ops, 0, f).outcome == Crash(AssertionFailed)
    ensures |ops| > 0 && f[ops[0]].rsb.None? ==> Absorb(ops, 0, f).outcome == Crash(AssertionFailed)
  {
  }

  /** Every character is white space. */
  predicate Blank(s: string)
  {
    forall i :: 0 <= i < |s| ==> IsSpace(s[i])
  }

  /** A command that is blank once newlines are turned into spaces and it is stripped gives
      no tree, whatever the parser would have said. */
  lemma BlankCommandNoTree(lex: Lexicon, cmd: string, normalizeDigits: bool, parse: string -> ParseResult)
    requires Blank(cmd)
    ensures NormalizeAstSpec(lex, cmd, normalizeDigits, parse) == NoTree
  {
    var s := Replace(cmd, "\n", " ");
    ReplaceNewlinesKeepsBlank(cmd);
    assert Strip(s) == [];
    assert !StartsWith([], "tar");
  }

  lemma {:induction false} ReplaceNewlinesKeepsBlank(s: string)
    requires Blank(s)
    ensures Blank(Replace(s, "\n", " "))
    decreases |s|
  {
    if |s| >= 1 {
      var t := Replace(s[1..], "\n", " ");
      ReplaceNewlinesKeepsBlank(s[1..]);
      var h := if s[..1] == "\n" then ' ' else s[0];
      var r := Replace(s, "\n", " ");
      assert r == [h] + t;
      forall i | 0 <= i < |r|
        ensures IsSpace(r[i])
      {
        if i > 0 {
          assert r[i] == t[i - 1];
        }
      }
    }
  }

  /** The five parser exceptions the entry point lists give no tree; any other escapes. */
  lemma ParseFailureContained(lex: Lexicon, cmd: string, normalizeDigits: bool, parse: string -> ParseResult)
    requires CleanCommand(cmd) != "" && parse(CleanCommand(cmd)).ParseFailed?
    ensures parse(CleanCommand(cmd)).error != OtherParserException ==>
              NormalizeAstSpec(lex, cmd, normalizeDigits, parse) == NoTree
    ensures parse(CleanCommand(cmd)).error == OtherParserException ==>
              NormalizeAstSpec(lex, cmd, normalizeDigits, parse) == Aborted(Crash(ParserCrashed))
  {
  }

  /** Only the first root of the parse is normalized: parses that agree on their first tree
      give the same result. */
  lemma OnlyFirstTreeNormalized(lex: Lexicon, cmd: string, normalizeDigits: bool,
                                parse: string -> ParseResult, parse': string -> ParseResult)
    requires parse(CleanCommand(cmd)).Parsed? && parse'(CleanCommand(cmd)).Parsed?
    requires |parse(CleanCommand(cmd)).trees| > 0 && |parse'(CleanCommand(cmd)).trees| > 0
    requires parse(CleanCommand(cmd)).trees[0] == parse'(CleanCommand(cmd)).trees[0]
    ensures NormalizeAstSpec(lex, cmd, normalizeDigits, parse) == NormalizeAstSpec(lex, cmd, normalizeDigits, parse')
  {
    var c := CleanCommand(cmd);
    if c != "" {
      FirstRootOnly(Ctx(lex, normalizeDigits), parse(c), parse'(c));
    }
  }

  lemma FirstRootOnly(ctx: Ctx, parsed: ParseResult, parsed': ParseResult)
    requires parsed.Parsed? && parsed'.Parsed? && |parsed.trees| > 0 && |parsed'.trees| > 0
    requires parsed.trees[0] == parsed'.trees[0]
    ensures AstFromParse(ctx, parsed) == AstFromParse(ctx, parsed')
  {
  }

  /** The first tree is normalized under a fresh root: its success is the tree, a
      `ValueError` gives no tree, and anything else escapes. */
  lemma FirstTreeUnderFreshRoot(ctx: Ctx, parsed: ParseResult)
    requires parsed.Parsed? && |parsed.trees| > 0
    ensures var r := Norm(ctx, parsed.trees[0], Some(0), Untyped, [RootNode]);
      && (r.outcome.Ok? ==> AstFromParse(ctx, parsed) == Tree(r.forest))
      && (r.outcome.Rejected? ==> AstFromParse(ctx, parsed) == NoTree)
      && (!r.outcome.Ok? && !r.outcome.Rejected? ==> AstFromParse(ctx, parsed) == Aborted(r.outcome))
  {
  }
}

module NormalizerExample {
  import opened Wrappers
  import opened BashAst
  import opened NormTree
  import opened CommandText
  import opened NormalizerSpec
  import opened NormalizerProps

  function WordPart(w: string, start: int): RawNode
  {
    RawNode("word", w, (start, start + |w|), true, [], None)
  }

  /** `ls -l x`, as the parser gives it. */
  function LsCommand(): RawNode
  {
    RawNode("command", "", (0, 7), true, [WordPart("ls", 0), WordPart("-l", 3), WordPart("x", 6)], None)
  }

  predicate LsLexicon(lex: Lexicon)
  {
    && "ls" in lex.headCommands && lex.isOption("-l") && !lex.isOption("x")
    && "-l" !in lex.headCommands && "x" !in lex.headCommands
  }

  /** The tree after each word of `ls -l x`. */
  function LsTree(k: nat): (f: Forest)
    requires k <= 3
    ensures Shaped(f) && |f| == k + 1
  {
    RootShaped();
    if k == 0 then [RootNode]
    else
      var f := LsTree(k - 1);
      var (kind, w) := if k == 1 then (HeadCommand, "ls") else if k == 2 then (Flag, "-l") else (Argument, "x");
      AttachNewShaped(f, kind, w, k - 1);
      AttachNew(f, kind, w, k - 1)
  }

  lemma XOrdinary()
    ensures OrdinaryWord("x")
  {
    assert "x"[0] == 'x';
  }

  /** `ls` becomes the head command, and the cursor moves onto it. */
  lemma LsStep0(lex: Lexicon)
    requires LsLexicon(lex)
    ensures Step(Ctx(lex, false), LsCommand(), 0, ScanState(Some(0), false, false, [], []), LsTree(0))
         == ScanRun(Ok, ScanState(Some(1), false, false, [], []), LsTree(1))
  {
    var raw := LsCommand();
    assert raw.parts[0] == WordPart("ls", 0);
    HeadCommandBecomesCursor(Ctx(lex, false), raw, 0, ScanState(Some(0), false, false, [], []), LsTree(0));
  }

  /** `-l` becomes a flag under the head command, and the cursor moves onto it. */
  lemma LsStep1(lex: Lexicon)
    requires LsLexicon(lex)
    ensures Step(Ctx(lex, false), LsCommand(), 1, ScanState(Some(1), false, false, [], []), LsTree(1))
         == ScanRun(Ok, ScanState(Some(2), false, false, [], []), LsTree(2))
  {
    var raw := LsCommand();
    assert raw.parts[1] == WordPart("-l", 3);
    AttachNewFacts(LsTree(0), HeadCommand, "ls", 0);
    OptionBecomesFlag(Ctx(lex, false), raw, 1, ScanState(Some(1), false, false, [], []), LsTree(1));
  }

  /** `x` becomes an argument under the flag, and the cursor stays. */
  lemma LsStep2(lex: Lexicon)
    requires LsLexicon(lex)
    ensures Step(Ctx(lex, false), LsCommand(), 2, ScanState(Some(2), false, false, [], []), LsTree(2))
         == ScanRun(Ok, ScanState(Some(2), false, false, [], []), LsTree(3))
  {
    var raw := LsCommand();
    assert raw.parts[2] == WordPart("x", 6);
    assert LsTree(3) == AttachNew(LsTree(2), Argument, "x", 2);
    var st := ScanState(Some(2), false, false, [], []);
    assert Valid(LsTree(2)) && ScanOk(st, LsTree(2));
    assert PlainWord(raw.parts[2]);
    XOrdinary();
    assert NormalizeWord(lex, "x", false) == "x";
    WordBecomesArgument(Ctx(lex, false), raw, 2, ScanState(Some(2), false, false, [], []), LsTree(2));
  }

  /** With `ls` a head command and `-l` option-shaped, `ls -l x` becomes the chain
      root > headcommand `ls` > flag `-l` > argument `x`: the argument hangs under the flag
      before it, not under the command. */
  lemma LsLongListing(lex: Lexicon)
    requires LsLexicon(lex)
    ensures var r := Norm(Ctx(lex, false), LsCommand(), Some(0), Untyped, [RootNode]);
      && r.outcome == Ok && |r.forest| == 4
      && r.forest[1].kind == HeadCommand && r.forest[1].value == "ls" && r.forest[1].parent == Some(0)
      && r.forest[2].kind == Flag && r.forest[2].value == "-l" && r.forest[2].parent == Some(1)
      && r.forest[3].kind == Argument && r.forest[3].value == "x" && r.forest[3].parent == Some(2)
  {
    var ctx := Ctx(lex, false);
    var raw := LsCommand();
    LsStep0(lex);
    LsStep1(lex);
    LsStep2(lex);
    var st2 := ScanState(Some(2), false, false, [], []);
    assert ScanFrom(ctx, raw, 3, st2, LsTree(3)) == ScanRun(Ok, st2, LsTree(3));
    assert ScanFrom(ctx, raw, 0, ScanState(Some(0), false, false, [], []), LsTree(0)) == ScanRun(Ok, st2, LsTree(3));
    assert Absorb([], 0, LsTree(3)) == Run(Ok, LsTree(3));
    assert NormalizeCommand(ctx, raw, Some(0), LsTree(0)) == Run(Ok, LsTree(3));
    CommandDispatch(ctx, raw, Some(0), Untyped, LsTree(0));
    AttachNewFacts(LsTree(0), HeadCommand, "ls", 0);
    AttachNewFacts(LsTree(1), Flag, "-l", 1);
    AttachNewFacts(LsTree(2), Argument, "x", 2);
  }
}
