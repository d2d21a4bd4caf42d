/** What the normalizer computes, as functions over the node arena: the dispatch on the kind
    of a raw node (`normalize`), the left-to-right scan of a simple command and the unary
    operator post-pass (`normalize_command`), and the error containment of `normalize_ast`.
    Every function returns the outcome of the call together with the arena as the call
    leaves it. */
module NormalizerSpec {
  import opened Wrappers
  import opened Strings
  import opened BashAst
  import opened NormTree
  import opened CommandText

  const UnaryLogicOperators: set<string> := {"!", "-not"}
  const BinaryLogicOperators: set<string> := {"-and", "-or", "||", "&&", "-o"}

  /** `is_unary_logic_op` */
  predicate IsUnaryLogicOp(w: string)
  {
    w in UnaryLogicOperators
  }

  /** `is_binary_logic_op` */
  predicate IsBinaryLogicOp(w: string)
  {
    w in BinaryLogicOperators
  }

  /** Why an uncaught failure happened: the `assert` of the post-pass, the `raise` of a plain
      string (itself a `TypeError` in Python 2.7), an attribute looked up on `None` or on a
      node that lacks it, `tree[0]` on an empty parse, or any other parser exception. */
  datatype Fault = AssertionFailed | NonExceptionRaised | AttributeMissing | IndexOutOfRange | ParserCrashed

  /** How a call ends: normally; with a `ValueError` carrying its message, which the entry
      point turns into no tree; with `sys.exit()`; or with an exception nobody catches. */
  datatype Outcome = Ok | Rejected(message: string) | Exit | Crash(fault: Fault)

  /** The outcome of a call and the arena it leaves behind. */
  datatype Run = Run(outcome: Outcome, forest: Forest)

  /** The lexical collaborators and the `normalize_digits` switch of one `normalize_ast` call. */
  datatype Ctx = Ctx(lex: Lexicon, normalizeDigits: bool)

  const NotANode: string := "type(node) is not ast.node"
  const BadSubstitutionValue: string := "Value of a processsubstitution has to be '<' or '>'."
  const NotInList: string := "list.remove(x): x not in list"

  /** The part-less raw kinds `normalize` refuses with a `ValueError`. */
  const UnsupportedKinds: set<string> :=
    {"operator", "parameter", "redirect", "for", "if", "while", "until", "assignment", "function",
     "tilde", "heredoc"}

  function UnsupportedMessage(kind: string): (m: string)
    ensures StartsWith(m, "Unsupported: ")
    ensures kind != "parameter" ==> m[|"Unsupported: "|..] == kind
  {
    if kind == "parameter" then "Unsupported: parameters" else "Unsupported: " + kind
  }

  /** The `ValueError`s `normalize` itself raises. */
  predicate SourceRejection(m: string)
  {
    m == NotANode || StartsWith(m, "Unsupported: ")
  }

  /** The check in the constructor of `ProcessSubstitutionNode`. */
  function ProcessSubstitutionCheck(value: string): (o: Outcome)
    ensures o == Ok || o == Rejected(BadSubstitutionValue)
    ensures o == Ok <==> value == "<" || value == ">"
  {
    if value == "<" || value == ">" then Ok else Rejected(BadSubstitutionValue)
  }

  /** What every call promises about the arena: it stays well formed, keeps every node it
      had, keeps its links consistent, and a `ValueError` that escapes is one of those
      `normalize` raises. */
  predicate Grows(f: Forest, r: Run)
  {
    && Valid(r.forest) && Extends(f, r.forest)
    && (Shaped(f) ==> Shaped(r.forest))
    && (Shaped(f) && r.outcome.Rejected? ==> SourceRejection(r.outcome.message))
  }

  /** The variables of the scan in `normalize_command`: the cursor `attach_point` (`None` once
      `getRightChild` found no child), `END_OF_OPTIONS`, `END_OF_COMMAND`, and the logic
      operators recorded so far. */
  datatype ScanState = ScanState(
    cursor: Option<nat>,
    endOfOptions: bool,
    endOfCommand: bool,
    unaryOps: seq<nat>,
    binaryOps: seq<nat>)

  datatype ScanRun = ScanRun(outcome: Outcome, state: ScanState, forest: Forest)

  predicate ScanOk(st: ScanState, f: Forest)
  {
    && RefOk(st.cursor, |f|)
    && (forall i :: 0 <= i < |st.unaryOps| ==> st.unaryOps[i] < |f|)
    && (forall i :: 0 <= i < |st.binaryOps| ==> st.binaryOps[i] < |f|)
  }

  predicate ScanGrows(f: Forest, r: ScanRun)
  {
    && Grows(f, Run(r.outcome, r.forest))
    && ScanOk(r.state, r.forest)
  }

  /** Where the scan's cursor goes next, or how the scan ends. */
  datatype Resolution = Resolved(point: Option<nat>) | Unresolved(outcome: Outcome)

  /** `find_attach_point`: a word that is not option-shaped attaches at the cursor; an option
      attaches beside a flag cursor (at the flag's parent) or under a head-command cursor;
      any other cursor ends the process, and no cursor at all is an attribute error. */
  function FindAttachPoint(lex: Lexicon, w: string, cursor: Option<nat>, f: Forest): (r: Resolution)
    requires Valid(f) && RefOk(cursor, |f|)
    ensures r.Resolved? ==> RefOk(r.point, |f|)
    ensures !lex.isOption(w) ==> r == Resolved(cursor)
    ensures lex.isOption(w) && cursor.None? ==> r == Unresolved(Crash(AttributeMissing))
    ensures lex.isOption(w) && cursor.Some? && f[cursor.value].kind == Flag ==>
              r == Resolved(f[cursor.value].parent)
    ensures lex.isOption(w) && cursor.Some? && f[cursor.value].kind == HeadCommand ==>
              r == Resolved(cursor)
    ensures lex.isOption(w) && cursor.Some? && f[cursor.value].kind != Flag && f[cursor.value].kind != HeadCommand ==>
              r == Unresolved(Exit)
  {
    if !lex.isOption(w) then Resolved(cursor)
    else if cursor.None? then Unresolved(Crash(AttributeMissing))
    else if f[cursor.value].kind == Flag then Resolved(f[cursor.value].parent)
    else if f[cursor.value].kind == HeadCommand then Resolved(cursor)
    else Unresolved(Exit)
  }

  /** The step taken at the top of the scan loop once `END_OF_COMMAND` is set: the cursor
      moves to its parent, and once more if that parent is a flag; a parent that is neither a
      flag nor a head command ends the process. Without the flag the cursor stays. */
  function CloseCommand(st: ScanState, f: Forest): (r: Resolution)
    requires Valid(f) && RefOk(st.cursor, |f|)
    ensures r.Resolved? ==> RefOk(r.point, |f|)
    ensures !st.endOfCommand ==> r == Resolved(st.cursor)
    ensures st.endOfCommand && (st.cursor.None? || f[st.cursor.value].parent.None?) ==>
              r == Unresolved(Crash(AttributeMissing))
    ensures st.endOfCommand && st.cursor.Some? && f[st.cursor.value].parent.Some? ==>
              var up := f[st.cursor.value].parent.value;
              && (f[up].kind == Flag ==> r == Resolved(f[up].parent))
              && (f[up].kind == HeadCommand ==> r == Resolved(Some(up)))
              && (f[up].kind != Flag && f[up].kind != HeadCommand ==> r == Unresolved(Exit))
  {
    if !st.endOfCommand then Resolved(st.cursor)
    else if st.cursor.None? then Unresolved(Crash(AttributeMissing))
    else
      match f[st.cursor.value].parent
      case None => Unresolved(Crash(AttributeMissing))
      case Some(up) =>
        if f[up].kind == Flag then Resolved(f[up].parent)
        else if f[up].kind == HeadCommand then Resolved(Some(up))
        else Unresolved(Exit)
  }

  /** `ArgumentNode(kind=arg_type, value=normalize_word(w))` attached under the cursor. */
  function EmitLeaf(ctx: Ctx, w: string, argType: Kind, cur: Option<nat>, f: Forest): (r: Run)
    requires Valid(f) && RefOk(cur, |f|)
    ensures Grows(f, r)
    ensures r.outcome.Ok? ==> |r.forest| == |f| + 1 && r.forest[|f|].parent == cur
  {
    if cur.None? then Run(Crash(AttributeMissing), f)
    else
      AttachNewShaped(f, argType, NormalizeWord(ctx.lex, w, ctx.normalizeDigits), cur.value);
      Run(Ok, AttachNew(f, argType, NormalizeWord(ctx.lex, w, ctx.normalizeDigits), cur.value))
  }

  /** One step of the unary-operator post-pass: the right sibling of `op` becomes its last
      child; an operator without a right sibling fails the assertion. */
  function AbsorbOne(op: nat, f: Forest): (r: Run)
    requires Valid(f) && op < |f|
    ensures Grows(f, r) && |r.forest| == |f|
    ensures Shaped(f) ==> (r.outcome.Ok? <==> f[op].rsb.Some?)
    ensures Shaped(f) && !r.outcome.Ok? ==> r.outcome == Crash(AssertionFailed)
  {
    match f[op].rsb
    case None => Run(Crash(AssertionFailed), f)
    case Some(x) =>
      match f[op].parent
      case None => Run(Crash(AttributeMissing), f)
      case Some(par) =>
        if x !in f[par].children then Run(Rejected(NotInList), f)
        else
          ReparentShaped(f, op, x, par);
          Run(Ok, Reparent(f, op, x, par))
  }

  /** The post-pass over the recorded unary operators, from the `i`-th on, in order. */
  function Absorb(ops: seq<nat>, i: nat, f: Forest): (r: Run)
    requires Valid(f) && i <= |ops| && forall k :: 0 <= k < |ops| ==> ops[k] < |f|
    ensures Grows(f, r) && |r.forest| == |f|
    ensures Shaped(f) ==> r.outcome == Ok || r.outcome == Crash(AssertionFailed)
    decreases |ops| - i
  {
    if i == |ops| then Run(Ok, f)
    else
      var o := AbsorbOne(ops[i], f);
      if !o.outcome.Ok? then o else Absorb(ops, i + 1, o.forest)
  }

  /** `normalize(node, current, arg_type)`: the dispatch on the kind of the raw node. */
  function Norm(ctx: Ctx, raw: RawNode, cur: Option<nat>, argType: Kind, f: Forest): (r: Run)
    requires Valid(f) && RefOk(cur, |f|)
    ensures Grows(f, r)
    decreases raw, 3, 0
  {
    if raw.kind == "word" then
      WordNorm(ctx, raw, cur, argType, f)
    else if raw.kind == "pipeline" then
      PipelineNorm(ctx, raw, cur, f)
    else if raw.kind == "list" then
      if !raw.hasParts then Run(Crash(AttributeMissing), f)
      else if |raw.parts| > 2 then Run(Crash(NonExceptionRaised), f)
      else NormParts(ctx, raw, 0, cur, f)
    else if raw.kind == "commandsubstitution" || raw.kind == "processsubstitution" then
      match raw.command
      case None => Run(Rejected(NotANode), f)
      case Some(c) => Norm(ctx, c, cur, Untyped, f)
    else if raw.kind == "command" then
      NormalizeCommand(ctx, raw, cur, f)
    else if raw.hasParts then
      NormParts(ctx, raw, 0, cur, f)
    else if raw.kind in UnsupportedKinds then
      Run(Rejected(UnsupportedMessage(raw.kind)), f)
    else
      Run(Ok, f)
  }

  /** The `word` branch of `normalize`: a word whose first part is a process or command
      substitution becomes a substitution node, one whose first part is a parameter becomes
      a leaf, one with other parts is passed through to them, and a word without parts (or
      whose first part is a tilde) becomes a leaf. */
  function WordNorm(ctx: Ctx, raw: RawNode, cur: Option<nat>, argType: Kind, f: Forest): (r: Run)
    requires Valid(f) && RefOk(cur, |f|)
    ensures Grows(f, r)
    decreases raw, 2, 0
  {
    if !raw.hasParts then Run(Crash(AttributeMissing), f)
    else if |raw.parts| > 0 && raw.parts[0].kind != "tilde" then
      var k0 := raw.parts[0].kind;
      if k0 == "processsubstitution" then
        if Contains(raw.word, ">") then Substitution(ctx, raw, ProcessSubstitution, ">", cur, f)
        else if Contains(raw.word, "<") then Substitution(ctx, raw, ProcessSubstitution, "<", cur, f)
        else Run(Ok, f)
      else if k0 == "commandsubstitution" then
        Substitution(ctx, raw, CommandSubstitution, "", cur, f)
      else if k0 == "parameter" then
        EmitLeaf(ctx, raw.word, argType, cur, f)
      else
        NormParts(ctx, raw, 0, cur, f)
    else
      EmitLeaf(ctx, raw.word, argType, cur, f)
  }

  /** The `pipeline` branch of `normalize`: a pipeline node is attached first, then an even
      number of parts ends the process, and otherwise the parts are walked. */
  function PipelineNorm(ctx: Ctx, raw: RawNode, cur: Option<nat>, f: Forest): (r: Run)
    requires Valid(f) && RefOk(cur, |f|)
    ensures Grows(f, r)
    decreases raw, 2, 0
  {
    if cur.None? then Run(Crash(AttributeMissing), f)
    else
      AttachNewShaped(f, Pipeline, "", cur.value);
      var f1 := AttachNew(f, Pipeline, "", cur.value);
      if !raw.hasParts then Run(Crash(AttributeMissing), f1)
      else if |raw.parts| % 2 == 0 then Run(Exit, f1)
      else PipelineParts(ctx, raw, 0, |f|, f1)
  }

  /** A substitution node of the given kind and value attached under the cursor, with every
      part of the raw word normalized beneath it. */
  function Substitution(ctx: Ctx, raw: RawNode, kind: Kind, value: string, cur: Option<nat>, f: Forest): (r: Run)
    requires Valid(f) && RefOk(cur, |f|)
    ensures Grows(f, r)
    ensures r.outcome.Ok? ==> cur.Some?
    ensures cur.Some? ==> |r.forest| > |f| && r.forest[|f|].kind == kind && r.forest[|f|].value == value
    decreases raw, 1, |raw.parts| + 1
  {
    if cur.None? then Run(Crash(AttributeMissing), f)
    else
      AttachNewShaped(f, kind, value, cur.value);
      var f1 := AttachNew(f, kind, value, cur.value);
      NormParts(ctx, raw, 0, Some(|f|), f1)
  }

  /** `for child in node.parts: normalize(child, current)`, from the `i`-th part on; the
      first failure ends the loop. */
  function NormParts(ctx: Ctx, raw: RawNode, i: nat, cur: Option<nat>, f: Forest): (r: Run)
    requires i <= |raw.parts|
    requires Valid(f) && RefOk(cur, |f|)
    ensures Grows(f, r)
    decreases raw, 1, |raw.parts| - i
  {
    if i == |raw.parts| then Run(Ok, f)
    else
      var r := Norm(ctx, raw.parts[i], cur, Untyped, f);
      if !r.outcome.Ok? then r else NormParts(ctx, raw, i + 1, cur, r.forest)
  }

  /** The loop over the parts of a pipeline: a `command` part is normalized under the
      pipeline node `pipe`, a `pipe` part is skipped, any other part ends the process. */
  function PipelineParts(ctx: Ctx, raw: RawNode, i: nat, pipe: nat, f: Forest): (r: Run)
    requires i <= |raw.parts|
    requires Valid(f) && pipe < |f|
    ensures Grows(f, r)
    decreases raw, 1, |raw.parts| - i
  {
    if i == |raw.parts| then Run(Ok, f)
    else
      var part := raw.parts[i];
      if part.kind == "command" then
        var r := Norm(ctx, part, Some(pipe), Untyped, f);
        if !r.outcome.Ok? then r else PipelineParts(ctx, raw, i + 1, pipe, r.forest)
      else if part.kind == "pipe" then
        PipelineParts(ctx, raw, i + 1, pipe, f)
      else
        Run(Exit, f)
  }

  /** `normalize_command(node, current)`: the scan over the parts, then the post-pass over
      the unary operators it recorded. */
  function NormalizeCommand(ctx: Ctx, raw: RawNode, cur: Option<nat>, f: Forest): (r: Run)
    requires Valid(f) && RefOk(cur, |f|)
    ensures Grows(f, r)
    decreases raw, 2, 0
  {
    if !raw.hasParts then Run(Crash(AttributeMissing), f)
    else
      var s := ScanFrom(ctx, raw, 0, ScanState(cur, false, false, [], []), f);
      if !s.outcome.Ok? then Run(s.outcome, s.forest)
      else Absorb(s.state.unaryOps, 0, s.forest)
  }

  /** The scan loop from the `i`-th part on; the first step that does not end normally ends
      the scan. */
  function ScanFrom(ctx: Ctx, raw: RawNode, i: nat, st: ScanState, f: Forest): (r: ScanRun)
    requires i <= |raw.parts|
    requires Valid(f) && ScanOk(st, f)
    ensures ScanGrows(f, r)
    decreases raw, 1, |raw.parts| - i
  {
    if i == |raw.parts| then ScanRun(Ok, st, f)
    else
      var r := Step(ctx, raw, i, st, f);
      if !r.outcome.Ok? then r else ScanFrom(ctx, raw, i + 1, r.state, r.forest)
  }

  /** A logic operator node attached where `find_attach_point` says, and recorded. */
  function AttachOp(ctx: Ctx, w: string, kind: Kind, st: ScanState, f: Forest): (r: ScanRun)
    requires kind == UnaryLogicOp || kind == BinaryLogicOp
    requires Valid(f) && ScanOk(st, f)
    ensures ScanGrows(f, r)
    ensures r.outcome.Ok? ==>
              && |r.forest| == |f| + 1 && r.forest[|f|].kind == kind && r.forest[|f|].value == w
              && r.state.cursor.Some? && r.forest[|f|].parent == r.state.cursor
              && (kind == UnaryLogicOp ==> r.state.unaryOps == st.unaryOps + [|f|] && r.state.binaryOps == st.binaryOps)
              && (kind == BinaryLogicOp ==> r.state.binaryOps == st.binaryOps + [|f|] && r.state.unaryOps == st.unaryOps)
  {
    var a := FindAttachPoint(ctx.lex, w, st.cursor, f);
    if a.Unresolved? then ScanRun(a.outcome, st, f)
    else if a.point.None? then ScanRun(Crash(AttributeMissing), st.(cursor := None), f)
    else
      AttachNewShaped(f, kind, w, a.point.value);
      var g := AttachNew(f, kind, w, a.point.value);
      if kind == UnaryLogicOp then
        ScanRun(Ok, st.(cursor := a.point, unaryOps := st.unaryOps + [|f|]), g)
      else
        ScanRun(Ok, st.(cursor := a.point, binaryOps := st.binaryOps + [|f|]), g)
  }

  /** After a head command or a flag was normalized at the cursor, the cursor moves to the
      cursor's last child (`attach_point.getRightChild()`). */
  function Descend(r: Run, st: ScanState, f: Forest): (s: ScanRun)
    requires Valid(f) && ScanOk(st, f) && Grows(f, r)
    ensures ScanGrows(f, s)
  {
    if !r.outcome.Ok? then ScanRun(r.outcome, st, r.forest)
    else if st.cursor.None? then ScanRun(Crash(AttributeMissing), st, r.forest)
    else ScanRun(Ok, st.(cursor := GetRightChild(r.forest, st.cursor.value)), r.forest)
  }

  /** The body of the scan loop for the `i`-th part: the pending end of a command is closed
      first, then the part is dispatched. */
  function Step(ctx: Ctx, raw: RawNode, i: nat, st: ScanState, f: Forest): (r: ScanRun)
    requires i < |raw.parts|
    requires Valid(f) && ScanOk(st, f)
    ensures ScanGrows(f, r)
    decreases raw, 0, 1
  {
    var c := CloseCommand(st, f);
    if c.Unresolved? then ScanRun(c.outcome, st, f)
    else Dispatch(ctx, raw, i, st.(cursor := c.point, endOfCommand := false), f)
  }

  /** The branches of the scan loop on the `i`-th part, once any pending end of a command
      has been closed. */
  function Dispatch(ctx: Ctx, raw: RawNode, i: nat, st: ScanState, f: Forest): (r: ScanRun)
    requires i < |raw.parts|
    requires Valid(f) && ScanOk(st, f)
    ensures ScanGrows(f, r)
    decreases raw, 0, 0
  {
    var child := raw.parts[i];
    if child.kind != "word" then ScanRun(Exit, st, f)
    else if child.word == "--" then ScanRun(Ok, st.(endOfOptions := true), f)
    else if child.word == ";" then ScanRun(Ok, st.(endOfCommand := true), f)
    else if IsUnaryLogicOp(child.word) then AttachOp(ctx, child.word, UnaryLogicOp, st, f)
    else if IsBinaryLogicOp(child.word) then AttachOp(ctx, child.word, BinaryLogicOp, st, f)
    else if child.word in ctx.lex.headCommands then
      if |child.word| == child.pos.1 - child.pos.0 then
        Descend(Norm(ctx, child, st.cursor, HeadCommand, f), st, f)
      else
        ScanRun(Ok, st, f)
    else if ctx.lex.isOption(child.word) && !st.endOfOptions then
      var a := FindAttachPoint(ctx.lex, child.word, st.cursor, f);
      if a.Unresolved? then ScanRun(a.outcome, st, f)
      else Descend(Norm(ctx, child, a.point, Flag, f), st.(cursor := a.point), f)
    else
      var r := Norm(ctx, child, st.cursor, Argument, f);
      ScanRun(r.outcome, st, r.forest)
  }

  /** What `normalize_ast` hands back: a tree, `None`, or no value at all because the
      process ended or an exception escaped. */
  datatype AstResult = Tree(forest: Forest) | NoTree | Aborted(outcome: Outcome)

  /** The command text the parser sees: newlines become spaces, the text is stripped, and
      the `tar` rewrite is applied. */
  function CleanCommand(cmd: string): string
  {
    TarFixed(Strip(Replace(cmd, "\n", " ")))
  }

  /** What `normalize_ast` makes of the parser's answer for a non-blank command: the five
      listed parser exceptions give no tree, any other escapes, an empty parse fails on
      `tree[0]`, and otherwise the first root is normalized under a fresh `root` node. */
  function AstFromParse(ctx: Ctx, parsed: ParseResult): (r: AstResult)
    ensures r.Tree? ==> Shaped(r.forest) && |r.forest| >= 1 && r.forest[0].kind == Root && r.forest[0].value == "root"
    ensures r.Aborted? ==> r.outcome.Exit? || r.outcome.Crash?
  {
    match parsed
    case ParseFailed(e) => if e == OtherParserException then Aborted(Crash(ParserCrashed)) else NoTree
    case Parsed(trees) =>
      if |trees| == 0 then Aborted(Crash(IndexOutOfRange))
      else
        RootShaped();
        var r := Norm(ctx, trees[0], Some(0), Untyped, [RootNode]);
        match r.outcome
        case Ok => Tree(r.forest)
        case Rejected(_) => NoTree
        case _ => Aborted(r.outcome)
  }

  /** `normalize_ast(cmd, normalize_digits)` with the parser given as `parse`. */
  function NormalizeAstSpec(lex: Lexicon, cmd: string, normalizeDigits: bool, parse: string -> ParseResult): (r: AstResult)
    ensures r.Tree? ==> Shaped(r.forest) && |r.forest| >= 1 && r.forest[0].kind == Root && r.forest[0].value == "root"
    ensures r.Aborted? ==> r.outcome.Exit? || r.outcome.Crash?
  {
    var c := CleanCommand(cmd);
    if c == "" then NoTree else AstFromParse(Ctx(lex, normalizeDigits), parse(c))
  }
}
