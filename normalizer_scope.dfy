/** Where the normalizer attaches what it builds. Once a pipeline or substitution node `b` is
    attached, every node built for the raw parts beneath it hangs below `b`: its parent is
    `b` or a node created after `b`, and no node created before `b` changes its parent. The
    one way out of that region is climbing: the scan moves the cursor from a node to its
    parent on `;`, and from a flag to its parent on an option, so the proof needs `b` not to
    be a flag and `b`'s parent to be neither a flag nor a head command. */
module NormalizerScope {
  import opened Wrappers
  import opened Strings
  import opened BashAst
  import opened NormTree
  import opened CommandText
  import opened NormalizerSpec

  /** Nodes up to `b` have no parent or a parent before `b`; nodes after `b` have `b` or a
      later node as parent. */
  predicate Region(f: Forest, b: nat)
  {
    && b < |f|
    && (forall j :: 0 <= j <= b ==> f[j].parent.None? || f[j].parent.value < b)
    && (forall j :: b < j < |f| ==> f[j].parent.Some? && b <= f[j].parent.value)
  }

  /** `g` still has the region below `b`, and no node up to `b` changed its parent. */
  predicate Confined(f: Forest, g: Forest, b: nat)
  {
    && b < |f| <= |g| && Region(g, b)
    && forall j :: 0 <= j <= b ==> g[j].parent == f[j].parent
  }

  /** Climbing cannot leave the region: `b` is not a flag, and its parent is neither a flag
      nor a head command. */
  predicate Sealed(f: Forest, b: nat)
  {
    && b < |f| && f[b].kind != Flag
    && (f[b].parent.Some? && f[b].parent.value < |f| ==>
          f[f[b].parent.value].kind != Flag && f[f[b].parent.value].kind != HeadCommand)
  }

  predicate Ready(f: Forest, b: nat)
  {
    Shaped(f) && Region(f, b) && Sealed(f, b)
  }

  /** A cursor inside the region. */
  predicate In(cur: Option<nat>, b: nat)
  {
    cur.Some? ==> b <= cur.value
  }

  /** The scan's cursor is inside the region and every recorded unary operator was created
      after `b`. */
  predicate ScanIn(st: ScanState, b: nat)
  {
    In(st.cursor, b) && forall k :: 0 <= k < |st.unaryOps| ==> b < st.unaryOps[k]
  }

  lemma ConfinedTransitive(f: Forest, g: Forest, h: Forest, b: nat)
    requires Confined(f, g, b) && Confined(g, h, b)
    ensures Confined(f, h, b)
  {
  }

  lemma ReadyKept(f: Forest, g: Forest, b: nat)
    requires Ready(f, b) && Confined(f, g, b) && Extends(f, g) && Shaped(g)
    ensures Ready(g, b)
  {
    assert g[b].parent == f[b].parent;
  }

  /** A node attached inside the region stays inside it. */
  lemma AttachNewIn(f: Forest, kind: Kind, value: string, p: nat, b: nat)
    requires Valid(f) && p < |f| && Region(f, b) && b <= p
    ensures Confined(f, AttachNew(f, kind, value, p), b)
  {
    AttachNewFacts(f, kind, value, p);
  }

  /** Resolving an option's attach point from a cursor inside the region stays inside it. */
  lemma FindAttachPointIn(lex: Lexicon, w: string, cursor: Option<nat>, f: Forest, b: nat)
    requires Valid(f) && RefOk(cursor, |f|) && Region(f, b) && Sealed(f, b) && In(cursor, b)
    ensures var a := FindAttachPoint(lex, w, cursor, f); a.Resolved? ==> In(a.point, b)
  {
    if lex.isOption(w) && cursor.Some? && f[cursor.value].kind == Flag {
      assert cursor.value != b;
    }
  }

  /** Closing a utility on `;` from a cursor inside the region stays inside it. */
  lemma CloseCommandIn(st: ScanState, f: Forest, b: nat)
    requires Valid(f) && RefOk(st.cursor, |f|) && Region(f, b) && Sealed(f, b) && In(st.cursor, b)
    ensures var c := CloseCommand(st, f); c.Resolved? ==> In(c.point, b)
  {
    if st.endOfCommand && st.cursor.Some? && f[st.cursor.value].parent.Some? {
      var x := st.cursor.value;
      var up := f[x].parent.value;
      if x == b {
        assert f[up].kind != Flag && f[up].kind != HeadCommand;
      } else {
        assert b <= up;
        if f[up].kind == Flag {
          assert up != b;
        }
      }
    }
  }

  lemma EmitLeafIn(ctx: Ctx, w: string, argType: Kind, cur: Option<nat>, f: Forest, b: nat)
    requires Valid(f) && RefOk(cur, |f|) && Region(f, b) && In(cur, b)
    ensures Confined(f, EmitLeaf(ctx, w, argType, cur, f).forest, b)
  {
    if cur.Some? {
      AttachNewIn(f, argType, NormalizeWord(ctx.lex, w, ctx.normalizeDigits), cur.value, b);
    }
  }

  /** Absorbing an operator created after `b` moves a node that was already below `b`. */
  lemma AbsorbOneIn(op: nat, f: Forest, b: nat)
    requires Valid(f) && op < |f| && Ready(f, b) && b < op
    ensures Confined(f, AbsorbOne(op, f).forest, b)
  {
    match f[op].rsb
    case None =>
    case Some(x) =>
      match f[op].parent
      case None =>
      case Some(par) =>
        if x in f[par].children {
          ReparentShaped(f, op, x, par);
          ReparentFacts(f, op, x, par);
          XBelow(f, op, x, par, b);
          var g := Reparent(f, op, x, par);
          assert AbsorbOne(op, f).forest == g;
          forall j | 0 <= j <= b
            ensures g[j].parent == f[j].parent
          {
            assert j != x;
          }
          forall j | b < j < |g|
            ensures g[j].parent.Some? && b <= g[j].parent.value
          {
            if j != x {
              assert g[j].parent == f[j].parent;
            }
          }
        }
  }

  /** The right sibling of an operator below `b` is itself below `b`. */
  lemma XBelow(f: Forest, op: nat, x: nat, par: nat, b: nat)
    requires Ready(f, b) && b < op < |f| && f[op].parent == Some(par)
    requires x < |f| && par < |f| && x in f[par].children
    ensures b < x
  {
    var k :| 0 <= k < |f[par].children| && f[par].children[k] == x;
    assert f[x].parent == Some(par);
  }

  lemma {:induction false} AbsorbIn(ops: seq<nat>, i: nat, f: Forest, b: nat)
    requires Valid(f) && i <= |ops| && forall k :: 0 <= k < |ops| ==> ops[k] < |f|
    requires Ready(f, b) && forall k :: 0 <= k < |ops| ==> b < ops[k]
    ensures Confined(f, Absorb(ops, i, f).forest, b)
    decreases |ops| - i
  {
    if i < |ops| {
      var o := AbsorbOne(ops[i], f);
      AbsorbOneIn(ops[i], f, b);
      if o.outcome.Ok? {
        ReadyKept(f, o.forest, b);
        AbsorbIn(ops, i + 1, o.forest, b);
        ConfinedTransitive(f, o.forest, Absorb(ops, i + 1, o.forest).forest, b);
      }
    }
  }

  lemma AttachOpIn(ctx: Ctx, w: string, kind: Kind, st: ScanState, f: Forest, b: nat)
    requires kind == UnaryLogicOp || kind == BinaryLogicOp
    requires Valid(f) && ScanOk(st, f) && Region(f, b) && Sealed(f, b) && ScanIn(st, b)
    ensures var r := AttachOp(ctx, w, kind, st, f); Confined(f, r.forest, b) && ScanIn(r.state, b)
  {
    var a := FindAttachPoint(ctx.lex, w, st.cursor, f);
    var r := AttachOp(ctx, w, kind, st, f);
    FindAttachPointIn(ctx.lex, w, st.cursor, f, b);
    if a.Resolved? && a.point.Some? {
      AttachNewIn(f, kind, w, a.point.value, b);
      var g := AttachNew(f, kind, w, a.point.value);
      if kind == UnaryLogicOp {
        var ops := st.unaryOps + [|f|];
        assert r == ScanRun(Ok, st.(cursor := a.point, unaryOps := ops), g);
        forall k | 0 <= k < |ops|
          ensures b < ops[k]
        {
          if k < |st.unaryOps| {
            assert ops[k] == st.unaryOps[k];
          }
        }
      } else {
        assert r == ScanRun(Ok, st.(cursor := a.point, binaryOps := st.binaryOps + [|f|]), g);
      }
    } else {
      assert r.forest == f && r.state.unaryOps == st.unaryOps;
    }
  }

  /** Moving the cursor onto the last child of a cursor inside the region stays inside it. */
  lemma DescendIn(r: Run, st: ScanState, f: Forest, b: nat)
    requires Valid(f) && ScanOk(st, f) && Grows(f, r) && Ready(f, b) && ScanIn(st, b)
    requires Confined(f, r.forest, b)
    ensures var s := Descend(r, st, f); Confined(f, s.forest, b) && ScanIn(s.state, b)
  {
    if r.outcome.Ok? && st.cursor.Some? {
      var c := st.cursor.value;
      var g := r.forest;
      var n := |g[c].children|;
      if n >= 1 {
        var k := g[c].children[n - 1];
        assert g[k].parent == Some(c);
        assert b < k;
      }
    }
  }

  lemma NormIn(ctx: Ctx, raw: RawNode, cur: Option<nat>, argType: Kind, f: Forest, b: nat)
    requires Valid(f) && RefOk(cur, |f|) && Ready(f, b) && In(cur, b)
    ensures Confined(f, Norm(ctx, raw, cur, argType, f).forest, b)
    decreases raw, 3, 1
  {
    var r := Norm(ctx, raw, cur, argType, f);
    if raw.kind == "word" {
      assert r == WordNorm(ctx, raw, cur, argType, f);
      WordNormIn(ctx, raw, cur, argType, f, b);
    } else if raw.kind == "pipeline" {
      assert r == PipelineNorm(ctx, raw, cur, f);
      PipelineNormIn(ctx, raw, cur, f, b);
    } else if raw.kind == "list" {
      if raw.hasParts && |raw.parts| <= 2 {
        assert r == NormParts(ctx, raw, 0, cur, f);
        NormPartsIn(ctx, raw, 0, cur, f, b);
      } else {
        assert r.forest == f;
      }
    } else {
      NormOtherIn(ctx, raw, cur, argType, f, b);
    }
  }

  /** The branches of `normalize` other than words, pipelines and lists. */
  lemma NormOtherIn(ctx: Ctx, raw: RawNode, cur: Option<nat>, argType: Kind, f: Forest, b: nat)
    requires raw.kind != "word" && raw.kind != "pipeline" && raw.kind != "list"
    requires Valid(f) && RefOk(cur, |f|) && Ready(f, b) && In(cur, b)
    ensures Confined(f, Norm(ctx, raw, cur, argType, f).forest, b)
    decreases raw, 3, 0
  {
    var r := Norm(ctx, raw, cur, argType, f);
    if raw.kind == "commandsubstitution" || raw.kind == "processsubstitution" {
      match raw.command
      case None =>
        assert r.forest == f;
      case Some(c) =>
        assert r == Norm(ctx, c, cur, Untyped, f);
        NormIn(ctx, c, cur, Untyped, f, b);
    } else if raw.kind == "command" {
      assert r == NormalizeCommand(ctx, raw, cur, f);
      NormalizeCommandIn(ctx, raw, cur, f, b);
    } else if raw.hasParts {
      assert r == NormParts(ctx, raw, 0, cur, f);
      NormPartsIn(ctx, raw, 0, cur, f, b);
    } else {
      assert r.forest == f;
    }
  }

  lemma WordNormIn(ctx: Ctx, raw: RawNode, cur: Option<nat>, argType: Kind, f: Forest, b: nat)
    requires Valid(f) && RefOk(cur, |f|) && Ready(f, b) && In(cur, b)
    ensures Confined(f, WordNorm(ctx, raw, cur, argType, f).forest, b)
    decreases raw, 2, 0
  {
    if !raw.hasParts {
    } else if |raw.parts| > 0 && raw.parts[0].kind != "tilde" {
      var k0 := raw.parts[0].kind;
      if k0 == "processsubstitution" {
        if Contains(raw.word, ">") {
          SubstitutionIn(ctx, raw, ProcessSubstitution, ">", cur, f, b);
        } else if Contains(raw.word, "<") {
          SubstitutionIn(ctx, raw, ProcessSubstitution, "<", cur, f, b);
        }
      } else if k0 == "commandsubstitution" {
        SubstitutionIn(ctx, raw, CommandSubstitution, "", cur, f, b);
      } else if k0 == "parameter" {
        EmitLeafIn(ctx, raw.word, argType, cur, f, b);
      } else {
        NormPartsIn(ctx, raw, 0, cur, f, b);
      }
    } else {
      EmitLeafIn(ctx, raw.word, argType, cur, f, b);
    }
  }

  lemma PipelineNormIn(ctx: Ctx, raw: RawNode, cur: Option<nat>, f: Forest, b: nat)
    requires Valid(f) && RefOk(cur, |f|) && Ready(f, b) && In(cur, b)
    ensures Confined(f, PipelineNorm(ctx, raw, cur, f).forest, b)
    decreases raw, 2, 0
  {
    if cur.Some? {
      var f1 := AttachNew(f, Pipeline, "", cur.value);
      AttachNewIn(f, Pipeline, "", cur.value, b);
      AttachNewShaped(f, Pipeline, "", cur.value);
      ReadyKept(f, f1, b);
      if raw.hasParts && |raw.parts| % 2 != 0 {
        PipelinePartsIn(ctx, raw, 0, |f|, f1, b);
        ConfinedTransitive(f, f1, PipelineParts(ctx, raw, 0, |f|, f1).forest, b);
      }
    }
  }

  lemma SubstitutionIn(ctx: Ctx, raw: RawNode, kind: Kind, value: string, cur: Option<nat>, f: Forest, b: nat)
    requires Valid(f) && RefOk(cur, |f|) && Ready(f, b) && In(cur, b)
    ensures Confined(f, Substitution(ctx, raw, kind, value, cur, f).forest, b)
    decreases raw, 1, |raw.parts| + 1
  {
    if cur.Some? {
      var f1 := AttachNew(f, kind, value, cur.value);
      AttachNewIn(f, kind, value, cur.value, b);
      AttachNewShaped(f, kind, value, cur.value);
      ReadyKept(f, f1, b);
      NormPartsIn(ctx, raw, 0, Some(|f|), f1, b);
      ConfinedTransitive(f, f1, NormParts(ctx, raw, 0, Some(|f|), f1).forest, b);
    }
  }

  lemma NormPartsIn(ctx: Ctx, raw: RawNode, i: nat, cur: Option<nat>, f: Forest, b: nat)
    requires i <= |raw.parts|
    requires Valid(f) && RefOk(cur, |f|) && Ready(f, b) && In(cur, b)
    ensures Confined(f, NormParts(ctx, raw, i, cur, f).forest, b)
    decreases raw, 1, |raw.parts| - i
  {
    if i < |raw.parts| {
      var r := Norm(ctx, raw.parts[i], cur, Untyped, f);
      NormIn(ctx, raw.parts[i], cur, Untyped, f, b);
      if r.outcome.Ok? {
        ReadyKept(f, r.forest, b);
        NormPartsIn(ctx, raw, i + 1, cur, r.forest, b);
        ConfinedTransitive(f, r.forest, NormParts(ctx, raw, i + 1, cur, r.forest).forest, b);
      }
    }
  }

  lemma PipelinePartsIn(ctx: Ctx, raw: RawNode, i: nat, pipe: nat, f: Forest, b: nat)
    requires i <= |raw.parts|
    requires Valid(f) && pipe < |f| && Ready(f, b) && b <= pipe
    ensures Confined(f, PipelineParts(ctx, raw, i, pipe, f).forest, b)
    decreases raw, 1, |raw.parts| - i
  {
    if i < |raw.parts| {
      var part := raw.parts[i];
      if part.kind == "command" {
        var r := Norm(ctx, part, Some(pipe), Untyped, f);
        NormIn(ctx, part, Some(pipe), Untyped, f, b);
        if r.outcome.Ok? {
          ReadyKept(f, r.forest, b);
          PipelinePartsIn(ctx, raw, i + 1, pipe, r.forest, b);
          ConfinedTransitive(f, r.forest, PipelineParts(ctx, raw, i + 1, pipe, r.forest).forest, b);
        }
      } else if part.kind == "pipe" {
        PipelinePartsIn(ctx, raw, i + 1, pipe, f, b);
      }
    }
  }

  lemma NormalizeCommandIn(ctx: Ctx, raw: RawNode, cur: Option<nat>, f: Forest, b: nat)
    requires Valid(f) && RefOk(cur, |f|) && Ready(f, b) && In(cur, b)
    ensures Confined(f, NormalizeCommand(ctx, raw, cur, f).forest, b)
    decreases raw, 2, 0
  {
    if raw.hasParts {
      var st := ScanState(cur, false, false, [], []);
      var s := ScanFrom(ctx, raw, 0, st, f);
      ScanFromIn(ctx, raw, 0, st, f, b);
      if s.outcome.Ok? {
        ReadyKept(f, s.forest, b);
        AbsorbIn(s.state.unaryOps, 0, s.forest, b);
        ConfinedTransitive(f, s.forest, Absorb(s.state.unaryOps, 0, s.forest).forest, b);
      }
    }
  }

  lemma ScanFromIn(ctx: Ctx, raw: RawNode, i: nat, st: ScanState, f: Forest, b: nat)
    requires i <= |raw.parts|
    requires Valid(f) && ScanOk(st, f) && Ready(f, b) && ScanIn(st, b)
    ensures var r := ScanFrom(ctx, raw, i, st, f); Confined(f, r.forest, b) && ScanIn(r.state, b)
    decreases raw, 1, |raw.parts| - i
  {
    if i < |raw.parts| {
      var r := Step(ctx, raw, i, st, f);
      StepIn(ctx, raw, i, st, f, b);
      if r.outcome.Ok? {
        ReadyKept(f, r.forest, b);
        ScanFromIn(ctx, raw, i + 1, r.state, r.forest, b);
        ConfinedTransitive(f, r.forest, ScanFrom(ctx, raw, i + 1, r.state, r.forest).forest, b);
      }
    }
  }

  lemma StepIn(ctx: Ctx, raw: RawNode, i: nat, st: ScanState, f: Forest, b: nat)
    requires i < |raw.parts|
    requires Valid(f) && ScanOk(st, f) && Ready(f, b) && ScanIn(st, b)
    ensures var r := Step(ctx, raw, i, st, f); Confined(f, r.forest, b) && ScanIn(r.state, b)
    decreases raw, 0, 3
  {
    var c := CloseCommand(st, f);
    CloseCommandIn(st, f, b);
    if c.Resolved? {
      DispatchIn(ctx, raw, i, st.(cursor := c.point, endOfCommand := false), f, b);
    }
  }

  lemma DispatchIn(ctx: Ctx, raw: RawNode, i: nat, st: ScanState, f: Forest, b: nat)
    requires i < |raw.parts|
    requires Valid(f) && ScanOk(st, f) && Ready(f, b) && ScanIn(st, b)
    ensures var r := Dispatch(ctx, raw, i, st, f); Confined(f, r.forest, b) && ScanIn(r.state, b)
    decreases raw, 0, 2
  {
    var child := raw.parts[i];
    var r := Dispatch(ctx, raw, i, st, f);
    if child.kind != "word" || child.word == "--" || child.word == ";" {
      assert r.forest == f && r.state.cursor == st.cursor && r.state.unaryOps == st.unaryOps;
    } else if IsUnaryLogicOp(child.word) {
      assert r == AttachOp(ctx, child.word, UnaryLogicOp, st, f);
      AttachOpIn(ctx, child.word, UnaryLogicOp, st, f, b);
    } else if IsBinaryLogicOp(child.word) {
      assert r == AttachOp(ctx, child.word, BinaryLogicOp, st, f);
      AttachOpIn(ctx, child.word, BinaryLogicOp, st, f, b);
    } else if child.word in ctx.lex.headCommands {
      DispatchHeadIn(ctx, raw, i, st, f, b);
    } else if ctx.lex.isOption(child.word) && !st.endOfOptions {
      DispatchOptionIn(ctx, raw, i, st, f, b);
    } else {
      var n := Norm(ctx, child, st.cursor, Argument, f);
      assert r == ScanRun(n.outcome, st, n.forest);
      NormIn(ctx, child, st.cursor, Argument, f, b);
    }
  }

  /** A head command word is normalized at the cursor, which then moves onto it. */
  lemma DispatchHeadIn(ctx: Ctx, raw: RawNode, i: nat, st: ScanState, f: Forest, b: nat)
    requires i < |raw.parts| && raw.parts[i].kind == "word"
    requires raw.parts[i].word != "--" && raw.parts[i].word != ";"
    requires !IsUnaryLogicOp(raw.parts[i].word) && !IsBinaryLogicOp(raw.parts[i].word)
    requires raw.parts[i].word in ctx.lex.headCommands
    requires Valid(f) && ScanOk(st, f) && Ready(f, b) && ScanIn(st, b)
    ensures var r := Dispatch(ctx, raw, i, st, f); Confined(f, r.forest, b) && ScanIn(r.state, b)
    decreases raw, 0, 1
  {
    var child := raw.parts[i];
    var r := Dispatch(ctx, raw, i, st, f);
    if |child.word| == child.pos.1 - child.pos.0 {
      assert r == Descend(Norm(ctx, child, st.cursor, HeadCommand, f), st, f);
      NormDescendIn(ctx, raw, i, HeadCommand, st, f, b);
    } else {
      assert r == ScanRun(Ok, st, f);
    }
  }

  /** An option word before `--` is normalized as a flag where `find_attach_point` says, and
      the cursor moves onto it. */
  lemma DispatchOptionIn(ctx: Ctx, raw: RawNode, i: nat, st: ScanState, f: Forest, b: nat)
    requires i < |raw.parts| && raw.parts[i].kind == "word"
    requires raw.parts[i].word != "--" && raw.parts[i].word != ";"
    requires !IsUnaryLogicOp(raw.parts[i].word) && !IsBinaryLogicOp(raw.parts[i].word)
    requires raw.parts[i].word !in ctx.lex.headCommands
    requires ctx.lex.isOption(raw.parts[i].word) && !st.endOfOptions
    requires Valid(f) && ScanOk(st, f) && Ready(f, b) && ScanIn(st, b)
    ensures var r := Dispatch(ctx, raw, i, st, f); Confined(f, r.forest, b) && ScanIn(r.state, b)
    decreases raw, 0, 1
  {
    var child := raw.parts[i];
    var r := Dispatch(ctx, raw, i, st, f);
    var a := FindAttachPoint(ctx.lex, child.word, st.cursor, f);
    FindAttachPointIn(ctx.lex, child.word, st.cursor, f, b);
    if a.Resolved? {
      assert r == Descend(Norm(ctx, child, a.point, Flag, f), st.(cursor := a.point), f);
      NormDescendIn(ctx, raw, i, Flag, st.(cursor := a.point), f, b);
    } else {
      assert r == ScanRun(a.outcome, st, f);
    }
  }

  /** Normalizing a head command or a flag at a cursor inside the region and then moving
      the cursor onto its last child stays inside the region. */
  lemma NormDescendIn(ctx: Ctx, raw: RawNode, i: nat, kind: Kind, st: ScanState, f: Forest, b: nat)
    requires i < |raw.parts|
    requires Valid(f) && ScanOk(st, f) && Ready(f, b) && ScanIn(st, b)
    ensures var s := Descend(Norm(ctx, raw.parts[i], st.cursor, kind, f), st, f);
      Confined(f, s.forest, b) && ScanIn(s.state, b)
    decreases raw, 0, 0
  {
    NormIn(ctx, raw.parts[i], st.cursor, kind, f, b);
    DescendIn(Norm(ctx, raw.parts[i], st.cursor, kind, f), st, f, b);
  }

  /** A fresh node attached under a cursor that is neither a flag nor a head command starts
      a sealed region. */
  lemma FreshRegion(f: Forest, kind: Kind, value: string, c: nat)
    requires Shaped(f) && c < |f| && kind != Flag
    requires f[c].kind != Flag && f[c].kind != HeadCommand
    ensures Ready(AttachNew(f, kind, value, c), |f|)
  {
    var g := AttachNew(f, kind, value, c);
    AttachNewFacts(f, kind, value, c);
    AttachNewShaped(f, kind, value, c);
    forall j | 0 <= j < |f|
      ensures g[j].parent.None? || g[j].parent.value < |f|
    {
      assert g[j].parent == f[j].parent;
      assert NodeOk(f[j], |f|);
    }
  }

  /** Every command part of a pipeline is normalized beneath the one pipeline node: each node
      created after the pipeline node has the pipeline node or a later node as its parent,
      and no earlier node changes its parent. This holds under a cursor that is neither a
      flag nor a head command, from which a `;` or an option cannot climb out. */
  lemma PipelinePartsBeneathPipelineNode(ctx: Ctx, raw: RawNode, c: nat, f: Forest)
    requires Shaped(f) && c < |f|
    requires f[c].kind != Flag && f[c].kind != HeadCommand
    ensures var g := PipelineNorm(ctx, raw, Some(c), f).forest;
      && |g| > |f| && g[|f|].kind == Pipeline && g[|f|].parent == Some(c)
      && (forall j :: |f| < j < |g| ==> g[j].parent.Some? && |f| <= g[j].parent.value)
      && (forall j :: 0 <= j < |f| ==> g[j].parent == f[j].parent)
  {
    var b := |f|;
    var f1 := AttachNew(f, Pipeline, "", c);
    AttachNewFacts(f, Pipeline, "", c);
    FreshRegion(f, Pipeline, "", c);
    var g := PipelineNorm(ctx, raw, Some(c), f).forest;
    if raw.hasParts && |raw.parts| % 2 != 0 {
      PipelinePartsIn(ctx, raw, 0, b, f1, b);
      assert g == PipelineParts(ctx, raw, 0, b, f1).forest;
    } else {
      assert g == f1;
    }
    assert Confined(f1, g, b);
    forall j | 0 <= j < |f|
      ensures g[j].parent == f[j].parent
    {
      assert g[j].parent == f1[j].parent;
    }
  }

  /** Every part of a substituted word is normalized beneath its substitution node, under a
      cursor that is neither a flag nor a head command. */
  lemma SubstitutionPartsBeneathNode(ctx: Ctx, raw: RawNode, kind: Kind, value: string, c: nat, f: Forest)
    requires kind == CommandSubstitution || kind == ProcessSubstitution
    requires Shaped(f) && c < |f|
    requires f[c].kind != Flag && f[c].kind != HeadCommand
    ensures var g := Substitution(ctx, raw, kind, value, Some(c), f).forest;
      && |g| > |f| && g[|f|].kind == kind && g[|f|].parent == Some(c)
      && (forall j :: |f| < j < |g| ==> g[j].parent.Some? && |f| <= g[j].parent.value)
      && (forall j :: 0 <= j < |f| ==> g[j].parent == f[j].parent)
  {
    var b := |f|;
    var f1 := AttachNew(f, kind, value, c);
    AttachNewFacts(f, kind, value, c);
    FreshRegion(f, kind, value, c);
    var g := Substitution(ctx, raw, kind, value, Some(c), f).forest;
    NormPartsIn(ctx, raw, 0, Some(b), f1, b);
    assert g == NormParts(ctx, raw, 0, Some(b), f1).forest;
    assert Confined(f1, g, b);
    forall j | 0 <= j < |f|
      ensures g[j].parent == f[j].parent
    {
      assert g[j].parent == f1[j].parent;
    }
  }
}
