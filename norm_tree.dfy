/** The normalized tree under construction, as a value: an arena of node records
    addressed by index. Index 0 holds the synthetic root once normalization starts. Each
    record carries the fields of the source's `Node`: kind, value, parent, left and right
    sibling, and the ordered list of children. */
module NormTree {
  import opened Wrappers

  /** The node kinds of the normalized tree. `HeadCommand`, `Flag`, `Argument` and
      `Untyped` are the argument leaves, whose kind is the argument type the caller chose
      (the empty type for `Untyped`). */
  datatype Kind =
    | Root
    | Pipeline
    | HeadCommand
    | Flag
    | Argument
    | Untyped
    | UnaryLogicOp
    | BinaryLogicOp
    | CommandSubstitution
    | ProcessSubstitution

  datatype NodeRec = NodeRec(
    kind: Kind,
    value: string,
    parent: Option<nat>,
    lsb: Option<nat>,
    rsb: Option<nat>,
    children: seq<nat>)

  type Forest = seq<NodeRec>

  /** A node as its constructor leaves it: no parent, no siblings, no children. */
  function Fresh(kind: Kind, value: string): NodeRec
  {
    NodeRec(kind, value, None, None, None, [])
  }

  /** `Node(kind="root", value="root")`, the root the entry point creates. */
  const RootNode: NodeRec := Fresh(Root, "root")

  predicate RefOk(r: Option<nat>, n: int)
  {
    r.Some? ==> r.value < n
  }

  predicate NodeOk(x: NodeRec, n: int)
  {
    RefOk(x.parent, n) && RefOk(x.lsb, n) && RefOk(x.rsb, n) && forall c :: c in x.children ==> c < n
  }

  /** Every reference held by a node names a node of the arena. */
  predicate Valid(f: Forest)
  {
    forall i :: 0 <= i < |f| ==> NodeOk(f[i], |f|)
  }

  /** `g` keeps every node of `f` with its kind and value, and may hold more nodes. */
  predicate Extends(f: Forest, g: Forest)
  {
    |f| <= |g| && forall i :: 0 <= i < |f| ==> g[i].kind == f[i].kind && g[i].value == f[i].value
  }

  lemma ExtendsTransitive(f: Forest, g: Forest, h: Forest)
    requires Extends(f, g) && Extends(g, h)
    ensures Extends(f, h)
  {
  }

  lemma ValidAppend(f: Forest, x: NodeRec)
    requires Valid(f) && NodeOk(x, |f|)
    ensures Valid(f + [x])
  {
    forall i | 0 <= i < |f| + 1
      ensures NodeOk((f + [x])[i], |f| + 1)
    {
      var y := (f + [x])[i];
      assert NodeOk(y, |f|);
    }
  }

  /** `Node.getRightChild`: the last child, or none. */
  function GetRightChild(f: Forest, p: nat): (r: Option<nat>)
    requires p < |f|
    ensures r.Some? ==> r.value in f[p].children
  {
    if |f[p].children| >= 1 then Some(f[p].children[|f[p].children| - 1]) else None
  }

  /** `attach_to_tree(n, p)`: `n` records `p` as its parent and `p`'s previous last child
      as its left sibling, `n` is appended to `p`'s children, and that previous last child
      records `n` as its right sibling. */
  function Attach(f: Forest, n: nat, p: nat): (g: Forest)
    requires Valid(f) && n < |f| && p < |f|
    ensures Valid(g) && |g| == |f| && Extends(f, g)
  {
    var lsb := GetRightChild(f, p);
    ValidUpdate(f, n, f[n].(parent := Some(p), lsb := lsb));
    var f1 := f[n := f[n].(parent := Some(p), lsb := lsb)];
    ValidUpdate(f1, p, f1[p].(children := f1[p].children + [n]));
    var f2 := f1[p := f1[p].(children := f1[p].children + [n])];
    ExtendsTransitive(f, f1, f2);
    if lsb.Some? then
      ValidUpdate(f2, lsb.value, f2[lsb.value].(rsb := Some(n)));
      ExtendsTransitive(f, f2, f2[lsb.value := f2[lsb.value].(rsb := Some(n))]);
      f2[lsb.value := f2[lsb.value].(rsb := Some(n))]
    else f2
  }

  /** Replacing one node by a well-formed node of the same kind and value keeps the arena
      well formed and extends it. */
  lemma ValidUpdate(f: Forest, i: nat, x: NodeRec)
    requires Valid(f) && i < |f| && NodeOk(x, |f|)
    requires x.kind == f[i].kind && x.value == f[i].value
    ensures Valid(f[i := x]) && |f[i := x]| == |f| && Extends(f, f[i := x])
  {
  }

  /** A fresh node of the given kind and value, attached under `p`; it gets index `|f|`. */
  function AttachNew(f: Forest, kind: Kind, value: string, p: nat): (g: Forest)
    requires Valid(f) && p < |f|
    ensures Valid(g) && |g| == |f| + 1 && Extends(f, g)
    ensures g[|f|].kind == kind && g[|f|].value == value && g[|f|].parent == Some(p)
  {
    ValidAppend(f, Fresh(kind, value));
    Attach(f + [Fresh(kind, value)], |f|, p)
  }

  /** After `attach_to_tree(n, p)`, `n` is the last child of `p` and `p` its parent; its left
      sibling is `p`'s previous last child, whose right sibling is now `n`; `p`'s earlier
      children keep their order, and no other node changes. */
  lemma AttachLinksSiblings(f: Forest, n: nat, p: nat)
    requires Valid(f) && n < |f| && p < |f| && n != p && n !in f[p].children
    ensures var g := Attach(f, n, p);
      && g[p].children == f[p].children + [n]
      && g[n].parent == Some(p)
      && g[n].lsb == GetRightChild(f, p)
      && (GetRightChild(f, p).Some? ==> g[GetRightChild(f, p).value].rsb == Some(n))
      && g[n].children == f[n].children && g[n].rsb == f[n].rsb
      && g[p].parent == f[p].parent && g[p].lsb == f[p].lsb
      && forall i :: 0 <= i < |f| && i != n && i != p && Some(i) != GetRightChild(f, p) ==> g[i] == f[i]
  {
  }

  /** Position of the first occurrence of `x` in `xs`. */
  function IndexOf(xs: seq<nat>, x: nat): (k: nat)
    requires x in xs
    ensures k < |xs| && xs[k] == x && x !in xs[..k]
  {
    if xs[0] == x then 0 else 1 + IndexOf(xs[1..], x)
  }

  /** Python's `list.remove(x)`: drops the first occurrence of `x`, keeping the order. */
  function RemoveFirst(xs: seq<nat>, x: nat): (r: seq<nat>)
    requires x in xs
    ensures |r| == |xs| - 1
    ensures multiset(r) == multiset(xs) - multiset{x}
    ensures exists k :: 0 <= k < |xs| && xs[k] == x && x !in xs[..k] && r == xs[..k] + xs[k + 1..]
  {
    var k := IndexOf(xs, x);
    assert xs == xs[..k] + [x] + xs[k + 1..];
    xs[..k] + xs[k + 1..]
  }

  /** Every node listed as a child of `p` records `p` as its parent. */
  predicate ChildLinked(f: Forest)
  {
    forall p, k :: 0 <= p < |f| && 0 <= k < |f[p].children| ==>
      var c := f[p].children[k]; c < |f| && f[c].parent == Some(p)
  }

  /** No node is listed twice among the children of one node. */
  predicate NoDupChildren(f: Forest)
  {
    forall p, k, l :: 0 <= p < |f| && 0 <= k < l < |f[p].children| ==> f[p].children[k] != f[p].children[l]
  }

  /** A right sibling is another node listed among the children of the same parent. */
  predicate SiblingLinked(f: Forest)
  {
    forall i :: 0 <= i < |f| && f[i].rsb.Some? ==>
      && f[i].rsb.value != i && f[i].parent.Some? && f[i].parent.value < |f|
      && f[i].rsb.value in f[f[i].parent.value].children
  }

  /** No two nodes claim the same right sibling. */
  predicate RsbInjective(f: Forest)
  {
    forall i, j :: 0 <= i < |f| && 0 <= j < |f| && f[i].rsb.Some? && f[i].rsb == f[j].rsb ==> i == j
  }

  /** No node is its own parent. */
  predicate NotOwnParent(f: Forest)
  {
    forall i :: 0 <= i < |f| ==> f[i].parent != Some(i)
  }

  /** The links of the tree agree with each other. */
  predicate Shaped(f: Forest)
  {
    Valid(f) && ChildLinked(f) && NoDupChildren(f) && SiblingLinked(f) && RsbInjective(f) && NotOwnParent(f)
  }

  lemma RootShaped()
    ensures Shaped([RootNode])
  {
  }

  /** `g` is `f` after a fresh node of index `|f|` was attached under `p`, whose previous
      last child was `lsb`: field by field, what changed and what did not. */
  predicate AttachedFresh(f: Forest, g: Forest, p: nat, lsb: Option<nat>)
  {
    && |g| == |f| + 1 && p < |f|
    && g[|f|].parent == Some(p) && g[|f|].rsb == None && g[|f|].children == []
    && (forall i {:trigger g[i].parent} :: 0 <= i < |f| ==> g[i].parent == f[i].parent)
    && (forall i {:trigger g[i].rsb} :: 0 <= i < |f| ==> g[i].rsb == if lsb == Some(i) then Some(|f|) else f[i].rsb)
    && (forall i {:trigger g[i].children} :: 0 <= i < |f| ==>
          g[i].children == if i == p then f[p].children + [|f|] else f[i].children)
  }

  lemma AttachNewFacts(f: Forest, kind: Kind, value: string, p: nat)
    requires Valid(f) && p < |f|
    ensures AttachedFresh(f, AttachNew(f, kind, value, p), p, GetRightChild(f, p))
    ensures NotOwnParent(f) ==> NotOwnParent(AttachNew(f, kind, value, p))
  {
    var h := f + [Fresh(kind, value)];
    var n := |f|;
    ValidAppend(f, Fresh(kind, value));
    var lsb := GetRightChild(f, p);
    assert GetRightChild(h, p) == lsb;
    var g := AttachNew(f, kind, value, p);
    assert g == Attach(h, n, p);
    AttachFields(h, n, p);
    assert h[n] == Fresh(kind, value);
    assert forall i :: 0 <= i < |f| ==> h[i] == f[i];
    assert lsb != Some(n);
  }

  /** `attach_to_tree(n, p)` field by field, for any `n` and `p`. */
  lemma AttachFields(h: Forest, n: nat, p: nat)
    requires Valid(h) && n < |h| && p < |h|
    ensures var g := Attach(h, n, p);
      && (forall i :: 0 <= i < |h| ==> g[i].parent == if i == n then Some(p) else h[i].parent)
      && (forall i :: 0 <= i < |h| ==> g[i].rsb == if GetRightChild(h, p) == Some(i) then Some(n) else h[i].rsb)
      && (forall i :: 0 <= i < |h| ==> g[i].children == if i == p then h[p].children + [n] else h[i].children)
  {
  }

  /** Attaching a fresh node keeps the links of the tree consistent. */
  lemma AttachNewShaped(f: Forest, kind: Kind, value: string, p: nat)
    requires Valid(f) && p < |f|
    ensures Shaped(f) ==> Shaped(AttachNew(f, kind, value, p))
  {
    if !Shaped(f) {
      return;
    }
    var g := AttachNew(f, kind, value, p);
    var lsb := GetRightChild(f, p);
    AttachNewFacts(f, kind, value, p);
    AttachedFreshChildLinked(f, g, p, lsb);
    AttachedFreshNoDup(f, g, p, lsb);
    AttachedFreshSiblingLinked(f, g, p, lsb);
    AttachedFreshRsbInjective(f, g, p, lsb);
  }

  lemma AttachedFreshChildLinked(f: Forest, g: Forest, p: nat, lsb: Option<nat>)
    requires ChildLinked(f) && AttachedFresh(f, g, p, lsb)
    ensures ChildLinked(g)
  {
    forall q, k | 0 <= q < |g| && 0 <= k < |g[q].children|
      ensures var c := g[q].children[k]; c < |g| && g[c].parent == Some(q)
    {
      AttachedFreshChildAt(f, g, p, lsb, q, k);
    }
  }

  lemma AttachedFreshChildAt(f: Forest, g: Forest, p: nat, lsb: Option<nat>, q: nat, k: nat)
    requires ChildLinked(f) && AttachedFresh(f, g, p, lsb)
    requires q < |g| && k < |g[q].children|
    ensures var c := g[q].children[k]; c < |g| && g[c].parent == Some(q)
  {
    var n := |f|;
    assert q < n by {
      assert g[n].children == [];
    }
    var gc := g[q].children;
    if q == p && k == |f[p].children| {
      assert gc == f[p].children + [n];
      assert gc[k] == n;
    } else {
      assert k < |f[q].children| && gc[k] == f[q].children[k] by {
        if q == p {
          assert gc == f[p].children + [n];
        } else {
          assert gc == f[q].children;
        }
      }
      var c := f[q].children[k];
      assert c < n && f[c].parent == Some(q);
      assert g[c].parent == f[c].parent;
    }
  }

  lemma AttachedFreshNoDup(f: Forest, g: Forest, p: nat, lsb: Option<nat>)
    requires ChildLinked(f) && NoDupChildren(f) && AttachedFresh(f, g, p, lsb)
    ensures NoDupChildren(g)
  {
    forall q, k, l | 0 <= q < |g| && 0 <= k < l < |g[q].children|
      ensures g[q].children[k] != g[q].children[l]
    {
      AttachedFreshNoDupAt(f, g, p, lsb, q, k, l);
    }
  }

  lemma AttachedFreshNoDupAt(f: Forest, g: Forest, p: nat, lsb: Option<nat>, q: nat, k: nat, l: nat)
    requires ChildLinked(f) && NoDupChildren(f) && AttachedFresh(f, g, p, lsb)
    requires q < |g| && k < l < |g[q].children|
    ensures g[q].children[k] != g[q].children[l]
  {
    var n := |f|;
    assert q < n by {
      assert g[n].children == [];
    }
    var gc := g[q].children;
    assert gc == f[q].children + (if q == p then [n] else []);
    var old_k := f[q].children[k];
    assert gc[k] == old_k;
    if q == p && l == |f[p].children| {
      assert old_k < n;
      assert gc[l] == n;
    } else {
      assert gc[l] == f[q].children[l];
    }
  }

  lemma AttachedFreshSiblingLinked(f: Forest, g: Forest, p: nat, lsb: Option<nat>)
    requires ChildLinked(f) && SiblingLinked(f) && AttachedFresh(f, g, p, lsb)
    requires lsb.Some? ==> lsb.value in f[p].children
    ensures SiblingLinked(g)
  {
    forall i | 0 <= i < |g| && g[i].rsb.Some?
      ensures && g[i].rsb.value != i && g[i].parent.Some? && g[i].parent.value < |g|
              && g[i].rsb.value in g[g[i].parent.value].children
    {
      AttachedFreshSiblingAt(f, g, p, lsb, i);
    }
  }

  lemma AttachedFreshSiblingAt(f: Forest, g: Forest, p: nat, lsb: Option<nat>, i: nat)
    requires ChildLinked(f) && SiblingLinked(f) && AttachedFresh(f, g, p, lsb)
    requires lsb.Some? ==> lsb.value in f[p].children
    requires i < |g| && g[i].rsb.Some?
    ensures && g[i].rsb.value != i && g[i].parent.Some? && g[i].parent.value < |g|
            && g[i].rsb.value in g[g[i].parent.value].children
  {
    assert i < |f| by {
      assert g[|f|].rsb == None;
    }
    if lsb == Some(i) {
      AttachedFreshSiblingAtLast(f, g, p, i);
    } else {
      AttachedFreshSiblingAtOther(f, g, p, lsb, i);
    }
  }

  /** The previous last child now has the fresh node as its right sibling. */
  lemma AttachedFreshSiblingAtLast(f: Forest, g: Forest, p: nat, i: nat)
    requires ChildLinked(f) && AttachedFresh(f, g, p, Some(i)) && i in f[p].children && i < |f|
    ensures && g[i].rsb.value != i && g[i].parent.Some? && g[i].parent.value < |g|
            && g[i].rsb.value in g[g[i].parent.value].children
  {
    var n := |f|;
    assert f[i].parent == Some(p) by {
      var k :| 0 <= k < |f[p].children| && f[p].children[k] == i;
    }
    assert g[i].parent == f[i].parent;
    assert g[i].rsb == Some(n);
    assert g[p].children == f[p].children + [n];
  }

  /** Any other node keeps its right sibling, which stays among its parent's children. */
  lemma AttachedFreshSiblingAtOther(f: Forest, g: Forest, p: nat, lsb: Option<nat>, i: nat)
    requires SiblingLinked(f) && AttachedFresh(f, g, p, lsb) && lsb != Some(i) && i < |f| && g[i].rsb.Some?
    ensures && g[i].rsb.value != i && g[i].parent.Some? && g[i].parent.value < |g|
            && g[i].rsb.value in g[g[i].parent.value].children
  {
    var n := |f|;
    assert g[i].parent == f[i].parent;
    assert g[i].rsb == f[i].rsb;
    var q := f[i].parent.value;
    assert q < n && f[i].rsb.value in f[q].children;
    assert g[q].children == f[q].children + (if q == p then [n] else []);
  }

  lemma AttachedFreshRsbInjective(f: Forest, g: Forest, p: nat, lsb: Option<nat>)
    requires Valid(f) && RsbInjective(f) && AttachedFresh(f, g, p, lsb)
    requires lsb.Some? ==> lsb.value < |f|
    ensures RsbInjective(g)
  {
    var n := |f|;
    forall i, j | 0 <= i < |g| && 0 <= j < |g| && g[i].rsb.Some? && g[i].rsb == g[j].rsb
      ensures i == j
    {
      assert g[n].rsb == None;
      assert j != n && i != n;
    }
  }

  /** `list.remove(x)` keeps every other element. */
  lemma RemoveFirstKeeps(xs: seq<nat>, x: nat, y: nat)
    requires x in xs && y in xs && y != x
    ensures y in RemoveFirst(xs, x)
  {
    var k := IndexOf(xs, x);
    assert xs == xs[..k] + [x] + xs[k + 1..];
  }

  /** Removing from a list without duplicates leaves a list without duplicates that no longer
      holds the removed element, and holds only elements of the original. */
  lemma RemoveFirstNoDup(xs: seq<nat>, x: nat)
    requires x in xs
    requires forall k, l :: 0 <= k < l < |xs| ==> xs[k] != xs[l]
    ensures var r := RemoveFirst(xs, x);
      && x !in r
      && (forall k, l :: 0 <= k < l < |r| ==> r[k] != r[l])
      && forall y :: y in r ==> y in xs
  {
    var k := IndexOf(xs, x);
    var r := RemoveFirst(xs, x);
    assert r == xs[..k] + xs[k + 1..];
    assert forall j :: 0 <= j < |r| ==> r[j] == xs[if j < k then j else j + 1];
    forall a, b | 0 <= a < b < |r|
      ensures r[a] != r[b]
    {
      assert r[a] == xs[if a < k then a else a + 1];
    }
    forall j | 0 <= j < |r|
      ensures r[j] != x
    {
      assert r[j] == xs[if j < k then j else j + 1];
    }
  }

  /** The body of the unary-operator post-pass for one operator `op` whose right sibling is
      `x` and whose parent is `par`, as the sequence of field updates the source performs:
      `x` leaves `par`'s children, records `op` as its parent and loses both siblings, is
      appended to `op`'s children, and `op` loses its right sibling. */
  function Reparent(f: Forest, op: nat, x: nat, par: nat): (g: Forest)
    requires Valid(f) && op < |f| && x < |f| && par < |f| && x in f[par].children
    ensures Valid(g) && |g| == |f| && Extends(f, g)
  {
    var f1 := f[par := f[par].(children := RemoveFirst(f[par].children, x))];
    assert forall c :: c in f1[par].children ==> c in f[par].children by {
      forall c | c in f1[par].children
        ensures c in f[par].children
      {
        assert multiset(f1[par].children)[c] > 0;
      }
    }
    ValidUpdate(f, par, f[par].(children := RemoveFirst(f[par].children, x)));
    ValidUpdate(f1, x, f1[x].(parent := Some(op), lsb := None, rsb := None));
    var f2 := f1[x := f1[x].(parent := Some(op), lsb := None, rsb := None)];
    ValidUpdate(f2, op, f2[op].(children := f2[op].children + [x]));
    var f3 := f2[op := f2[op].(children := f2[op].children + [x])];
    ValidUpdate(f3, op, f3[op].(rsb := None));
    ExtendsTransitive(f, f1, f2);
    ExtendsTransitive(f, f2, f3);
    ExtendsTransitive(f, f3, f3[op := f3[op].(rsb := None)]);
    f3[op := f3[op].(rsb := None)]
  }

  /** `g` is `f` after `Reparent(f, op, x, par)` for three distinct nodes, field by field. */
  predicate Reparented(f: Forest, g: Forest, op: nat, x: nat, par: nat)
    requires x < |f| && par < |f| && x in f[par].children
  {
    && |g| == |f|
    && (forall i {:trigger g[i].parent} :: 0 <= i < |f| ==> g[i].parent == if i == x then Some(op) else f[i].parent)
    && (forall i {:trigger g[i].rsb} :: 0 <= i < |f| ==> g[i].rsb == if i == x || i == op then None else f[i].rsb)
    && (forall i {:trigger g[i].children} :: 0 <= i < |f| ==>
          g[i].children == (if i == par then RemoveFirst(f[par].children, x)
                            else if i == op then f[op].children + [x]
                            else f[i].children))
  }

  /** `Reparent` touches only the three nodes it names. */
  lemma ReparentFrame(f: Forest, op: nat, x: nat, par: nat, i: nat)
    requires Valid(f) && op < |f| && x < |f| && par < |f| && x in f[par].children
    requires i < |f| && i != op && i != x && i != par
    ensures Reparent(f, op, x, par)[i] == f[i]
  {
  }

  lemma ReparentFacts(f: Forest, op: nat, x: nat, par: nat)
    requires Valid(f) && op < |f| && x < |f| && par < |f| && x in f[par].children
    requires op != x && op != par && x != par
    ensures Reparented(f, Reparent(f, op, x, par), op, x, par)
    ensures Reparent(f, op, x, par)[x].lsb == None
  {
  }

  /** In a consistent tree, moving the right sibling of `op` under `op` keeps the tree
      consistent, and `x` becomes `op`'s last child. */
  lemma ReparentShaped(f: Forest, op: nat, x: nat, par: nat)
    requires Valid(f) && op < |f| && x < |f| && par < |f| && x in f[par].children
    requires f[op].rsb == Some(x) && f[op].parent == Some(par)
    ensures Shaped(f) ==> op != x && op != par && x != par
    ensures Shaped(f) ==> Shaped(Reparent(f, op, x, par))
  {
    if !Shaped(f) {
      return;
    }
    var k :| 0 <= k < |f[par].children| && f[par].children[k] == x;
    assert f[x].parent == Some(par);
    var g := Reparent(f, op, x, par);
    ReparentFacts(f, op, x, par);
    RemoveFirstNoDup(f[par].children, x);
    ReparentedChildLinked(f, g, op, x, par);
    ReparentedNoDup(f, g, op, x, par);
    ReparentedSiblingLinked(f, g, op, x, par);
    ReparentedRsbInjective(f, g, op, x, par);
  }

  lemma ReparentedChildLinked(f: Forest, g: Forest, op: nat, x: nat, par: nat)
    requires x < |f| && par < |f| && op < |f| && x in f[par].children
    requires op != x && op != par && x != par && f[x].parent == Some(par)
    requires ChildLinked(f) && Reparented(f, g, op, x, par)
    requires var r := RemoveFirst(f[par].children, x); x !in r && forall y :: y in r ==> y in f[par].children
    ensures ChildLinked(g)
  {
    forall q, k | 0 <= q < |g| && 0 <= k < |g[q].children|
      ensures var c := g[q].children[k]; c < |g| && g[c].parent == Some(q)
    {
      var c := g[q].children[k];
      if q == par {
        assert c in RemoveFirst(f[par].children, x);
        var k' :| 0 <= k' < |f[par].children| && f[par].children[k'] == c;
        assert f[c].parent == Some(par) && c != x;
      } else if q == op && k == |f[op].children| {
        assert c == x;
      } else {
        assert c == f[q].children[k];
        assert f[c].parent == Some(q);
        assert c != x;
      }
    }
  }

  lemma ReparentedNoDup(f: Forest, g: Forest, op: nat, x: nat, par: nat)
    requires x < |f| && par < |f| && op < |f| && x in f[par].children
    requires op != x && op != par && x != par && f[x].parent == Some(par)
    requires ChildLinked(f) && NoDupChildren(f) && Reparented(f, g, op, x, par)
    requires var r := RemoveFirst(f[par].children, x); forall k, l :: 0 <= k < l < |r| ==> r[k] != r[l]
    ensures NoDupChildren(g)
  {
    forall q, k, l | 0 <= q < |g| && 0 <= k < l < |g[q].children|
      ensures g[q].children[k] != g[q].children[l]
    {
      if q == op && l == |f[op].children| {
        var c := f[op].children[k];
        assert g[q].children[k] == c && g[q].children[l] == x;
        assert f[c].parent == Some(op);
      } else if q != par {
        assert g[q].children[k] == f[q].children[k] && g[q].children[l] == f[q].children[l];
      }
    }
  }

  lemma ReparentedSiblingLinked(f: Forest, g: Forest, op: nat, x: nat, par: nat)
    requires x < |f| && par < |f| && op < |f| && x in f[par].children
    requires op != x && op != par && x != par && f[op].rsb == Some(x)
    requires SiblingLinked(f) && RsbInjective(f) && Reparented(f, g, op, x, par)
    ensures SiblingLinked(g)
  {
    forall i | 0 <= i < |g| && g[i].rsb.Some?
      ensures && g[i].rsb.value != i && g[i].parent.Some? && g[i].parent.value < |g|
              && g[i].rsb.value in g[g[i].parent.value].children
    {
      assert i != x && i != op;
      assert g[i].rsb == f[i].rsb && g[i].parent == f[i].parent;
      var s := f[i].rsb.value;
      var q := f[i].parent.value;
      assert s in f[q].children;
      assert s != x;
      if q == par {
        RemoveFirstKeeps(f[par].children, x, s);
      } else if q == op {
        assert g[q].children == f[q].children + [x];
      }
    }
  }

  lemma ReparentedRsbInjective(f: Forest, g: Forest, op: nat, x: nat, par: nat)
    requires x < |f| && par < |f| && op < |f| && x in f[par].children
    requires RsbInjective(f) && Reparented(f, g, op, x, par)
    ensures RsbInjective(g)
  {
    forall i, j | 0 <= i < |g| && 0 <= j < |g| && g[i].rsb.Some? && g[i].rsb == g[j].rsb
      ensures i == j
    {
      assert g[i].rsb == f[i].rsb && g[j].rsb == f[j].rsb;
    }
  }
}
