/**
 * The generic recursions of the `Tree` class (nmt/structs/tree6.py:34-81,
 * nmt/structs/tree2.py:36-83): `map`, `fold_up`, `fold_up_tree`,
 * `fold_down_tree` and `zip`. Each builds a new tree; the in-place `map_`
 * lives in module MutableTree.
 */
module Traversals {
  import opened Common
  import opened LcRs

  /** `t.map(f)`: a new tree of the same shape holding `f` of every value. */
  function Map<A, B>(t: Tree<A>, f: A -> B): (r: Tree<B>)
    ensures Congruent(r, t)
  {
    Tree(f(t.v),
         if t.l.Some? then Some(Map(t.l.value, f)) else None,
         if t.r.Some? then Some(Map(t.r.value, f)) else None)
  }

  /** `t.fold_up(f, leaf)`: combine a node's value with the folds of its first
      child and next sibling, `leaf` standing in for an absent one. */
  function FoldUp<A, B>(t: Tree<A>, f: (A, B, B) -> B, leaf: B): B
  {
    f(t.v,
      if t.l.Some? then FoldUp(t.l.value, f, leaf) else leaf,
      if t.r.Some? then FoldUp(t.r.value, f, leaf) else leaf)
  }

  /** `t.fold_up_tree(f, leaf)`: the same aggregation, keeping every node's aggregate. */
  function FoldUpTree<A, B>(t: Tree<A>, f: (A, B, B) -> B, leaf: B): (r: Tree<B>)
    ensures Congruent(r, t)
    ensures r.v == FoldUp(t, f, leaf)
  {
    var l := if t.l.Some? then Some(FoldUpTree(t.l.value, f, leaf)) else None;
    var r := if t.r.Some? then Some(FoldUpTree(t.r.value, f, leaf)) else None;
    var lv := if t.l.Some? then l.value.v else leaf;
    var rv := if t.r.Some? then r.value.v else leaf;
    Tree(f(t.v, lv, rv), l, r)
  }

  /** `t.fold_down_tree(f, root)`: the root gets `root`; a first child gets
      `f(v, parent's new value, True)`, a next sibling `f(v, parent's new value, False)`,
      where `v` is the parent's original value. */
  function FoldDownTree<A, B>(t: Tree<A>, f: (A, B, bool) -> B, root: B): (r: Tree<B>)
    ensures Congruent(r, t)
    ensures r.v == root
  {
    Tree(root,
         if t.l.Some? then Some(FoldDownTree(t.l.value, f, f(t.v, root, true))) else None,
         if t.r.Some? then Some(FoldDownTree(t.r.value, f, f(t.v, root, false))) else None)
  }

  /** `zip` with the congruence check the error message describes: it raises
      exactly when the shapes differ somewhere. */
  function Zip<A, B>(a: Tree<A>, b: Tree<B>): (r: Result<Tree<(A, B)>, PyError>)
    ensures r.Ok? <==> Congruent(a, b)
    ensures r.Ok? ==> Congruent(r.value, a) && r.value.v == (a.v, b.v)
  {
    if !(a.l.Some? == b.l.Some? && a.r.Some? == b.r.Some?) then Err(AssertionError)
    else if a.l.Some? && Zip(a.l.value, b.l.value).Err? then Err(AssertionError)
    else if a.r.Some? && Zip(a.r.value, b.r.value).Err? then Err(AssertionError)
    else Ok(Tree((a.v, b.v),
                 if a.l.Some? then Some(Zip(a.l.value, b.l.value).value) else None,
                 if a.r.Some? then Some(Zip(a.r.value, b.r.value).value) else None))
  }

  /** `zip` of nmt/structs/tree6.py as written: `x is None == y is None` is a
      chained comparison, `x is None and None == y and y is None`, so each
      conjunct of the assertion holds only when BOTH trees lack that child. */
  function Zip6AsWritten<A, B>(a: Tree<A>, b: Tree<B>): (r: Result<Tree<(A, B)>, PyError>)
    ensures r.Ok? <==> Single(a) && Single(b)
  {
    var leftOk := a.l.None? && b.l.None?;
    var rightOk := a.r.None? && b.r.None?;
    if !(leftOk && rightOk) then Err(AssertionError)
    else Ok(Tree((a.v, b.v), None, None))
  }

  /** An operand of a Python `==`: a `bool`, or a method object that was never called. */
  datatype Operand = Bool(b: bool) | BoundMethod

  /** `==` between a `bool` and a method object falls back to identity: never equal. */
  function PyEq(x: Operand, y: Operand): bool
  {
    x == y
  }

  /** `zip` of nmt/structs/tree2.py as written: its first conjunct compares
      `self.has_left()` with the uncalled `other.has_left`. Past the assertion
      the code is that of `Zip`; that branch is never taken. */
  function Zip2AsWritten<A, B>(a: Tree<A>, b: Tree<B>): (r: Result<Tree<(A, B)>, PyError>)
  {
    if PyEq(Bool(a.l.Some?), BoundMethod) && a.r.Some? == b.r.Some? then Zip(a, b)
    else Err(AssertionError)
  }

  // ---------------------------------------------------------------------------
  // Per-node characterisations

  /** The subtree of `t.map(f)` at any node is the map of the subtree there. */
  lemma {:induction false} MapAt<A, B>(t: Tree<A>, f: A -> B, p: seq<Dir>)
    ensures At(Map(t, f), p) == if Has(t, p) then Some(Map(At(t, p).value, f)) else None
    decreases |p|
  {
    if p != [] {
      if p[0] == L && t.l.Some? { MapAt(t.l.value, f, p[1..]); }
      if p[0] == R && t.r.Some? { MapAt(t.r.value, f, p[1..]); }
    }
  }

  /** Every node of `t.map(f)` holds `f` of the value at the same node of `t`. */
  lemma MapValueAt<A, B>(t: Tree<A>, f: A -> B, p: seq<Dir>)
    requires Has(t, p)
    ensures Has(Map(t, f), p) && ValueAt(Map(t, f), p) == f(ValueAt(t, p))
  {
    MapAt(t, f, p);
  }

  /** The subtree of `fold_up_tree` at any node is `fold_up_tree` of the subtree there:
      a node's aggregate depends on its own subtree only. */
  lemma {:induction false} FoldUpTreeAt<A, B>(t: Tree<A>, f: (A, B, B) -> B, leaf: B, p: seq<Dir>)
    ensures At(FoldUpTree(t, f, leaf), p) ==
            if Has(t, p) then Some(FoldUpTree(At(t, p).value, f, leaf)) else None
    decreases |p|
  {
    if p != [] {
      if p[0] == L && t.l.Some? { FoldUpTreeAt(t.l.value, f, leaf, p[1..]); }
      if p[0] == R && t.r.Some? { FoldUpTreeAt(t.r.value, f, leaf, p[1..]); }
    }
  }

  /** Every node of `fold_up_tree` holds `fold_up` of its own subtree; at the root
      this is `fold_up` of the whole tree. */
  lemma FoldUpTreeValueAt<A, B>(t: Tree<A>, f: (A, B, B) -> B, leaf: B, p: seq<Dir>)
    requires Has(t, p)
    ensures Has(FoldUpTree(t, f, leaf), p)
    ensures ValueAt(FoldUpTree(t, f, leaf), p) == FoldUp(At(t, p).value, f, leaf)
  {
    FoldUpTreeAt(t, f, leaf, p);
  }

  /** The aggregate at a node with an absent child, first or sibling, was computed with `leaf` in its place. */
  lemma FoldUpTreeLocal<A, B>(t: Tree<A>, f: (A, B, B) -> B, leaf: B, p: seq<Dir>)
    requires Has(t, p)
    ensures Has(FoldUpTree(t, f, leaf), p)
    ensures Has(t, p + [L]) <==> Has(FoldUpTree(t, f, leaf), p + [L])
    ensures Has(t, p + [R]) <==> Has(FoldUpTree(t, f, leaf), p + [R])
    ensures ValueAt(FoldUpTree(t, f, leaf), p) ==
            f(ValueAt(t, p),
              if Has(t, p + [L]) then ValueAt(FoldUpTree(t, f, leaf), p + [L]) else leaf,
              if Has(t, p + [R]) then ValueAt(FoldUpTree(t, f, leaf), p + [R]) else leaf)
  {
    var u := FoldUpTree(t, f, leaf);
    FoldUpTreeAt(t, f, leaf, p);
    FoldUpTreeAt(t, f, leaf, p + [L]);
    FoldUpTreeAt(t, f, leaf, p + [R]);
    AtSnoc(t, p, L);
    AtSnoc(t, p, R);
  }

  /** The subtree of `fold_down_tree` at a node is `fold_down_tree` of the subtree
      there, seeded with the value the node received. */
  lemma {:induction false} FoldDownTreeAt<A, B>(t: Tree<A>, f: (A, B, bool) -> B, root: B, p: seq<Dir>)
    requires Has(t, p)
    ensures Has(FoldDownTree(t, f, root), p)
    ensures At(FoldDownTree(t, f, root), p) ==
            Some(FoldDownTree(At(t, p).value, f, ValueAt(FoldDownTree(t, f, root), p)))
    decreases |p|
  {
    if p != [] {
      if p[0] == L { FoldDownTreeAt(t.l.value, f, f(t.v, root, true), p[1..]); }
      if p[0] == R { FoldDownTreeAt(t.r.value, f, f(t.v, root, false), p[1..]); }
    }
  }

  /** Top-down step: a node's first child receives `f(node's value, node's new value, True)`,
      its next sibling `f(node's value, node's new value, False)`. */
  lemma FoldDownTreeStep<A, B>(t: Tree<A>, f: (A, B, bool) -> B, root: B, p: seq<Dir>, d: Dir)
    requires Has(t, p + [d])
    ensures Has(t, p) && Has(FoldDownTree(t, f, root), p) && Has(FoldDownTree(t, f, root), p + [d])
    ensures ValueAt(FoldDownTree(t, f, root), p + [d]) ==
            f(ValueAt(t, p), ValueAt(FoldDownTree(t, f, root), p), d == L)
  {
    AtSnoc(t, p, d);
    FoldDownTreeAt(t, f, root, p);
    AtSnoc(FoldDownTree(t, f, root), p, d);
  }

  /** Every node of a successful zip pairs the values at the same node of the two trees. */
  lemma {:induction false} ZipValueAt<A, B>(a: Tree<A>, b: Tree<B>, p: seq<Dir>)
    requires Zip(a, b).Ok? && Has(a, p)
    ensures Has(b, p) && Has(Zip(a, b).value, p)
    ensures ValueAt(Zip(a, b).value, p) == (ValueAt(a, p), ValueAt(b, p))
    decreases |p|
  {
    if p != [] {
      if p[0] == L { ZipValueAt(a.l.value, b.l.value, p[1..]); }
      if p[0] == R { ZipValueAt(a.r.value, b.r.value, p[1..]); }
    }
  }

  // ---------------------------------------------------------------------------
  // The two `zip` assertions as written

  /** tree6's `zip` refuses two trees of identical shape as soon as they have a
      child: here a root with one first child, zipped with itself. */
  lemma Zip6RefusesCongruentTrees()
    ensures var t := Tree(0, Some(Tree(1, None, None)), None);
            Zip(t, t).Ok? && Zip6AsWritten(t, t).Err?
  {
    var t := Tree(0, Some(Tree(1, None, None)), None);
    assert Congruent(t, t);
  }

  /** tree6's `zip` succeeds only on two single nodes, where it agrees with `Zip`. */
  lemma Zip6AgreesOnSingleNodes<A, B>(a: Tree<A>, b: Tree<B>)
    requires Zip6AsWritten(a, b).Ok?
    ensures Zip(a, b) == Zip6AsWritten(a, b)
  {
  }

  /** tree2's `zip` raises on every pair of trees, congruent or not. */
  lemma Zip2AlwaysRaises<A, B>(a: Tree<A>, b: Tree<B>)
    ensures Zip2AsWritten(a, b) == Err(AssertionError)
  {
  }
}
