/**
 * The tree underneath every tree-positional encoding: a binary node whose `l`
 * is the node's first child and whose `r` is its next sibling, so that a
 * node of any arity is a chain of right links below one left link
 * (the `Tree` class of nmt/structs/tree6.py and nmt/structs/tree2.py).
 *
 * Nodes are named by paths: the sequence of `L`/`R` steps from the root.
 */
module LcRs {
  import opened Common

  /** `Tree(v, l, r)`: value, first child or `None`, next sibling or `None`. */
  datatype Tree<T> = Tree(v: T, l: Option<Tree<T>>, r: Option<Tree<T>>)

  /** One step from a node: to its first child (`L`) or to its next sibling (`R`). */
  datatype Dir = L | R

  function Child<T>(t: Tree<T>, d: Dir): Option<Tree<T>>
  {
    if d == L then t.l else t.r
  }

  /** The subtree at path `p`, or `None` when some step leads nowhere. */
  function At<T>(t: Tree<T>, p: seq<Dir>): Option<Tree<T>>
    decreases |p|
  {
    if p == [] then Some(t)
    else match Child(t, p[0])
      case None => None
      case Some(c) => At(c, p[1..])
  }

  /** `p` names a node of `t`. */
  predicate Has<T>(t: Tree<T>, p: seq<Dir>)
  {
    At(t, p).Some?
  }

  /** The value stored at the node `p` names. */
  function ValueAt<T>(t: Tree<T>, p: seq<Dir>): T
    requires Has(t, p)
  {
    At(t, p).value.v
  }

  /** The number of nodes. */
  function Size<T>(t: Tree<T>): (n: nat)
    ensures n >= 1
  {
    1 + (if t.l.Some? then Size(t.l.value) else 0) + (if t.r.Some? then Size(t.r.value) else 0)
  }

  /** The total size of a list of trees. */
  function SizeAll<T>(ts: seq<Tree<T>>): nat
  {
    if ts == [] then 0 else SizeAll(ts[..|ts| - 1]) + Size(ts[|ts| - 1])
  }

  /** Values in pre-order: a node, then its children's subtrees, then its later siblings. */
  function PreOrder<T>(t: Tree<T>): (s: seq<T>)
    ensures |s| == Size(t) && s[0] == t.v
  {
    [t.v] + (if t.l.Some? then PreOrder(t.l.value) else [])
          + (if t.r.Some? then PreOrder(t.r.value) else [])
  }

  /** Same shape: wherever one tree has a first child or a next sibling, so does the other. */
  predicate Congruent<A, B>(a: Tree<A>, b: Tree<B>)
  {
    && a.l.Some? == b.l.Some?
    && a.r.Some? == b.r.Some?
    && (a.l.Some? ==> Congruent(a.l.value, b.l.value))
    && (a.r.Some? ==> Congruent(a.r.value, b.r.value))
  }

  /** A tree whose only node is its root. */
  predicate Single<T>(t: Tree<T>)
  {
    t.l.None? && t.r.None?
  }

  /** Extending a path by one step looks one step further from the node it names. */
  lemma {:induction false} AtSnoc<T>(t: Tree<T>, p: seq<Dir>, d: Dir)
    ensures At(t, p + [d]) == if Has(t, p) then Child(At(t, p).value, d) else None
    decreases |p|
  {
    if p == [] {
      assert ([] + [d])[1..] == [];
    } else {
      assert (p + [d])[0] == p[0];
      assert (p + [d])[1..] == p[1..] + [d];
      match Child(t, p[0])
      case None =>
      case Some(c) => AtSnoc(c, p[1..], d);
    }
  }

  /** A path through the first step `d` is a path of the child in that direction. */
  lemma AtCons<T>(t: Tree<T>, d: Dir, q: seq<Dir>)
    ensures At(t, [d] + q) == if Child(t, d).Some? then At(Child(t, d).value, q) else None
  {
    assert ([d] + q)[0] == d && ([d] + q)[1..] == q;
  }

  /** Congruence is exactly "the same set of paths". */
  lemma {:induction false} CongruentIffSamePaths<A, B>(a: Tree<A>, b: Tree<B>)
    ensures Congruent(a, b) <==> forall p :: Has(a, p) <==> Has(b, p)
  {
    if Congruent(a, b) {
      forall p ensures Has(a, p) <==> Has(b, p) {
        CongruentHas(a, b, p);
      }
    }
    if forall p :: Has(a, p) <==> Has(b, p) {
      SamePathsCongruent(a, b);
    }
  }

  lemma {:induction false} CongruentHas<A, B>(a: Tree<A>, b: Tree<B>, p: seq<Dir>)
    requires Congruent(a, b)
    ensures Has(a, p) <==> Has(b, p)
    decreases |p|
  {
    if p != [] {
      match p[0]
      case L => if a.l.Some? { CongruentHas(a.l.value, b.l.value, p[1..]); }
      case R => if a.r.Some? { CongruentHas(a.r.value, b.r.value, p[1..]); }
    }
  }

  lemma {:induction false} SamePathsCongruent<A, B>(a: Tree<A>, b: Tree<B>)
    requires forall p :: Has(a, p) <==> Has(b, p)
    ensures Congruent(a, b)
  {
    AtCons(a, L, []);
    AtCons(b, L, []);
    AtCons(a, R, []);
    AtCons(b, R, []);
    assert Has(a, [L]) <==> Has(b, [L]);
    assert Has(a, [R]) <==> Has(b, [R]);
    if a.l.Some? {
      forall q ensures Has(a.l.value, q) <==> Has(b.l.value, q) {
        AtCons(a, L, q);
        AtCons(b, L, q);
        assert Has(a, [L] + q) <==> Has(b, [L] + q);
      }
      SamePathsCongruent(a.l.value, b.l.value);
    }
    if a.r.Some? {
      forall q ensures Has(a.r.value, q) <==> Has(b.r.value, q) {
        AtCons(a, R, q);
        AtCons(b, R, q);
        assert Has(a, [R] + q) <==> Has(b, [R] + q);
      }
      SamePathsCongruent(a.r.value, b.r.value);
    }
  }

  lemma {:induction false} CongruentSymmetric<A, B>(a: Tree<A>, b: Tree<B>)
    requires Congruent(a, b)
    ensures Congruent(b, a)
  {
    if a.l.Some? { CongruentSymmetric(a.l.value, b.l.value); }
    if a.r.Some? { CongruentSymmetric(a.r.value, b.r.value); }
  }

  lemma {:induction false} CongruentTransitive<A, B, C>(a: Tree<A>, b: Tree<B>, c: Tree<C>)
    requires Congruent(a, b) && Congruent(b, c)
    ensures Congruent(a, c)
  {
    if a.l.Some? { CongruentTransitive(a.l.value, b.l.value, c.l.value); }
    if a.r.Some? { CongruentTransitive(a.r.value, b.r.value, c.r.value); }
  }

  /** Two trees of the same shape that agree at every node are equal. */
  lemma {:induction false} Extensionality<T>(a: Tree<T>, b: Tree<T>)
    requires Congruent(a, b)
    requires forall p :: Has(a, p) ==> Has(b, p) && ValueAt(a, p) == ValueAt(b, p)
    ensures a == b
  {
    assert ValueAt(a, []) == ValueAt(b, []);
    if a.l.Some? {
      forall q | Has(a.l.value, q)
        ensures Has(b.l.value, q) && ValueAt(a.l.value, q) == ValueAt(b.l.value, q)
      {
        AtCons(a, L, q);
        AtCons(b, L, q);
        assert Has(a, [L] + q);
      }
      Extensionality(a.l.value, b.l.value);
    }
    if a.r.Some? {
      forall q | Has(a.r.value, q)
        ensures Has(b.r.value, q) && ValueAt(a.r.value, q) == ValueAt(b.r.value, q)
      {
        AtCons(a, R, q);
        AtCons(b, R, q);
        assert Has(a, [R] + q);
      }
      Extensionality(a.r.value, b.r.value);
    }
  }
}
