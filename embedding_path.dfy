/**
 * The path-based positional encodings: `get_pos_embedding` of
 * nmt/structs/tree17c.py:7-11 (a single top-down pass) and of
 * nmt/structs/tree18.py:7-16 (a top-down pass blended with a bottom-up one).
 * Both step functions ignore the node's token, so the encodings depend on the
 * tree's shape only.
 */
module PathEncoding {
  import opened Common
  import opened LcRs
  import opened Traversals
  import opened Tensors

  /** `f(_, p, is_left) = (left if is_left else right) @ p`. */
  function SideStep<A, X, S>(ops: Ops<X, S>, left: X, right: X): (A, X, bool) -> X
  {
    (_: A, p: X, isLeft: bool) => ops.matmul(if isLeft then left else right, p)
  }

  /** The side matrices along path `p`, applied to `x` from the root down:
      the last step's matrix is applied last. */
  function PathProduct<X, S>(ops: Ops<X, S>, left: X, right: X, p: seq<Dir>, x: X): X
    decreases |p|
  {
    if p == [] then x
    else ops.matmul(if p[|p| - 1] == L then left else right, PathProduct(ops, left, right, p[..|p| - 1], x))
  }

  /** The top-down pass leaves at every node the product of the side matrices along
      its path from the root, applied to the seed. */
  lemma {:induction false} SideFoldAt<A, X, S>(ops: Ops<X, S>, t: Tree<A>, left: X, right: X, x: X, p: seq<Dir>)
    requires Has(t, p)
    ensures Has(FoldDownTree(t, SideStep(ops, left, right), x), p)
    ensures ValueAt(FoldDownTree(t, SideStep(ops, left, right), x), p) == PathProduct(ops, left, right, p, x)
    decreases |p|
  {
    if p == [] {
    } else {
      var q, d := p[..|p| - 1], p[|p| - 1];
      assert p == q + [d];
      FoldDownTreeStep(t, SideStep(ops, left, right), x, q, d);
      SideFoldAt(ops, t, left, right, x, q);
    }
  }

  /** Trees of the same shape get the same top-down pass, whatever their tokens. */
  lemma {:induction false} SideFoldIgnoresValues<A, X, S>(ops: Ops<X, S>, t1: Tree<A>, t2: Tree<A>, left: X, right: X, x: X)
    requires Congruent(t1, t2)
    ensures FoldDownTree(t1, SideStep(ops, left, right), x) == FoldDownTree(t2, SideStep(ops, left, right), x)
  {
    var f := SideStep<A, X, S>(ops, left, right);
    assert f(t1.v, x, true) == f(t2.v, x, true);
    assert f(t1.v, x, false) == f(t2.v, x, false);
    if t1.l.Some? { SideFoldIgnoresValues(ops, t1.l.value, t2.l.value, left, right, f(t1.v, x, true)); }
    if t1.r.Some? { SideFoldIgnoresValues(ops, t1.r.value, t2.r.value, left, right, f(t1.v, x, false)); }
  }

  /** tree17c: `cmu_l = mu_l * c_l`, `cmu_r = mu_r * c_r`, then
      `fold_down_tree(f, lam)`; the root's embedding is `lam`. */
  function Embedding17c<A, X, S>(ops: Ops<X, S>, t: Tree<A>, muL: X, muR: X, lam: X, cL: X, cR: X): (r: Tree<X>)
    ensures Congruent(r, t)
    ensures r.v == lam
  {
    FoldDownTree(t, SideStep(ops, ops.mul(muL, cL), ops.mul(muR, cR)), lam)
  }

  /** tree17c: a node's embedding is the product of `mu_l * c_l` for every step to a
      first child and `mu_r * c_r` for every step to a next sibling, applied to `lam`. */
  lemma Embedding17cAt<A, X, S>(ops: Ops<X, S>, t: Tree<A>, muL: X, muR: X, lam: X, cL: X, cR: X, p: seq<Dir>)
    requires Has(t, p)
    ensures Has(Embedding17c(ops, t, muL, muR, lam, cL, cR), p)
    ensures ValueAt(Embedding17c(ops, t, muL, muR, lam, cL, cR), p) ==
            PathProduct(ops, ops.mul(muL, cL), ops.mul(muR, cR), p, lam)
  {
    SideFoldAt(ops, t, ops.mul(muL, cL), ops.mul(muR, cR), lam, p);
  }

  /** tree17c: trees of the same shape get identical embeddings. */
  lemma Embedding17cIgnoresValues<A, X, S>(ops: Ops<X, S>, t1: Tree<A>, t2: Tree<A>, muL: X, muR: X, lam: X, cL: X, cR: X)
    requires Congruent(t1, t2)
    ensures Embedding17c(ops, t1, muL, muR, lam, cL, cR) == Embedding17c(ops, t2, muL, muR, lam, cL, cR)
  {
    SideFoldIgnoresValues(ops, t1, t2, ops.mul(muL, cL), ops.mul(muR, cR), lam);
  }

  /** tree18's `f_up(_, l, r)`: `mu_l @ l` or `lam_l`, times `mu_r @ r` or `lam_r`,
      times `embed_dim ** 0.5`. */
  function UpStep<A, X, S>(ops: Ops<X, S>, embedDim: nat, muL: X, muR: X, lamL: X, lamR: X): (A, Option<X>, Option<X>) -> Option<X>
  {
    (_: A, l: Option<X>, r: Option<X>) =>
      Some(ops.scale(ops.mul(if l.Some? then ops.matmul(muL, l.value) else lamL,
                             if r.Some? then ops.matmul(muR, r.value) else lamR), ops.root(embedDim)))
  }

  /** tree18's `lambda x: sum(x) * (2 ** -0.5)` on a pair (down value, up value);
      `None` stands for the `TypeError` of adding `None`. */
  function Blend<X, S>(ops: Ops<X, S>): ((X, Option<X>)) -> Option<X>
  {
    (x: (X, Option<X>)) => if x.1.Some? then Some(ops.scale(ops.add(x.0, x.1.value), ops.invRoot(2))) else None
  }

  /** tree18's `d = self.fold_down_tree(f_down, lam)`. */
  function Down18<A, X, S>(ops: Ops<X, S>, t: Tree<A>, muL: X, muR: X, lam: X): (r: Tree<X>)
    ensures Congruent(r, t)
  {
    FoldDownTree(t, SideStep(ops, muL, muR), lam)
  }

  /** tree18's `u = self.fold_up_tree(f_up)`: no leaf default, so `f_up` sees `None`. */
  function Up18<A, X, S>(ops: Ops<X, S>, t: Tree<A>, embedDim: nat, muL: X, muR: X, lamL: X, lamR: X): (r: Tree<Option<X>>)
    ensures Congruent(r, t)
  {
    FoldUpTree(t, UpStep(ops, embedDim, muL, muR, lamL, lamR), None)
  }

  /** tree18: `d.zip(u).map(lambda x: sum(x) * (2 ** -0.5))`. The two passes are
      congruent to the tree, so the zip succeeds and the result has the tree's shape. */
  function Embedding18<A, X, S>(ops: Ops<X, S>, t: Tree<A>, embedDim: nat, muL: X, muR: X, lam: X, lamL: X, lamR: X)
    : (r: Result<Tree<Option<X>>, PyError>)
    ensures r.Ok? && Congruent(r.value, t)
  {
    var d := Down18(ops, t, muL, muR, lam);
    var u := Up18(ops, t, embedDim, muL, muR, lamL, lamR);
    CongruentSymmetric(u, t);
    CongruentTransitive(d, t, u);
    match Zip(d, u)
    case Err(e) => Err(e)
    case Ok(z) =>
      CongruentTransitive(Map(z, Blend(ops)), z, d);
      CongruentTransitive(Map(z, Blend(ops)), d, t);
      Ok(Map(z, Blend(ops)))
  }

  /** tree18's up pass: every value is present; a node combines its first child's and
      next sibling's up values, or `lam_l` / `lam_r` for an absent one. */
  lemma Up18At<A, X, S>(ops: Ops<X, S>, t: Tree<A>, embedDim: nat, muL: X, muR: X, lamL: X, lamR: X, p: seq<Dir>)
    requires Has(t, p)
    ensures Has(Up18(ops, t, embedDim, muL, muR, lamL, lamR), p) && ValueAt(Up18(ops, t, embedDim, muL, muR, lamL, lamR), p).Some?
    ensures Has(t, p + [L]) ==> Has(Up18(ops, t, embedDim, muL, muR, lamL, lamR), p + [L]) &&
                                ValueAt(Up18(ops, t, embedDim, muL, muR, lamL, lamR), p + [L]).Some?
    ensures Has(t, p + [R]) ==> Has(Up18(ops, t, embedDim, muL, muR, lamL, lamR), p + [R]) &&
                                ValueAt(Up18(ops, t, embedDim, muL, muR, lamL, lamR), p + [R]).Some?
    ensures ValueAt(Up18(ops, t, embedDim, muL, muR, lamL, lamR), p).value ==
            ops.scale(ops.mul(
              if Has(t, p + [L]) then ops.matmul(muL, ValueAt(Up18(ops, t, embedDim, muL, muR, lamL, lamR), p + [L]).value) else lamL,
              if Has(t, p + [R]) then ops.matmul(muR, ValueAt(Up18(ops, t, embedDim, muL, muR, lamL, lamR), p + [R]).value) else lamR),
              ops.root(embedDim))
  {
    var f := UpStep(ops, embedDim, muL, muR, lamL, lamR);
    var u := Up18(ops, t, embedDim, muL, muR, lamL, lamR);
    CongruentHas(u, t, p);
    CongruentHas(u, t, p + [L]);
    CongruentHas(u, t, p + [R]);
    FoldUpTreeLocal(t, f, None, p);
    if Has(t, p + [L]) {
      FoldUpTreeLocal(t, f, None, p + [L]);
    }
    if Has(t, p + [R]) {
      FoldUpTreeLocal(t, f, None, p + [R]);
    }
  }

  /** tree18: every node's embedding is (down value + up value) * 2 ** -0.5, where
      the down value is the product of `mu_l` / `mu_r` along its path applied to `lam`. */
  lemma Embedding18At<A, X, S>(ops: Ops<X, S>, t: Tree<A>, embedDim: nat, muL: X, muR: X, lam: X, lamL: X, lamR: X, p: seq<Dir>)
    requires Has(t, p)
    ensures Has(Up18(ops, t, embedDim, muL, muR, lamL, lamR), p) && ValueAt(Up18(ops, t, embedDim, muL, muR, lamL, lamR), p).Some?
    ensures Has(Embedding18(ops, t, embedDim, muL, muR, lam, lamL, lamR).value, p)
    ensures ValueAt(Embedding18(ops, t, embedDim, muL, muR, lam, lamL, lamR).value, p) ==
            Some(ops.scale(ops.add(PathProduct(ops, muL, muR, p, lam),
                                   ValueAt(Up18(ops, t, embedDim, muL, muR, lamL, lamR), p).value), ops.invRoot(2)))
  {
    var d := Down18(ops, t, muL, muR, lam);
    var u := Up18(ops, t, embedDim, muL, muR, lamL, lamR);
    Up18At(ops, t, embedDim, muL, muR, lamL, lamR, p);
    SideFoldAt(ops, t, muL, muR, lam, p);
    CongruentSymmetric(u, t);
    CongruentTransitive(d, t, u);
    CongruentHas(d, t, p);
    ZipValueAt(d, u, p);
    MapValueAt(Zip(d, u).value, Blend(ops), p);
  }

  /** Trees of the same shape get the same up pass, whatever their tokens. */
  lemma {:induction false} UpIgnoresValues<A, X, S>(ops: Ops<X, S>, t1: Tree<A>, t2: Tree<A>, embedDim: nat, muL: X, muR: X, lamL: X, lamR: X)
    requires Congruent(t1, t2)
    ensures Up18(ops, t1, embedDim, muL, muR, lamL, lamR) == Up18(ops, t2, embedDim, muL, muR, lamL, lamR)
  {
    if t1.l.Some? { UpIgnoresValues(ops, t1.l.value, t2.l.value, embedDim, muL, muR, lamL, lamR); }
    if t1.r.Some? { UpIgnoresValues(ops, t1.r.value, t2.r.value, embedDim, muL, muR, lamL, lamR); }
  }

  /** tree18: trees of the same shape get identical embeddings. */
  lemma Embedding18IgnoresValues<A, X, S>(ops: Ops<X, S>, t1: Tree<A>, t2: Tree<A>, embedDim: nat, muL: X, muR: X, lam: X, lamL: X, lamR: X)
    requires Congruent(t1, t2)
    ensures Embedding18(ops, t1, embedDim, muL, muR, lam, lamL, lamR) == Embedding18(ops, t2, embedDim, muL, muR, lam, lamL, lamR)
  {
    SideFoldIgnoresValues(ops, t1, t2, muL, muR, lam);
    UpIgnoresValues(ops, t1, t2, embedDim, muL, muR, lamL, lamR);
  }
}
