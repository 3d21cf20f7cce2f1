/**
 * `get_pos_embedding` of nmt/structs/tree14_log.py:10-40. The parameters are
 * exponentiated first. The inside pass has no leaf default, so `f_in` sees
 * `None` for an absent child and puts `lam_leaf_l` / `lam_leaf_r` in place of
 * the matrix product; the second pass's leaf default is `(lam_leaf_l,
 * lam_leaf_r)`, of which `f_in_aux` reads only the first component. `lam_leaf`
 * is unpacked but never used.
 *
 * The four-operand `einsum`s of `f_out` ("i,ij,ik,k->j" and "i,ij,ik,j->k")
 * are the contraction `Ops.contract` with the inner product done first.
 * `None` in an outside or final value stands for the `TypeError` Python
 * raises when a tensor operation meets `None`; the lemmas show it never arises.
 */
module LogEncoding {
  import opened Common
  import opened LcRs
  import opened Traversals
  import opened Tensors
  import opened InsideOutside
  import opened InsideOutsideEncoding

  /** `f_in(_, l, r)`: `mu_l @ l` or `lam_leaf_l`, times `mu_r @ r` or `lam_leaf_r`. */
  function InStep<A, X, S>(ops: Ops<X, S>, muL: X, muR: X, lamLeafL: X, lamLeafR: X): (A, Option<X>, Option<X>) -> Option<X>
  {
    (_: A, l: Option<X>, r: Option<X>) =>
      Some(ops.mul(if l.Some? then ops.matmul(muL, l.value) else lamLeafL,
                   if r.Some? then ops.matmul(muR, r.value) else lamLeafR))
  }

  /** `f_out`: the child's own inside value, and the contraction of the parent's
      outside value with the other side's inside value, with no stand-in for `None`. */
  function OutStep<X, S>(ops: Ops<X, S>, muL: X, muR: X): (Aux<X>, (Option<X>, Option<X>), bool) -> (Option<X>, Option<X>)
  {
    (a: Aux<X>, pair: (Option<X>, Option<X>), isLeft: bool) =>
      if isLeft then
        (a.1, if pair.1.Some? && a.2.Some? then Some(ops.contract(pair.1.value, ops.matmul(muR, a.2.value), muL)) else None)
      else
        (a.2, if pair.1.Some? && a.1.Some? then Some(ops.contract(pair.1.value, ops.matmul(muL, a.1.value), muR)) else None)
  }

  /** `f_mult(io) = io[0] * io[1] * (512 ** -0.5)`. */
  function MultStep<X, S>(ops: Ops<X, S>): ((Option<X>, Option<X>)) -> Option<X>
  {
    (io: (Option<X>, Option<X>)) =>
      if io.0.Some? && io.1.Some? then Some(ops.scale(ops.mul(io.0.value, io.1.value), ops.invRoot(512))) else None
  }

  /** `pe.fold_up_tree(f_in)`. */
  function Inside<A, X, S>(ops: Ops<X, S>, t: Tree<A>, k: Params<X>): (r: Tree<Option<X>>)
    ensures Congruent(r, t)
  {
    FoldUpTree(t, InStep(ops, k.muL, k.muR, k.lamLeafL, k.lamLeafR), None)
  }

  /** The second pass's leaf default `(lam_leaf_l, lam_leaf_r)`, in the triple's shape. */
  function LeafAux<X>(k: Params<X>): Aux<X>
  {
    (Some(k.lamLeafL), Some(k.lamLeafR), None)
  }

  /** `fold_up_tree(f_in_aux, (lam_leaf_l, lam_leaf_r))` and `fold_down_tree(f_out, (pe.v[0], lam_root))`. */
  function Outside<A, X, S>(ops: Ops<X, S>, t: Tree<A>, k: Params<X>): (r: Tree<(Option<X>, Option<X>)>)
    ensures Congruent(r, t)
  {
    var ins := Inside(ops, t, k);
    var r := Down(ins, Id, LeafAux(k), OutStep(ops, k.muL, k.muR), Some(k.lamRoot));
    CongruentTransitive(r, ins, t);
    r
  }

  /** The composition, ending with `pe.map(f_mult)`. */
  function Compose<A, X, S>(ops: Ops<X, S>, t: Tree<A>, k: Params<X>): (r: Tree<Option<X>>)
    ensures Congruent(r, t)
  {
    var r := Map(Outside(ops, t, k), MultStep(ops));
    CongruentTransitive(r, Outside(ops, t, k), t);
    r
  }

  /** `params = [torch.exp(x) for x in params]`, then the six-way unpacking. */
  function Embedding14<A, X, S>(ops: Ops<X, S>, t: Tree<A>, params: seq<X>): (r: Result<Tree<Option<X>>, PyError>)
    ensures r.Ok? <==> |params| == 6
    ensures r.Ok? ==> Congruent(r.value, t)
  {
    match Unpack6(seq(|params|, i requires 0 <= i < |params| => ops.exp(params[i])))
    case Err(e) => Err(e)
    case Ok(k) => Ok(Compose(ops, t, k))
  }

  /** Every inside value is present, and combines the children's inside values
      through `mu_l` / `mu_r`, or takes `lam_leaf_l` / `lam_leaf_r` for an absent child. */
  lemma InsideAt<A, X, S>(ops: Ops<X, S>, t: Tree<A>, k: Params<X>, p: seq<Dir>)
    requires Has(t, p)
    ensures Has(Inside(ops, t, k), p) && ValueAt(Inside(ops, t, k), p).Some?
    ensures Has(t, p + [L]) ==> Has(Inside(ops, t, k), p + [L]) && ValueAt(Inside(ops, t, k), p + [L]).Some?
    ensures Has(t, p + [R]) ==> Has(Inside(ops, t, k), p + [R]) && ValueAt(Inside(ops, t, k), p + [R]).Some?
    ensures ValueAt(Inside(ops, t, k), p).value ==
            ops.mul(if Has(t, p + [L]) then ops.matmul(k.muL, ValueAt(Inside(ops, t, k), p + [L]).value) else k.lamLeafL,
                    if Has(t, p + [R]) then ops.matmul(k.muR, ValueAt(Inside(ops, t, k), p + [R]).value) else k.lamLeafR)
  {
    var f := InStep(ops, k.muL, k.muR, k.lamLeafL, k.lamLeafR);
    var ins := Inside(ops, t, k);
    CongruentHas(ins, t, p);
    CongruentHas(ins, t, p + [L]);
    CongruentHas(ins, t, p + [R]);
    FoldUpTreeLocal(t, f, None, p);
    if Has(t, p + [L]) {
      FoldUpTreeLocal(t, f, None, p + [L]);
    }
    if Has(t, p + [R]) {
      FoldUpTreeLocal(t, f, None, p + [R]);
    }
  }

  /** The triple of the second pass: a missing first child and a missing next
      sibling both read as `lam_leaf_l`, since `f_in_aux` takes `[0]` of the leaf default. */
  lemma AuxAt14<A, X, S>(ops: Ops<X, S>, t: Tree<A>, k: Params<X>, p: seq<Dir>)
    requires Has(t, p)
    ensures Has(Inside(ops, t, k), p) && Has(AuxTree(Inside(ops, t, k), Id, LeafAux(k)), p)
    ensures Has(t, p + [L]) ==> Has(Inside(ops, t, k), p + [L])
    ensures Has(t, p + [R]) ==> Has(Inside(ops, t, k), p + [R])
    ensures ValueAt(AuxTree(Inside(ops, t, k), Id, LeafAux(k)), p).1 ==
            if Has(t, p + [L]) then ValueAt(Inside(ops, t, k), p + [L]) else Some(k.lamLeafL)
    ensures ValueAt(AuxTree(Inside(ops, t, k), Id, LeafAux(k)), p).2 ==
            if Has(t, p + [R]) then ValueAt(Inside(ops, t, k), p + [R]) else Some(k.lamLeafL)
  {
    var ins := Inside(ops, t, k);
    CongruentHas(ins, t, p);
    CongruentHas(ins, t, p + [L]);
    CongruentHas(ins, t, p + [R]);
    AuxAt(ins, Id, LeafAux(k), p);
  }

  /** Every node's first component after the downward pass is its own inside value. */
  lemma FirstIsOwnInside<A, X, S>(ops: Ops<X, S>, t: Tree<A>, k: Params<X>, p: seq<Dir>)
    requires Has(t, p)
    ensures Has(Inside(ops, t, k), p) && Has(Outside(ops, t, k), p)
    ensures ValueAt(Outside(ops, t, k), p).0 == ValueAt(Inside(ops, t, k), p)
  {
    var ins := Inside(ops, t, k);
    CongruentHas(ins, t, p);
    FirstIsInside(ins, Id, LeafAux(k), OutStep(ops, k.muL, k.muR), Some(k.lamRoot), p);
  }

  /** The outside value: `lam_root` at the root; at a first child the contraction of
      the parent's outside value with `mu_r @` the next sibling's inside value, or
      with `mu_r @ lam_leaf_l` when there is no next sibling; the mirror image at a
      next sibling. It is never `None`. */
  lemma {:induction false} OutsideAt<A, X, S>(ops: Ops<X, S>, t: Tree<A>, k: Params<X>, p: seq<Dir>)
    requires Has(t, p)
    ensures Has(Outside(ops, t, k), p) && ValueAt(Outside(ops, t, k), p).1.Some?
    ensures p == [] ==> ValueAt(Outside(ops, t, k), p).1 == Some(k.lamRoot)
    ensures p != [] ==> Has(t, p[..|p| - 1]) && Has(Outside(ops, t, k), p[..|p| - 1])
    ensures p != [] ==> ValueAt(Outside(ops, t, k), p[..|p| - 1]).1.Some?
    ensures p != [] ==> Has(Inside(ops, t, k), p[..|p| - 1] + [if p[|p| - 1] == L then R else L]) ==>
                        ValueAt(Inside(ops, t, k), p[..|p| - 1] + [if p[|p| - 1] == L then R else L]).Some?
    ensures p != [] ==>
      var q, d := p[..|p| - 1], p[|p| - 1];
      var other := if Has(Inside(ops, t, k), q + [if d == L then R else L])
                   then ValueAt(Inside(ops, t, k), q + [if d == L then R else L]).value else k.lamLeafL;
      ValueAt(Outside(ops, t, k), p).1.value ==
        if d == L then ops.contract(ValueAt(Outside(ops, t, k), q).1.value, ops.matmul(k.muR, other), k.muL)
        else ops.contract(ValueAt(Outside(ops, t, k), q).1.value, ops.matmul(k.muL, other), k.muR)
    decreases |p|
  {
    var ins := Inside(ops, t, k);
    CongruentHas(ins, t, p);
    if p == [] {
      FirstIsOwnInside(ops, t, k, p);
    } else {
      var q, d := p[..|p| - 1], p[|p| - 1];
      assert p == q + [d];
      DownAt(ins, Id, LeafAux(k), OutStep(ops, k.muL, k.muR), Some(k.lamRoot), q, d);
      CongruentHas(ins, t, q);
      OutsideAt(ops, t, k, q);
      AuxAt14(ops, t, k, q);
      InsideAt(ops, t, k, q);
      CongruentHas(ins, t, q + [L]);
      CongruentHas(ins, t, q + [R]);
    }
  }

  /** Every node of the result is present and is `f_mult` of its inside and outside values. */
  lemma ComposeAt<A, X, S>(ops: Ops<X, S>, t: Tree<A>, k: Params<X>, p: seq<Dir>)
    requires Has(t, p)
    ensures Has(Inside(ops, t, k), p) && ValueAt(Inside(ops, t, k), p).Some?
    ensures Has(Outside(ops, t, k), p) && ValueAt(Outside(ops, t, k), p).1.Some?
    ensures Has(Compose(ops, t, k), p)
    ensures ValueAt(Compose(ops, t, k), p) ==
            Some(ops.scale(ops.mul(ValueAt(Inside(ops, t, k), p).value, ValueAt(Outside(ops, t, k), p).1.value),
                           ops.invRoot(512)))
  {
    InsideAt(ops, t, k, p);
    OutsideAt(ops, t, k, p);
    FirstIsOwnInside(ops, t, k, p);
    MapValueAt(Outside(ops, t, k), MultStep(ops), p);
  }

  /** `lam_leaf` (the third parameter) has no influence on the embedding. */
  lemma IgnoresLamLeaf<A, X, S>(ops: Ops<X, S>, t: Tree<A>, params: seq<X>, x: X)
    requires |params| == 6
    ensures Embedding14(ops, t, params) == Embedding14(ops, t, params[2 := x])
  {
    var e := seq(|params|, i requires 0 <= i < |params| => ops.exp(params[i]));
    var e' := seq(|params[2 := x]|, i requires 0 <= i < |params[2 := x]| => ops.exp(params[2 := x][i]));
    var k, k' := Unpack6(e).value, Unpack6(e').value;
    assert k' == k.(lamLeaf := ops.exp(x));
  }
}
