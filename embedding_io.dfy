/**
 * `get_pos_embedding` of nmt/structs/tree15.py:7-37, nmt/structs/tree2.py:85-114
 * and nmt/structs/tree6.py:83-114. All three run the same inside-outside
 * composition with the same step functions; they differ in how the parameter
 * list is prepared and in tree6's `normalize` around every step, which is
 * the `post` argument below (the identity for tree2 and tree15).
 */
module InsideOutsideEncoding {
  import opened Common
  import opened LcRs
  import opened Traversals
  import opened Tensors
  import opened InsideOutside

  /** The six learned tensors, in the order `get_pos_embedding` unpacks them. */
  datatype Params<X> = Params(muL: X, muR: X, lamLeaf: X, lamRoot: X, lamLeafL: X, lamLeafR: X)

  /** `mu_l, mu_r, lam_leaf, lam_root, lam_leaf_l, lam_leaf_r = params`. */
  function Unpack6<X>(params: seq<X>): (r: Result<Params<X>, PyError>)
    ensures r.Ok? <==> |params| == 6
    ensures r.Err? ==> r.error == ValueError
  {
    if |params| != 6 then Err(ValueError)
    else Ok(Params(params[0], params[1], params[2], params[3], params[4], params[5]))
  }

  function Id<X>(x: X): X { x }

  function Lift<X>(x: X): Option<X> { Some(x) }

  /** `f_in(_, l, r) = (mu_l @ l) * (mu_r @ r) * step_scale`, then `post`. */
  function InStep<A, X, S>(ops: Ops<X, S>, muL: X, muR: X, step: S, post: X -> X): (A, X, X) -> X
  {
    (_: A, l: X, r: X) => post(ops.scale(ops.mul(ops.matmul(muL, l), ops.matmul(muR, r)), step))
  }

  /** `f_out`: going left, the first child receives its own inside value and
      `einsum("i,ij,i->j", out_p, mu_l, mu_r @ in_r) * step_scale`, `lam_leaf_r`
      standing in for an absent next sibling; going right is the mirror image. */
  function OutStep<X, S>(ops: Ops<X, S>, k: Params<X>, step: S, post: X -> X): (Aux<X>, (Option<X>, X), bool) -> (Option<X>, X)
  {
    (a: Aux<X>, pair: (Option<X>, X), isLeft: bool) =>
      if isLeft then
        var inR := if a.2.Some? then a.2.value else k.lamLeafR;
        (a.1, post(ops.scale(ops.contract(pair.1, ops.matmul(k.muR, inR), k.muL), step)))
      else
        var inL := if a.1.Some? then a.1.value else k.lamLeafL;
        (a.2, post(ops.scale(ops.contract(pair.1, ops.matmul(k.muL, inL), k.muR), step)))
  }

  /** `f_mult(io) = io[0] * io[1] * step_scale`, then `post`; `None` stands for
      the `TypeError` Python raises when `io[0]` is `None`. */
  function MultStep<X, S>(ops: Ops<X, S>, step: S, post: X -> X): ((Option<X>, X)) -> Option<X>
  {
    (io: (Option<X>, X)) => if io.0.Some? then Some(post(ops.scale(ops.mul(io.0.value, io.1), step))) else None
  }

  /** `pe.fold_up_tree(f_in, lam_leaf)`. */
  function Inside<A, X, S>(ops: Ops<X, S>, t: Tree<A>, embedDim: nat, k: Params<X>, post: X -> X): (r: Tree<X>)
    ensures Congruent(r, t)
  {
    FoldUpTree(t, InStep(ops, k.muL, k.muR, ops.root(embedDim), post), k.lamLeaf)
  }

  /** The `fold_up_tree(f_in_aux, (None, None))` and `fold_down_tree(f_out, (pe.v[0], lam_root))` passes. */
  function Outside<A, X, S>(ops: Ops<X, S>, t: Tree<A>, embedDim: nat, k: Params<X>, post: X -> X): (r: Tree<(Option<X>, X)>)
    ensures Congruent(r, t)
  {
    var ins := Inside(ops, t, embedDim, k, post);
    var r := Down(ins, Lift, (None, None, None), OutStep(ops, k, ops.root(embedDim), post), k.lamRoot);
    CongruentTransitive(r, ins, t);
    r
  }

  /** The whole composition, ending with `pe.map(f_mult)`. */
  function Compose<A, X, S>(ops: Ops<X, S>, t: Tree<A>, embedDim: nat, k: Params<X>, post: X -> X): (r: Tree<Option<X>>)
    ensures Congruent(r, t)
  {
    var r := Map(Outside(ops, t, embedDim, k, post), MultStep(ops, ops.root(embedDim), post));
    CongruentTransitive(r, Outside(ops, t, embedDim, k, post), t);
    r
  }

  /** tree15: the parameters are used as given. */
  function Embedding15<A, X, S>(ops: Ops<X, S>, t: Tree<A>, embedDim: nat, params: seq<X>): (r: Result<Tree<Option<X>>, PyError>)
    ensures r.Ok? <==> |params| == 6
    ensures r.Ok? ==> Congruent(r.value, t)
  {
    match Unpack6(params)
    case Err(e) => Err(e)
    case Ok(k) => Ok(Compose(ops, t, embedDim, k, Id))
  }

  /** tree2: every parameter is first cast with `x.type(dtype)`. */
  function Embedding2<A, X, S>(ops: Ops<X, S>, t: Tree<A>, embedDim: nat, params: seq<X>): (r: Result<Tree<Option<X>>, PyError>)
    ensures r.Ok? <==> |params| == 6
    ensures r.Ok? ==> Congruent(r.value, t)
  {
    match Unpack6(seq(|params|, i requires 0 <= i < |params| => ops.cast(params[i])))
    case Err(e) => Err(e)
    case Ok(k) => Ok(Compose(ops, t, embedDim, k, Id))
  }

  /** tree6's parameter list: all but the last two entries cast and normalized,
      the last two (the scales) only cast. */
  function Prepare6<X, S>(ops: Ops<X, S>, embedDim: nat, params: seq<X>): (r: seq<X>)
    ensures |r| == |params|
  {
    seq(|params|, i requires 0 <= i < |params| =>
      if i < |params| - 2 then ops.normalize(ops.cast(params[i]), embedDim) else ops.cast(params[i]))
  }

  /** tree6: eight parameters; `mu_l *= mu_l_scale` and `mu_r *= mu_r_scale`
      before the composition, and `normalize(., embed_dim)` after every step. */
  function Embedding6<A, X, S>(ops: Ops<X, S>, t: Tree<A>, embedDim: nat, params: seq<X>): (r: Result<Tree<Option<X>>, PyError>)
    ensures r.Ok? <==> |params| == 8
    ensures r.Err? ==> r.error == ValueError
    ensures r.Ok? ==> Congruent(r.value, t)
  {
    var ps := Prepare6(ops, embedDim, params);
    if |ps| != 8 then Err(ValueError)
    else
      var k := Params(ops.mul(ps[0], ps[6]), ops.mul(ps[1], ps[7]), ps[2], ps[3], ps[4], ps[5]);
      Ok(Compose(ops, t, embedDim, k, (x: X) => ops.normalize(x, embedDim)))
  }

  /** Inside pass: a node combines its first child's and next sibling's inside
      values, `lam_leaf` standing in for an absent one (so a leaf with no sibling
      gets `f_in(_, lam_leaf, lam_leaf)`). */
  lemma InsideAt<A, X, S>(ops: Ops<X, S>, t: Tree<A>, embedDim: nat, k: Params<X>, post: X -> X, p: seq<Dir>)
    requires Has(t, p)
    ensures Has(Inside(ops, t, embedDim, k, post), p)
    ensures Has(t, p + [L]) ==> Has(Inside(ops, t, embedDim, k, post), p + [L])
    ensures Has(t, p + [R]) ==> Has(Inside(ops, t, embedDim, k, post), p + [R])
    ensures ValueAt(Inside(ops, t, embedDim, k, post), p) ==
            post(ops.scale(ops.mul(
              ops.matmul(k.muL, if Has(t, p + [L]) then ValueAt(Inside(ops, t, embedDim, k, post), p + [L]) else k.lamLeaf),
              ops.matmul(k.muR, if Has(t, p + [R]) then ValueAt(Inside(ops, t, embedDim, k, post), p + [R]) else k.lamLeaf)),
              ops.root(embedDim)))
  {
    var ins := Inside(ops, t, embedDim, k, post);
    CongruentHas(ins, t, p);
    CongruentHas(ins, t, p + [L]);
    CongruentHas(ins, t, p + [R]);
    FoldUpTreeLocal(t, InStep(ops, k.muL, k.muR, ops.root(embedDim), post), k.lamLeaf, p);
  }

  /** After the downward pass every node's first component is its own inside value. */
  lemma FirstIsOwnInside<A, X, S>(ops: Ops<X, S>, t: Tree<A>, embedDim: nat, k: Params<X>, post: X -> X, p: seq<Dir>)
    requires Has(t, p)
    ensures Has(Inside(ops, t, embedDim, k, post), p) && Has(Outside(ops, t, embedDim, k, post), p)
    ensures ValueAt(Outside(ops, t, embedDim, k, post), p).0 == Some(ValueAt(Inside(ops, t, embedDim, k, post), p))
  {
    var ins := Inside(ops, t, embedDim, k, post);
    CongruentHas(ins, t, p);
    FirstIsInside(ins, Lift, (None, None, None), OutStep(ops, k, ops.root(embedDim), post), k.lamRoot, p);
  }

  /** Outside pass: the root gets `lam_root`; a first child gets the outside step from
      its parent with the next sibling's inside value, or `lam_leaf_r` when it has
      none; a next sibling the mirror step with the first child's, or `lam_leaf_l`. */
  lemma OutsideAt<A, X, S>(ops: Ops<X, S>, t: Tree<A>, embedDim: nat, k: Params<X>, post: X -> X, q: seq<Dir>, d: Dir)
    requires Has(t, q + [d])
    ensures Outside(ops, t, embedDim, k, post).v.1 == k.lamRoot
    ensures Has(t, q) && Has(Outside(ops, t, embedDim, k, post), q) && Has(Outside(ops, t, embedDim, k, post), q + [d])
    ensures Has(t, q + [L]) ==> Has(Inside(ops, t, embedDim, k, post), q + [L])
    ensures Has(t, q + [R]) ==> Has(Inside(ops, t, embedDim, k, post), q + [R])
    ensures d == L ==>
      ValueAt(Outside(ops, t, embedDim, k, post), q + [d]).1 ==
      post(ops.scale(ops.contract(ValueAt(Outside(ops, t, embedDim, k, post), q).1,
                                  ops.matmul(k.muR, if Has(t, q + [R]) then ValueAt(Inside(ops, t, embedDim, k, post), q + [R]) else k.lamLeafR),
                                  k.muL), ops.root(embedDim)))
    ensures d == R ==>
      ValueAt(Outside(ops, t, embedDim, k, post), q + [d]).1 ==
      post(ops.scale(ops.contract(ValueAt(Outside(ops, t, embedDim, k, post), q).1,
                                  ops.matmul(k.muL, if Has(t, q + [L]) then ValueAt(Inside(ops, t, embedDim, k, post), q + [L]) else k.lamLeafL),
                                  k.muR), ops.root(embedDim)))
  {
    var ins := Inside(ops, t, embedDim, k, post);
    var fOut := OutStep(ops, k, ops.root(embedDim), post);
    CongruentHas(ins, t, q + [d]);
    CongruentHas(ins, t, q);
    CongruentHas(ins, t, q + [L]);
    CongruentHas(ins, t, q + [R]);
    DownAt(ins, Lift, (None, None, None), fOut, k.lamRoot, q, d);
    AuxAt(ins, Lift, (None, None, None), q);
  }

  /** Every node of the result is `f_mult` of its own inside value and its outside value. */
  lemma ComposeAt<A, X, S>(ops: Ops<X, S>, t: Tree<A>, embedDim: nat, k: Params<X>, post: X -> X, p: seq<Dir>)
    requires Has(t, p)
    ensures Has(Inside(ops, t, embedDim, k, post), p) && Has(Outside(ops, t, embedDim, k, post), p)
    ensures Has(Compose(ops, t, embedDim, k, post), p)
    ensures ValueAt(Compose(ops, t, embedDim, k, post), p) ==
            Some(post(ops.scale(ops.mul(ValueAt(Inside(ops, t, embedDim, k, post), p),
                                        ValueAt(Outside(ops, t, embedDim, k, post), p).1), ops.root(embedDim))))
  {
    FirstIsOwnInside(ops, t, embedDim, k, post, p);
    MapValueAt(Outside(ops, t, embedDim, k, post), MultStep(ops, ops.root(embedDim), post), p);
  }
}
