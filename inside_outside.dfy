/**
 * The inside-outside skeleton shared by the positional encodings of
 * nmt/structs/tree6.py, tree2.py, tree15.py and tree14_log.py:
 *
 *   pe = pe.fold_up_tree(f_in, ...)             # inside values
 *   pe = pe.fold_up_tree(f_in_aux, leaf_aux)    # f_in_aux(v, l, r) = (v, l[0], r[0])
 *   pe = pe.fold_down_tree(f_out, (pe.v[0], lam_root))
 *
 * Whatever the arithmetic, `f_out` hands a child its own inside value as the
 * first component of the pair it returns, so after the downward pass every
 * node's first component is its own inside value.
 */
module InsideOutside {
  import opened Common
  import opened LcRs
  import opened Traversals

  /** A node's value after the second upward pass: (own inside value, first
      child's, next sibling's). The leaf default is written in the same shape;
      `f_in_aux` only ever reads its first component. */
  type Aux<X> = (Option<X>, Option<X>, Option<X>)

  /** `f_in_aux(v, l, r) = (v, l[0], r[0])`; `lift` turns an inside value into
      the optional value held in the triple. */
  function AuxStep<I, X>(lift: I -> Option<X>): (I, Aux<X>, Aux<X>) -> Aux<X>
  {
    (v: I, l: Aux<X>, r: Aux<X>) => (lift(v), l.0, r.0)
  }

  /** The triples of the second upward pass. */
  function AuxTree<I, X>(ins: Tree<I>, lift: I -> Option<X>, leafAux: Aux<X>): (r: Tree<Aux<X>>)
    ensures Congruent(r, ins)
  {
    FoldUpTree(ins, AuxStep(lift), leafAux)
  }

  /** The downward pass, seeded with the root's first component and `lamRoot`. */
  function Down<I, X, O>(ins: Tree<I>, lift: I -> Option<X>, leafAux: Aux<X>,
                         fOut: (Aux<X>, (Option<X>, O), bool) -> (Option<X>, O), lamRoot: O): (r: Tree<(Option<X>, O)>)
    ensures Congruent(r, ins)
  {
    var aux := AuxTree(ins, lift, leafAux);
    CongruentTransitive(FoldDownTree(aux, fOut, (aux.v.0, lamRoot)), aux, ins);
    FoldDownTree(aux, fOut, (aux.v.0, lamRoot))
  }

  /** The triple at every node: its own inside value, and its first child's and next
      sibling's inside values, or the leaf default's first component where one is absent. */
  lemma AuxAt<I, X>(ins: Tree<I>, lift: I -> Option<X>, leafAux: Aux<X>, p: seq<Dir>)
    requires Has(ins, p)
    ensures Has(AuxTree(ins, lift, leafAux), p)
    ensures ValueAt(AuxTree(ins, lift, leafAux), p).0 == lift(ValueAt(ins, p))
    ensures ValueAt(AuxTree(ins, lift, leafAux), p).1 ==
            if Has(ins, p + [L]) then lift(ValueAt(ins, p + [L])) else leafAux.0
    ensures ValueAt(AuxTree(ins, lift, leafAux), p).2 ==
            if Has(ins, p + [R]) then lift(ValueAt(ins, p + [R])) else leafAux.0
  {
    FoldUpTreeLocal(ins, AuxStep(lift), leafAux, p);
    if Has(ins, p + [L]) {
      FoldUpTreeLocal(ins, AuxStep(lift), leafAux, p + [L]);
    }
    if Has(ins, p + [R]) {
      FoldUpTreeLocal(ins, AuxStep(lift), leafAux, p + [R]);
    }
  }

  /** When `f_out` hands a first child the triple's second component and a next sibling
      its third, every node's first component after the downward pass is its own inside value. */
  lemma FirstIsInside<I, X, O>(ins: Tree<I>, lift: I -> Option<X>, leafAux: Aux<X>,
                                                  fOut: (Aux<X>, (Option<X>, O), bool) -> (Option<X>, O),
                                                  lamRoot: O, p: seq<Dir>)
    requires forall x: Aux<X>, y: (Option<X>, O), b: bool :: fOut(x, y, b).0 == if b then x.1 else x.2
    requires Has(ins, p)
    ensures Has(Down(ins, lift, leafAux, fOut, lamRoot), p)
    ensures ValueAt(Down(ins, lift, leafAux, fOut, lamRoot), p).0 == lift(ValueAt(ins, p))
  {
    var aux := AuxTree(ins, lift, leafAux);
    var down := Down(ins, lift, leafAux, fOut, lamRoot);
    CongruentHas(down, ins, p);
    if p == [] {
      AuxAt(ins, lift, leafAux, p);
    } else {
      var q, d := p[..|p| - 1], p[|p| - 1];
      assert p == q + [d];
      CongruentHas(aux, ins, p);
      FoldDownTreeStep(aux, fOut, (aux.v.0, lamRoot), q, d);
      CongruentHas(aux, ins, q);
      AuxAt(ins, lift, leafAux, q);
      HandsDown(fOut, ValueAt(aux, q), ValueAt(down, q), d == L);
    }
  }

  /** One instance of the hand-down property, taken at typed arguments. */
  lemma HandsDown<X, O>(fOut: (Aux<X>, (Option<X>, O), bool) -> (Option<X>, O), a: Aux<X>, pair: (Option<X>, O), isLeft: bool)
    requires forall x: Aux<X>, y: (Option<X>, O), b: bool :: fOut(x, y, b).0 == if b then x.1 else x.2
    ensures fOut(a, pair, isLeft).0 == if isLeft then a.1 else a.2
  {
  }

  /** The downward pass gives the root `lamRoot`, and a first child or next sibling
      `f_out` of its parent's triple and pair. */
  lemma DownAt<I, X, O>(ins: Tree<I>, lift: I -> Option<X>, leafAux: Aux<X>,
                        fOut: (Aux<X>, (Option<X>, O), bool) -> (Option<X>, O), lamRoot: O,
                        q: seq<Dir>, d: Dir)
    requires Has(ins, q + [d])
    ensures Has(ins, q) && Has(AuxTree(ins, lift, leafAux), q) && Has(Down(ins, lift, leafAux, fOut, lamRoot), q)
    ensures Has(Down(ins, lift, leafAux, fOut, lamRoot), q + [d])
    ensures Down(ins, lift, leafAux, fOut, lamRoot).v.1 == lamRoot
    ensures ValueAt(Down(ins, lift, leafAux, fOut, lamRoot), q + [d]) ==
            fOut(ValueAt(AuxTree(ins, lift, leafAux), q), ValueAt(Down(ins, lift, leafAux, fOut, lamRoot), q), d == L)
  {
    var aux := AuxTree(ins, lift, leafAux);
    CongruentHas(aux, ins, q + [d]);
    FoldDownTreeStep(aux, fOut, (aux.v.0, lamRoot), q, d);
    CongruentHas(aux, ins, q);
  }
}
