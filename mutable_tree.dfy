/**
 * The `Tree` object as Python holds it: a node whose fields `v`, `l`, `r`
 * can be reassigned, and `map_` (nmt/structs/tree6.py:34-38,
 * nmt/structs/tree2.py:36-40), which applies `f` to every value in place.
 *
 * `Valid()` asks that the nodes form a tree: no cycles and no node reachable
 * twice. `Model()` is the value of the tree, the `LcRs.Tree` it stands for.
 */
module MutableTree {
  import opened Common
  import opened LcRs
  import opened Traversals

  class Node<T> {
    var v: T
    var l: Node?<T>
    var r: Node?<T>
    ghost var Repr: set<object>

    ghost predicate Valid()
      reads this, Repr
      decreases Repr
    {
      && this in Repr
      && (l != null ==> l in Repr && l.Repr <= Repr && this !in l.Repr && l.Valid())
      && (r != null ==> r in Repr && r.Repr <= Repr && this !in r.Repr && r.Valid())
      && (l != null && r != null ==> l.Repr !! r.Repr)
    }

    ghost function Model(): Tree<T>
      reads this, Repr
      requires Valid()
      decreases Repr
    {
      Tree(v, if l != null then Some(l.Model()) else None, if r != null then Some(r.Model()) else None)
    }

    /** `Tree(v, l, r)`, given two separate trees or `None`. */
    constructor (v: T, l: Node?<T>, r: Node?<T>)
      requires l != null ==> l.Valid()
      requires r != null ==> r.Valid()
      requires l != null && r != null ==> l.Repr !! r.Repr
      ensures Valid()
      ensures Model() == Tree(v, if l != null then Some(l.Model()) else None,
                                 if r != null then Some(r.Model()) else None)
    {
      this.v := v;
      this.l := l;
      this.r := r;
      Repr := {this} + (if l != null then l.Repr else {}) + (if r != null then r.Repr else {});
    }

    /** `t.map_(f)`: replaces every value `x` by `f(x)`, keeping every node and
        link, and returns the node itself; the tree then equals `t.map(f)`. */
    method MapInPlace(f: T -> T) returns (self: Node<T>)
      requires Valid()
      modifies Repr
      ensures self == this
      ensures Valid() && Repr == old(Repr)
      ensures l == old(l) && r == old(r)
      ensures Model() == Map(old(Model()), f)
      decreases Repr
    {
      v := f(v);
      if l != null {
        l := l.MapInPlace(f);
      }
      if r != null {
        r := r.MapInPlace(f);
      }
      self := this;
    }
  }
}
