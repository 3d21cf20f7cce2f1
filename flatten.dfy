/**
 * `Tree.flatten` (nmt/structs/tree6.py:46-55, nmt/structs/tree2.py:48-57).
 *
 * The recursion walks a node's sibling chain through `r`, pushing every first
 * child it passes on the stack `lefts`; when a chain ends it pops the most
 * recently pushed child and walks that child's chain. The output is
 * therefore not pre-order: whole sibling chains come out contiguously, and
 * deeper chains are visited last-pushed-first.
 *
 * The stack is the function's default argument `lefts=[]`: one list object
 * shared by every top-level call, modelled by class SharedLefts.
 */
module Flattening {
  import opened Common
  import opened LcRs

  // ---------------------------------------------------------------------------
  // Specification

  /** The stack after visiting `t`: its first child, if any, pushed on top. */
  function Push<T>(t: Tree<T>, lefts: seq<Tree<T>>): seq<Tree<T>>
  {
    if t.l.Some? then lefts + [t.l.value] else lefts
  }

  lemma PushSize<T>(t: Tree<T>, lefts: seq<Tree<T>>)
    ensures SizeAll(Push(t, lefts)) + (if t.r.Some? then Size(t.r.value) else 0) < Size(t) + SizeAll(lefts)
  {
    if t.l.Some? { assert (lefts + [t.l.value])[..|lefts|] == lefts; }
  }

  /** What `node.flatten(acc, lefts)` appends to `acc`, given the stack `lefts`. */
  function FlattenFrom<T>(t: Tree<T>, lefts: seq<Tree<T>>): seq<T>
    decreases Size(t) + SizeAll(lefts), 0
  {
    PushSize(t, lefts);
    [t.v] + (if t.r.Some? then FlattenFrom(t.r.value, Push(t, lefts)) else Drain(Push(t, lefts)))
  }

  /** What is appended once a sibling chain has ended with `stack` pending:
      the top is popped and flattened with the rest of the stack. */
  function Drain<T>(stack: seq<Tree<T>>): seq<T>
    decreases SizeAll(stack), 1
  {
    if stack == [] then [] else FlattenFrom(stack[|stack| - 1], stack[..|stack| - 1])
  }

  /** What a top-level `t.flatten()` returns when the shared stack is empty. */
  function Flatten<T>(t: Tree<T>): seq<T>
  {
    FlattenFrom(t, [])
  }

  /** The values of a sibling chain: a node, its next sibling, that one's next sibling, ... */
  function ChainValues<T>(t: Tree<T>): seq<T>
  {
    [t.v] + (if t.r.Some? then ChainValues(t.r.value) else [])
  }

  /** The first child of a node, as a list of zero or one trees. */
  function FirstChild<T>(t: Tree<T>): seq<Tree<T>>
  {
    if t.l.Some? then [t.l.value] else []
  }

  /** The first children met along a sibling chain, in chain order. */
  function ChainLefts<T>(t: Tree<T>): seq<Tree<T>>
  {
    FirstChild(t) + (if t.r.Some? then ChainLefts(t.r.value) else [])
  }

  /** The values of every tree on a stack, as one multiset. */
  function PendingValues<T>(stack: seq<Tree<T>>): multiset<T>
  {
    if stack == [] then multiset{}
    else PendingValues(stack[..|stack| - 1]) + multiset(PreOrder(stack[|stack| - 1]))
  }

  /** `u` is a node of `t`, given as the subtree rooted there. */
  ghost predicate SubTree<T>(u: Tree<T>, t: Tree<T>)
  {
    u == t || (t.l.Some? && SubTree(u, t.l.value)) || (t.r.Some? && SubTree(u, t.r.value))
  }

  /** `u` is a node of one of the trees on the stack. */
  ghost predicate OnStack<T>(u: Tree<T>, stack: seq<Tree<T>>)
  {
    stack != [] && (SubTree(u, stack[|stack| - 1]) || OnStack(u, stack[..|stack| - 1]))
  }

  /** `x` is immediately followed by `y` somewhere in `s`. */
  ghost predicate Adjacent<T>(s: seq<T>, x: T, y: T)
  {
    exists i :: 0 <= i < |s| - 1 && s[i] == x && s[i + 1] == y
  }

  // ---------------------------------------------------------------------------
  // Small steps, each stated once so that the proofs below stay cheap

  lemma FlattenStep<T>(t: Tree<T>, lefts: seq<Tree<T>>)
    requires t.r.Some?
    ensures FlattenFrom(t, lefts) == [t.v] + FlattenFrom(t.r.value, Push(t, lefts))
  {
  }

  lemma FlattenLast<T>(t: Tree<T>, lefts: seq<Tree<T>>)
    requires t.r.None?
    ensures FlattenFrom(t, lefts) == [t.v] + Drain(Push(t, lefts))
  {
  }

  lemma DrainStep<T>(stack: seq<Tree<T>>)
    requires stack != []
    ensures Drain(stack) == FlattenFrom(stack[|stack| - 1], stack[..|stack| - 1])
    ensures SizeAll(stack) == Size(stack[|stack| - 1]) + SizeAll(stack[..|stack| - 1])
  {
  }

  lemma ChainLeftsPush<T>(t: Tree<T>, lefts: seq<Tree<T>>)
    requires t.r.Some?
    ensures Push(t, lefts) + ChainLefts(t.r.value) == lefts + ChainLefts(t)
  {
    assert Push(t, lefts) == lefts + FirstChild(t);
    Assoc(lefts, FirstChild(t), ChainLefts(t.r.value));
  }

  lemma PendingPush<T>(t: Tree<T>, lefts: seq<Tree<T>>)
    ensures PendingValues(Push(t, lefts)) ==
            PendingValues(lefts) + (if t.l.Some? then multiset(PreOrder(t.l.value)) else multiset{})
  {
    if t.l.Some? { assert (lefts + [t.l.value])[..|lefts|] == lefts; }
  }

  lemma OnStackPush<T>(u: Tree<T>, t: Tree<T>, lefts: seq<Tree<T>>)
    ensures OnStack(u, Push(t, lefts)) <==> OnStack(u, lefts) || (t.l.Some? && SubTree(u, t.l.value))
  {
    if t.l.Some? { assert (lefts + [t.l.value])[..|lefts|] == lefts; }
  }

  lemma PreOrderMultiset<T>(t: Tree<T>)
    ensures multiset(PreOrder(t)) ==
            multiset{t.v} + (if t.l.Some? then multiset(PreOrder(t.l.value)) else multiset{})
                          + (if t.r.Some? then multiset(PreOrder(t.r.value)) else multiset{})
  {
  }

  lemma AdjacentSuffix<T>(a: seq<T>, b: seq<T>, x: T, y: T)
    requires Adjacent(b, x, y)
    ensures Adjacent(a + b, x, y)
  {
    var i :| 0 <= i < |b| - 1 && b[i] == x && b[i + 1] == y;
    assert (a + b)[|a| + i] == x && (a + b)[|a| + i + 1] == y;
  }

  // ---------------------------------------------------------------------------
  // What flatten emits

  /** flatten emits the node's whole sibling chain contiguously, so a node's next
      sibling comes right after it; only then does it pop the stack, which by
      then holds the chain's first children on top of what was pending. */
  lemma {:induction false} FlattenChainFirst<T>(t: Tree<T>, lefts: seq<Tree<T>>)
    ensures FlattenFrom(t, lefts) == ChainValues(t) + Drain(lefts + ChainLefts(t))
    decreases Size(t)
  {
    if t.r.Some? {
      var rest := Drain(lefts + ChainLefts(t));
      FlattenChainFirst(t.r.value, Push(t, lefts));
      ChainLeftsPush(t, lefts);
      FlattenStep(t, lefts);
      Assoc([t.v], ChainValues(t.r.value), rest);
    } else {
      assert lefts + ChainLefts(t) == Push(t, lefts);
    }
  }

  /** flatten emits every pending node exactly once: its output is a permutation
      of the pre-order values of `t` and of the trees on the stack. */
  lemma {:induction false} FlattenFromPermutation<T>(t: Tree<T>, lefts: seq<Tree<T>>)
    ensures multiset(FlattenFrom(t, lefts)) == multiset(PreOrder(t)) + PendingValues(lefts)
    decreases Size(t) + SizeAll(lefts), 0
  {
    PushSize(t, lefts);
    PendingPush(t, lefts);
    PreOrderMultiset(t);
    if t.r.Some? {
      FlattenFromPermutation(t.r.value, Push(t, lefts));
    } else {
      DrainPermutation(Push(t, lefts));
    }
  }

  lemma {:induction false} DrainPermutation<T>(stack: seq<Tree<T>>)
    ensures multiset(Drain(stack)) == PendingValues(stack)
    decreases SizeAll(stack), 1
  {
    if stack != [] {
      FlattenFromPermutation(stack[|stack| - 1], stack[..|stack| - 1]);
    }
  }

  /** Every node that has a next sibling, in `t` or in a tree on the stack, is
      immediately followed by that sibling in flatten's output. */
  lemma {:induction false} FlattenSiblingNext<T>(t: Tree<T>, lefts: seq<Tree<T>>, u: Tree<T>)
    requires u.r.Some? && (SubTree(u, t) || OnStack(u, lefts))
    ensures Adjacent(FlattenFrom(t, lefts), u.v, u.r.value.v)
    decreases Size(t) + SizeAll(lefts), 0
  {
    PushSize(t, lefts);
    OnStackPush(u, t, lefts);
    var pushed := Push(t, lefts);
    if u == t {
      FlattenStep(t, lefts);
      var s := FlattenFrom(t, lefts);
      assert s[0] == u.v && s[1] == u.r.value.v;
    } else if t.r.Some? {
      FlattenStep(t, lefts);
      FlattenSiblingNext(t.r.value, pushed, u);
      AdjacentSuffix([t.v], FlattenFrom(t.r.value, pushed), u.v, u.r.value.v);
    } else {
      FlattenLast(t, lefts);
      DrainSiblingNext(pushed, u);
      AdjacentSuffix([t.v], Drain(pushed), u.v, u.r.value.v);
    }
  }

  lemma {:induction false} DrainSiblingNext<T>(stack: seq<Tree<T>>, u: Tree<T>)
    requires u.r.Some? && OnStack(u, stack)
    ensures Adjacent(Drain(stack), u.v, u.r.value.v)
    decreases SizeAll(stack), 1
  {
    FlattenSiblingNext(stack[|stack| - 1], stack[..|stack| - 1], u);
  }

  /** A top-level flatten emits every node exactly once, root first. */
  lemma FlattenPermutation<T>(t: Tree<T>)
    ensures multiset(Flatten(t)) == multiset(PreOrder(t))
    ensures |Flatten(t)| == Size(t)
    ensures Flatten(t)[0] == t.v
  {
    FlattenFromPermutation(t, []);
    assert |multiset(Flatten(t))| == |multiset(PreOrder(t))|;
  }

  /** In a top-level flatten every node with a next sibling is immediately followed by it. */
  lemma FlattenSiblingFollows<T>(t: Tree<T>, p: seq<Dir>)
    requires Has(t, p + [R])
    ensures Has(t, p)
    ensures Adjacent(Flatten(t), ValueAt(t, p), ValueAt(t, p + [R]))
  {
    AtSnoc(t, p, R);
    AtSubTree(t, p);
    FlattenSiblingNext(t, [], At(t, p).value);
  }

  lemma {:induction false} AtSubTree<T>(t: Tree<T>, p: seq<Dir>)
    requires Has(t, p)
    ensures SubTree(At(t, p).value, t)
    decreases |p|
  {
    if p != [] {
      if p[0] == L { AtSubTree(t.l.value, p[1..]); }
      if p[0] == R { AtSubTree(t.r.value, p[1..]); }
    }
  }

  /** f with first child a, a with first child b and next sibling c: flatten gives
      [f, a, c, b] where pre-order gives [f, a, b, c]. */
  lemma FlattenIsNotPreOrder()
    ensures var t := Tree("f", Some(Tree("a", Some(Tree("b", None, None)), Some(Tree("c", None, None)))), None);
            Flatten(t) == ["f", "a", "c", "b"] && PreOrder(t) == ["f", "a", "b", "c"]
  {
    var b, c := Tree("b", None, None), Tree("c", None, None);
    var a := Tree("a", Some(b), Some(c));
    var t := Tree("f", Some(a), None);
    assert Push(t, []) == [a];
    assert Push(a, []) == [b];
    assert FlattenFrom(b, []) == ["b"];
    assert FlattenFrom(c, [b]) == ["c", "b"];
    assert FlattenFrom(a, []) == ["a", "c", "b"];
  }

  // ---------------------------------------------------------------------------
  // The procedure

  /** The recursive branch of `flatten` (`acc` given): a tail recursion over the
      current node, run here as a loop. Appends the pending nodes to `acc` and
      leaves the stack empty. */
  method FlattenRec<T>(node: Tree<T>, acc: seq<T>, lefts: seq<Tree<T>>)
    returns (acc': seq<T>, lefts': seq<Tree<T>>)
    ensures acc' == acc + FlattenFrom(node, lefts)
    ensures lefts' == []
  {
    acc', lefts' := acc, lefts;
    var cur := node;
    while true
      invariant acc' + FlattenFrom(cur, lefts') == acc + FlattenFrom(node, lefts)
      decreases Size(cur) + SizeAll(lefts')
    {
      PushSize(cur, lefts');
      ghost var pushed := Push(cur, lefts');
      if cur.r.Some? {
        FlattenStep(cur, lefts');
      } else {
        FlattenLast(cur, lefts');
      }
      Assoc(acc', [cur.v], if cur.r.Some? then FlattenFrom(cur.r.value, pushed) else Drain(pushed));
      acc' := acc' + [cur.v];
      if cur.l.Some? {
        lefts' := lefts' + [cur.l.value];
      }
      assert lefts' == pushed;
      if cur.r.Some? {
        cur := cur.r.value;
      } else if |lefts'| > 0 {
        DrainStep(lefts');
        cur, lefts' := lefts'[|lefts'| - 1], lefts'[..|lefts'| - 1];
      } else {
        break;
      }
    }
  }

  /** The list object bound to `flatten`'s default argument `lefts=[]`, shared by all calls. */
  class SharedLefts<T> {
    var lefts: seq<Tree<T>>

    /** The default is evaluated once, to an empty list, when `flatten` is defined. */
    constructor ()
      ensures lefts == []
    {
      lefts := [];
    }

    /** A top-level `t.flatten()`: a fresh `acc`, the shared stack. Whatever the
        stack held is drained too, and it is empty again on return, so the
        next call starts from an empty stack and returns `Flatten` of its tree. */
    method Flatten(t: Tree<T>) returns (acc: seq<T>)
      modifies this
      ensures acc == FlattenFrom(t, old(lefts))
      ensures lefts == []
    {
      acc := [];
      acc, lefts := FlattenRec(t, acc, lefts);
    }
  }
}
