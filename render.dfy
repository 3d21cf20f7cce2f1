/**
 * `Tree.__str__` (nmt/structs/tree6.py:15-29, nmt/structs/tree2.py:17-31):
 * a bracketed rendering in which a node with a first child is written
 * `( v <its children> )`, a node without one is written `v`, and a node's
 * later siblings follow it. `__str__h` appends the pieces to a list and
 * `__str__` joins them with single spaces. `str(v)` is the parameter `show`.
 */
module Render {
  import opened Common
  import opened LcRs

  /** The pieces `__str__h` appends for a node and its whole sibling chain. */
  function Pieces<T>(t: Tree<T>, show: T -> string): (r: seq<string>)
    ensures |r| >= |NodePieces(t, show)| > 0
    decreases t, 1
  {
    NodePieces(t, show) + (if t.r.Some? then Pieces(t.r.value, show) else [])
  }

  /** The pieces for one node and its descendants, without its siblings. */
  function NodePieces<T>(t: Tree<T>, show: T -> string): seq<string>
    decreases t, 0
  {
    if t.l.Some? then ["(", show(t.v)] + Pieces(t.l.value, show) + [")"] else [show(t.v)]
  }

  /** `str(t)`. */
  function Str<T>(t: Tree<T>, show: T -> string): string
  {
    Join(Pieces(t, show), " ")
  }

  /** `t.__str__h(strs)`: appends the pieces of `t` to the list `strs`. */
  method StrH<T>(t: Tree<T>, strs: seq<string>, show: T -> string) returns (strs': seq<string>)
    ensures strs' == strs + Pieces(t, show)
  {
    strs' := strs;
    if t.l.Some? {
      strs' := strs' + ["("];
      strs' := strs' + [show(t.v)];
      strs' := StrH(t.l.value, strs', show);
      strs' := strs' + [")"];
      BracketedAppend(strs, show(t.v), Pieces(t.l.value, show));
    } else {
      strs' := strs' + [show(t.v)];
    }
    if t.r.Some? {
      strs' := StrH(t.r.value, strs', show);
      Assoc(strs, NodePieces(t, show), Pieces(t.r.value, show));
    } else {
      assert NodePieces(t, show) + [] == NodePieces(t, show);
    }
  }

  /** Appending `(`, `w`, `p` and `)` one after another appends the bracketed group. */
  lemma BracketedAppend(strs: seq<string>, w: string, p: seq<string>)
    ensures ((strs + ["("]) + [w] + p) + [")"] == strs + (["(", w] + p + [")"])
  {
    assert (strs + ["("]) + [w] == strs + ["(", w];
    Assoc(strs, ["(", w], p);
    Assoc(strs, ["(", w] + p, [")"]);
  }

  /** `t.__str__()`: the pieces collected from an empty list, joined by single spaces. */
  method ToStr<T>(t: Tree<T>, show: T -> string) returns (s: string)
    ensures s == Str(t, show)
  {
    var strs := StrH(t, [], show);
    assert strs == Pieces(t, show);
    s := Join(strs, " ");
  }

  /** The pieces with the bracket pieces removed. */
  function Words(pieces: seq<string>): seq<string>
  {
    if pieces == [] then []
    else (if pieces[0] == "(" || pieces[0] == ")" then [] else [pieces[0]]) + Words(pieces[1..])
  }

  /** The number of bracket pieces of one kind. */
  function Count(pieces: seq<string>, p: string): nat
  {
    if pieces == [] then 0 else (if pieces[0] == p then 1 else 0) + Count(pieces[1..], p)
  }

  /** The number of nodes with a first child. */
  function Parents<T>(t: Tree<T>): nat
  {
    (if t.l.Some? then 1 else 0) + (if t.l.Some? then Parents(t.l.value) else 0)
                                 + (if t.r.Some? then Parents(t.r.value) else 0)
  }

  /** `show` never yields a bracket piece. */
  predicate ShowsNoBracket<T>(t: Tree<T>, show: T -> string)
  {
    show(t.v) != "(" && show(t.v) != ")"
    && (t.l.Some? ==> ShowsNoBracket(t.l.value, show))
    && (t.r.Some? ==> ShowsNoBracket(t.r.value, show))
  }

  lemma {:induction false} WordsAppend(a: seq<string>, b: seq<string>)
    ensures Words(a + b) == Words(a) + Words(b)
  {
    if a != [] {
      assert (a + b)[1..] == a[1..] + b;
      WordsAppend(a[1..], b);
    } else {
      assert a + b == b;
    }
  }

  lemma {:induction false} CountAppend(a: seq<string>, b: seq<string>, p: string)
    ensures Count(a + b, p) == Count(a, p) + Count(b, p)
  {
    if a != [] {
      assert (a + b)[1..] == a[1..] + b;
      CountAppend(a[1..], b, p);
    } else {
      assert a + b == b;
    }
  }

  /** Apart from the brackets, the rendering lists every value once, in pre-order. */
  lemma {:induction false} RenderListsPreOrder<T>(t: Tree<T>, show: T -> string)
    requires ShowsNoBracket(t, show)
    ensures Words(Pieces(t, show)) == PreOrderShown(t, show)
  {
    var rest := if t.r.Some? then Pieces(t.r.value, show) else [];
    WordsAppend(NodePieces(t, show), rest);
    if t.l.Some? {
      RenderListsPreOrder(t.l.value, show);
      WordsAppend(["(", show(t.v)] + Pieces(t.l.value, show), [")"]);
      WordsAppend(["(", show(t.v)], Pieces(t.l.value, show));
      assert Words(["(", show(t.v)]) == [show(t.v)];
    }
    if t.r.Some? {
      RenderListsPreOrder(t.r.value, show);
    }
  }

  /** The pre-order values, each shown. */
  function PreOrderShown<T>(t: Tree<T>, show: T -> string): (s: seq<string>)
    ensures |s| == Size(t)
  {
    [show(t.v)] + (if t.l.Some? then PreOrderShown(t.l.value, show) else [])
                + (if t.r.Some? then PreOrderShown(t.r.value, show) else [])
  }

  /** The brackets balance: one `(` and one `)` per node that has a first child. */
  lemma {:induction false} RenderBalanced<T>(t: Tree<T>, show: T -> string)
    requires ShowsNoBracket(t, show)
    ensures Count(Pieces(t, show), "(") == Parents(t)
    ensures Count(Pieces(t, show), ")") == Parents(t)
  {
    var rest := if t.r.Some? then Pieces(t.r.value, show) else [];
    CountAppend(NodePieces(t, show), rest, "(");
    CountAppend(NodePieces(t, show), rest, ")");
    if t.l.Some? {
      RenderBalanced(t.l.value, show);
      CountAppend(["(", show(t.v)] + Pieces(t.l.value, show), [")"], "(");
      CountAppend(["(", show(t.v)], Pieces(t.l.value, show), "(");
      CountAppend(["(", show(t.v)] + Pieces(t.l.value, show), [")"], ")");
      CountAppend(["(", show(t.v)], Pieces(t.l.value, show), ")");
      assert Count(["(", show(t.v)], "(") == 1;
      assert Count(["(", show(t.v)], ")") == 0;
    }
    if t.r.Some? {
      RenderBalanced(t.r.value, show);
    }
  }
}
