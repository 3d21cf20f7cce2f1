/**
 * Rendering then parsing: `parse(str(t))` gives back `t` (nmt/structs/tree2.py:17-31
 * and 116-156, identical in nmt/structs/tree6.py) when every value of `t` is a
 * token word, i.e. a non-empty string with no whitespace and no bracket, and the
 * root has no next sibling (which `parse` never produces anyway).
 */
module RoundTrip {
  import opened Common
  import opened LcRs
  import opened Render
  import opened Parser

  /** A value that survives rendering and parsing unchanged. */
  predicate Word(w: string)
  {
    |w| > 0 && forall k :: 0 <= k < |w| ==> !IsDelimiter(w[k]) && !IsPyWhitespace(w[k])
  }

  /** Every value is a token `Tok(w)` with `w` a word, rendered by `show` as `w`. */
  predicate WordTree(t: Tree<Item>, show: Item -> string)
  {
    && t.v.Tok? && Word(t.v.s) && show(t.v) == t.v.s
    && (t.l.Some? ==> WordTree(t.l.value, show))
    && (t.r.Some? ==> WordTree(t.r.value, show))
  }

  /** A node with a first child renders as `( v <child chain> )`. */
  lemma NodeText(t: Tree<Item>, show: Item -> string)
    requires t.l.Some?
    ensures Join(NodePieces(t, show), " ")
            == "(" + (" " + (show(t.v) + (" " + (Str(t.l.value, show) + (" " + ")")))))
  {
    var w, p := show(t.v), Pieces(t.l.value, show);
    assert NodePieces(t, show) == (["(", w] + p) + [")"];
    JoinSnoc(["(", w] + p, ")", " ");
    JoinAppend(["(", w], p, " ");
    assert Join(["(", w], " ") == "(" + " " + w;
    var a := "(" + " " + w;
    var b := Str(t.l.value, show);
    assert Join(NodePieces(t, show), " ") == ((a + " ") + b) + " " + ")";
    Assoc(a + " ", b, " ");
    Assoc(a + " ", b + " ", ")");
    Assoc(a, " ", b + (" " + ")"));
    Assoc(b, " ", ")");
    Assoc("(", " ", w);
    Assoc("(" + " ", w, " " + (b + (" " + ")")));
    Assoc("(", " ", w + (" " + (b + (" " + ")"))));
  }

  /** A sibling chain renders as its first node, a space, and the rest of the chain. */
  lemma ChainText(t: Tree<Item>, show: Item -> string)
    requires t.r.Some?
    ensures Str(t, show) == Join(NodePieces(t, show), " ") + " " + Str(t.r.value, show)
  {
    JoinAppend(NodePieces(t, show), Pieces(t.r.value, show), " ");
  }

  /** Both ends of a rendered node are neither whitespace nor a space. */
  lemma {:induction false} NodeEnds(t: Tree<Item>, show: Item -> string)
    requires WordTree(t, show)
    ensures var s := Join(NodePieces(t, show), " ");
            |s| > 0 && !IsPyWhitespace(s[0]) && !IsPyWhitespace(s[|s| - 1])
    decreases t, 0
  {
    if t.l.Some? {
      NodeText(t, show);
    }
  }

  /** Both ends of a rendered chain are neither whitespace nor a space. */
  lemma {:induction false} ChainEnds(t: Tree<Item>, show: Item -> string)
    requires WordTree(t, show)
    ensures var s := Str(t, show);
            |s| > 0 && !IsPyWhitespace(s[0]) && !IsPyWhitespace(s[|s| - 1])
    decreases t, 1
  {
    NodeEnds(t, show);
    if t.r.Some? {
      var a, b := Join(NodePieces(t, show), " "), Str(t.r.value, show);
      ChainText(t, show);
      ChainEnds(t.r.value, show);
      var s := a + " " + b;
      assert s[0] == a[0];
      assert s[|s| - 1] == b[|b| - 1];
    } else {
      assert Pieces(t, show) == NodePieces(t, show);
    }
  }

  /** The scanner reads a rendered node back as that node's item, and stops right
      after it when a space, a `)` or the end of the text follows. */
  lemma {:induction false} ScanNode(t: Tree<Item>, show: Item -> string, u: string)
    requires WordTree(t, show)
    requires u == "" || u[0] == ' ' || u[0] == ')'
    ensures Scan(Join(NodePieces(t, show), " ") + u).0 == [NodeItem(t)] + Scan(u).0
    ensures Scan(Join(NodePieces(t, show), " ") + u).1
            == |Join(NodePieces(t, show), " ")| + Scan(u).1
    decreases t, 1
  {
    var w := show(t.v);
    if t.l.None? {
      ScanTokenThen(w, u);
    } else {
      var c := t.l.value;
      var sc := Str(c, show);
      NodeText(t, show);
      var r := " " + (w + (" " + (sc + (" " + (")" + u)))));
      ScanGroupBody(t, show, u);
      var n := |w| + |sc| + 4;
      assert r[n..] == u;
      ScanOpenThen(r);
      assert NodeItem(t) == Group([Tok(w)] + ChainItems(c));
      var x := " " + (w + (" " + (sc + (" " + ")"))));
      assert x + u == r by {
        Assoc(sc, " " + ")", u);
        Assoc([' '], ")", u);
        Assoc(w, " " + (sc + (" " + ")")), u);
        Assoc(" ", sc + (" " + ")"), u);
        Assoc(" ", w + (" " + (sc + (" " + ")"))), u);
      }
      Assoc("(", x, u);
    }
  }

  /** Inside the brackets of `( w <chain> )`: the word and the chain's items, up
      to and including the `)`. */
  lemma {:induction false} ScanGroupBody(t: Tree<Item>, show: Item -> string, u: string)
    requires WordTree(t, show) && t.l.Some?
    ensures var r := " " + (show(t.v) + (" " + (Str(t.l.value, show) + (" " + (")" + u)))));
            && Scan(r).0 == [Tok(show(t.v))] + ChainItems(t.l.value)
            && Scan(r).1 == |show(t.v)| + |Str(t.l.value, show)| + 4
    decreases t, 0
  {
    var w, c := show(t.v), t.l.value;
    var sc := Str(c, show);
    var u2 := " " + (")" + u);
    ScanCloseThen(u);
    ScanSpaceThen(")" + u);
    ScanChain(c, show, u2);
    assert ChainItems(c) + [] == ChainItems(c);
    var v := sc + u2;
    ScanSpaceThen(v);
    ScanTokenThen(w, " " + v);
    ScanSpaceThen(w + (" " + v));
  }

  /** The scanner reads a rendered sibling chain back as the chain's items. */
  lemma {:induction false} ScanChain(t: Tree<Item>, show: Item -> string, u: string)
    requires WordTree(t, show)
    requires u == "" || u[0] == ' ' || u[0] == ')'
    ensures Scan(Str(t, show) + u).0 == ChainItems(t) + Scan(u).0
    ensures Scan(Str(t, show) + u).1 == |Str(t, show)| + Scan(u).1
    decreases t, 2
  {
    var a := Join(NodePieces(t, show), " ");
    if t.r.None? {
      assert Pieces(t, show) == NodePieces(t, show);
      ScanNode(t, show, u);
    } else {
      var r := t.r.value;
      var b := Str(r, show);
      ChainText(t, show);
      ScanChain(r, show, u);
      ScanSpaceThen(b + u);
      ScanNode(t, show, " " + (b + u));
      Assoc([NodeItem(t)], ChainItems(r), Scan(u).0);
      Assoc(a + " ", b, u);
      Assoc(a, " ", b + u);
    }
  }

  /** `s.strip()` of a word-bounded text padded by one space on each side. */
  lemma StripPadded(k: string)
    requires |k| > 0 && !IsPyWhitespace(k[0]) && !IsPyWhitespace(k[|k| - 1])
    ensures Strip(" " + k + " ") == k
  {
    var m := " " + k + " ";
    assert m[0] == ' ' && m[1..] == k + " ";
    assert (k + " ")[0] == k[0];
    assert StripLeft(k + " ") == k + " ";
    assert StripLeft(m) == k + " ";
    assert (k + " ")[..|k|] == k;
    assert StripRight(k) == k;
  }

  /** `parse_clean` of the rendering of a single word: the word. */
  lemma CleanLeaf(t: Tree<Item>, show: Item -> string)
    requires WordTree(t, show) && t.r.None? && t.l.None?
    ensures Clean(Str(t, show), true) == Ok(show(t.v))
  {
    var s := Str(t, show);
    assert Pieces(t, show) == NodePieces(t, show);
    assert s == show(t.v);
    ChainEnds(t, show);
    assert DropNewline(s) == s;
    StripTrimmed(s);
  }

  /** `parse_clean` of a bracketed text: the stripped inside. */
  lemma CleanBracketed(m: string)
    ensures Clean("(" + m + ")", true) == Ok(Strip(m))
  {
    var s := "(" + m + ")";
    assert s[0] == '(' && s[|s| - 1] == ')';
    assert DropNewline(s) == s;
    assert Trimmed(s);
    StripTrimmed(s);
    assert s[1..|s| - 1] == m;
  }

  /** The rendering `( w <chain> )` as a bracketed, space-padded `w <chain>`. */
  lemma ParentText(t: Tree<Item>, show: Item -> string)
    requires t.r.None? && t.l.Some?
    ensures Str(t, show) == "(" + (" " + (show(t.v) + (" " + Str(t.l.value, show))) + " ") + ")"
  {
    var w, sc := show(t.v), Str(t.l.value, show);
    var k := w + (" " + sc);
    assert Pieces(t, show) == NodePieces(t, show);
    NodeText(t, show);
    Assoc(" ", sc, " " + ")");
    Assoc(w, " " + sc, " " + ")");
    Assoc(" ", k, " " + ")");
    Assoc(" " + k, " ", ")");
  }

  /** `parse_clean` of the rendering `( w <chain> )`: `w <chain>`, brackets and the
      spaces inside them removed. */
  lemma CleanParent(t: Tree<Item>, show: Item -> string)
    requires WordTree(t, show) && t.r.None? && t.l.Some?
    ensures Clean(Str(t, show), true) == Ok(show(t.v) + (" " + Str(t.l.value, show)))
  {
    var k := show(t.v) + (" " + Str(t.l.value, show));
    ParentText(t, show);
    ChainEnds(t.l.value, show);
    assert k[|k| - 1] == Str(t.l.value, show)[|Str(t.l.value, show)| - 1];
    StripPadded(k);
    CleanBracketed(" " + k + " ");
  }

  /** Parsing the rendering of a tree of words gives the tree back. */
  lemma ParseRender(t: Tree<Item>, show: Item -> string)
    requires WordTree(t, show) && t.r.None?
    ensures Parse(Str(t, show)) == Ok(t)
  {
    if t.l.None? {
      ParseRenderLeaf(t, show);
    } else {
      ParseRenderParent(t, show);
    }
  }

  /** `parse` of a text that `parse_clean` turns into `c`. */
  lemma ParseCleaned(s: string, c: string)
    requires Clean(s, true) == Ok(c)
    ensures Parse(s) == ConstructTree(Group(Scan(c).0), [])
  {
  }

  lemma ScanWord(w: string)
    requires Word(w)
    ensures Scan(w).0 == [Tok(w)]
  {
    ScanTokenThen(w, "");
    assert w + "" == w;
  }

  lemma ConstructSingle(x: Item)
    requires x.Tok?
    ensures ConstructTree(Group([x]), []) == Ok(Tree(x, None, None))
  {
  }

  lemma ParseRenderLeaf(t: Tree<Item>, show: Item -> string)
    requires WordTree(t, show) && t.r.None? && t.l.None?
    ensures Parse(Str(t, show)) == Ok(t)
  {
    var w := show(t.v);
    CleanLeaf(t, show);
    ParseCleaned(Str(t, show), w);
    ScanWord(w);
    ConstructSingle(Tok(w));
  }

  /** The scan of `w <chain>`: the word, then the chain's items. */
  lemma ScanWordChain(w: string, c: Tree<Item>, show: Item -> string)
    requires Word(w) && WordTree(c, show)
    ensures Scan(w + (" " + Str(c, show))).0 == [Tok(w)] + ChainItems(c)
  {
    var sc := Str(c, show);
    ScanChain(c, show, "");
    assert sc + "" == sc;
    assert ChainItems(c) + Scan("").0 == ChainItems(c);
    ScanSpaceThen(sc);
    ChainEnds(c, show);
    ScanTokenThen(w, " " + sc);
  }

  lemma ParseRenderParent(t: Tree<Item>, show: Item -> string)
    requires WordTree(t, show) && t.r.None? && t.l.Some?
    ensures Parse(Str(t, show)) == Ok(t)
  {
    var w := show(t.v);
    var c := t.l.value;
    var k := w + (" " + Str(c, show));
    CleanParent(t, show);
    ParseCleaned(Str(t, show), k);
    ScanWordChain(w, c, show);
    assert Group(Scan(k).0) == NodeItem(t);
    ConstructTreeInverse(t);
    assert LaterItems(t) == [];
  }
}
