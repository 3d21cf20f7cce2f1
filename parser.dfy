/**
 * The bracket parser of nmt/structs/tree6.py:116-159 (identical in
 * nmt/structs/tree2.py:114-157): `parse_clean` trims the text,
 * `parse_lc_rs_h` splits it on `' '`, `'('` and `')'` into tokens and nested
 * groups, and `construct_tree` turns the groups into a first-child /
 * next-sibling tree. Unbalanced brackets are tolerated: a `)` ends the
 * current group (at top level: the whole scan), a group still open at the
 * end of the text is closed silently.
 */
module Parser {
  import opened Common
  import opened LcRs

  /** An entry of the lists `parse_lc_rs_h` builds: a token, or a nested list. */
  datatype Item = Tok(s: string) | Group(items: seq<Item>)

  // ---------------------------------------------------------------------------
  // parse_clean

  /** The characters Python's `str.strip()` removes. */
  predicate IsPyWhitespace(c: char)
  {
    || c == ' '
    || ('\t' <= c <= '\r')
    || ('\U{1C}' <= c <= '\U{1F}')
    || c == '\U{85}' || c == '\U{A0}' || c == '\U{1680}'
    || ('\U{2000}' <= c <= '\U{200A}')
    || c == '\U{2028}' || c == '\U{2029}' || c == '\U{202F}' || c == '\U{205F}' || c == '\U{3000}'
  }

  /** `s.lstrip()`. */
  function StripLeft(s: string): (r: string)
    ensures |r| <= |s|
  {
    if s != "" && IsPyWhitespace(s[0]) then StripLeft(s[1..]) else s
  }

  /** `s.lstrip()` is the longest suffix of `s` not starting with whitespace. */
  lemma {:induction false} StripLeftSpec(s: string)
    ensures StripLeft(s) == s[|s| - |StripLeft(s)|..]
    ensures forall i :: 0 <= i < |s| - |StripLeft(s)| ==> IsPyWhitespace(s[i])
    ensures StripLeft(s) == "" || !IsPyWhitespace(StripLeft(s)[0])
  {
    if s != "" && IsPyWhitespace(s[0]) {
      StripLeftSpec(s[1..]);
      forall i | 0 < i < |s| - |StripLeft(s)| ensures IsPyWhitespace(s[i]) {
        assert s[i] == s[1..][i - 1];
      }
    }
  }

  /** `s.rstrip()`. */
  function StripRight(s: string): (r: string)
    ensures |r| <= |s|
  {
    if s != "" && IsPyWhitespace(s[|s| - 1]) then StripRight(s[..|s| - 1]) else s
  }

  /** `s.rstrip()` is the longest prefix of `s` not ending with whitespace. */
  lemma {:induction false} StripRightSpec(s: string)
    ensures StripRight(s) == s[..|StripRight(s)|]
    ensures forall i :: |StripRight(s)| <= i < |s| ==> IsPyWhitespace(s[i])
    ensures StripRight(s) == "" || !IsPyWhitespace(StripRight(s)[|StripRight(s)| - 1])
  {
    if s != "" && IsPyWhitespace(s[|s| - 1]) {
      var p := s[..|s| - 1];
      StripRightSpec(p);
      assert p[..|StripRight(p)|] == s[..|StripRight(p)|];
      forall i | |StripRight(s)| <= i < |s| - 1 ensures IsPyWhitespace(s[i]) {
        assert s[i] == p[i];
      }
    }
  }

  /** `s.strip()`. */
  function Strip(s: string): string
  {
    StripRight(StripLeft(s))
  }

  /** Neither end of `s` is whitespace. */
  predicate Trimmed(s: string)
  {
    s == "" || (!IsPyWhitespace(s[0]) && !IsPyWhitespace(s[|s| - 1]))
  }

  /** `s.strip()` keeps a middle part of `s`, from `|s| - |s.lstrip()|` on, and
      removes only whitespace around it. */
  lemma StripSpec(s: string)
    ensures |s| - |StripLeft(s)| + |Strip(s)| <= |s|
    ensures Strip(s) == s[|s| - |StripLeft(s)|..|s| - |StripLeft(s)| + |Strip(s)|]
    ensures forall k :: 0 <= k < |s| - |StripLeft(s)| ==> IsPyWhitespace(s[k])
    ensures forall k :: |s| - |StripLeft(s)| + |Strip(s)| <= k < |s| ==> IsPyWhitespace(s[k])
  {
    StripLeftSpec(s);
    StripMiddle(s);
    StripTail(s);
  }

  lemma StripMiddle(s: string)
    ensures |s| - |StripLeft(s)| + |Strip(s)| <= |s|
    ensures Strip(s) == s[|s| - |StripLeft(s)|..|s| - |StripLeft(s)| + |Strip(s)|]
  {
    var m := StripLeft(s);
    var r := StripRight(m);
    StripLeftSpec(s);
    StripRightSpec(m);
    SliceOfSuffix(s, m, |s| - |m|, |r|);
  }

  lemma StripTail(s: string)
    ensures forall k :: |s| - |StripLeft(s)| + |Strip(s)| <= k < |s| ==> IsPyWhitespace(s[k])
  {
    var m := StripLeft(s);
    var r := StripRight(m);
    var i := |s| - |m|;
    StripLeftSpec(s);
    StripRightSpec(m);
    forall k | i + |r| <= k < |s| ensures IsPyWhitespace(s[k]) {
      assert s[k] == m[k - i];
    }
  }

  /** `s.strip()` is no longer than `s` and leaves neither end as whitespace. */
  lemma StripShape(s: string)
    ensures Trimmed(Strip(s)) && |Strip(s)| <= |s|
  {
    var m := StripLeft(s);
    var r := StripRight(m);
    StripLeftSpec(s);
    StripRightSpec(m);
    if r != "" {
      assert r[0] == m[0];
    }
  }

  lemma SliceOfSuffix(s: string, m: string, i: nat, n: nat)
    requires i + |m| == |s| && m == s[i..] && n <= |m|
    ensures m[..n] == s[i..i + n]
  {
  }

  /** A string whose ends are not whitespace is its own strip. */
  lemma StripTrimmed(s: string)
    requires Trimmed(s)
    ensures Strip(s) == s
  {
  }

  /** `fun_str` with one trailing newline removed. */
  function DropNewline(s: string): string
  {
    if s != "" && s[|s| - 1] == '\n' then s[..|s| - 1] else s
  }

  /** `parse_clean(fun_str, remove_parens)`: an `IndexError` on empty text (before
      or after stripping), otherwise the stripped text, with a first `(` and a last
      `)` removed and the rest stripped again when `remove_parens` is set. */
  function Clean(s: string, removeParens: bool): (r: Result<string, PyError>)
    ensures r.Err? <==> Strip(DropNewline(s)) == ""
    ensures r.Err? ==> r.error == IndexError
    ensures r.Ok? ==> Trimmed(r.value) && |r.value| <= |s|
  {
    if |s| == 0 then Err(IndexError)
    else
      var s1 := DropNewline(s);
      var s2 := Strip(s1);
      StripShape(s1);
      if |s2| == 0 then Err(IndexError)
      else if s2[0] == '(' && s2[|s2| - 1] == ')' && removeParens then
        StripShape(s2[1..|s2| - 1]);
        Ok(Strip(s2[1..|s2| - 1]))
      else Ok(s2)
  }

  /** The two outer brackets go even when they do not match each other. */
  lemma CleanStripsUnmatchedParens()
    ensures Clean("(a) (b)", true) == Ok("a) (b")
  {
    assert DropNewline("(a) (b)") == "(a) (b)";
    StripTrimmed("(a) (b)");
    var m := "(a) (b)"[1..6];
    assert m == "a) (b";
    StripTrimmed(m);
  }

  /** Empty and all-blank text raise `IndexError`. */
  lemma CleanRejectsBlank()
    ensures Clean("", true) == Err(IndexError)
    ensures Clean("\n", true) == Err(IndexError)
    ensures Clean(" \t", true) == Err(IndexError)
  {
    assert DropNewline("\n") == "";
    assert DropNewline(" \t") == " \t";
    assert " \t"[1..] == "\t" && "\t"[1..] == "";
    assert StripLeft("\t") == "";
    assert StripLeft(" \t") == "";
  }

  // ---------------------------------------------------------------------------
  // parse_lc_rs_h

  /** The characters `parse_lc_rs_h` splits on. A tab is not one of them. */
  predicate IsDelimiter(c: char)
  {
    c == ' ' || c == '(' || c == ')'
  }

  /** The length of the token at the start of `s`. */
  function TokenLen(s: string): (n: nat)
    ensures n <= |s|
  {
    if s == "" || IsDelimiter(s[0]) then 0 else 1 + TokenLen(s[1..])
  }

  /** The token runs up to the first delimiter: none before it, one right after it. */
  lemma {:induction false} TokenLenSpec(s: string)
    ensures forall i :: 0 <= i < TokenLen(s) ==> !IsDelimiter(s[i])
    ensures TokenLen(s) < |s| ==> IsDelimiter(s[TokenLen(s)])
  {
    if s != "" && !IsDelimiter(s[0]) {
      TokenLenSpec(s[1..]);
    }
  }

  /** A token is non-empty and holds no delimiter; a group holds only such items. */
  predicate ItemOk(i: Item)
  {
    match i
    case Tok(s) => |s| > 0 && forall k :: 0 <= k < |s| ==> !IsDelimiter(s[k])
    case Group(xs) => forall j :: 0 <= j < |xs| ==> ItemOk(xs[j])
  }

  /** What `parse_lc_rs_h(s)` returns: the items of the current group and the
      number of characters consumed. A `)` ends the group and is consumed; a `(`
      opens a nested group, scanned from the next character, after which the scan
      resumes where the nested one stopped. */
  function Scan(s: string): (r: (seq<Item>, nat))
    ensures r.1 <= |s|
    decreases |s|, 1
  {
    if s == "" then ([], 0)
    else if s[0] == ')' then ([], 1)
    else if s[0] == ' ' then ScanSpace(s)
    else if s[0] == '(' then ScanGroup(s)
    else ScanTok(s)
  }

  /** A space is skipped. */
  function ScanSpace(s: string): (r: (seq<Item>, nat))
    requires s != ""
    ensures r.1 <= |s|
    decreases |s|, 0
  {
    var rest := Scan(s[1..]);
    (rest.0, 1 + rest.1)
  }

  /** A `(` opens a nested group; the scan goes on where the nested one stopped. */
  function ScanGroup(s: string): (r: (seq<Item>, nat))
    requires s != ""
    ensures r.1 <= |s|
    decreases |s|, 0
  {
    var inner := Scan(s[1..]);
    var rest := Scan(s[1 + inner.1..]);
    ([Group(inner.0)] + rest.0, 1 + inner.1 + rest.1)
  }

  /** A token runs up to the next delimiter. */
  function ScanTok(s: string): (r: (seq<Item>, nat))
    requires s != "" && !IsDelimiter(s[0])
    ensures r.1 <= |s|
    decreases |s|, 0
  {
    var k := TokenLen(s);
    var rest := Scan(s[k..]);
    ([Tok(s[..k])] + rest.0, k + rest.1)
  }

  lemma ScanToken(s: string, start: nat, j: nat)
    requires start < j <= |s|
    requires TokenLen(s[start..]) >= j - start
    requires j == |s| || IsDelimiter(s[j])
    ensures Scan(s[start..]) == ([Tok(s[start..j])] + Scan(s[j..]).0, (j - start) + Scan(s[j..]).1)
  {
    var u := s[start..];
    TokenLenSpec(u);
    assert TokenLen(u) == j - start by {
      if j < |s| { assert u[j - start] == s[j]; }
    }
    assert u[j - start..] == s[j..];
    assert u[..j - start] == s[start..j];
  }

  /** One more non-delimiter character extends the token under way. */
  lemma {:induction false} TokenExtend(u: string, k: nat)
    requires k < |u| && TokenLen(u) >= k && !IsDelimiter(u[k])
    ensures TokenLen(u) >= k + 1
  {
    if k > 0 {
      TokenExtend(u[1..], k - 1);
    }
  }

  lemma ScanOpen(s: string, p: nat)
    requires p < |s| && s[p] == '('
    ensures var inner := Scan(s[p + 1..]);
            Scan(s[p..]) == ([Group(inner.0)] + Scan(s[p + 1 + inner.1..]).0,
                             1 + inner.1 + Scan(s[p + 1 + inner.1..]).1)
  {
    var u := s[p..];
    var inner := Scan(u[1..]);
    var rest := Scan(u[1 + inner.1..]);
    assert Scan(u) == ([Group(inner.0)] + rest.0, 1 + inner.1 + rest.1);
    assert u[1..] == s[p + 1..];
    assert u[1 + inner.1..] == s[p + 1 + inner.1..];
  }

  /** The loop invariant of `parse_lc_rs_h`: scanning `s` gives the items
      collected so far followed by what scanning from `start` gives. */
  ghost predicate ScannedUpTo(s: string, children: seq<Item>, start: nat)
    requires start <= |s|
  {
    && Scan(s).0 == children + Scan(s[start..]).0
    && Scan(s).1 == start + Scan(s[start..]).1
  }

  lemma ScanStart(s: string)
    ensures ScannedUpTo(s, [], 0)
  {
    assert s[0..] == s;
    assert [] + Scan(s).0 == Scan(s).0;
  }

  lemma TokenStep(s: string, children: seq<Item>, start: nat, j: nat)
    requires start < j <= |s| && ScannedUpTo(s, children, start)
    requires TokenLen(s[start..]) >= j - start
    requires j == |s| || IsDelimiter(s[j])
    ensures ScannedUpTo(s, children + [Tok(s[start..j])], j)
  {
    ScanToken(s, start, j);
    Assoc(children, [Tok(s[start..j])], Scan(s[j..]).0);
  }

  /** A character that is not a delimiter continues the token begun at `start`. */
  lemma TokenCharStep(s: string, start: nat, p: nat)
    requires start <= p < |s| && TokenLen(s[start..]) >= p - start && !IsDelimiter(s[p])
    ensures TokenLen(s[start..]) >= p + 1 - start
  {
    assert s[start..][p - start] == s[p];
    TokenExtend(s[start..], p - start);
  }

  lemma SpaceStep(s: string, children: seq<Item>, p: nat)
    requires p < |s| && s[p] == ' ' && ScannedUpTo(s, children, p)
    ensures ScannedUpTo(s, children, p + 1)
  {
    assert s[p..][1..] == s[p + 1..];
    assert Scan(s[p..]) == ScanSpace(s[p..]);
  }

  lemma OpenStep(s: string, children: seq<Item>, q: nat, child: seq<Item>, end: nat)
    requires 0 < q <= |s| && s[q - 1] == '(' && ScannedUpTo(s, children, q - 1)
    requires child == Scan(s[q..]).0 && end == Scan(s[q..]).1
    ensures q + end <= |s|
    ensures ScannedUpTo(s, children + [Group(child)], q + end)
  {
    OpenStepItems(s, children, q - 1, child, end);
    OpenStepCount(s, q - 1, end);
  }

  lemma OpenStepItems(s: string, children: seq<Item>, p: nat, child: seq<Item>, end: nat)
    requires p < |s| && s[p] == '('
    requires Scan(s).0 == children + Scan(s[p..]).0
    requires child == Scan(s[p + 1..]).0 && end == Scan(s[p + 1..]).1
    ensures p + 1 + end <= |s|
    ensures Scan(s).0 == (children + [Group(child)]) + Scan(s[p + 1 + end..]).0
  {
    ScanOpen(s, p);
    assert Scan(s[p..]).0 == [Group(child)] + Scan(s[p + 1 + end..]).0;
    Assoc(children, [Group(child)], Scan(s[p + 1 + end..]).0);
  }

  lemma OpenStepCount(s: string, p: nat, end: nat)
    requires p < |s| && s[p] == '('
    requires Scan(s).1 == p + Scan(s[p..]).1
    requires end == Scan(s[p + 1..]).1
    ensures p + 1 + end <= |s|
    ensures Scan(s).1 == (p + 1 + end) + Scan(s[p + 1 + end..]).1
  {
    ScanOpen(s, p);
    assert Scan(s[p..]).1 == 1 + end + Scan(s[p + 1 + end..]).1;
  }

  lemma CloseStep(s: string, children: seq<Item>, p: nat)
    requires p < |s| && s[p] == ')' && ScannedUpTo(s, children, p)
    ensures Scan(s).0 == children && Scan(s).1 == p + 1
  {
    assert children + [] == children;
  }

  lemma EndStep(s: string, children: seq<Item>)
    requires ScannedUpTo(s, children, |s|)
    ensures Scan(s).0 == children && Scan(s).1 == |s|
  {
    assert s[|s|..] == "";
    assert children + [] == children;
  }

  /** The loop of `parse_lc_rs_h` as a function of its state: the items
      collected so far, the start of the token under way and the position. */
  ghost function LoopFrom(s: string, children: seq<Item>, start: nat, pos: nat): (r: (seq<Item>, nat))
    requires start <= pos <= |s|
    decreases |s| - pos
  {
    if pos == |s| then (WithToken(s, children, start, pos), pos)
    else
      var c, p := s[pos], pos + 1;
      if IsDelimiter(c) then
        var kids := WithToken(s, children, start, pos);
        if c == '(' then
          var inner := Scan(s[p..]);
          LoopFrom(s, kids + [Group(inner.0)], p + inner.1, p + inner.1)
        else if c == ')' then (kids, p)
        else LoopFrom(s, kids, p, p)
      else LoopFrom(s, children, start, p)
  }

  /** Where the loop stands relative to the scan: `children` followed by what
      scanning from `start` gives is the whole scan, and `pos` is inside the
      token that begins at `start`. */
  ghost predicate LoopState(s: string, children: seq<Item>, start: nat, pos: nat)
  {
    && start <= pos <= |s|
    && TokenLen(s[start..]) >= pos - start
    && ScannedUpTo(s, children, start)
  }

  /** The token under way, if any, added to `children` when a delimiter or the
      end of the text is reached at `p`. */
  ghost function WithToken(s: string, children: seq<Item>, start: nat, p: nat): seq<Item>
    requires start <= p <= |s|
  {
    if start != p then children + [Tok(s[start..p])] else children
  }

  lemma WithTokenState(s: string, children: seq<Item>, start: nat, p: nat)
    requires LoopState(s, children, start, p)
    requires p == |s| || IsDelimiter(s[p])
    ensures ScannedUpTo(s, WithToken(s, children, start, p), p)
  {
    if start != p {
      TokenStep(s, children, start, p);
    }
  }

  /** From any state the loop can reach, it finishes with what `Scan` gives. */
  lemma {:induction false} LoopFromScanned(s: string, children: seq<Item>, start: nat, pos: nat)
    requires LoopState(s, children, start, pos)
    ensures LoopFrom(s, children, start, pos).0 == Scan(s).0
    ensures LoopFrom(s, children, start, pos).1 == Scan(s).1
    decreases |s| - pos, 1
  {
    if pos == |s| {
      LoopEndScanned(s, children, start);
    } else if IsDelimiter(s[pos]) {
      LoopDelimiterScanned(s, children, start, pos);
    } else {
      LoopCharScanned(s, children, start, pos);
    }
  }

  lemma LoopEndScanned(s: string, children: seq<Item>, start: nat)
    requires LoopState(s, children, start, |s|)
    ensures LoopFrom(s, children, start, |s|).0 == Scan(s).0
    ensures LoopFrom(s, children, start, |s|).1 == Scan(s).1
  {
    WithTokenState(s, children, start, |s|);
    EndStep(s, WithToken(s, children, start, |s|));
  }

  lemma {:induction false} LoopCharScanned(s: string, children: seq<Item>, start: nat, pos: nat)
    requires LoopState(s, children, start, pos) && pos < |s| && !IsDelimiter(s[pos])
    ensures LoopFrom(s, children, start, pos).0 == Scan(s).0
    ensures LoopFrom(s, children, start, pos).1 == Scan(s).1
    decreases |s| - pos, 0
  {
    TokenCharStep(s, start, pos);
    LoopFromScanned(s, children, start, pos + 1);
  }

  lemma {:induction false} LoopDelimiterScanned(s: string, children: seq<Item>, start: nat, pos: nat)
    requires LoopState(s, children, start, pos) && pos < |s| && IsDelimiter(s[pos])
    ensures LoopFrom(s, children, start, pos).0 == Scan(s).0
    ensures LoopFrom(s, children, start, pos).1 == Scan(s).1
    decreases |s| - pos, 0
  {
    var kids := WithToken(s, children, start, pos);
    WithTokenState(s, children, start, pos);
    var p := pos + 1;
    if s[pos] == '(' {
      var inner := Scan(s[p..]);
      OpenStep(s, kids, p, inner.0, inner.1);
      assert s[p + inner.1..][0..] == s[p + inner.1..];
      LoopFromScanned(s, kids + [Group(inner.0)], p + inner.1, p + inner.1);
    } else if s[pos] == ')' {
      CloseStep(s, kids, pos);
    } else {
      SpaceStep(s, kids, pos);
      assert s[p..][0..] == s[p..];
      LoopFromScanned(s, kids, p, p);
    }
  }

  lemma LoopFromScan(s: string)
    ensures LoopFrom(s, [], 0, 0).0 == Scan(s).0 && LoopFrom(s, [], 0, 0).1 == Scan(s).1
  {
    ScanStart(s);
    LoopFromScanned(s, [], 0, 0);
  }

  /** `parse_lc_rs_h(fun_str)`: the scanning loop over `start`/`pos`, appending to
      `children`, with a recursive call for each `(`. */
  method ParseLcRsH(s: string) returns (children: seq<Item>, pos: nat)
    ensures children == Scan(s).0 && pos == Scan(s).1
    decreases |s|
  {
    children := [];
    var start := 0;
    pos := 0;
    LoopFromScan(s);
    while pos < |s|
      invariant 0 <= start <= pos <= |s|
      invariant LoopFrom(s, children, start, pos).0 == Scan(s).0
      invariant LoopFrom(s, children, start, pos).1 == Scan(s).1
      decreases |s| - pos
    {
      var c := s[pos];
      pos := pos + 1;
      if c == ' ' || c == '(' || c == ')' {
        if start != pos - 1 {
          children := children + [Tok(s[start..pos - 1])];
        }
        if c == '(' {
          var child, end := ParseLcRsH(s[pos..]);
          children := children + [Group(child)];
          pos := pos + end;
          start := pos;
        } else if c == ')' {
          return;
        } else {
          start := pos;
        }
      }
    }
    if start != pos {
      children := children + [Tok(s[start..pos])];
    }
  }

  // ---------------------------------------------------------------------------
  // What the scan promises

  /** The scan stops early only just past a `)`; with no `)` in the text it reads
      everything, closing any group still open. */
  lemma {:induction false} ScanStopsAtClose(s: string)
    ensures Scan(s).1 < |s| ==> Scan(s).1 > 0 && s[Scan(s).1 - 1] == ')'
    decreases |s|
  {
    if s != "" && s[0] != ')' {
      if s[0] == ' ' {
        ScanStopsAtClose(s[1..]);
      } else if s[0] == '(' {
        var e := Scan(s[1..]).1;
        ScanStopsAtClose(s[1 + e..]);
        var n := Scan(s[1 + e..]).1;
        if n < |s| - 1 - e {
          assert s[1 + e..][n - 1] == s[1 + e + n - 1];
        }
      } else {
        var k := TokenLen(s);
        TokenLenSpec(s);
        ScanStopsAtClose(s[k..]);
        var n := Scan(s[k..]).1;
        if n < |s| - k {
          assert s[k..][n - 1] == s[k + n - 1];
        }
      }
    }
  }

  /** Every token the scan produces is non-empty and free of delimiters, at any depth:
      runs of delimiters give no empty tokens. */
  lemma {:induction false} ScanItemsOk(s: string)
    ensures forall j :: 0 <= j < |Scan(s).0| ==> ItemOk(Scan(s).0[j])
    decreases |s|
  {
    if s != "" && s[0] != ')' {
      if s[0] == ' ' {
        ScanItemsOk(s[1..]);
        assert Scan(s) == ScanSpace(s);
      } else if s[0] == '(' {
        var e := Scan(s[1..]).1;
        ScanItemsOk(s[1..]);
        ScanItemsOk(s[1 + e..]);
        var g, rest := Group(Scan(s[1..]).0), Scan(s[1 + e..]).0;
        assert ItemOk(g);
        assert Scan(s).0 == [g] + rest by {
          assert Scan(s) == ScanGroup(s);
        }
        forall j | 0 <= j < |Scan(s).0| ensures ItemOk(Scan(s).0[j]) {
          if j > 0 { assert Scan(s).0[j] == rest[j - 1]; }
        }
      } else {
        var k := TokenLen(s);
        TokenLenSpec(s);
        ScanItemsOk(s[k..]);
        var tok, rest := Tok(s[..k]), Scan(s[k..]).0;
        assert ItemOk(tok);
        assert Scan(s).0 == [tok] + rest by {
          assert Scan(s) == ScanTok(s);
        }
        forall j | 0 <= j < |Scan(s).0| ensures ItemOk(Scan(s).0[j]) {
          if j > 0 { assert Scan(s).0[j] == rest[j - 1]; }
        }
      }
    }
  }

  lemma {:induction false} TokenLenPrefix(a: string, b: string)
    requires TokenLen(a) < |a|
    ensures TokenLen(a + b) == TokenLen(a)
  {
    if !IsDelimiter(a[0]) {
      assert (a + b)[1..] == a[1..] + b;
      TokenLenPrefix(a[1..], b);
    }
  }

  lemma AppendDrop(a: string, b: string, k: nat)
    requires k <= |a|
    ensures (a + b)[k..] == a[k..] + b
  {
  }

  /** A non-empty string without delimiters. */
  predicate IsToken(w: string)
  {
    |w| > 0 && forall k :: 0 <= k < |w| ==> !IsDelimiter(w[k])
  }

  lemma {:induction false} TokenLenOf(w: string, rest: string)
    requires forall k :: 0 <= k < |w| ==> !IsDelimiter(w[k])
    requires rest == "" || IsDelimiter(rest[0])
    ensures TokenLen(w + rest) == |w|
  {
    if w == "" {
      assert w + rest == rest;
    } else {
      assert (w + rest)[1..] == w[1..] + rest;
      TokenLenOf(w[1..], rest);
    }
  }

  /** Scanning a token followed by a delimiter or by nothing. */
  lemma ScanTokenThen(w: string, rest: string)
    requires IsToken(w)
    requires rest == "" || IsDelimiter(rest[0])
    ensures Scan(w + rest).0 == [Tok(w)] + Scan(rest).0
    ensures Scan(w + rest).1 == |w| + Scan(rest).1
  {
    var s := w + rest;
    TokenLenOf(w, rest);
    assert s[0] == w[0];
    assert s[..|w|] == w;
    assert s[|w|..] == rest;
    assert Scan(s) == ScanTok(s);
  }

  /** Scanning a space. */
  lemma ScanSpaceThen(rest: string)
    ensures Scan(" " + rest).0 == Scan(rest).0
    ensures Scan(" " + rest).1 == 1 + Scan(rest).1
  {
    assert (" " + rest)[1..] == rest;
    assert Scan(" " + rest) == ScanSpace(" " + rest);
  }

  /** Scanning a `)`: the group ends. */
  lemma ScanCloseThen(rest: string)
    ensures Scan(")" + rest).0 == [] && Scan(")" + rest).1 == 1
  {
    assert (")" + rest)[0] == ')';
  }

  /** Scanning a `(`: a nested group, then the rest. */
  lemma ScanOpenThen(rest: string)
    ensures Scan("(" + rest).0 == [Group(Scan(rest).0)] + Scan(rest[Scan(rest).1..]).0
    ensures Scan("(" + rest).1 == 1 + Scan(rest).1 + Scan(rest[Scan(rest).1..]).1
  {
    var s := "(" + rest;
    assert s[1..] == rest;
    var e := Scan(rest).1;
    assert s[1 + e..] == rest[e..];
    assert Scan(s) == ScanGroup(s);
  }

  /** Once the scan has stopped at a `)`, the text after it plays no part. */
  lemma {:induction false} ScanIgnoresRest(a: string, b: string)
    requires Scan(a).1 < |a|
    ensures Scan(a + b) == Scan(a)
    decreases |a|
  {
    var ab := a + b;
    assert ab[0] == a[0];
    if a[0] == ')' {
    } else if a[0] == ' ' {
      AppendDrop(a, b, 1);
      ScanIgnoresRest(a[1..], b);
      assert Scan(ab) == ScanSpace(ab);
    } else if a[0] == '(' {
      var e := Scan(a[1..]).1;
      var n := Scan(a[1 + e..]).1;
      assert 1 + e + n < |a|;
      AppendDrop(a, b, 1);
      ScanIgnoresRest(a[1..], b);
      assert 1 + e <= |a|;
      AppendDrop(a, b, 1 + e);
      ScanIgnoresRest(a[1 + e..], b);
      assert Scan(ab) == ScanGroup(ab);
    } else {
      var k := TokenLen(a);
      TokenLenPrefix(a, b);
      AppendDrop(a, b, k);
      assert ab[..k] == a[..k];
      ScanIgnoresRest(a[k..], b);
      assert Scan(ab) == ScanTok(ab);
    }
  }

  // ---------------------------------------------------------------------------
  // construct_tree and parse

  /** A size for items, for termination. */
  function Weight(i: Item): nat
  {
    match i
    case Tok(_) => 1
    case Group(xs) => 1 + WeightAll(xs)
  }

  function WeightAll(xs: seq<Item>): nat
  {
    if xs == [] then 0 else Weight(xs[0]) + WeightAll(xs[1..])
  }

  lemma WeightAllTail(xs: seq<Item>)
    requires |xs| > 1
    ensures Weight(xs[1]) + WeightAll(xs[2..]) == WeightAll(xs[1..])
    ensures WeightAll(xs[1..]) < WeightAll(xs)
  {
    assert xs[1..][1..] == xs[2..];
  }

  /** A tree result, or `None` for an absent child, with the error passed on. */
  function Lift(r: Result<Tree<Item>, PyError>): Result<Option<Tree<Item>>, PyError>
  {
    match r
    case Ok(t) => Ok(Some(t))
    case Err(e) => Err(e)
  }

  /** `construct_tree(children, siblings)`: a token becomes a node with no first
      child; a list gives its first entry as the value, its second entry (with the
      remaining ones as that entry's next siblings) as the first child; the first
      sibling (with the remaining ones as its own siblings) becomes the next
      sibling. An empty list has no first entry: `IndexError`. */
  function ConstructTree(item: Item, siblings: seq<Item>): (r: Result<Tree<Item>, PyError>)
    ensures r.Err? ==> r.error == IndexError
    ensures item.Group? && |item.items| == 0 ==> r.Err?
    ensures r.Ok? ==> r.value.v == (if item.Tok? then item else item.items[0])
    ensures r.Ok? ==> (r.value.l.Some? <==> item.Group? && |item.items| > 1)
    ensures r.Ok? ==> (r.value.r.Some? <==> |siblings| > 0)
    decreases Weight(item) + WeightAll(siblings)
  {
    if item.Group? && |item.items| == 0 then Err(IndexError)
    else
      var v := if item.Tok? then item else item.items[0];
      var left :=
        if item.Group? && |item.items| > 1 then
          WeightAllTail(item.items);
          Lift(ConstructTree(item.items[1], item.items[2..]))
        else Ok(None);
      var right :=
        if |siblings| > 0 then Lift(ConstructTree(siblings[0], siblings[1..])) else Ok(None);
      if left.Err? then Err(left.error)
      else if right.Err? then Err(right.error)
      else Ok(Tree(v, left.value, right.value))
  }

  /** No list that `construct_tree` turns into a node is empty. The first entry
      of a list is a value, never turned into a node, and may be anything. */
  predicate Buildable(i: Item)
  {
    match i
    case Tok(_) => true
    case Group(xs) => |xs| > 0 && forall j :: 1 <= j < |xs| ==> Buildable(xs[j])
  }

  /** `construct_tree` succeeds exactly when no list it builds a node from is empty. */
  lemma {:induction false} ConstructTreeOkIff(item: Item, siblings: seq<Item>)
    ensures ConstructTree(item, siblings).Ok? <==>
            Buildable(item) && forall j :: 0 <= j < |siblings| ==> Buildable(siblings[j])
    decreases Weight(item) + WeightAll(siblings)
  {
    if item.Group? && |item.items| > 1 {
      var xs := item.items;
      WeightAllTail(xs);
      ConstructTreeOkIff(xs[1], xs[2..]);
      assert (forall j :: 1 <= j < |xs| ==> Buildable(xs[j])) <==>
             Buildable(xs[1]) && forall j :: 0 <= j < |xs[2..]| ==> Buildable(xs[2..][j]) by {
        forall j | 0 <= j < |xs[2..]| ensures xs[2..][j] == xs[j + 2] { }
        if Buildable(xs[1]) && forall j :: 0 <= j < |xs[2..]| ==> Buildable(xs[2..][j]) {
          forall j | 1 <= j < |xs| ensures Buildable(xs[j]) {
            if j > 1 { assert xs[j] == xs[2..][j - 2]; }
          }
        }
      }
    }
    if |siblings| > 0 {
      ConstructTreeOkIff(siblings[0], siblings[1..]);
      assert (forall j :: 0 <= j < |siblings| ==> Buildable(siblings[j])) <==>
             Buildable(siblings[0]) && forall j :: 0 <= j < |siblings[1..]| ==> Buildable(siblings[1..][j]) by {
        if Buildable(siblings[0]) && forall j :: 0 <= j < |siblings[1..]| ==> Buildable(siblings[1..][j]) {
          forall j | 0 <= j < |siblings| ensures Buildable(siblings[j]) {
            if j > 0 { assert siblings[j] == siblings[1..][j - 1]; }
          }
        }
      }
    }
  }

  /** The item `construct_tree` reads a node and its descendants from. */
  function NodeItem(t: Tree<Item>): Item
    decreases t, 0
  {
    if t.l.None? && t.v.Tok? then t.v
    else Group([t.v] + (if t.l.Some? then ChainItems(t.l.value) else []))
  }

  /** The items of a node and its later siblings, in chain order. */
  function ChainItems(t: Tree<Item>): (r: seq<Item>)
    ensures |r| > 0 && r[0] == NodeItem(t)
    decreases t, 1
  {
    [NodeItem(t)] + (if t.r.Some? then ChainItems(t.r.value) else [])
  }

  /** The items that follow a node among its siblings. */
  function LaterItems(t: Tree<Item>): seq<Item>
  {
    if t.r.Some? then ChainItems(t.r.value) else []
  }

  /** Every tree is built by `construct_tree` from its chain of items: the builder
      loses nothing. */
  lemma {:induction false} ConstructTreeInverse(t: Tree<Item>)
    ensures ConstructTree(NodeItem(t), LaterItems(t)) == Ok(t)
  {
    var item, rest := NodeItem(t), LaterItems(t);
    var left: Result<Option<Tree<Item>>, PyError> := Ok(t.l);
    if t.l.Some? {
      var c := t.l.value;
      ConstructTreeInverse(c);
      var xs := [t.v] + ChainItems(c);
      assert item == Group(xs);
      assert xs[1] == NodeItem(c);
      assert xs[2..] == LaterItems(c);
      assert Lift(ConstructTree(xs[1], xs[2..])) == left;
    }
    if t.r.Some? {
      ConstructTreeInverse(t.r.value);
      assert rest[0] == NodeItem(t.r.value);
      assert rest[1..] == LaterItems(t.r.value);
    }
  }

  /** `parse(fun_str)`: clean, scan, and build a tree from the top-level list.
      The root is built with no siblings, so it never has a next sibling. */
  function Parse(s: string): (r: Result<Tree<Item>, PyError>)
    ensures r.Err? ==> r.error == IndexError
    ensures r.Ok? ==> r.value.r.None?
  {
    match Clean(s, true)
    case Err(e) => Err(e)
    case Ok(c) => ConstructTree(Group(Scan(c).0), [])
  }

  /** Parsing fails only on blank text or where an empty `()` would have to become a
      node; unbalanced brackets never make it fail. */
  lemma ParseOkIff(s: string)
    ensures Parse(s).Ok? <==>
            Clean(s, true).Ok? && Buildable(Group(Scan(Clean(s, true).value).0))
  {
    if Clean(s, true).Ok? {
      ConstructTreeOkIff(Group(Scan(Clean(s, true).value).0), []);
    }
  }
}
