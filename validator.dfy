/**
 * The decision logic of `Validator` in nmt/validator.py: turning a beam's
 * token ids into text (`_ids_to_trans`, `get_trans`) and keeping the n best
 * validation scores (`_is_valid_to_save` and the score-list update of
 * `maybe_save`). Scores are only compared, so they are `real`s; the
 * `{:.2f}` formatting of a score is a parameter `fmt`; `EOS_ID` is a
 * parameter `eosId`; the target vocabulary `trg_ivocab` is a map.
 */
module Validation {
  import opened Common

  /** The ids before the first `eosId`, or all of them when there is none. */
  function UpToEos(ids: seq<int>, eosId: int): (r: seq<int>)
    ensures r <= ids && eosId !in r
    ensures |r| < |ids| ==> ids[|r|] == eosId
  {
    if ids == [] || ids[0] == eosId then []
    else [ids[0]] + UpToEos(ids[1..], eosId)
  }

  /** A prefix free of `eosId` that ends the list or stops at an `eosId` is the part before the first `eosId`. */
  lemma UpToEosIs(ids: seq<int>, eosId: int, i: nat)
    requires i <= |ids| && (forall k :: 0 <= k < i ==> ids[k] != eosId)
    requires i == |ids| || ids[i] == eosId
    ensures UpToEos(ids, eosId) == ids[..i]
  {
  }

  /** `trg_ivocab[idx]` for every id: the words, or `KeyError` when some id has no word. */
  function Lookup(ids: seq<int>, ivocab: map<int, string>): (r: Result<seq<string>, PyError>)
    ensures r.Ok? <==> forall i :: 0 <= i < |ids| ==> ids[i] in ivocab
    ensures r.Err? ==> r.error == KeyError
    ensures r.Ok? ==> |r.value| == |ids| && forall i :: 0 <= i < |ids| ==> r.value[i] == ivocab[ids[i]]
  {
    if ids == [] then Ok([])
    else if ids[0] !in ivocab then Err(KeyError)
    else
      var rest := Lookup(ids[1..], ivocab);
      if rest.Err? then
        assert ids[1..][0] == ids[1];
        rest
      else Ok([ivocab[ids[0]]] + rest.value)
  }

  /** What `_ids_to_trans` returns: the words of the ids before the first `EOS_ID`, joined by single spaces. */
  function Translation(ids: seq<int>, ivocab: map<int, string>, eosId: int): (r: Result<string, PyError>)
    ensures r.Ok? <==> forall i :: 0 <= i < |UpToEos(ids, eosId)| ==> ids[i] in ivocab
    ensures r.Err? ==> r.error == KeyError
  {
    var words := Lookup(UpToEos(ids, eosId), ivocab);
    if words.Err? then Err(KeyError) else Ok(Join(words.value, " "))
  }

  /** `_ids_to_trans(trans_ids)`: looks up each id until the first `EOS_ID`, then joins the words. */
  method IdsToTrans(ids: seq<int>, ivocab: map<int, string>, eosId: int) returns (r: Result<string, PyError>)
    ensures r == Translation(ids, ivocab, eosId)
  {
    var words: seq<string> := [];
    var i := 0;
    while i < |ids| && ids[i] != eosId
      invariant 0 <= i <= |ids|
      invariant forall k :: 0 <= k < i ==> ids[k] != eosId && ids[k] in ivocab
      invariant |words| == i && forall k :: 0 <= k < i ==> words[k] == ivocab[ids[k]]
    {
      if ids[i] !in ivocab {
        assert ids[..i + 1] <= UpToEos(ids, eosId) by {
          UpToEosPrefix(ids, eosId, i + 1);
        }
        assert ids[..i + 1][i] == ids[i] == UpToEos(ids, eosId)[i];
        return Err(KeyError);
      }
      words := words + [ivocab[ids[i]]];
      i := i + 1;
    }
    UpToEosIs(ids, eosId, i);
    assert Lookup(ids[..i], ivocab).value == words;
    r := Ok(Join(words, " "));
  }

  /** Every EOS-free prefix lies within the part before the first `EOS_ID`. */
  lemma UpToEosPrefix(ids: seq<int>, eosId: int, n: nat)
    requires n <= |ids| && forall k :: 0 <= k < n ==> ids[k] != eosId
    ensures ids[..n] <= UpToEos(ids, eosId)
  {
  }

  /** Python's `s.split(sep)` for a one-character separator. */
  function SplitOn(s: string, sep: char): (r: seq<string>)
    ensures |r| >= 1
  {
    if s == [] then [""]
    else
      var init := SplitOn(s[..|s| - 1], sep);
      if s[|s| - 1] == sep then init + [""]
      else init[..|init| - 1] + [init[|init| - 1] + [s[|s| - 1]]]
  }

  /** A string without the separator splits into itself alone. */
  lemma {:induction false} SplitOnWord(w: string, sep: char)
    requires sep !in w
    ensures SplitOn(w, sep) == [w]
  {
    if w != [] {
      SplitOnWord(w[..|w| - 1], sep);
      assert w[..|w| - 1] + [w[|w| - 1]] == w;
    }
  }

  /** Appending a separator and a separator-free word adds that word as the last piece. */
  lemma {:induction false} SplitOnSnoc(a: string, sep: char, w: string)
    requires sep !in w
    ensures SplitOn(a + [sep] + w, sep) == SplitOn(a, sep) + [w]
  {
    if w == [] {
      assert (a + [sep] + w)[..|a + [sep] + w| - 1] == a;
    } else {
      var v := w[..|w| - 1];
      assert (a + [sep] + w)[..|a + [sep] + w| - 1] == a + [sep] + v;
      SplitOnSnoc(a, sep, v);
      assert v + [w[|w| - 1]] == w;
    }
  }

  /** Splitting the joined words at single spaces gives back the words, when none holds a space. */
  lemma {:induction false} SplitJoin(ws: seq<string>)
    requires |ws| > 0 && forall i :: 0 <= i < |ws| ==> ' ' !in ws[i]
    ensures SplitOn(Join(ws, " "), ' ') == ws
  {
    if |ws| == 1 {
      SplitOnWord(ws[0], ' ');
    } else {
      var init := ws[..|ws| - 1];
      JoinSnoc(init, ws[|ws| - 1], " ");
      assert init + [ws[|ws| - 1]] == ws;
      SplitJoin(init);
      SplitOnSnoc(Join(init, " "), ' ', ws[|ws| - 1]);
    }
  }

  /** The translation can be split back into the words of the ids before the first
      `EOS_ID`, in order, when there is at least one and no word holds a space. */
  lemma TranslationWords(ids: seq<int>, ivocab: map<int, string>, eosId: int)
    requires Translation(ids, ivocab, eosId).Ok? && |UpToEos(ids, eosId)| > 0
    requires forall id :: id in ivocab ==> ' ' !in ivocab[id]
    ensures var pre := UpToEos(ids, eosId);
            SplitOn(Translation(ids, ivocab, eosId).value, ' ') == seq(|pre|, i requires 0 <= i < |pre| => ivocab[pre[i]])
  {
    var pre := UpToEos(ids, eosId);
    assert Lookup(pre, ivocab).Ok?;
    var ws := Lookup(pre, ivocab).value;
    forall i | 0 <= i < |ws| ensures ' ' !in ws[i] {
      var id := pre[i];
      assert id in ivocab && ws[i] == ivocab[id];
      assert ' ' !in ivocab[id];
    }
    SplitJoin(ws);
    assert ws == seq(|pre|, i requires 0 <= i < |pre| => ivocab[pre[i]]);
  }

  /** `numpy.argsort(scores)[::-1]`: an ordering of all row indices, highest score first
      (ties in any order, since the sort is not stable). */
  predicate Descending(scores: seq<real>, rows: seq<int>)
  {
    && |rows| == |scores|
    && (forall i :: 0 <= i < |rows| ==> 0 <= rows[i] < |scores|)
    && (forall j :: 0 <= j < |scores| ==> j in rows)
    && (forall i, j :: 0 <= i < j < |rows| ==> scores[rows[i]] >= scores[rows[j]])
  }

  /** One beam line: the translation, then the score and the probability formatted. */
  function BeamLine(trans: string, score: real, prob: real, fmt: real -> string): string
  {
    trans + " " + fmt(score) + " " + fmt(prob)
  }

  /** Every row of the beam, taken in the order `rows`, translates without a missing word. */
  predicate Translatable(symbols: seq<seq<int>>, rows: seq<int>, ivocab: map<int, string>, eosId: int)
  {
    forall i :: 0 <= i < |rows| ==> 0 <= rows[i] < |symbols| && Translation(symbols[rows[i]], ivocab, eosId).Ok?
  }

  /** The beam lines of `get_trans`, one per row in the order `rows`. */
  function BeamLines(probs: seq<real>, scores: seq<real>, symbols: seq<seq<int>>, rows: seq<int>,
                     ivocab: map<int, string>, eosId: int, fmt: real -> string): (r: seq<string>)
    requires |probs| == |scores| == |symbols| && Translatable(symbols, rows, ivocab, eosId)
    ensures |r| == |rows|
  {
    seq(|rows|, i requires 0 <= i < |rows| =>
      BeamLine(Translation(symbols[rows[i]], ivocab, eosId).value, scores[rows[i]], probs[rows[i]], fmt))
  }

  /** The first row of a descending order holds the highest score of the beam. */
  lemma FirstIsHighest(scores: seq<real>, rows: seq<int>)
    requires Descending(scores, rows) && |rows| > 0
    ensures forall j :: 0 <= j < |scores| ==> scores[rows[0]] >= scores[j]
  {
    forall j | 0 <= j < |scores| ensures scores[rows[0]] >= scores[j] {
      assert j in rows;
      var k :| 0 <= k < |rows| && rows[k] == j;
    }
  }

  /** `get_trans(probs, scores, symbols)`: one line per beam row in the given descending
      score order, joined by newlines, and the first row's translation, which has the
      highest score, as the best one (`None` for an empty beam); `KeyError` when a row
      holds an id missing from the vocabulary. */
  method GetTrans(probs: seq<real>, scores: seq<real>, symbols: seq<seq<int>>, rows: seq<int>,
                  ivocab: map<int, string>, eosId: int, fmt: real -> string)
    returns (r: Result<(Option<string>, string), PyError>)
    requires |probs| == |scores| == |symbols| && Descending(scores, rows)
    ensures r.Ok? <==> Translatable(symbols, rows, ivocab, eosId)
    ensures r.Err? ==> r.error == KeyError
    ensures r.Ok? ==> r.value.1 == Join(BeamLines(probs, scores, symbols, rows, ivocab, eosId, fmt), "\n")
    ensures r.Ok? ==> (|rows| == 0 <==> r.value.0.None?)
    ensures r.Ok? && |rows| > 0 ==>
              && r.value.0 == Some(Translation(symbols[rows[0]], ivocab, eosId).value)
              && forall j :: 0 <= j < |scores| ==> scores[rows[0]] >= scores[j]
  {
    var best: Option<string> := None;
    var lines: seq<string> := [];
    var i := 0;
    while i < |rows|
      invariant 0 <= i <= |rows|
      invariant Translatable(symbols, rows[..i], ivocab, eosId)
      invariant lines == BeamLines(probs, scores, symbols, rows[..i], ivocab, eosId, fmt)
      invariant i == 0 <==> best.None?
      invariant i > 0 ==> best == Some(Translation(symbols[rows[0]], ivocab, eosId).value)
    {
      var row := rows[i];
      var trans := IdsToTrans(symbols[row], ivocab, eosId);
      if trans.Err? {
        assert rows[i] == row;
        return Err(KeyError);
      }
      assert rows[..i + 1] == rows[..i] + [row];
      lines := lines + [BeamLine(trans.value, scores[row], probs[row], fmt)];
      if i == 0 {
        best := Some(trans.value);
      }
      i := i + 1;
    }
    assert rows[..i] == rows;
    if |rows| > 0 {
      FirstIsHighest(scores, rows);
    }
    r := Ok((best, Join(lines, "\n")));
  }

  /** `numpy.argmin`: the first index holding the smallest value. */
  function ArgMin(xs: seq<real>): (k: nat)
    requires |xs| > 0
    ensures k < |xs|
    ensures forall j :: 0 <= j < |xs| ==> xs[k] <= xs[j]
    ensures forall j :: 0 <= j < k ==> xs[j] > xs[k]
  {
    if |xs| == 1 then 0
    else
      var k := ArgMin(xs[..|xs| - 1]);
      if xs[|xs| - 1] < xs[k] then |xs| - 1 else k
  }

  /** `numpy.argmax`: the first index holding the largest value. */
  function ArgMax(xs: seq<real>): (k: nat)
    requires |xs| > 0
    ensures k < |xs|
    ensures forall j :: 0 <= j < |xs| ==> xs[k] >= xs[j]
    ensures forall j :: 0 <= j < k ==> xs[j] < xs[k]
  {
    if |xs| == 1 then 0
    else
      var k := ArgMax(xs[..|xs| - 1]);
      if xs[|xs| - 1] > xs[k] then |xs| - 1 else k
  }

  /** The pair `(remove_idx, save_please)`. */
  datatype Decision = Decision(removeIdx: Option<nat>, save: bool)

  /** The worst kept score's index: the smallest BLEU or the largest perplexity. */
  function Worst(valByBleu: bool, kept: seq<real>): (k: nat)
    requires |kept| > 0
    ensures k < |kept|
    ensures valByBleu ==> forall j :: 0 <= j < |kept| ==> kept[k] <= kept[j]
    ensures !valByBleu ==> forall j :: 0 <= j < |kept| ==> kept[k] >= kept[j]
  {
    if valByBleu then ArgMin(kept) else ArgMax(kept)
  }

  /** `_is_valid_to_save()` with the kept scores `kept` and the score curve `curve` of the
      chosen metric. With fewer than `n_best` kept scores the new checkpoint is saved and
      nothing removed. Otherwise the worst kept score is compared with the newest one:
      a BLEU score at least as good replaces it, a perplexity only when strictly better.
      `argmin`/`argmax` of an empty list raises `ValueError`, `curve[-1]` of an empty
      curve `IndexError`. */
  function IsValidToSave(valByBleu: bool, kept: seq<real>, curve: seq<real>, nBest: int): (r: Result<Decision, PyError>)
    ensures |kept| < nBest ==> r == Ok(Decision(None, true))
    ensures r.Err? <==> |kept| >= nBest && (|kept| == 0 || |curve| == 0)
    ensures r.Err? ==> r.error == (if |kept| == 0 then ValueError else IndexError)
    ensures r.Ok? && r.value.removeIdx.Some? ==> r.value.save && |kept| >= nBest
    ensures r.Ok? && |kept| >= nBest ==>
              && (valByBleu ==> (r.value.save <==> curve[|curve| - 1] >= kept[Worst(valByBleu, kept)]))
              && (!valByBleu ==> (r.value.save <==> curve[|curve| - 1] < kept[Worst(valByBleu, kept)]))
              && (r.value.save ==> r.value.removeIdx == Some(Worst(valByBleu, kept)))
  {
    if |kept| < nBest then Ok(Decision(None, true))
    else if |kept| == 0 then Err(ValueError)
    else
      var m := Worst(valByBleu, kept);
      if |curve| == 0 then Err(IndexError)
      else if (kept[m] > curve[|curve| - 1]) == valByBleu then Ok(Decision(None, false))
      else Ok(Decision(Some(m), true))
  }

  /** `numpy.delete(scores, i)`: the list without its entry at `i`. */
  function Delete(scores: seq<real>, i: nat): (r: seq<real>)
    requires i < |scores|
    ensures |r| == |scores| - 1
    ensures multiset(r) + multiset{scores[i]} == multiset(scores)
  {
    assert scores == scores[..i] + [scores[i]] + scores[i + 1..];
    scores[..i] + scores[i + 1..]
  }

  /** The score list after `maybe_save`: the replaced score deleted, then the new score appended when saving. */
  function Updated(kept: seq<real>, d: Decision, score: real): (r: seq<real>)
    requires d.removeIdx.Some? ==> d.removeIdx.value < |kept|
    ensures |r| == |kept| - (if d.removeIdx.Some? then 1 else 0) + (if d.save then 1 else 0)
  {
    var rest := if d.removeIdx.Some? then Delete(kept, d.removeIdx.value) else kept;
    rest + (if d.save then [score] else [])
  }

  /** The new list holds the old scores less the removed one, plus the new score when saving. */
  lemma UpdatedMultiset(kept: seq<real>, d: Decision, score: real)
    requires d.removeIdx.Some? ==> d.removeIdx.value < |kept|
    ensures multiset(Updated(kept, d, score)) + (if d.removeIdx.Some? then multiset{kept[d.removeIdx.value]} else multiset{})
            == multiset(kept) + (if d.save then multiset{score} else multiset{})
  {
    var rest := if d.removeIdx.Some? then Delete(kept, d.removeIdx.value) else kept;
    assert Updated(kept, d, score) == rest + (if d.save then [score] else []);
  }

  /** A kept list of at most `n_best` scores stays at most `n_best` long. */
  lemma KeepsAtMostNBest(valByBleu: bool, kept: seq<real>, curve: seq<real>, nBest: int)
    requires |kept| <= nBest && IsValidToSave(valByBleu, kept, curve, nBest).Ok? && |curve| > 0
    ensures var d := IsValidToSave(valByBleu, kept, curve, nBest).value;
            |Updated(kept, d, curve[|curve| - 1])| <= nBest
  {
  }

  /** Every entry left after a deletion was an entry before it. */
  lemma DeleteKeeps(scores: seq<real>, i: nat, j: nat)
    requires i < |scores| && j < |scores| - 1
    ensures Delete(scores, i)[j] == scores[if j < i then j else j + 1]
  {
  }

  /** Once the list is full, the kept scores never get worse: every BLEU score kept is at
      least the old minimum, every perplexity kept at most the old maximum. When saving,
      the newest score is the last one kept; otherwise the list is unchanged. */
  lemma KeptNeverWorse(valByBleu: bool, kept: seq<real>, curve: seq<real>, nBest: int)
    requires |kept| >= nBest && IsValidToSave(valByBleu, kept, curve, nBest).Ok?
    ensures var d := IsValidToSave(valByBleu, kept, curve, nBest).value;
            var worst := kept[Worst(valByBleu, kept)];
            var r := Updated(kept, d, curve[|curve| - 1]);
            && (valByBleu ==> forall j :: 0 <= j < |r| ==> r[j] >= worst)
            && (!valByBleu ==> forall j :: 0 <= j < |r| ==> r[j] <= worst)
            && (d.save ==> |r| == |kept| && r[|r| - 1] == curve[|curve| - 1])
            && (!d.save ==> r == kept)
  {
    var d := IsValidToSave(valByBleu, kept, curve, nBest).value;
    var m := Worst(valByBleu, kept);
    var score := curve[|curve| - 1];
    var r := Updated(kept, d, score);
    if d.save {
      var rest := Delete(kept, m);
      assert r == rest + [score];
      forall j | 0 <= j < |rest|
        ensures valByBleu ==> rest[j] >= kept[m]
        ensures !valByBleu ==> rest[j] <= kept[m]
      {
        DeleteKeeps(kept, m, j);
      }
    }
  }

  /** The checkpoint-keeping state of `Validator`. */
  class Validator {
    /** `config['val_by_bleu']`. */
    const valByBleu: bool
    /** `config['n_best']`. */
    const nBest: int
    /** `self.bleu_curve` and `self.perp_curve`: one score per validation so far. */
    var bleuCurve: seq<real>
    var perpCurve: seq<real>
    /** `self.best_bleus` and `self.best_perps`: the scores of the checkpoints kept. */
    var bestBleus: seq<real>
    var bestPerps: seq<real>

    constructor (valByBleu: bool, nBest: int)
      ensures this.valByBleu == valByBleu && this.nBest == nBest
      ensures bleuCurve == [] && perpCurve == [] && bestBleus == [] && bestPerps == []
    {
      this.valByBleu := valByBleu;
      this.nBest := nBest;
      bleuCurve, perpCurve, bestBleus, bestPerps := [], [], [], [];
    }

    /** The kept scores of the metric that decides. */
    function Kept(): seq<real>
      reads this
    {
      if valByBleu then bestBleus else bestPerps
    }

    /** The score curve of the metric that decides. */
    function Curve(): seq<real>
      reads this
    {
      if valByBleu then bleuCurve else perpCurve
    }

    /** The list update of `maybe_save()`: decides with `_is_valid_to_save`, deletes the
        replaced score, appends the newest score when saving and stores the list back.
        Returns whether a checkpoint is saved; an error leaves the lists as they were. */
    method MaybeSave() returns (r: Result<bool, PyError>)
      modifies this`bestBleus, this`bestPerps
      ensures var d := IsValidToSave(valByBleu, old(Kept()), Curve(), nBest);
              && (d.Err? ==> r == Err(d.error))
              && (d.Ok? && |Curve()| == 0 ==> r == Err(IndexError))
              && (r.Err? ==> Kept() == old(Kept()))
              && (r.Ok? ==> d.Ok? && r.value == d.value.save && Kept() == Updated(old(Kept()), d.value, Curve()[|Curve()| - 1]))
      ensures valByBleu ==> bestPerps == old(bestPerps)
      ensures !valByBleu ==> bestBleus == old(bestBleus)
      ensures old(|Kept()|) <= nBest ==> |Kept()| <= nBest
    {
      var kept, curve := Kept(), Curve();
      var d := IsValidToSave(valByBleu, kept, curve, nBest);
      if d.Err? {
        return Err(d.error);
      }
      if |curve| == 0 {
        return Err(IndexError);
      }
      var score := curve[|curve| - 1];
      var scores := kept;
      if d.value.removeIdx.Some? {
        scores := Delete(scores, d.value.removeIdx.value);
      }
      if d.value.save {
        scores := scores + [score];
      }
      assert scores == Updated(kept, d.value, score);
      if valByBleu {
        bestBleus := scores;
      } else {
        bestPerps := scores;
      }
      r := Ok(d.value.save);
    }
  }
}
