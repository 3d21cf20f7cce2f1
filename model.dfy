/**
 * The bookkeeping of the `Model` class in nmt/model.py that surrounds the
 * tree encodings: the cached decoder mask (lines 121-126), the registration
 * of the struct's parameters (112-118), the encoder masks (161-167), the
 * per-sentence decoding limit of `beam_decode` (227-229) and the flattening
 * of a tree-shaped positional embedding into rows (128-132).
 *
 * A mask of shape (1, 1, n, n) is kept as its n rows; a batch of token ids
 * as one row of ids per sentence.
 */
module Transformer {
  import opened Common
  import opened LcRs
  import opened Flattening
  import opened ParamDicts

  type Mask = seq<seq<bool>>

  /** `torch.triu(torch.ones(n, n), diagonal=1)`: entry (i, j) is set exactly when j > i,
      so position i may not attend to any later position. */
  function UpperMask(n: nat): (m: Mask)
    ensures |m| == n && IsUpperMask(m)
  {
    seq(n, i requires 0 <= i < n => seq(n, j requires 0 <= j < n => j > i))
  }

  /** A square mask whose entry (i, j) is set exactly when j > i. */
  predicate IsUpperMask(m: Mask)
  {
    forall i :: 0 <= i < |m| ==> |m[i]| == |m| && forall j :: 0 <= j < |m| ==> (m[i][j] <==> j > i)
  }

  /** `mask[:, :, :size, :size]`. */
  function Corner(m: Mask, size: nat): (r: Mask)
    requires size <= |m| && forall i :: 0 <= i < |m| ==> size <= |m[i]|
    ensures |r| == size
  {
    seq(size, i requires 0 <= i < size => m[i][..size])
  }

  /** The top-left corner of a larger upper mask is the upper mask of the corner's size. */
  lemma CornerOfUpperMask(m: Mask, size: nat)
    requires IsUpperMask(m) && size <= |m|
    ensures Corner(m, size) == UpperMask(size)
  {
    var c, u := Corner(m, size), UpperMask(size);
    forall i | 0 <= i < size
      ensures c[i] == u[i]
    {
      assert |c[i]| == size == |u[i]|;
      forall j | 0 <= j < size ensures c[i][j] == u[i][j] {
        assert c[i][j] == m[i][j];
      }
    }
  }

  /** `name.endswith(suffix)`. */
  predicate EndsWith(name: string, suffix: string)
  {
    |suffix| <= |name| && name[|name| - |suffix|..] == suffix
  }

  /** The entries of a parameter dict that are registered: those whose name does not
      end in `'__const__'`, in dict order. */
  function Registrable<X>(d: Dict<X>): (r: Dict<X>)
    ensures |r| <= |d|
  {
    if d == [] then []
    else Registrable(d[..|d| - 1]) + (if EndsWith(d[|d| - 1].0, "__const__") then [] else [d[|d| - 1]])
  }

  /** An entry is registered exactly when it is in the dict and its name does not end in `'__const__'`. */
  lemma {:induction false} RegistrableSpec<X>(d: Dict<X>, e: (string, X))
    ensures e in Registrable(d) <==> e in d && !EndsWith(e.0, "__const__")
  {
    if d != [] {
      RegistrableSpec(d[..|d| - 1], e);
      assert d == d[..|d| - 1] + [d[|d| - 1]];
    }
  }

  /** The per-sentence count of non-padding tokens. */
  function NonPad(toks: seq<int>, padId: int): (n: nat)
    ensures n <= |toks|
  {
    if toks == [] then 0 else NonPad(toks[..|toks| - 1], padId) + (if toks[|toks| - 1] == padId then 0 else 1)
  }

  /** `(src_toks == PAD_ID)`: set exactly at the padding positions of each sentence. */
  function PadMask(toks: seq<seq<int>>, padId: int): (m: Mask)
    ensures |m| == |toks|
    ensures forall b :: 0 <= b < |toks| ==> |m[b]| == |toks[b]|
    ensures forall b, j :: 0 <= b < |toks| && 0 <= j < |toks[b]| ==> (m[b][j] <==> toks[b][j] == padId)
  {
    seq(|toks|, b requires 0 <= b < |toks| => seq(|toks[b]|, j requires 0 <= j < |toks[b]| => toks[b][j] == padId))
  }

  /** `get_encoder_masks`: the padding mask, and the down mask, which is the struct's own
      `get_enc_mask` result when it has one (`structMask`, computed by code not modelled)
      and otherwise the padding mask itself. */
  function EncoderMasks(toks: seq<seq<int>>, padId: int, structMask: Option<Mask>): (r: (Mask, Mask))
    ensures r.0 == PadMask(toks, padId)
    ensures structMask.None? ==> r.1 == r.0
    ensures structMask.Some? ==> r.1 == structMask.value
  {
    var m := PadMask(toks, padId);
    (m, if structMask.Some? then structMask.value else m)
  }

  /** `max_lengths` in `beam_decode`: per sentence, the number of non-padding tokens
      plus 50, capped at `max_trg_length`. */
  function DecodeLimits(toks: seq<seq<int>>, padId: int, maxTrgLength: int): (r: seq<int>)
    ensures |r| == |toks|
    ensures forall b :: 0 <= b < |toks| ==> r[b] <= maxTrgLength && r[b] <= NonPad(toks[b], padId) + 50
    ensures forall b :: 0 <= b < |toks| ==> r[b] <= |toks[b]| + 50
    ensures forall b :: 0 <= b < |toks| ==>
              (r[b] == NonPad(toks[b], padId) + 50 || r[b] == maxTrgLength)
  {
    seq(|toks|, b requires 0 <= b < |toks| =>
      if NonPad(toks[b], padId) + 50 <= maxTrgLength then NonPad(toks[b], padId) + 50 else maxTrgLength)
  }

  /** A sentence made only of padding counts no tokens, so its limit is `min(50, max_trg_length)`. */
  lemma {:induction false} AllPadding(toks: seq<int>, padId: int, maxTrgLength: int)
    requires forall j :: 0 <= j < |toks| ==> toks[j] == padId
    ensures NonPad(toks, padId) == 0
    ensures DecodeLimits([toks], padId, maxTrgLength)[0] == (if 50 <= maxTrgLength then 50 else maxTrgLength)
  {
    if toks != [] {
      AllPadding(toks[..|toks| - 1], padId, maxTrgLength);
    }
  }

  /** `get_pos_embedding_h`: a tree-shaped embedding is flattened into one row per
      node of the source tree, starting with the root's, each node's exactly once. */
  lemma OneRowPerNode<A, T>(x: Tree<A>, pe: Tree<T>)
    requires Congruent(pe, x)
    ensures |Flatten(pe)| == Size(x)
    ensures Flatten(pe)[0] == pe.v
    ensures multiset(Flatten(pe)) == multiset(PreOrder(pe))
  {
    FlattenPermutation(pe);
    CongruentSize(pe, x);
  }

  lemma {:induction false} CongruentSize<A, B>(a: Tree<A>, b: Tree<B>)
    requires Congruent(a, b)
    ensures Size(a) == Size(b)
  {
    if a.l.Some? { CongruentSize(a.l.value, b.l.value); }
    if a.r.Some? { CongruentSize(a.r.value, b.r.value); }
  }

  class Model<X> {
    /** `self.decoder_mask`: `None` until the first call of `get_decoder_mask`. */
    var decoderMask: Option<Mask>
    /** `self.struct_params`. */
    var structParams: Dict<X>
    /** The parameters registered with `register_parameter`, in registration order. */
    var registered: Dict<X>
    /** `config['learned_pos_src']`. */
    const learnedPosSrc: bool

    ghost predicate Valid()
      reads this
    {
      decoderMask.Some? ==> IsUpperMask(decoderMask.value)
    }

    constructor (learnedPosSrc: bool)
      ensures Valid()
      ensures decoderMask == None && structParams == [] && registered == []
      ensures this.learnedPosSrc == learnedPosSrc
    {
      decoderMask := None;
      structParams := [];
      registered := [];
      this.learnedPosSrc := learnedPosSrc;
    }

    /** `get_decoder_mask(size)`: the size-by-size mask forbidding attention to later
        positions. The cache is rebuilt at `size` when absent or smaller; otherwise its
        corner is returned and the cache kept, so the cache never shrinks. */
    method GetDecoderMask(size: nat) returns (m: Mask)
      requires Valid()
      modifies this`decoderMask
      ensures Valid()
      ensures m == UpperMask(size)
      ensures old(decoderMask).None? || |old(decoderMask).value| < size ==> decoderMask == Some(UpperMask(size))
      ensures old(decoderMask).Some? && |old(decoderMask).value| >= size ==> decoderMask == old(decoderMask)
      ensures decoderMask.Some? && |decoderMask.value| >= size
      ensures old(decoderMask).Some? ==> |decoderMask.value| >= |old(decoderMask).value|
    {
      if decoderMask.None? || |decoderMask.value| < size {
        decoderMask := Some(UpperMask(size));
        m := decoderMask.value;
      } else {
        CornerOfUpperMask(decoderMask.value, size);
        m := Corner(decoderMask.value, size);
      }
    }

    /** `add_struct_params`: the struct's `get_params` dict (`getParams`, `None` when the
        struct has no `get_params`, giving an empty dict); when `learned_pos_src` is set,
        every entry whose name does not end in `'__const__'` is registered. */
    method AddStructParams(getParams: Option<Dict<X>>)
      modifies this`structParams, this`registered
      ensures structParams == if getParams.Some? then getParams.value else []
      ensures registered == old(registered) + (if learnedPosSrc then Registrable(structParams) else [])
    {
      structParams := if getParams.Some? then getParams.value else [];
      if learnedPosSrc {
        var i := 0;
        while i < |structParams|
          invariant 0 <= i <= |structParams|
          invariant structParams == if getParams.Some? then getParams.value else []
          invariant registered == old(registered) + Registrable(structParams[..i])
        {
          var (name, x) := structParams[i];
          assert structParams[..i + 1][..i] == structParams[..i];
          if !EndsWith(name, "__const__") {
            registered := registered + [(name, x)];
          }
          i := i + 1;
        }
        assert structParams[..i] == structParams;
      }
    }
  }
}
