/**
 * The parameter dictionaries returned by `get_params` in nmt/structs/tree6.py,
 * tree2.py, tree15.py, tree14_log.py, tree18.py and tree17c.py. The freshly
 * initialised tensors are inputs (`inits`); only the keys and their order
 * are modelled. A dict is its (key, value) pairs in insertion order.
 */
module ParamDicts {
  import opened Common
  import opened InsideOutsideEncoding

  type Dict<X> = seq<(string, X)>

  function Keys<X>(d: Dict<X>): (r: seq<string>)
    ensures |r| == |d| && forall i :: 0 <= i < |d| ==> r[i] == d[i].0
  {
    seq(|d|, i requires 0 <= i < |d| => d[i].0)
  }

  function Values<X>(d: Dict<X>): (r: seq<X>)
    ensures |r| == |d| && forall i :: 0 <= i < |d| ==> r[i] == d[i].1
  {
    seq(|d|, i requires 0 <= i < |d| => d[i].1)
  }

  /** `d.get(key)`: the value stored under `key`, or `None`. */
  function Get<X>(d: Dict<X>, key: string): (r: Option<X>)
    ensures r.Some? <==> key in Keys(d)
  {
    if d == [] then None
    else if d[0].0 == key then Some(d[0].1)
    else
      assert Keys(d) == [d[0].0] + Keys(d[1..]);
      Get(d[1..], key)
  }

  /** The dict literal `{names[0]: values[0], ...}`. */
  function FromPairs<X>(names: seq<string>, values: seq<X>): (d: Dict<X>)
    requires |names| == |values|
  {
    seq(|names|, i requires 0 <= i < |names| => (names[i], values[i]))
  }

  predicate Distinct(names: seq<string>)
  {
    forall i, j :: 0 <= i < j < |names| ==> names[i] != names[j]
  }

  /** The keys of tree2's, tree15's and tree14_log's `get_params`, which are the names
      `get_pos_embedding` unpacks its six parameters into, in that order. */
  const SixNames: seq<string> := ["mu_l", "mu_r", "lam_leaf", "lam_root", "lam_leaf_l", "lam_leaf_r"]

  /** tree6 adds the two scales, which its `get_pos_embedding` unpacks last. */
  const Tree6Names: seq<string> := SixNames + ["mu_l_scale", "mu_r_scale"]

  /** The keyword parameters of tree18's `get_pos_embedding` after `embed_dim`. */
  const Tree18Names: seq<string> := ["mu_l", "mu_r", "lam", "lam_l", "lam_r"]

  /** The keyword parameters of tree17c's `get_pos_embedding` after `embed_dim`. */
  const Tree17cNames: seq<string> := ["mu_l", "mu_r", "lam", "c_l", "c_r"]

  /** `get_params` of tree2, tree15 and tree14_log. */
  function GetParamsSix<X>(inits: seq<X>): (d: Dict<X>)
    requires |inits| == 6
  {
    FromPairs(SixNames, inits)
  }

  function GetParams6<X>(inits: seq<X>): (d: Dict<X>)
    requires |inits| == 8
  {
    FromPairs(Tree6Names, inits)
  }

  function GetParams18<X>(inits: seq<X>): (d: Dict<X>)
    requires |inits| == 5
  {
    FromPairs(Tree18Names, inits)
  }

  function GetParams17c<X>(inits: seq<X>): (d: Dict<X>)
    requires |inits| == 5
  {
    FromPairs(Tree17cNames, inits)
  }

  /** Python's binding of `**kw` to the keyword parameters `names`: it succeeds exactly
      when the keys are the parameter names, and then each parameter gets the value
      stored under its own name; otherwise the call raises `TypeError`. */
  function BindKeywords<X>(names: seq<string>, kw: Dict<X>): (r: Result<seq<X>, PyError>)
    ensures r.Ok? <==> (forall n :: n in names <==> n in Keys(kw))
    ensures r.Err? ==> r.error == TypeError
    ensures r.Ok? ==> |r.value| == |names| && forall i :: 0 <= i < |names| ==> Get(kw, names[i]) == Some(r.value[i])
  {
    if (forall n | n in names :: n in Keys(kw)) && (forall n | n in Keys(kw) :: n in names) then
      Ok(seq(|names|, i requires 0 <= i < |names| => Get(kw, names[i]).value))
    else Err(TypeError)
  }

  /** With distinct names, the value at position `i` of a dict literal is the one stored under `names[i]`. */
  lemma {:induction false} FromPairsGet<X>(names: seq<string>, values: seq<X>, i: nat)
    requires |names| == |values| && Distinct(names) && i < |names|
    ensures Get(FromPairs(names, values), names[i]) == Some(values[i])
  {
    var d := FromPairs(names, values);
    if i > 0 {
      assert d[1..] == FromPairs(names[1..], values[1..]);
      assert names[1..][i - 1] == names[i];
      assert names[0] != names[i];
      FromPairsGet(names[1..], values[1..], i - 1);
    }
  }

  lemma FromPairsKeys<X>(names: seq<string>, values: seq<X>)
    requires |names| == |values|
    ensures Keys(FromPairs(names, values)) == names
  {
  }

  /** tree2, tree15, tree14_log: unpacking the dict's values in order binds each of the
      six variables to the tensor stored under its own name. */
  lemma SixUnpack<X>(inits: seq<X>)
    requires |inits| == 6
    ensures Unpack6(Values(GetParamsSix(inits))).Ok?
    ensures var k := Unpack6(Values(GetParamsSix(inits))).value;
            var d := GetParamsSix(inits);
            && Get(d, "mu_l") == Some(k.muL) && Get(d, "mu_r") == Some(k.muR)
            && Get(d, "lam_leaf") == Some(k.lamLeaf) && Get(d, "lam_root") == Some(k.lamRoot)
            && Get(d, "lam_leaf_l") == Some(k.lamLeafL) && Get(d, "lam_leaf_r") == Some(k.lamLeafR)
  {
    assert Distinct(SixNames);
    forall i | 0 <= i < 6 ensures Get(GetParamsSix(inits), SixNames[i]) == Some(inits[i]) {
      FromPairsGet(SixNames, inits, i);
    }
  }

  /** tree6: the dict's values in order are what `get_pos_embedding` unpacks, and the
      value at each position is the one stored under the name it is unpacked into. */
  lemma Tree6Unpack<X>(inits: seq<X>, i: nat)
    requires |inits| == 8 && i < 8
    ensures |Values(GetParams6(inits))| == 8
    ensures Get(GetParams6(inits), Tree6Names[i]) == Some(Values(GetParams6(inits))[i])
  {
    assert Distinct(Tree6Names);
    FromPairsGet(Tree6Names, inits, i);
  }

  /** tree18: the `get_params` keys are exactly `get_pos_embedding`'s keyword parameters,
      so `get_pos_embedding(embed_dim, **get_params(config))` binds every parameter to
      the tensor of its own name. */
  lemma Tree18Binds<X>(inits: seq<X>)
    requires |inits| == 5
    ensures BindKeywords(Tree18Names, GetParams18(inits)) == Ok(inits)
  {
    FromPairsKeys(Tree18Names, inits);
    assert Distinct(Tree18Names);
    forall i | 0 <= i < 5 ensures Get(GetParams18(inits), Tree18Names[i]) == Some(inits[i]) {
      FromPairsGet(Tree18Names, inits, i);
    }
    var r := BindKeywords(Tree18Names, GetParams18(inits));
    assert r.Ok?;
    assert r.value == inits;
  }

  /** tree17c: the same for its five parameters. */
  lemma Tree17cBinds<X>(inits: seq<X>)
    requires |inits| == 5
    ensures BindKeywords(Tree17cNames, GetParams17c(inits)) == Ok(inits)
  {
    FromPairsKeys(Tree17cNames, inits);
    assert Distinct(Tree17cNames);
    forall i | 0 <= i < 5 ensures Get(GetParams17c(inits), Tree17cNames[i]) == Some(inits[i]) {
      FromPairsGet(Tree17cNames, inits, i);
    }
    var r := BindKeywords(Tree17cNames, GetParams17c(inits));
    assert r.Ok?;
    assert r.value == inits;
  }

  /** `get_pos_embedding_h` calls `get_pos_embedding(embed_dim, **struct_params)`; the
      structs whose `get_pos_embedding` takes one positional `params` list (tree2, tree15,
      tree14_log, and tree6 with its two scales) cannot bind their own `get_params` keys,
      so that call raises `TypeError`. */
  lemma PositionalStructsRejectKeywords<X>(inits: seq<X>)
    requires |inits| == 8
    ensures BindKeywords(["params"], GetParamsSix(inits[..6])) == Err(TypeError)
    ensures BindKeywords(["params"], GetParams6(inits)) == Err(TypeError)
  {
    FromPairsKeys(SixNames, inits[..6]);
    FromPairsKeys(Tree6Names, inits);
    assert "mu_l" in Keys(GetParamsSix(inits[..6])) && "mu_l" !in ["params"];
    assert "mu_l" in Keys(GetParams6(inits));
  }
}
