# witwicky-trees: tree positional encodings, modelled in Dafny

witwicky-trees is a Transformer for machine translation. Each source sentence comes with
a tree over its tokens, and the tree supplies the positional embedding. A tree is a
left-child/right-sibling (LC-RS) `Tree`: `l` is a node's first child and `r` its next
sibling, and either may be `None`. This project models the following:

- The tree class and its generic recursions. These are `map`, the in-place `map_`,
  `flatten`, `fold_up`, `fold_up_tree`, `fold_down_tree`, `zip`, and rendering with
  `__str__`.
- The bracket parser: `parse_clean`, `parse_lc_rs_h`, `construct_tree` and `parse`.
- The positional-embedding variants built from those recursions: tree6, tree2, tree15,
  tree14_log, tree18 and tree17c, together with their `get_params` dictionaries.
- The `Model` bookkeeping around them in `nmt/model.py`: the decoder-mask cache, the
  registration of struct parameters, the encoder masks, the decode-length limit, and
  one embedding row per node.
- The `Validator` logic in `nmt/validator.py`: truncation at EOS, beam ordering and
  the rule for keeping the n best checkpoints.

Modules:

| file | module | models |
|---|---|---|
| `common.dfy` | `Common` | `Option`, `Result`, the Python exceptions raised, `str.join` |
| `lcrs_tree.dfy` | `LcRs` | the tree value, paths to nodes, congruence (same shape) |
| `traversals.dfy` | `Traversals` | `map`, `fold_up`, `fold_up_tree`, `fold_down_tree`, `zip` (corrected and as written) |
| `mutable_tree.dfy` | `MutableTree` | the in-place `map_` on heap nodes |
| `flatten.dfy` | `Flattening` | `flatten`, with its shared default list `lefts=[]` |
| `render.dfy` | `Render` | `__str__h` / `__str__` |
| `parser.dfy` | `Parser` | `parse_clean`, `parse_lc_rs_h` (its loop), `construct_tree`, `parse` |
| `roundtrip.dfy` | `RoundTrip` | parsing a rendered tree of words gives it back |
| `tensors.dfy` | `Tensors` | the tensor operations, left uninterpreted |
| `inside_outside.dfy` | `InsideOutside` | the shared `f_in_aux` / `fold_down_tree(f_out, …)` passes |
| `embedding_io.dfy` | `InsideOutsideEncoding` | `get_pos_embedding` of tree15, tree2 and tree6 |
| `embedding_log.dfy` | `LogEncoding` | `get_pos_embedding` of tree14_log |
| `embedding_path.dfy` | `PathEncoding` | `get_pos_embedding` of tree17c and tree18 |
| `param_dicts.dfy` | `ParamDicts` | the `get_params` dictionaries and `**kwargs` binding |
| `model.dfy` | `Transformer` | the `Model` bookkeeping |
| `validator.dfy` | `Validation` | `_ids_to_trans`, `get_trans`, `_is_valid_to_save`, the `maybe_save` list update |

Tensors appear only through the record `Tensors.Ops`. Its fields are `@`, `*`, `+`,
scaling, `normalize`, `torch.exp`, `x.type(dtype)`, the `einsum` contractions, and the
scalars `n ** 0.5` and `n ** -0.5`. Every statement about an embedding holds for any
choice of these operations. Node values of the embedding are `Option`s wherever the
Python code could receive `None`. The lemmas show that `None` never reaches an
arithmetic operation.

Behaviour of the code worth knowing:

- Unbalanced brackets do not make `parse` fail. `parse_lc_rs_h` stops at the first `)`
  that closes its top level, and it closes groups still open at the end of the text
  (`Parser.ScanStopsAtClose`, `Parser.ParseOkIff`).
- Blank text raises `IndexError` in `parse_clean`. Apart from the interpreter's recursion
  limit (see "## Left out"), `parse` has no other error than `IndexError`
  (`Parser.CleanRejectsBlank`, `Parser.Parse`).
- `zip` in tree6 and tree2 does not check congruence as intended. See "## Findings".
- `flatten` is not a pre-order traversal (`Flattening.FlattenIsNotPreOrder`).
- `normalize` in tree6 divides by the norm without a zero guard. The model keeps it
  uninterpreted.
- `model.py` calls `get_pos_embedding(embed_dim, **struct_params)`. The structs whose
  `get_pos_embedding` takes one positional `params` list cannot accept the keys of
  their own `get_params`, so that call raises `TypeError` for them. Only tree17c and
  tree18 bind (`ParamDicts.PositionalStructsRejectKeywords`).

## Model

| member | source | states |
|---|---|---|
| Traversals.Map | nmt/structs/tree6.py:40-44 | `map` returns a tree of the same shape as its input |
| Traversals.MapValueAt | nmt/structs/tree6.py:40-44 | every node of `t.map(f)` holds `f` of the value at the same node of `t` |
| Traversals.MapAt | nmt/structs/tree6.py:40-44 | the subtree of `t.map(f)` at any path is the map of the subtree of `t` there, and absent exactly where `t` has no node |
| Traversals.FoldUpTree | nmt/structs/tree6.py:57-66 | `fold_up_tree` keeps the shape, and its root holds `fold_up` of the whole tree |
| Traversals.FoldUpTreeAt | nmt/structs/tree6.py:60-66 | the subtree of `fold_up_tree` at any node is `fold_up_tree` of that node's subtree, so an aggregate depends only on its own subtree |
| Traversals.FoldUpTreeValueAt | nmt/structs/tree6.py:57-66 | every node of `fold_up_tree` holds `fold_up` of its own subtree |
| Traversals.FoldUpTreeLocal | nmt/structs/tree6.py:60-66 | a node's aggregate is `f(value, first child's aggregate or leaf, next sibling's aggregate or leaf)` |
| Traversals.FoldDownTree | nmt/structs/tree6.py:68-71 | `fold_down_tree` keeps the shape and gives the root `root` |
| Traversals.FoldDownTreeAt | nmt/structs/tree6.py:68-71 | the subtree at a node is `fold_down_tree` of that node's subtree, seeded with the value the node received |
| Traversals.FoldDownTreeStep | nmt/structs/tree6.py:68-71 | a first child receives `f(parent value, parent's new value, True)` and a next sibling `f(…, False)` |
| Traversals.Zip | nmt/structs/tree6.py:73-81 | the corrected `zip`: succeeds exactly on congruent trees and raises `AssertionError` otherwise; the result has the same shape |
| Traversals.ZipValueAt | nmt/structs/tree6.py:78-81 | every node of a successful zip pairs the two values at that node |
| Traversals.Zip6AsWritten | nmt/structs/tree6.py:75-77 | tree6's assertion as written holds exactly when both trees are single nodes |
| Traversals.Zip6RefusesCongruentTrees | nmt/structs/tree6.py:75-77 | a root with one child, zipped with itself, is refused by tree6's `zip` but accepted by the corrected one |
| Traversals.Zip6AgreesOnSingleNodes | nmt/structs/tree6.py:73-81 | wherever tree6's `zip` succeeds, it agrees with the corrected one |
| Traversals.Zip2AlwaysRaises | nmt/structs/tree2.py:77-79 | tree2's `zip` raises `AssertionError` for every pair of trees |
| MutableTree.Node.constructor | nmt/structs/tree6.py:10-13 | a new node holds `v`, `l`, `r`, and its abstract tree is built from theirs |
| MutableTree.Node.MapInPlace | nmt/structs/tree6.py:34-38 | `map_` returns `self`, keeps every child link, and leaves the abstract tree equal to `map` of the old one |
| Flattening.FlattenChainFirst | nmt/structs/tree6.py:52-55 | from a node, `flatten` emits the whole sibling chain, then drains the stack of pending first children |
| Flattening.FlattenFromPermutation | nmt/structs/tree6.py:52-55 | the emitted values are the node's subtree plus every pending tree, each once (as multisets) |
| Flattening.FlattenPermutation | nmt/structs/tree6.py:46-55 | a top-level `flatten` emits every node exactly once, root first |
| Flattening.FlattenSiblingFollows | nmt/structs/tree6.py:52-55 | every node with a next sibling is immediately followed by it in the output |
| Flattening.FlattenIsNotPreOrder | nmt/structs/tree6.py:46-55 | on `f(a(b) c)`, `flatten` gives `f a c b`, not the pre-order `f a b c` |
| Flattening.FlattenRec | nmt/structs/tree6.py:51-55 | the recursive branch appends `FlattenFrom(node, lefts)` to `acc` and leaves the stack empty |
| Flattening.SharedLefts.Flatten | nmt/structs/tree6.py:46-50 | a top-level call returns what is emitted from the current shared default list, which is empty afterwards |
| Render.StrH | nmt/structs/tree6.py:15-24 | `__str__h` appends exactly the node's pieces to `strs` |
| Render.ToStr | nmt/structs/tree6.py:26-29 | `__str__` joins the pieces with single spaces |
| Render.RenderListsPreOrder | nmt/structs/tree6.py:15-24 | apart from brackets, the rendering lists every value once, in pre-order |
| Render.RenderBalanced | nmt/structs/tree6.py:15-24 | there is one `(` and one `)` for each node with a first child |
| Parser.StripLeftSpec | nmt/structs/tree6.py:120 | `lstrip` gives the longest suffix that does not start with whitespace |
| Parser.StripRightSpec | nmt/structs/tree6.py:120 | `rstrip` gives the longest prefix that does not end with whitespace |
| Parser.StripSpec | nmt/structs/tree6.py:120 | `strip` keeps a middle slice and removes only whitespace around it |
| Parser.Clean | nmt/structs/tree6.py:116-126 | `parse_clean` raises `IndexError` exactly when the text is blank after dropping one newline; otherwise its result has no whitespace at either end |
| Parser.CleanStripsUnmatchedParens | nmt/structs/tree6.py:123-124 | outer `(` and `)` are removed even when they do not match each other |
| Parser.CleanRejectsBlank | nmt/structs/tree6.py:118-123 | empty, newline-only and blank text raise `IndexError` |
| Parser.TokenLenSpec | nmt/structs/tree6.py:132-137 | a token runs up to the first space or bracket |
| Parser.ParseLcRsH | nmt/structs/tree6.py:128-148 | the scanning loop returns the items and end position that `Scan` specifies |
| Parser.LoopFromScan | nmt/structs/tree6.py:128-148 | the loop, started on the text, finishes with `Scan`'s result |
| Parser.ScanStopsAtClose | nmt/structs/tree6.py:132-148 | the scan ends early only just past a `)`, and never raises on unbalanced brackets |
| Parser.ScanItemsOk | nmt/structs/tree6.py:135-146 | every token produced is non-empty and has no delimiter, at every depth |
| Parser.ScanIgnoresRest | nmt/structs/tree6.py:142 | once the scan has stopped at a `)`, any text after it plays no part |
| Parser.ConstructTree | nmt/structs/tree6.py:150-153 | a node's value is the token or the list's head; it has a first child exactly when the list has more than one entry, a next sibling exactly when siblings remain; an empty list raises `IndexError` |
| Parser.ConstructTreeOkIff | nmt/structs/tree6.py:150-153 | `construct_tree` succeeds exactly when no list it builds a node from is empty |
| Parser.ConstructTreeInverse | nmt/structs/tree6.py:150-153 | every tree is rebuilt unchanged from its own item lists |
| Parser.Parse | nmt/structs/tree6.py:155-156 | apart from the recursion limit, `parse` raises only `IndexError`, and its root has no next sibling |
| Parser.ParseOkIff | nmt/structs/tree6.py:155-156 | `parse` succeeds exactly on non-blank text whose scanned lists contain no empty list that would become a node |
| RoundTrip.ScanChain | nmt/structs/tree6.py:128-148 | the scanner reads a rendered sibling chain back as that chain's items |
| RoundTrip.CleanParent | nmt/structs/tree6.py:116-126 | `parse_clean` of `( w <chain> )` gives `w <chain>` |
| RoundTrip.ParseRender | nmt/structs/tree6.py:155-156 | parsing the rendering of a tree of words (no spaces or brackets inside a word) gives the same tree back |
| InsideOutside.AuxTree | nmt/structs/tree6.py:103-108 | the `fold_up_tree(f_in_aux, …)` pass keeps the tree's shape |
| InsideOutside.AuxAt | nmt/structs/tree6.py:103-108 | each node's triple holds its own inside value, then its first child's and its next sibling's, with the leaf tuple's first entry used for a missing child on either side |
| InsideOutside.Down | nmt/structs/tree6.py:109 | the downward pass keeps the tree's shape |
| InsideOutside.FirstIsInside | nmt/structs/tree6.py:93-109 | when `f_out` passes down the child's own component, every node's first component is its own inside value |
| InsideOutside.DownAt | nmt/structs/tree6.py:109 | the root receives `(pe.v[0], lam_root)`, and each child receives `f_out` of its parent's triple and its parent's pair |
| InsideOutsideEncoding.Unpack6 | nmt/structs/tree15.py:8 | unpacking into six names succeeds exactly on six parameters and raises `ValueError` otherwise |
| InsideOutsideEncoding.Inside | nmt/structs/tree15.py:33 | the inside pass keeps the shape |
| InsideOutsideEncoding.InsideAt | nmt/structs/tree15.py:17-33 | inside value = `post((mu_l @ l) * (mu_r @ r) * embed_dim**0.5)`, with `lam_leaf` standing in for a missing child on either side |
| InsideOutsideEncoding.Outside | nmt/structs/tree15.py:34-35 | the outside passes keep the shape |
| InsideOutsideEncoding.FirstIsOwnInside | nmt/structs/tree15.py:19-35 | after the downward pass, each node's first component is `Some` of its own inside value |
| InsideOutsideEncoding.OutsideAt | nmt/structs/tree15.py:19-35 | the root's outside value is `lam_root`; a first child's is the `i,ij,i->j` contraction with the parent's next sibling's inside value or `lam_leaf_r`; a next sibling's is the `i,i,ij->j` contraction with the parent's first child's inside value or `lam_leaf_l` |
| InsideOutsideEncoding.Compose | nmt/structs/tree15.py:32-37 | the embedding has the tree's shape |
| InsideOutsideEncoding.ComposeAt | nmt/structs/tree15.py:30-36 | every node's embedding is `Some(post(inside * outside * embed_dim**0.5))` and is never `None` |
| InsideOutsideEncoding.Embedding15 | nmt/structs/tree15.py:7-37 | tree15 succeeds exactly on six parameters, with the tree's shape |
| InsideOutsideEncoding.Embedding2 | nmt/structs/tree2.py:85-114 | tree2 casts, then succeeds exactly on six parameters, with the tree's shape |
| InsideOutsideEncoding.Prepare6 | nmt/structs/tree6.py:85 | tree6's parameter list keeps its length |
| InsideOutsideEncoding.Embedding6 | nmt/structs/tree6.py:83-114 | tree6 succeeds exactly on eight parameters, raises `ValueError` otherwise, and keeps the tree's shape |
| LogEncoding.Inside | nmt/structs/tree14_log.py:14-36 | the leaf-less inside pass keeps the shape |
| LogEncoding.InsideAt | nmt/structs/tree14_log.py:14-36 | every inside value is present and equals `(mu_l @ l or lam_leaf_l) * (mu_r @ r or lam_leaf_r)` |
| LogEncoding.AuxAt14 | nmt/structs/tree14_log.py:32-37 | with leaf tuple `(lam_leaf_l, lam_leaf_r)`, a missing first child and a missing next sibling both read `lam_leaf_l` |
| LogEncoding.Outside | nmt/structs/tree14_log.py:37-38 | the outside passes keep the shape |
| LogEncoding.FirstIsOwnInside | nmt/structs/tree14_log.py:22-38 | after the downward pass, each node's first component is its own inside value |
| LogEncoding.OutsideAt | nmt/structs/tree14_log.py:22-38 | every outside value is present: `lam_root` at the root, otherwise the four-operand contraction of the parent's outside value with the other side's inside value, or `lam_leaf_l` when that side is missing |
| LogEncoding.Compose | nmt/structs/tree14_log.py:35-40 | the embedding has the tree's shape |
| LogEncoding.ComposeAt | nmt/structs/tree14_log.py:33-39 | every node's embedding is `Some(inside * outside * 512**-0.5)` |
| LogEncoding.Embedding14 | nmt/structs/tree14_log.py:10-40 | tree14_log takes `exp` of each parameter and succeeds exactly on six, with the tree's shape |
| LogEncoding.IgnoresLamLeaf | nmt/structs/tree14_log.py:10-40 | the `lam_leaf` parameter has no influence on the embedding |
| PathEncoding.SideFoldAt | nmt/structs/tree18.py:8-14 | the top-down pass leaves at each node the product of the side matrices along its path, applied to the root value |
| PathEncoding.SideFoldIgnoresValues | nmt/structs/tree18.py:8-14 | trees of the same shape get the same top-down pass |
| PathEncoding.Embedding17c | nmt/structs/tree17c.py:7-11 | tree17c keeps the shape and gives the root `lam` |
| PathEncoding.Embedding17cAt | nmt/structs/tree17c.py:7-11 | each node's embedding is the path product of `mu_l * c_l` and `mu_r * c_r`, applied to `lam` |
| PathEncoding.Embedding17cIgnoresValues | nmt/structs/tree17c.py:7-11 | tree17c depends only on the tree's shape |
| PathEncoding.Down18 | nmt/structs/tree18.py:14 | tree18's down pass keeps the shape |
| PathEncoding.Up18 | nmt/structs/tree18.py:15 | tree18's up pass keeps the shape |
| PathEncoding.Up18At | nmt/structs/tree18.py:10-15 | every up value is present and equals `(mu_l @ l or lam_l) * (mu_r @ r or lam_r) * embed_dim**0.5` |
| PathEncoding.Embedding18 | nmt/structs/tree18.py:7-16 | the zip of the two passes always succeeds, and the result has the tree's shape |
| PathEncoding.Embedding18At | nmt/structs/tree18.py:7-16 | each node's embedding is `Some((path product + up value) * 2**-0.5)` |
| PathEncoding.UpIgnoresValues | nmt/structs/tree18.py:10-15 | trees of the same shape get the same up pass |
| PathEncoding.Embedding18IgnoresValues | nmt/structs/tree18.py:7-16 | tree18 depends only on the tree's shape |
| ParamDicts.Get | nmt/model.py:130 | a key is found exactly when it is among the dict's keys |
| ParamDicts.BindKeywords | nmt/model.py:130 | `**kwargs` binding succeeds exactly when the keys are the parameter names, and then each parameter gets the value stored under its own name; otherwise `TypeError` |
| ParamDicts.FromPairsGet | nmt/structs/tree15.py:57 | in a dict literal with distinct keys, each key maps to the value written beside it |
| ParamDicts.SixUnpack | nmt/structs/tree15.py:42-57 | the dict's values, unpacked in order, bind each of the six names to the tensor stored under that name |
| ParamDicts.Tree6Unpack | nmt/structs/tree6.py:158-178 | tree6's eight values, in order, are those stored under the names they are unpacked into |
| ParamDicts.Tree18Binds | nmt/structs/tree18.py:21-29 | tree18's `get_params` keys bind exactly its keyword parameters, each to its own tensor |
| ParamDicts.Tree17cBinds | nmt/structs/tree17c.py:16-24 | tree17c's `get_params` keys bind exactly its keyword parameters, each to its own tensor |
| ParamDicts.PositionalStructsRejectKeywords | nmt/model.py:128-132 | for tree2/tree15/tree14_log/tree6, the `**struct_params` call raises `TypeError` |
| Transformer.UpperMask | nmt/model.py:123 | `triu(ones, diagonal=1)`: an n-by-n mask whose entry (i, j) is set exactly when j > i |
| Transformer.CornerOfUpperMask | nmt/model.py:126 | the top-left corner of a cached mask is the mask of the smaller size |
| Transformer.Model.GetDecoderMask | nmt/model.py:121-126 | returns the size-by-size mask; rebuilds the cache when it is absent or smaller, otherwise keeps it; the cache never shrinks |
| Transformer.Registrable | nmt/model.py:116-118 | the registered entries are at most the dict's entries |
| Transformer.RegistrableSpec | nmt/model.py:116-118 | an entry is registered exactly when it is in the dict and its name does not end in `__const__` |
| Transformer.Model.AddStructParams | nmt/model.py:112-118 | stores `get_params` (or `{}`), and with `learned_pos_src` appends exactly the registrable entries, in order |
| Transformer.PadMask | nmt/model.py:162 | the mask has the batch's shape and is set exactly at `PAD_ID` positions |
| Transformer.EncoderMasks | nmt/model.py:161-167 | the first mask is the padding mask; the second is the struct's own mask when it has `get_enc_mask`, otherwise the padding mask |
| Transformer.DecodeLimits | nmt/model.py:227-229 | each limit is `min(non-PAD count + 50, max_trg_length)`: at most both, and equal to one of them; hence also at most the sentence length + 50 |
| Transformer.AllPadding | nmt/model.py:227 | a sentence made only of padding counts zero tokens, so its limit is `min(50, max_trg_length)` |
| Transformer.OneRowPerNode | nmt/model.py:131-132 | a flattened embedding has one row per source-tree node, root first, each node's row once |
| Validation.UpToEos | nmt/validator.py:68-70 | the ids kept are a prefix containing no `EOS_ID`, and they stop at the first `EOS_ID` |
| Validation.Lookup | nmt/validator.py:71 | vocabulary lookup succeeds exactly when every id has a word, giving the words in order; otherwise `KeyError` |
| Validation.Translation | nmt/validator.py:66-73 | the translation fails exactly when an id before the first `EOS_ID` is missing from the vocabulary, with `KeyError` |
| Validation.IdsToTrans | nmt/validator.py:66-73 | the loop with its `break` computes `Translation` |
| Validation.SplitJoin | nmt/validator.py:73 | splitting `' '.join(words)` at spaces gives back words that contain no space |
| Validation.TranslationWords | nmt/validator.py:66-73 | the translation splits back into the vocabulary words of the ids before the first `EOS_ID`, in order |
| Validation.FirstIsHighest | nmt/validator.py:76-84 | the first row of the descending order has the highest score in the beam |
| Validation.GetTrans | nmt/validator.py:75-86 | one line per row in descending score order, joined by newlines; the best translation is the top-scoring row's (`None` for an empty beam); `KeyError` exactly when some row fails to translate |
| Validation.ArgMin | nmt/validator.py:217 | `argmin` gives the first index of the smallest score |
| Validation.ArgMax | nmt/validator.py:217 | `argmax` gives the first index of the largest score |
| Validation.Worst | nmt/validator.py:217-218 | the worst kept score is the smallest BLEU or the largest perplexity |
| Validation.IsValidToSave | nmt/validator.py:211-222 | below `n_best`: save and remove nothing. Otherwise BLEU saves when the new score is ≥ the worst (ties replace), perplexity only when strictly < the worst; a removal index always comes with save and is the worst's index; empty lists raise `ValueError` / `IndexError` |
| Validation.Delete | nmt/validator.py:246 | `numpy.delete` removes exactly one occurrence of the entry at the index |
| Validation.Updated | nmt/validator.py:240-262 | the new list is one shorter when a score is removed and one longer when the new score is saved |
| Validation.UpdatedMultiset | nmt/validator.py:240-262 | the new list is the old one minus the removed score, plus the new score when saving (as multisets) |
| Validation.KeepsAtMostNBest | nmt/validator.py:240-262 | a kept list of at most `n_best` scores stays at most `n_best` long |
| Validation.KeptNeverWorse | nmt/validator.py:214-262 | once the list is full, no kept BLEU falls below the old minimum and no kept perplexity rises above the old maximum; a save puts the new score last, and otherwise the list is unchanged |
| Validation.Validator.MaybeSave | nmt/validator.py:224-262 | replaces the deciding metric's list with the updated one, returns whether a checkpoint is saved, leaves the other metric's list alone, keeps the list within `n_best`, and changes nothing on error |

## Left out

- Recursion depth: `construct_tree`, `flatten`, `__str__h`, `map`, `fold_up_tree`, `fold_down_tree`, the folds and `zip` recurse once per node or sibling. CPython stops them with `RecursionError` at about 1000 frames. That can happen on sentences the training configurations allow, since `max_train_length` may be 2000. The model has unbounded recursion and does not capture this error. A `flatten` that fails this way also leaves stale entries in its shared default `lefts` list, which the contract of `Flattening.SharedLefts.Flatten` (it starts and ends with an empty list) does not cover.
- Python assertions are taken as enabled. Under `python -O` the congruence checks of `zip` disappear, so a shape mismatch surfaces as an `AttributeError` on `None`. `Traversals.Zip`, `Traversals.Zip6AsWritten` and `Traversals.Zip2AsWritten` model the assertions.
- Tensor numerics are abstract operations (`Tensors.Ops`), so no statement depends on floating point. Among them: the `einsum` forms are one contraction operation, `normalize`'s norm division is unguarded in the source, `512 ** -0.5` / `embed_dim ** 0.5` are scalars, and `Parameter` wrapping and device placement are left out.
- tree18's `sum(x)` starts from the integer `0`. The model writes it as the plain sum of the pair.
- Mask dimensions `(1, 1, n, n)` and `[bsz, 1, 1, len]` are kept as their last two axes.
- `get_reg_penalty` of every struct, `evaluate_perp`, `evaluate_bleu`, `remove_bpe`, `translate`, all file and numpy saves and loads, checkpoint-file deletion, logging and `torch.save` are left out. These are I/O, subprocesses and floating point.
- `nmt/configurations.py` is static configuration and is not part of this model.
- The `get_params` initialisers (`torch.nn.init.*`, `tree_utils.init_tensor`) are inputs (`inits`). `tree_utils` is not part of this model, so tree15/tree14_log/tree18/tree17c's inherited `Tree` methods are taken to be the tree6 ones, with the corrected `zip`.
- `get_enc_mask` of a struct is an input (`structMask`).
- `ac.PAD_ID` and `ac.EOS_ID` are parameters.
- Validation.GetTrans: `numpy.argsort(scores)[::-1]` is an input order (`rows`) satisfying `Descending`, since the unstable sort's order of ties is not defined. The `{:.2f}` formatting is a parameter `fmt`. The model requires `probs`, `scores` and `symbols` to have the same length, as beam search produces them.
- Validation.IsValidToSave: scores are `real`, so NaN comparisons are not modelled.
- Validation.TranslationWords: it speaks only of vocabulary words without spaces and of a non-empty prefix, since `''.split(' ')` is `['']`.
- MutableTree.Node.MapInPlace: aliasing between the children of distinct nodes is excluded by the `Repr` footprint. A Python tree that shares a subtree would be mapped twice there.
- `Node` truthiness: `if self.l:` is taken as `is not None`, as nodes define no `__bool__` or `__len__`.
- `register_parameter` name collisions and its own validation are not modelled. Registration is a list append.
- The per-element `Parameter(x)` wrapping in `add_struct_params` keeps the same values and is the identity here.

## Findings

| source | as written | input that shows it | evidently intended | confidence | as-written member | corrected member |
|---|---|---|---|---|---|---|
| nmt/structs/tree6.py:75-77 | `self.l is None == other.l is None` is a chained comparison (`self.l is None and None == other.l and other.l is None`), so the assertion holds only when both trees lack the child | a root with one first child, zipped with itself | `zip` accepts exactly the congruent pairs | high, not executed | Traversals.Zip6AsWritten | Traversals.Zip |
| nmt/structs/tree2.py:77-79 | `self.has_left() == other.has_left` compares a `bool` with an uncalled bound method, which is never equal | any two trees, e.g. two single nodes | `other.has_left()`, so that congruent trees zip | high, not executed | Traversals.Zip2AsWritten | Traversals.Zip |
