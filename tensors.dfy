/**
 * The tensor arithmetic the positional encodings use, left uninterpreted.
 * `X` stands for a torch tensor of any shape (vector, matrix or scalar
 * tensor) and `S` for a Python float; the encodings are proved correct
 * for every choice of these operations, so nothing below depends on
 * floating point.
 */
module Tensors {

  datatype Ops<!X, !S> = Ops(
    cast: X -> X,                 // `x.type(dtype)`: change of precision or device
    matmul: (X, X) -> X,          // `a @ b`
    mul: (X, X) -> X,             // `a * b`, elementwise with broadcasting
    add: (X, X) -> X,             // `a + b`
    scale: (X, S) -> X,           // `a * s` for a Python float `s`
    contract: (X, X, X) -> X,     // `einsum("i,i,ij->j", a, b, m)`: the sum over i of a[i] b[i] m[i, j]
    exp: X -> X,                  // `torch.exp`
    normalize: (X, nat) -> X,     // `normalize(t, embed_dim)` of nmt/structs/tree6.py
    root: nat -> S,               // `n ** 0.5`
    invRoot: nat -> S             // `n ** -0.5`
  )
}
