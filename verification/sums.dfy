/**
 * Finite sums and square matrices, the arithmetic the objective is built from.
 */
module Sums {

  type Matrix = seq<seq<real>>

  /** An n-by-n table. */
  predicate IsSquare(m: Matrix, n: nat) {
    |m| == n && forall r :: 0 <= r < n ==> |m[r]| == n
  }

  /** Entry (r, c) of `m`, read as 0 outside the table. */
  function Get(m: Matrix, r: int, c: int): real {
    if 0 <= r < |m| && 0 <= c < |m[r]| then m[r][c] else 0.0
  }

  /** The 0/1 value of a binary decision. */
  function Ind(b: bool): real {
    if b then 1.0 else 0.0
  }

  /** f(0) + f(1) + ... + f(n-1). */
  function Sum(n: nat, f: int -> real): real {
    if n == 0 then 0.0 else Sum(n - 1, f) + f(n - 1)
  }

  /** Sums of functions that agree on the range are equal. */
  lemma {:induction false} SumCongruent(n: nat, f: int -> real, g: int -> real)
    requires forall t :: 0 <= t < n ==> f(t) == g(t)
    ensures Sum(n, f) == Sum(n, g)
  {
    if n > 0 { SumCongruent(n - 1, f, g); }
  }

  /** A sum whose terms vanish everywhere in range except at q is its q-th term. */
  lemma {:induction false} SumSingleTerm(n: nat, f: int -> real, q: nat)
    requires q < n
    requires forall t :: 0 <= t < n && t != q ==> f(t) == 0.0
    ensures Sum(n, f) == f(q)
  {
    if q == n - 1 {
      SumOfZeros(n - 1, f);
    } else {
      SumSingleTerm(n - 1, f, q);
    }
  }

  lemma {:induction false} SumOfZeros(n: nat, f: int -> real)
    requires forall t :: 0 <= t < n ==> f(t) == 0.0
    ensures Sum(n, f) == 0.0
  {
    if n > 0 { SumOfZeros(n - 1, f); }
  }
}
