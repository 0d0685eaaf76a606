/** Division with remainder. */
module Arith {

  lemma ModShift(j: nat, depth: nat)
    requires 0 < depth <= j
    ensures j % depth == (j - depth) % depth && j / depth == (j - depth) / depth + 1
  {
    var q, m := (j - depth) / depth, (j - depth) % depth;
    assert j == depth * (q + 1) + m;
    DivUnique(j, depth, q + 1, m);
  }

  lemma {:induction false} Larger(depth: nat, a: nat, b: nat)
    requires a < b
    ensures depth * a + depth <= depth * b
  {
    if a + 1 < b {
      Larger(depth, a, b - 1);
    }
    assert depth * b == depth * (b - 1) + depth;
  }

  lemma DivUnique(j: nat, depth: nat, q: nat, m: nat)
    requires j == depth * q + m && m < depth
    ensures j / depth == q && j % depth == m
  {
    var a, b := j / depth, j % depth;
    assert j == depth * a + b && 0 <= b < depth;
    if a > q {
      Larger(depth, q, a);
    } else if a < q {
      Larger(depth, a, q);
    }
  }

  lemma {:induction false} DivAdd(x: nat, k: nat, d: nat)
    requires d > 0
    ensures (x + k * d) / d == x / d + k
    decreases k
  {
    if k != 0 {
      DivAdd(x, k - 1, d);
      assert x + k * d == x + (k - 1) * d + d;
      ModShift(x + k * d, d);
    }
  }

  function Pow2(n: nat): (r: nat)
    ensures r >= 1
  {
    if n == 0 then 1 else 2 * Pow2(n - 1)
  }

  lemma {:induction false} Pow2Add(a: nat, b: nat)
    ensures Pow2(a + b) == Pow2(a) * Pow2(b)
  {
    if b != 0 {
      Pow2Add(a, b - 1);
      assert Pow2(a) * Pow2(b) == Pow2(a) * (2 * Pow2(b - 1)) == 2 * (Pow2(a) * Pow2(b - 1));
    }
  }

  lemma {:induction false} Pow2Grows(a: nat, b: nat)
    requires a <= b
    ensures Pow2(a) <= Pow2(b)
  {
    if a < b {
      Pow2Grows(a, b - 1);
    }
  }
}
