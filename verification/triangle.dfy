/** The flat layout of the strictly-lower triangle of an n-by-n matrix:
    pair (i, j) with i < j lives at j*(j-1)/2 + i. */
module Triangle {

  /** Number of strictly-lower cells of a `n`-by-`n` matrix. */
  function Tri(n: nat): nat {
    if n == 0 then 0 else Tri(n - 1) + (n - 1)
  }

  lemma {:induction false} TriFormula(n: nat)
    ensures Tri(n) == n * (n - 1) / 2
  {
    if n > 0 {
      TriFormula(n - 1);
      assert (n - 1) * (n - 2) + 2 * (n - 1) == n * (n - 1);
    }
  }

  lemma {:induction false} TriMonotone(m: nat, n: nat)
    requires m <= n
    ensures Tri(m) <= Tri(n)
    decreases n - m
  {
    if m < n {
      TriMonotone(m, n - 1);
    }
  }

  /** Slot of the pair (i, j), i < j, computed with the formula of the
      store; row j occupies the slots [Tri(j), Tri(j + 1)). */
  function Index(i: nat, j: nat): (k: nat)
    requires i < j
    ensures Tri(j) <= k < Tri(j + 1)
    ensures k == Tri(j) + i
  {
    TriFormula(j);
    j * (j - 1) / 2 + i
  }

  /** Every strictly-lower pair of an n-by-n matrix has a slot in [0, Tri(n)). */
  lemma IndexInBounds(i: nat, j: nat, n: nat)
    requires i < j < n
    ensures Index(i, j) < Tri(n)
  {
    TriMonotone(j + 1, n);
  }

  /** Distinct pairs never share a slot. */
  lemma IndexInjective(i: nat, j: nat, i': nat, j': nat)
    requires i < j && i' < j'
    requires Index(i, j) == Index(i', j')
    ensures i == i' && j == j'
  {
    if j < j' {
      TriMonotone(j + 1, j');
    } else if j' < j {
      TriMonotone(j' + 1, j);
    }
  }

  /** The pair stored at slot `k`, found by walking the rows from `j`. */
  function UnindexFrom(k: nat, j: nat): (p: (nat, nat))
    requires 1 <= j && Tri(j) <= k
    ensures p.0 < p.1 && Index(p.0, p.1) == k
    decreases k - Tri(j)
  {
    if k < Tri(j + 1) then (k - Tri(j), j)
    else UnindexFrom(k, j + 1)
  }

  /** The pair stored at slot `k`: the inverse of `Index`. */
  function Unindex(k: nat): (p: (nat, nat))
    ensures p.0 < p.1 && Index(p.0, p.1) == k
  {
    UnindexFrom(k, 1)
  }

  /** Every slot below Tri(n) belongs to a pair of an n-by-n matrix, so
      `Index` is a bijection from those pairs onto [0, Tri(n)). */
  lemma IndexOnto(k: nat, n: nat)
    requires k < Tri(n)
    ensures Unindex(k).1 < n
  {
    var p := Unindex(k);
    if n <= p.1 {
      TriMonotone(n, p.1);
    }
  }

  /** Unindex undoes Index. */
  lemma UnindexIndex(i: nat, j: nat)
    requires i < j
    ensures Unindex(Index(i, j)) == (i, j)
  {
    var p := Unindex(Index(i, j));
    IndexInjective(i, j, p.0, p.1);
  }
}
