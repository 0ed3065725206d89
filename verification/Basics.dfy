/** Instants, in nanoseconds of a clock that the caller reads. */
module Clock {
  type Instant = int

  const SECOND: nat := 1_000_000_000

  /** Elapsed time, zero for an instant in the future. */
  function Since(now: Instant, earlier: Instant): nat {
    if earlier <= now then now - earlier else 0
  }
}

/** Cardinalities of finite sets. */
module Sets {
  lemma SubsetSize<T>(a: set<T>, b: set<T>)
    requires a <= b
    ensures |a| <= |b|
  {
    assert b == a + (b - a);
  }

  function Indices(n: nat): (r: set<nat>)
    ensures |r| == n && forall j: nat :: j in r <==> j < n
  {
    if n == 0 then {} else Indices(n - 1) + {n - 1}
  }
}

/** Maximum, and facts about rounding-down division by a positive number. */
module Arithmetic {
  function Max(x: int, y: int): int {
    if x < y then y else x
  }

  lemma MulMonotone(a: nat, b: nat, l: nat)
    requires a <= b
    ensures a * l <= b * l
  {
    assert b * l == a * l + (b - a) * l;
  }

  lemma DivUnique(x: nat, l: nat, q: nat)
    requires l > 0 && q * l <= x < q * l + l
    ensures x / l == q
  {
    var r := x / l;
    assert x == l * r + x % l;
    assert q * l - r * l < l && r * l - q * l < l;
    if r < q { MulMonotone(r + 1, q, l); }
    if q < r { MulMonotone(q + 1, r, l); }
  }

  lemma DivShift(x: nat, l: nat)
    requires l > 0
    ensures (x + l) / l == x / l + 1
  {
    var q := x / l;
    assert x == l * q + x % l;
    assert (q + 1) * l == l * q + l;
    DivUnique(x + l, l, q + 1);
  }

  lemma {:induction false} DivMonotone(x: nat, y: nat, l: nat)
    requires l > 0 && x <= y
    ensures x / l <= y / l
  {
    if x >= l {
      DivMonotone(x - l, y - l, l);
      DivShift(x - l, l);
      DivShift(y - l, l);
    } else {
      assert x / l == 0;
    }
  }

  lemma DivStep(x: nat, y: nat, l: nat)
    requires l > 0 && x + l <= y
    ensures x / l + 1 <= y / l
  {
    DivMonotone(x + l, y, l);
    DivShift(x, l);
  }
}
