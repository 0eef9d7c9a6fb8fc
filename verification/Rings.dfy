/** Indices into a ring whose capacity is a power of two. */
module Rings {
  const INITIAL_CAP: nat := 32

  // BigView::ref_at masks `start + i`, which stays below twice the capacity.
  function Wrap(i: nat, capMask: nat): nat {
    if i <= capMask then i else i - capMask - 1
  }

  predicate PowerOfTwo(n: nat) {
    n == 1 || (n > 1 && n % 2 == 0 && PowerOfTwo(n / 2))
  }

  lemma InitialCap()
    ensures PowerOfTwo(INITIAL_CAP)
  {
    assert PowerOfTwo(2) && PowerOfTwo(4);
  }

  lemma {:induction false} Doubled(n: nat)
    requires PowerOfTwo(n)
    ensures PowerOfTwo(2 * n)
  {
    assert 2 * n / 2 == n;
  }

  // Bitwise and of two unsigned numbers.
  function BitAnd(a: nat, b: nat): nat {
    if a == 0 || b == 0 then 0 else 2 * BitAnd(a / 2, b / 2) + (if a % 2 == 1 && b % 2 == 1 then 1 else 0)
  }

  lemma {:induction false} BitStep(a: nat, half: nat)
    requires half >= 1
    ensures BitAnd(a, 2 * half - 1) == 2 * BitAnd(a / 2, half - 1) + a % 2
  {
    assert (2 * half - 1) / 2 == half - 1 && (2 * half - 1) % 2 == 1;
  }

  lemma Multiples(a: nat, b: nat, n: nat)
    requires a <= b
    ensures n * a <= n * b
  {
  }

  lemma Remainder(x: nat, n: nat, q: nat, r: nat)
    requires x == n * q + r && r < n
    ensures x % n == r
  {
    var p := x / n;
    assert x == n * p + x % n;
    if p < q {
      Multiples(p + 1, q, n);
    } else if p > q {
      Multiples(q + 1, p, n);
    }
  }

  lemma Halves(i: nat, half: nat)
    requires half >= 1
    ensures i % (2 * half) == 2 * (i / 2 % half) + i % 2
  {
    var j := i / 2;
    var q, r := j / half, j % half;
    assert j == half * q + r;
    assert 2 * (half * q) == (2 * half) * q;
    Remainder(i, 2 * half, q, 2 * r + i % 2);
  }

  // For a capacity that is a power of two, masking takes the remainder.
  lemma {:induction false} MaskIsRemainder(i: nat, cap: nat)
    requires PowerOfTwo(cap)
    ensures BitAnd(i, cap - 1) == i % cap
    decreases cap
  {
    if cap > 1 {
      var half := cap / 2;
      MaskIsRemainder(i / 2, half);
      hide BitAnd, PowerOfTwo;
      BitStep(i, half);
      Halves(i, half);
      assert cap == 2 * half;
    }
  }

  // So the slot that ref_at takes by masking is the one taken here.
  lemma {:induction false} MaskIsWrap(i: nat, capMask: nat)
    requires PowerOfTwo(capMask + 1) && i <= 2 * capMask + 1
    ensures BitAnd(i, capMask) == Wrap(i, capMask)
  {
    MaskIsRemainder(i, capMask + 1);
    hide BitAnd, PowerOfTwo;
    var n := capMask + 1;
    if i < n {
      Remainder(i, n, 0, i);
    } else {
      Remainder(i, n, 1, i - n);
    }
  }
}
