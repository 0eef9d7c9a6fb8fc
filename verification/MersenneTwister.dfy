/** The Mersenne Twister, which renews its 624 words in place, against the recurrence it
    stands for. */
module MersenneTwister {
  type word = bv32

  const N: nat := 624
  const M: nat := 397
  const MATRIX_A: word := 0x9908_B0DF
  const DEFAULT_SEED: word := 5489

  function Xor(x: word, y: word): word {
    x ^ y
  }

  // ---------- The recurrence ----------

  function SeedStep(prev: word, i: nat): word
    requires i < N
  {
    1812433253 * (prev ^ (prev >> 30)) + (i as word)
  }

  // The top bit of one word and the rest of the next, shifted through the matrix.
  function Twist(u: word, v: word): word {
    var y := (u & 0x8000_0000) | (v & 0x7FFF_FFFF);
    (y >> 1) ^ (if y & 1 == 1 then MATRIX_A else 0)
  }

  // x[k+624] = x[k+397] ^ twist(x[k], x[k+1]), from the seeded words on.
  ghost function X(seed: word, k: nat): word {
    if k == 0 then seed
    else if k < N then SeedStep(X(seed, k - 1), k)
    else Xor(X(seed, k - N + M), Twist(X(seed, k - N), X(seed, k - N + 1)))
  }

  lemma FirstWord(seed: word)
    ensures X(seed, 0) == seed
  {
  }

  lemma {:induction false} SeededWord(seed: word, k: nat)
    requires 0 < k < N
    ensures X(seed, k) == SeedStep(X(seed, k - 1), k)
  {
    hide SeedStep;
  }

  // ---------- Tempering ----------

  function R11(y: word): word { y >> 11 }

  function R18(y: word): word { y >> 18 }

  function T1(y: word): word { Xor(y, R11(y)) }

  function T2(y: word): word { y ^ ((y << 7) & 0x9D2C_5680) }

  function T3(y: word): word { y ^ ((y << 15) & 0xEFC6_0000) }

  function T4(y: word): word { Xor(y, R18(y)) }

  function Temper(y: word): word {
    T4(T3(T2(T1(y))))
  }

  function U1(y: word): word { Xor(Xor(y, R11(y)), R11(R11(y))) }

  function U2Step(y: word, x: word): word { y ^ ((x << 7) & 0x9D2C_5680) }

  function U2(y: word): word {
    U2Step(y, U2Step(y, U2Step(y, U2Step(y, y))))
  }

  function Untemper(y: word): word {
    U1(U2(T3(T4(y))))
  }

  lemma XorFacts(x: word, y: word, z: word)
    ensures Xor(Xor(x, y), z) == Xor(x, Xor(y, z)) && Xor(x, y) == Xor(y, x) && Xor(x, x) == 0 && Xor(x, 0) == x
  {
    XorAssoc(x, y, z);
    hide Xor;
    XorBasics(x, y);
  }

  lemma XorAssoc(x: word, y: word, z: word)
    ensures Xor(Xor(x, y), z) == Xor(x, Xor(y, z))
  {
  }

  lemma XorBasics(x: word, y: word)
    ensures Xor(x, y) == Xor(y, x) && Xor(x, x) == 0 && Xor(x, 0) == x
  {
  }

  lemma R11Xor(x: word, y: word)
    ensures R11(Xor(x, y)) == Xor(R11(x), R11(y)) && R11(R11(R11(x))) == 0
  {
  }

  lemma R18Xor(x: word, y: word)
    ensures R18(Xor(x, y)) == Xor(R18(x), R18(y)) && R18(R18(x)) == 0
  {
  }

  lemma T1Inverse(y: word)
    ensures U1(T1(y)) == y && T1(U1(y)) == y
  {
    hide Xor, R11;
    var a, b := R11(y), R11(R11(y));
    var c := R11(b);
    R11Xor(y, a);
    R11Xor(a, b);
    R11Xor(Xor(y, a), b);
    R11Xor(R11(y), 0);
    XorFacts(y, a, Xor(a, b));
    XorFacts(a, a, b);
    XorFacts(b, 0, 0);
    XorFacts(Xor(y, b), b, 0);
    XorFacts(y, b, b);
    XorFacts(y, 0, 0);
    XorFacts(Xor(y, a), b, Xor(Xor(a, b), 0));
    XorFacts(Xor(a, b), 0, 0);
    XorFacts(b, a, b);
    XorFacts(b, b, a);
    XorFacts(a, b, b);
    XorFacts(b, Xor(a, b), 0);
    XorFacts(a, 0, 0);
    XorFacts(y, a, a);
  }

  lemma T2Inverse(y: word)
    ensures U2(T2(y)) == y
  {
  }

  lemma U2Inverse(y: word)
    ensures T2(U2(y)) == y
  {
  }

  lemma T3Inverse(y: word)
    ensures T3(T3(y)) == y
  {
  }

  lemma T4Inverse(y: word)
    ensures T4(T4(y)) == y
  {
    hide Xor, R18;
    var a := R18(y);
    R18Xor(y, a);
    XorFacts(a, 0, 0);
    XorFacts(y, a, a);
    XorFacts(y, 0, 0);
  }

  // Tempering loses nothing: it is a bijection on words.
  lemma TemperBijection(y: word)
    ensures Untemper(Temper(y)) == y && Temper(Untemper(y)) == y
  {
    hide T1, T2, T3, T4, U1, U2;
    T4Inverse(T3(T2(T1(y))));
    T3Inverse(T2(T1(y)));
    T2Inverse(T1(y));
    T1Inverse(y);
    T4Inverse(y);
    T3Inverse(T4(y));
    U2Inverse(T3(T4(y)));
    T1Inverse(U2(T3(T4(y))));
  }

  class Random {
    const mt: array<word>
    var mti: int

    // The seed, the place of mt[0] in the recurrence, and the values delivered since seeding.
    ghost var seed: word
    ghost var base: nat
    ghost var count: nat

    predicate Unseeded()
      reads this
    {
      mti == N + 1
    }

    ghost predicate Valid()
      reads this, mt
    {
      && mt.Length == N && 0 <= mti <= N + 1
      && (!Unseeded() ==>
           && base + mti == N + count
           && forall i :: 0 <= i < N ==> mt[i] == X(seed, base + i))
    }

    constructor ()
      ensures Valid() && Unseeded() && fresh(mt)
    {
      mt := new word[N];
      mti := N + 1;
    }

    method InitGenrand(s: word)
      requires Valid()
      modifies this, mt
      ensures Valid() && mti == N && seed == s && count == 0
    {
      hide X, SeedStep;
      FirstWord(s);
      mt[0] := s;
      mti := 1;
      while mti < N
        invariant 1 <= mti <= N && forall i :: 0 <= i < mti ==> mt[i] == X(s, i)
      {
        SeededWord(s, mti);
        mt[mti] := SeedStep(mt[mti - 1], mti);
        mti := mti + 1;
      }
      seed, base, count := s, 0, 0;
    }

    // The words from `from` on are still of the last round, those before of the next.
    ghost predicate Renewed(from: nat)
      reads this, mt
    {
      && mt.Length == N && from <= N
      && (forall i :: 0 <= i < from ==> mt[i] == X(seed, base + N + i))
      && (forall i :: from <= i < N ==> mt[i] == X(seed, base + i))
    }

    // One word is replaced by the one 624 places on.
    lemma {:induction false} NextWord(k: nat, a: word, u: word, v: word)
      requires k < N && a == X(seed, base + k + M) && u == X(seed, base + k) && v == X(seed, base + k + 1)
      ensures Xor(a, Twist(u, v)) == X(seed, base + N + k)
    {
      hide Twist, Xor;
      var n := base + N + k;
      assert n - N + M == base + k + M && n - N == base + k && n - N + 1 == base + k + 1;
    }

    // Word `kk` is replaced with the help of word `far`, 397 places on in the recurrence.
    method Replace(kk: nat, far: nat, near: nat)
      requires Renewed(kk) && kk < N && far < N && near < N
      requires mt[far] == X(seed, base + kk + M) && mt[near] == X(seed, base + kk + 1)
      modifies mt
      ensures Renewed(kk + 1)
    {
      hide X, Twist, Xor;
      NextWord(kk, mt[far], mt[kk], mt[near]);
      mt[kk] := Xor(mt[far], Twist(mt[kk], mt[near]));
    }

    // All words are replaced, in place.
    method Renew()
      requires Renewed(0)
      modifies mt
      ensures Renewed(N)
    {
      hide X, Twist, Xor;
      var kk := 0;
      while kk < N - M
        invariant 0 <= kk <= N - M && Renewed(kk)
      {
        Replace(kk, kk + M, kk + 1);
        kk := kk + 1;
      }
      while kk < N - 1
        invariant N - M <= kk <= N - 1 && Renewed(kk)
      {
        Replace(kk, kk + M - N, kk + 1);
        kk := kk + 1;
      }
      Replace(N - 1, M - 1, 0);
    }

    // The n-th value after seeding is the tempered x[624 + n]; without a seed, that of
    // the default one.
    method GenrandInt32() returns (y: word)
      requires Valid()
      modifies this, mt
      ensures Valid() && !Unseeded()
      ensures seed == if old(Unseeded()) then DEFAULT_SEED else old(seed)
      ensures count == if old(Unseeded()) then 1 else old(count) + 1
      ensures y == Temper(X(seed, N + count - 1))
    {
      hide X, T1, T2, T3, T4;
      if mti >= N {
        if mti == N + 1 {
          InitGenrand(DEFAULT_SEED);
        }
        Renew();
        base, mti := base + N, 0;
        assert forall i :: 0 <= i < N ==> mt[i] == X(seed, base + i);
      }
      y := mt[mti];
      mti, count := mti + 1, count + 1;
      y := T1(y);
      y := T2(y);
      y := T3(y);
      y := T4(y);
    }
  }
}
