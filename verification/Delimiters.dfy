/** How cut_until recognises a delimiter of several bytes: a 64-bit rolling signature,
    into which bytes are shifted sign-extended, is compared with the signature of the
    delimiter. This file says exactly for which delimiters that finds the first
    occurrence in every buffer. */
module Delimiters {
  import opened Blocks
  import opened Wrappers

  const ONES: bv64 := 0xFFFF_FFFF_FFFF_FFFF

  // static_cast<unsigned long>(char), where char is signed.
  function Sext(b: byte): bv64 {
    if b >= 0x80 then 0xFFFF_FFFF_FFFF_FF00 | (b as bv64) else b as bv64
  }

  function Shift(sig: bv64, b: byte): bv64 {
    (sig << 8) | Sext(b)
  }

  function And(x: bv64, y: bv64): bv64 {
    x & y
  }

  function Or(x: bv64, y: bv64): bv64 {
    x | y
  }

  function Widen(m: bv64): bv64 {
    (m << 8) | 0xFF
  }

  // The signature of the delimiter.
  function Pack(d: seq<byte>): bv64 {
    if d == [] then 0 else Shift(Pack(d[..|d| - 1]), d[|d| - 1])
  }

  // The rolling signature after the bytes of `c`.
  function Roll(c: seq<byte>, mask: bv64): bv64 {
    if c == [] then 0 else And(Shift(Roll(c[..|c| - 1], mask), c[|c| - 1]), mask)
  }

  // The low `k` bytes set.
  function Mask(k: nat): bv64 {
    if k == 0 then 0 else Widen(Mask(k - 1))
  }

  // The signatures agree at the byte with index `n`.
  predicate Hit(c: seq<byte>, d: seq<byte>, n: nat)
    requires n < |c|
  {
    Roll(c[..n + 1], Mask(|d|)) == Pack(d)
  }

  // The first index at which the signatures agree.
  function Search(c: seq<byte>, d: seq<byte>, from: nat): (r: Option<nat>)
    decreases |c| - from
    ensures r.Some? ==> from <= r.value < |c| && Hit(c, d, r.value)
    ensures forall n :: from <= n < (if r.Some? then r.value else |c|) ==> !Hit(c, d, n)
  {
    if from >= |c| then None
    else if Hit(c, d, from) then Some(from)
    else Search(c, d, from + 1)
  }

  predicate OccursAt(c: seq<byte>, d: seq<byte>, k: nat) {
    k + |d| <= |c| && c[k..k + |d|] == d
  }

  // `k` is the index of the first occurrence of `d`.
  ghost predicate FirstAt(c: seq<byte>, d: seq<byte>, k: nat) {
    OccursAt(c, d, k) && forall j: nat :: j < k ==> !OccursAt(c, d, j)
  }

  ghost predicate Absent(c: seq<byte>, d: seq<byte>) {
    forall j: nat :: !OccursAt(c, d, j)
  }

  // The search finds the first occurrence, or nothing exactly when there is none.
  ghost predicate Correct(c: seq<byte>, d: seq<byte>) {
    match Search(c, d, 0)
    case None => Absent(c, d)
    case Some(n) => |d| <= n + 1 && FirstAt(c, d, n + 1 - |d|)
  }

  // ---------- Bits ----------

  const TOP: bv64 := 0xFF00_0000_0000_0000

  lemma {:induction false} LastByte(sig: bv64, ds: bv64, b: byte, d: byte, m: bv64)
    requires d < 0x80 && And(m, TOP) == 0
    ensures And(Shift(sig, b), Widen(m)) == And(Shift(ds, d), Widen(m)) <==> b == d && And(sig, m) == And(ds, m)
  {
    hide And, Shift, Widen;
    if And(Shift(sig, b), Widen(m)) == And(Shift(ds, d), Widen(m)) {
      SameLow(sig, ds, b, d, m);
      SameHigh(sig, ds, d, m);
    }
    if b == d && And(sig, m) == And(ds, m) {
      SameAll(sig, ds, d, m);
    }
  }

  lemma {:induction false} SameLow(sig: bv64, ds: bv64, b: byte, d: byte, m: bv64)
    requires And(Shift(sig, b), Widen(m)) == And(Shift(ds, d), Widen(m))
    ensures b == d
  {
    LowByte(sig, b, m);
    LowByte(ds, d, m);
    hide And, Shift, Widen;
    SameByte(b, d);
  }

  lemma {:induction false} LowByte(sig: bv64, b: byte, m: bv64)
    ensures And(And(Shift(sig, b), Widen(m)), 0xFF) == b as bv64
  {
  }

  lemma {:induction false} SameByte(b: byte, d: byte)
    requires b as bv64 == d as bv64
    ensures b == d
  {
  }

  lemma {:induction false} SameHigh(sig: bv64, ds: bv64, d: byte, m: bv64)
    requires d < 0x80 && And(m, TOP) == 0 && And(Shift(sig, d), Widen(m)) == And(Shift(ds, d), Widen(m))
    ensures And(sig, m) == And(ds, m)
  {
    HighBytes(sig, d, m);
    HighBytes(ds, d, m);
  }

  lemma {:induction false} HighBytes(sig: bv64, d: byte, m: bv64)
    requires d < 0x80 && And(m, TOP) == 0
    ensures And(Shift(sig, d), Widen(m)) >> 8 == And(sig, m)
  {
  }

  lemma {:induction false} SameAll(sig: bv64, ds: bv64, d: byte, m: bv64)
    requires d < 0x80 && And(sig, m) == And(ds, m)
    ensures And(Shift(sig, d), Widen(m)) == And(Shift(ds, d), Widen(m))
  {
    hide And, Or, Shift, Widen;
    BothParts(sig, d, m);
    BothParts(ds, d, m);
  }

  lemma {:induction false} BothParts(sig: bv64, d: byte, m: bv64)
    requires d < 0x80
    ensures And(Shift(sig, d), Widen(m)) == Or(And(sig, m) << 8, d as bv64)
  {
  }

  lemma {:induction false} OnlyByte(sig: bv64, b: byte, d: byte)
    ensures And(Shift(sig, b), 0xFF) == And(Shift(0, d), 0xFF) <==> b == d
  {
  }

  lemma {:induction false} HighByteForgets(x: bv64, y: bv64, b: byte)
    requires b >= 0x80
    ensures Shift(x, b) == Shift(y, b) && Or(Shift(x, b), 0xFF) == ONES
  {
  }

  lemma {:induction false} OnesShift(x: bv64, b: byte, m: bv64)
    requires Or(x, m) == ONES
    ensures Or(Shift(x, b), Widen(m)) == ONES
  {
  }

  lemma {:induction false} ZeroByte(m: bv64)
    ensures Shift(0, 0) == 0 && And(0, m) == 0
  {
  }

  lemma {:induction false} LowStays(x: bv64, b: byte, m: bv64)
    requires b < 0x80 && And(x, m) == x && And(m, TOP) == 0
    ensures And(Shift(x, b), Widen(m)) == Shift(x, b)
  {
  }

  lemma {:induction false} WidenSub(x: bv64, y: bv64)
    requires And(x, y) == y
    ensures And(Widen(x), Widen(y)) == Widen(y)
  {
  }

  lemma {:induction false} Absorb(x: bv64, m: bv64, l: bv64)
    requires And(m, l) == l
    ensures And(And(x, m), l) == And(x, l)
  {
  }

  lemma {:induction false} AndSelf(m: bv64)
    ensures And(m, m) == m && And(m, 0) == 0 && And(m, ONES) == m
  {
  }

  lemma {:induction false} MaskValues()
    ensures Mask(1) == 0xFF && Mask(2) == 0xFFFF && Mask(3) == 0xFF_FFFF && Mask(4) == 0xFFFF_FFFF
    ensures Mask(5) == 0xFF_FFFF_FFFF && Mask(6) == 0xFFFF_FFFF_FFFF && Mask(7) == 0xFF_FFFF_FFFF_FFFF
    ensures Mask(8) == ONES
  {
    assert Mask(1) == 0xFF && Mask(2) == 0xFFFF;
    assert Mask(3) == 0xFF_FFFF && Mask(4) == 0xFFFF_FFFF;
    assert Mask(5) == 0xFF_FFFF_FFFF && Mask(6) == 0xFFFF_FFFF_FFFF;
  }

  lemma {:induction false} MaskTop(k: nat)
    requires k <= 7
    ensures And(Mask(k), TOP) == 0
  {
    MaskValues();
  }

  lemma {:induction false} MaskSub(k: nat, n: nat)
    requires k <= n
    ensures And(Mask(n), Mask(k)) == Mask(k)
  {
    hide And, Widen;
    if k == 0 {
      AndSelf(Mask(n));
    } else {
      MaskSub(k - 1, n - 1);
      WidenSub(Mask(n - 1), Mask(k - 1));
    }
  }

  // ---------- Windows ----------

  predicate LowTail(d: seq<byte>) {
    forall i :: 1 <= i < |d| ==> d[i] < 0x80
  }

  lemma {:induction false} PackOne(l: byte)
    ensures Pack([l]) == Shift(0, l)
  {
    assert [l][..0] == [];
  }

  lemma {:induction false} RollIs(c: seq<byte>, m: bv64)
    requires c != []
    ensures Roll(c, m) == And(Shift(Roll(c[..|c| - 1], m), c[|c| - 1]), m)
  {
    hide And, Shift;
  }

  lemma {:induction false} PackIs(d: seq<byte>)
    requires d != []
    ensures Pack(d) == Shift(Pack(d[..|d| - 1]), d[|d| - 1])
  {
    hide Shift;
  }

  lemma {:induction false} MaskIs(k: nat)
    requires k > 0
    ensures Mask(k) == Widen(Mask(k - 1))
  {
    hide Widen;
  }

  lemma {:induction false} FrontTail(d: seq<byte>)
    requires |d| > 1 && LowTail(d)
    ensures LowTail(d[..|d| - 1]) && d[|d| - 1] < 0x80
  {
  }

  lemma {:induction false} SuffixSplit(c: seq<byte>, d: seq<byte>)
    requires 1 <= |d| <= |c|
    ensures var c', b, d', l := c[..|c| - 1], c[|c| - 1], d[..|d| - 1], d[|d| - 1];
      c[|c| - |d|..] == d <==> b == l && c'[|c'| - |d'|..] == d'
  {
    var c', b, d', l := c[..|c| - 1], c[|c| - 1], d[..|d| - 1], d[|d| - 1];
    assert c[|c| - |d|..] == c'[|c'| - |d'|..] + [b];
    assert d == d' + [l];
  }

  // The low bytes of the signature agree exactly when the last bytes do.
  lemma {:induction false} SuffixMatch(c: seq<byte>, d: seq<byte>, n: nat)
    requires 1 <= |d| <= n && |d| <= 8 && |d| <= |c| && LowTail(d)
    ensures And(Roll(c, Mask(n)), Mask(|d|)) == And(Pack(d), Mask(|d|)) <==> c[|c| - |d|..] == d
  {
    hide *;
    var k := |d|;
    var c', b := c[..|c| - 1], c[|c| - 1];
    var d', l := d[..k - 1], d[k - 1];
    RollIs(c, Mask(n));
    PackIs(d);
    MaskIs(k);
    MaskSub(k, n);
    Absorb(Shift(Roll(c', Mask(n)), b), Mask(n), Mask(k));
    SuffixSplit(c, d);
    if k == 1 {
      MaskValues();
      PackOne(l);
      assert d == [l];
      OnlyByte(Roll(c', Mask(n)), b, l);
    } else {
      FrontTail(d);
      MaskTop(k - 1);
      LastByte(Roll(c', Mask(n)), Pack(d'), b, l, Mask(k - 1));
      SuffixMatch(c', d', n);
    }
  }

  lemma {:induction false} RollPad(j: nat, c: seq<byte>, m: bv64)
    ensures Roll(seq(j, _ => 0 as byte) + c, m) == Roll(c, m)
  {
    hide And, Shift;
    var z := seq(j, _ => 0 as byte);
    if c != [] {
      RollPad(j, c[..|c| - 1], m);
      assert (z + c)[..|z + c| - 1] == z + c[..|c| - 1];
    } else if j > 0 {
      RollPad(j - 1, [], m);
      assert z + c == z && z[..j - 1] == seq(j - 1, _ => 0 as byte) + [];
      ZeroByte(m);
    }
  }

  // Before enough bytes have been seen, the signature has a zero where the delimiter does not.
  lemma {:induction false} TooShort(c: seq<byte>, d: seq<byte>, n: nat)
    requires |c| < |d| <= n && |d| <= 8 && LowTail(d) && d[0] != 0
    ensures And(Roll(c, Mask(n)), Mask(|d|)) != And(Pack(d), Mask(|d|))
  {
    hide And, Shift, Widen, Mask, Roll, Pack;
    var j := |d| - |c|;
    var p := seq(j, _ => 0 as byte) + c;
    RollPad(j, c, Mask(n));
    SuffixMatch(p, d, n);
    assert p[0] == 0 && p[|p| - |d|..] == p;
  }

  lemma {:induction false} PackLow(d: seq<byte>)
    requires |d| <= 8 && forall i :: 0 <= i < |d| ==> d[i] < 0x80
    ensures And(Pack(d), Mask(|d|)) == Pack(d)
  {
    hide And, Shift, Widen;
    if d == [] {
      AndSelf(0);
    } else {
      PackLow(d[..|d| - 1]);
      MaskTop(|d| - 1);
      LowStays(Pack(d[..|d| - 1]), d[|d| - 1], Mask(|d| - 1));
    }
  }

  // ---------- The exact condition ----------

  // Up to eight bytes, the first not zero, and none with its top bit set but the first
  // of eight.
  predicate Good(d: seq<byte>) {
    && 1 <= |d| <= 8
    && d[0] != 0
    && LowTail(d)
    && (d[0] < 0x80 || |d| == 8)
  }

  lemma {:induction false} PackFits(d: seq<byte>)
    requires Good(d)
    ensures And(Pack(d), Mask(|d|)) == Pack(d)
  {
    hide And;
    if |d| == 8 {
      MaskValues();
      AndSelf(Pack(d));
    } else {
      PackLow(d);
    }
  }

  lemma {:induction false} RollFits(c: seq<byte>, m: bv64)
    ensures And(Roll(c, m), m) == Roll(c, m)
  {
    hide And, Shift;
    if c == [] {
      ZeroByte(m);
    } else {
      AndSelf(m);
      Absorb(Shift(Roll(c[..|c| - 1], m), c[|c| - 1]), m, m);
    }
  }

  lemma {:induction false} HitIsOccurrence(c: seq<byte>, d: seq<byte>, n: nat)
    requires Good(d) && n < |c|
    ensures Hit(c, d, n) <==> |d| <= n + 1 && OccursAt(c, d, n + 1 - |d|)
  {
    hide Mask, And, Roll, Pack;
    var p := c[..n + 1];
    PackFits(d);
    RollFits(p, Mask(|d|));
    if |d| <= n + 1 {
      SuffixMatch(p, d, |d|);
      assert p[|p| - |d|..] == c[n + 1 - |d|..n + 1];
    } else {
      TooShort(p, d, |d|);
    }
  }

  // A good delimiter is found correctly in every buffer.
  lemma {:induction false} GoodIsCorrect(c: seq<byte>, d: seq<byte>)
    requires Good(d)
    ensures Correct(c, d)
  {
    hide Hit;
    forall n: nat | n < |c| ensures Hit(c, d, n) <==> |d| <= n + 1 && OccursAt(c, d, n + 1 - |d|) {
      HitIsOccurrence(c, d, n);
    }
    var r := Search(c, d, 0);
    forall j: nat | (r.Some? ==> j + |d| < r.value + 1) ensures !OccursAt(c, d, j) {
      if j + |d| <= |c| {
        assert !Hit(c, d, j + |d| - 1);
      }
    }
  }

  // ---------- Why no other delimiter works ----------

  lemma {:induction false} OnesReachTop(x: bv64, m: bv64)
    requires Or(x, m) == ONES && And(m, TOP) == 0
    ensures And(x, TOP) == TOP
  {
  }

  lemma {:induction false} FitsBelowTop(x: bv64, m: bv64)
    requires And(x, m) == x && And(m, TOP) == 0
    ensures And(x, TOP) == 0
  {
  }

  lemma {:induction false} FitsWider(x: bv64, l: bv64, m: bv64)
    requires And(x, l) == x && And(m, l) == l
    ensures And(x, m) == x
  {
  }

  lemma {:induction false} PackOnes(d: seq<byte>, i: nat)
    requires i < |d| && d[i] >= 0x80
    ensures Or(Pack(d), Mask(|d| - i)) == ONES
  {
    hide Or, Shift, Widen;
    var d' := d[..|d| - 1];
    if i == |d| - 1 {
      HighByteForgets(Pack(d'), 0, d[i]);
      assert Mask(1) == 0xFF by { MaskValues(); }
    } else {
      PackOnes(d', i);
      OnesShift(Pack(d'), d[|d| - 1], Mask(|d'| - i));
    }
  }

  // A high byte leaves bits above the mask: nothing ever matches.
  lemma {:induction false} NeverHits(c: seq<byte>, d: seq<byte>, i: nat, n: nat)
    requires |d| < 8 && i < |d| && d[i] >= 0x80 && n < |c|
    ensures !Hit(c, d, n)
  {
    hide And, Or, Mask, Pack, Roll;
    PackOnes(d, i);
    MaskTop(|d| - i);
    OnesReachTop(Pack(d), Mask(|d| - i));
    RollFits(c[..n + 1], Mask(|d|));
    MaskTop(|d|);
    FitsBelowTop(Roll(c[..n + 1], Mask(|d|)), Mask(|d|));
  }

  lemma {:induction false} HighIsMissed(d: seq<byte>, i: nat)
    requires |d| < 8 && i < |d| && d[i] >= 0x80
    ensures !Correct(d, d)
  {
    hide Hit;
    assert OccursAt(d, d, 0);
    var r := Search(d, d, 0);
    if r.Some? {
      NeverHits(d, d, i, r.value);
    }
  }

  // In eight bytes a high byte erases those before it: a different window matches.
  lemma {:induction false} PackForgets(x: seq<byte>, y: seq<byte>, z: seq<byte>)
    requires z != [] && z[0] >= 0x80
    ensures Pack(x + z) == Pack(y + z)
  {
    hide Shift;
    var k := |z| - 1;
    assert (x + z)[..|x + z| - 1] == x + z[..k] && (y + z)[..|y + z| - 1] == y + z[..k];
    if k == 0 {
      HighByteForgets(Pack(x), Pack(y), z[0]);
      assert x + [] == x && y + [] == y;
    } else {
      PackForgets(x, y, z[..k]);
    }
  }

  lemma {:induction false} RollAllOnes(c: seq<byte>)
    ensures Roll(c, ONES) == Pack(c)
  {
    hide And, Shift;
    if c != [] {
      RollAllOnes(c[..|c| - 1]);
      AndSelf(Pack(c));
    }
  }

  lemma {:induction false} OtherWindowMatches(d: seq<byte>, i: nat) returns (c: seq<byte>)
    requires |d| == 8 && 1 <= i < 8 && d[i] >= 0x80
    ensures |c| == 8 && !Correct(c, d)
  {
    var y := d[..i][0 := if d[0] == 0 then 1 else 0];
    c := y + d[i..];
    assert Mask(8) == ONES by { MaskValues(); }
    hide Mask, Roll, Pack;
    PackForgets(d[..i], y, d[i..]);
    assert d[..i] + d[i..] == d && c[..8] == c;
    RollAllOnes(c);
    assert Hit(c, d, 7);
    assert c[0] != d[0];
    var r := Search(c, d, 0);
    if r.Some? && 8 <= r.value + 1 {
      assert !OccursAt(c, d, 0);
    }
  }

  lemma {:induction false} PackZero(x: seq<byte>)
    ensures Pack([0] + x) == Pack(x)
  {
    hide Shift;
    if x == [] {
      PackOne(0);
      ZeroByte(0);
      assert [0 as byte] + x == [0];
    } else {
      assert ([0 as byte] + x)[..|x|] == [0] + x[..|x| - 1];
      PackZero(x[..|x| - 1]);
    }
  }

  lemma {:induction false} RollIsPack(x: seq<byte>, n: nat)
    requires |x| <= n && |x| <= 8 && forall i :: 0 <= i < |x| ==> x[i] < 0x80
    ensures Roll(x, Mask(n)) == Pack(x)
  {
    hide And, Shift, Widen;
    if x != [] {
      RollIsPack(x[..|x| - 1], n);
      PackLow(x);
      MaskSub(|x|, n);
      FitsWider(Pack(x), Mask(|x|), Mask(n));
    }
  }

  // A leading zero matches before the whole delimiter can have been seen.
  lemma {:induction false} ZeroMatchesEarly(d: seq<byte>)
    requires 2 <= |d| <= 8 && d[0] == 0 && LowTail(d)
    ensures !Correct(d[1..] + [0], d)
  {
    hide Mask, Roll, Pack;
    var c := d[1..] + [0];
    assert d == [0] + d[1..];
    PackZero(d[1..]);
    RollIsPack(d[1..], |d|);
    assert c[..|d| - 1] == d[1..];
    assert Hit(c, d, |d| - 2);
  }

  // Every delimiter of two to eight bytes that is not good goes wrong in some buffer.
  lemma {:induction false} BadIsWrong(d: seq<byte>) returns (c: seq<byte>)
    requires 2 <= |d| <= 8 && !Good(d)
    ensures |d| <= |c| && !Correct(c, d)
  {
    if i :| 0 <= i < |d| && d[i] >= 0x80 && |d| < 8 {
      HighIsMissed(d, i);
      return d;
    } else if i :| 1 <= i < |d| && d[i] >= 0x80 {
      c := OtherWindowMatches(d, i);
    } else {
      ZeroMatchesEarly(d);
      return d[1..] + [0];
    }
  }

  // Delimiters of two to eight bytes are found correctly in all buffers exactly when good.
  lemma {:induction false} GoodExactly(d: seq<byte>)
    requires 2 <= |d| <= 8
    ensures Good(d) <==> forall c :: |d| <= |c| ==> Correct(c, d)
  {
    if Good(d) {
      forall c | |d| <= |c| ensures Correct(c, d) { GoodIsCorrect(c, d); }
    } else {
      var c := BadIsWrong(d);
    }
  }
}
