/** CRC32C as what it is meant to be: the remainder of a division of polynomials over two
    elements. A polynomial is the sequence of its coefficients, that of the highest power
    first. */
module Crc32cRemainder {
  import opened Crc32c

  // The exponents of the generator, section 12.1 of RFC 3720.
  const EXPONENTS: seq<int> := [32, 28, 27, 26, 25, 23, 22, 20, 19, 18, 14, 13, 11, 10, 9, 8, 6, 0]

  function Generator(): (g: seq<bool>)
    ensures |g| == 33 && forall i :: 0 <= i < 33 ==> g[i] == (32 - i in EXPONENTS)
  {
    seq(33, i => 32 - i in EXPONENTS)
  }

  function Zeros(n: nat): (z: seq<bool>)
    ensures |z| == n
  {
    seq(n, _ => false)
  }

  function Plus(a: seq<bool>, b: seq<bool>): (c: seq<bool>)
    requires |a| == |b|
    ensures |c| == |a| && forall i :: 0 <= i < |a| ==> c[i] == (a[i] != b[i])
  {
    seq(|a|, i requires 0 <= i < |a| == |b| => a[i] != b[i])
  }

  function Scaled(x: bool, g: seq<bool>): (s: seq<bool>)
    ensures |s| == |g|
  {
    if x then g else Zeros(|g|)
  }

  // The product with the generator.
  function Times(q: seq<bool>): (p: seq<bool>)
    ensures |p| == |q| + 32
  {
    if q == [] then Zeros(32)
    else Plus(Scaled(q[0], Generator()) + Zeros(|q| - 1), [false] + Times(q[1..]))
  }

  ghost predicate IsRemainder(a: seq<bool>, q: seq<bool>, r: seq<bool>) {
    |a| == |q| + 32 && |r| == 32 && a == Plus(Times(q), Zeros(|q|) + r)
  }

  // ---------- Long division ----------

  function Reduced(a: seq<bool>): (b: seq<bool>)
    requires |a| > 32
    ensures |b| == |a| - 1
  {
    Plus(a, Scaled(a[0], Generator()) + Zeros(|a| - 33))[1..]
  }

  function Remainder(a: seq<bool>): (r: seq<bool>)
    requires |a| >= 32
    ensures |r| == 32
    decreases |a|
  {
    if |a| == 32 then a else Remainder(Reduced(a))
  }

  lemma {:induction false} PlusAssoc(a: seq<bool>, b: seq<bool>, c: seq<bool>)
    requires |a| == |b| == |c|
    ensures Plus(Plus(a, b), c) == Plus(a, Plus(b, c)) && Plus(a, b) == Plus(b, a) && Plus(Plus(a, b), b) == a
  {
  }

  lemma {:induction false} PlusZeros(a: seq<bool>)
    ensures Plus(Zeros(|a|), a) == a && Plus(a, Zeros(|a|)) == a
  {
  }

  // A dividend is the generator in front, where there is one, and the rest of the division.
  lemma {:induction false} ReducedIs(a: seq<bool>)
    requires |a| > 32
    ensures a == Plus(Scaled(a[0], Generator()) + Zeros(|a| - 33), [false] + Reduced(a))
  {
    var g := Scaled(a[0], Generator()) + Zeros(|a| - 33);
    Leading(a[0]);
    assert Plus(a, g) == [false] + Reduced(a);
    PlusAssoc(a, g, g);
    PlusAssoc(g, Plus(a, g), g);
  }

  lemma {:induction false} Leading(x: bool)
    ensures Scaled(x, Generator())[0] == x
  {
  }

  // Long division finds the quotient.
  lemma {:induction false} Divided(a: seq<bool>) returns (q: seq<bool>)
    requires |a| >= 32
    ensures IsRemainder(a, q, Remainder(a))
    decreases |a|
  {
    hide Reduced, Scaled, Zeros, Plus;
    if |a| == 32 {
      q := [];
      PlusZeros(a);
      NoZeros(a);
    } else {
      var q' := Divided(Reduced(a));
      q := [a[0]] + q';
      assert q[1..] == q';
      var g, r := Scaled(a[0], Generator()) + Zeros(|q'|), Remainder(a);
      ReducedIs(a);
      PlusFront(Times(q'), Zeros(|q'|) + r);
      OneMoreZero(|q'|, r);
      PlusAssoc(g, [false] + Times(q'), Zeros(|q|) + r);
    }
  }

  lemma {:induction false} NoZeros(r: seq<bool>)
    ensures Zeros(0) + r == r
  {
  }

  lemma {:induction false} OneMoreZero(n: nat, r: seq<bool>)
    ensures Zeros(n + 1) + r == [false] + (Zeros(n) + r)
  {
  }

  lemma {:induction false} PlusFront(a: seq<bool>, b: seq<bool>)
    requires |a| == |b|
    ensures Plus([false] + a, [false] + b) == [false] + Plus(a, b)
  {
  }

  // A multiple of the generator starts with the first coefficient of its factor.
  lemma {:induction false} TimesLeads(q: seq<bool>)
    requires q != []
    ensures Times(q)[0] == q[0]
  {
    Leading(q[0]);
  }

  // There is no other remainder.
  lemma {:induction false} OnlyRemainder(a: seq<bool>, q: seq<bool>, r: seq<bool>)
    requires IsRemainder(a, q, r)
    ensures r == Remainder(a)
    decreases |q|
  {
    hide Reduced, Scaled, Zeros, Plus;
    if q == [] {
      PlusZeros(r);
      NoZeros(r);
      assert Times(q) == Zeros(32);
    } else {
      var q' := q[1..];
      var g := Scaled(q[0], Generator()) + Zeros(|q'|);
      TimesLeads(q);
      OneMoreZero(|q'|, r);
      assert a[0] == q[0];
      PlusFront(Times(q'), Zeros(|q'|) + r);
      PlusAssoc(g, [false] + Times(q'), Zeros(|q|) + r);
      ReducedIs(a);
      Cancelled(g, [false] + Reduced(a), [false] + Plus(Times(q'), Zeros(|q'|) + r));
      assert Reduced(a) == ([false] + Reduced(a))[1..];
      assert Reduced(a) == Plus(Times(q'), Zeros(|q'|) + r);
      OnlyRemainder(Reduced(a), q', r);
    }
  }

  lemma {:induction false} Cancelled(g: seq<bool>, a: seq<bool>, b: seq<bool>)
    requires |g| == |a| == |b| && Plus(g, a) == Plus(g, b)
    ensures a == b
  {
    PlusAssoc(g, g, a);
    PlusAssoc(a, g, g);
    PlusAssoc(b, g, g);
    PlusAssoc(g, a, g);
    PlusAssoc(g, b, g);
  }

  // ---------- Words and bytes as bits ----------

  // The lowest `n` bits, lowest first.
  function BitsOf(l: word, n: nat): (bits: seq<bool>)
    ensures |bits| == n
  {
    if n == 0 then [] else [Odd(l)] + BitsOf(Shift(l), n - 1)
  }

  function Message(data: seq<byte>): (bits: seq<bool>)
    ensures |bits| == 8 * |data|
  {
    if data == [] then [] else BitsOf(Widen(data[0]), 8) + Message(data[1..])
  }

  function Inverted(bits: seq<bool>): (r: seq<bool>)
    ensures |r| == |bits| && forall i :: 0 <= i < |bits| ==> r[i] == !bits[i]
  {
    seq(|bits|, i requires 0 <= i < |bits| => !bits[i])
  }

  // The message times x^32, its first 32 coefficients inverted and added to `crc`.
  function Dividend(crc: word, data: seq<byte>): (a: seq<bool>)
    ensures |a| == 8 * |data| + 32
  {
    var a := Message(data) + Zeros(32);
    Plus(Inverted(a[..32]), BitsOf(crc, 32)) + a[32..]
  }

  lemma {:induction false} BitsXor(x: word, y: word, n: nat)
    ensures BitsOf(Xor(x, y), n) == Plus(BitsOf(x, n), BitsOf(y, n))
    decreases n
  {
    hide Odd, Shift, Xor;
    if n > 0 {
      OddXor(x, y);
      ShiftXor(x, y);
      BitsXor(Shift(x), Shift(y), n - 1);
    }
  }

  function Halved(l: word, n: nat): word
    decreases n
  {
    if n == 0 then l else Halved(Shift(l), n - 1)
  }

  lemma {:induction false} HalvedMore(l: word, m: nat, n: nat)
    ensures Halved(l, m + n) == Halved(Halved(l, m), n)
    decreases m
  {
    hide Shift;
    if m > 0 {
      HalvedMore(Shift(l), m - 1, n);
    }
  }

  lemma {:induction false} HalvedEight(l: word)
    ensures Halved(l, 8) == Down(l)
  {
    hide Shift;
    HalvedMore(l, 4, 4);
    ShiftEight(l);
    var m := Shift(Shift(Shift(Shift(l))));
    assert Halved(l, 2) == Shift(Shift(l)) && Halved(m, 2) == Shift(Shift(m));
    HalvedMore(l, 2, 2);
    HalvedMore(m, 2, 2);
    assert Halved(Shift(Shift(l)), 2) == m;
    assert Halved(Shift(Shift(m)), 2) == Shift(Shift(Shift(Shift(m))));
  }

  lemma {:induction false} DownFour(l: word)
    ensures Down(Down(Down(Down(l)))) == 0
  {
  }

  lemma {:induction false} AllGone(l: word)
    ensures Halved(l, 32) == 0
  {
    DownFour(l);
    hide Halved, Down;
    var l1 := Down(l);
    var l2 := Down(l1);
    HalvedMore(l, 8, 24);
    HalvedMore(l1, 8, 16);
    HalvedMore(l2, 8, 8);
    HalvedEight(l);
    HalvedEight(l1);
    HalvedEight(l2);
    HalvedEight(Down(l2));
  }

  lemma {:induction false} BitsSnoc(l: word, n: nat)
    ensures BitsOf(l, n + 1) == BitsOf(l, n) + [Odd(Halved(l, n))]
    decreases n
  {
    hide Odd, Shift;
    if n > 0 {
      BitsSnoc(Shift(l), n - 1);
    }
  }

  lemma {:induction false} BitsShift(l: word)
    ensures BitsOf(Shift(l), 32) == BitsOf(l, 32)[1..] + [false]
  {
    hide Shift;
    BitsSnoc(Shift(l), 31);
    AllGone(l);
  }

  // ---------- One bit is one step of the division ----------


  // Register `l` in front of the bits still to come.
  function Coming(l: word, bits: seq<bool>): (a: seq<bool>)
    ensures |a| == |bits| + 32
  {
    Plus(BitsOf(l, 32) + Zeros(|bits|), bits + Zeros(32))
  }

  lemma {:induction false} BitsSplit(l: word, m: nat, n: nat)
    ensures BitsOf(l, m + n) == BitsOf(l, m) + BitsOf(Halved(l, m), n)
    decreases m
  {
    hide Odd, Shift;
    if m > 0 {
      BitsSplit(Shift(l), m - 1, n);
    }
  }

  function Nibble(l: word): seq<bool> {
    [Odd(l), Odd(Shift(l)), Odd(Shift(Shift(l))), Odd(Shift(Shift(Shift(l))))]
  }

  // The lowest byte, bit by bit.
  function Octet(l: word): seq<bool> {
    Nibble(l) + Nibble(Shift(Shift(Shift(Shift(l)))))
  }

  lemma {:induction false} FourBits(l: word)
    ensures BitsOf(l, 4) == Nibble(l)
  {
    hide Odd, Shift;
    BitsSplit(l, 2, 2);
    assert Halved(l, 2) == Shift(Shift(l));
  }

  lemma {:induction false} EightBits(l: word)
    ensures BitsOf(l, 8) == Octet(l)
  {
    hide Odd, Shift, Nibble;
    var m := Shift(Shift(Shift(Shift(l))));
    HalvedMore(l, 2, 2);
    assert Halved(l, 4) == m;
    hide BitsOf, Halved;
    FourBits(l);
    FourBits(m);
    BitsSplit(l, 4, 4);
  }

  lemma {:induction false} FourBytes(l: word)
    ensures BitsOf(l, 32) == Octet(l) + Octet(Down(l)) + Octet(Down(Down(l))) + Octet(Down(Down(Down(l))))
  {
    hide BitsOf, Halved, Octet, Down;
    var l1 := Down(l);
    var l2 := Down(l1);
    BitsSplit(l, 8, 24);
    BitsSplit(l1, 8, 16);
    BitsSplit(l2, 8, 8);
    HalvedEight(l);
    HalvedEight(l1);
    HalvedEight(l2);
    EightBits(l);
    EightBits(l1);
    EightBits(l2);
    EightBits(Down(l2));
  }

  lemma {:induction false} PolyOctets()
    ensures Octet(POLY) == [false, false, false, true, true, true, true, false]
    ensures Octet(Down(POLY)) == [true, true, false, true, true, true, false, false]
    ensures Octet(Down(Down(POLY))) == [false, true, true, false, true, true, true, true]
    ensures Octet(Down(Down(Down(POLY)))) == [false, true, false, false, false, false, false, true]
  {
  }

  // The polynomial of the tables is the generator without its leading coefficient.
  lemma {:induction false} PolyBits()
    ensures BitsOf(POLY, 32) == Generator()[1..]
  {
    hide BitsOf, Octet, Down, Generator;
    FourBytes(POLY);
    PolyOctets();
  }

  lemma {:induction false} SameRest(l: word, w: word)
    ensures Odd(Xor(l, LastBit(w))) == (Odd(l) != Odd(w)) && Shift(Xor(l, LastBit(w))) == Shift(l)
  {
  }

  lemma {:induction false} FeedBits(l: word, w: word)
    ensures BitsOf(Feed(l, w), 32) == Plus(BitsOf(l, 32)[1..] + [false], Scaled(Odd(l) != Odd(w), Generator())[1..])
  {
    hide Odd, Shift, Xor, LastBit, BitsOf, Plus, Generator, Zeros;
    SameRest(l, w);
    BitsShift(l);
    PolyBits();
    BitsXor(Shift(l), POLY, 32);
    PlusZeros(BitsOf(l, 32)[1..] + [false]);
    FewerZeros(33);
  }

  lemma {:induction false} FewerZeros(n: nat)
    requires n > 0
    ensures Zeros(n)[1..] == Zeros(n - 1)
  {
  }

  // The bit fed is divided out; the others wait.
  lemma {:induction false} OneBit(l: word, w: word, bits: seq<bool>)
    ensures Reduced(Coming(l, [Odd(w)] + bits)) == Coming(Feed(l, w), bits)
  {
    hide Odd, Feed, BitsOf, Scaled;
    var x, n := Odd(l) != Odd(w), |bits|;
    var a, b := Coming(l, [Odd(w)] + bits), Coming(Feed(l, w), bits);
    FirstBit(l);
    assert a[0] == x;
    FeedBits(l, w);
    var g, r := Scaled(x, Generator()), BitsOf(l, 32);
    forall i | 0 <= i < n + 32 ensures Reduced(a)[i] == b[i] {
    }
  }

  lemma {:induction false} FirstBit(l: word)
    ensures BitsOf(l, 32)[0] == Odd(l)
  {
  }

  lemma {:induction false} OneBitLeft(l: word, w: word, n: nat, bits: seq<bool>)
    requires n > 0
    ensures Remainder(Coming(l, BitsOf(w, n) + bits)) == Remainder(Coming(Feed(l, w), BitsOf(Shift(w), n - 1) + bits))
  {
    hide Odd, Feed, Shift, Reduced, Coming;
    assert BitsOf(w, n) + bits == [Odd(w)] + (BitsOf(Shift(w), n - 1) + bits);
    OneBit(l, w, BitsOf(Shift(w), n - 1) + bits);
  }

  lemma {:induction false} OneByte(l: word, b: byte, bits: seq<bool>)
    ensures Remainder(Coming(l, BitsOf(Widen(b), 8) + bits)) == Remainder(Coming(FeedByte(l, b), bits))
  {
    hide Feed, Shift, Remainder, Coming, BitsOf, Widen;
    var w := Widen(b);
    OneBitLeft(l, w, 8, bits);
    var l1, w1 := Feed(l, w), Shift(w);
    OneBitLeft(l1, w1, 7, bits);
    var l2, w2 := Feed(l1, w1), Shift(w1);
    OneBitLeft(l2, w2, 6, bits);
    var l3, w3 := Feed(l2, w2), Shift(w2);
    OneBitLeft(l3, w3, 5, bits);
    var l4, w4 := Feed(l3, w3), Shift(w3);
    OneBitLeft(l4, w4, 4, bits);
    var l5, w5 := Feed(l4, w4), Shift(w4);
    OneBitLeft(l5, w5, 3, bits);
    var l6, w6 := Feed(l5, w5), Shift(w5);
    OneBitLeft(l6, w6, 2, bits);
    var l7, w7 := Feed(l6, w6), Shift(w6);
    OneBitLeft(l7, w7, 1, bits);
    assert BitsOf(Shift(w7), 0) + bits == bits;
  }

  lemma {:induction false} FedRemainder(l: word, data: seq<byte>)
    ensures Remainder(Coming(l, Message(data))) == BitsOf(FeedAll(l, data), 32)
    decreases |data|
  {
    hide FeedByte, BitsOf, Coming, Reduced, Widen;
    if data == [] {
      NothingComing(l);
    } else {
      OneByte(l, data[0], Message(data[1..]));
      FedRemainder(FeedByte(l, data[0]), data[1..]);
    }
  }

  lemma {:induction false} NothingComing(l: word)
    ensures Coming(l, []) == BitsOf(l, 32)
  {
    hide BitsOf;
    assert BitsOf(l, 32) + Zeros(0) == BitsOf(l, 32) && [] + Zeros(32) == Zeros(32);
    PlusZeros(BitsOf(l, 32));
  }

  // ---------- The whole ----------

  lemma {:induction false} OnesBits()
    ensures forall i :: 0 <= i < 32 ==> BitsOf(0xFFFF_FFFF, 32)[i]
  {
    hide BitsOf;
    FourBytes(0xFFFF_FFFF);
  }

  lemma {:induction false} FlipBits(l: word)
    ensures BitsOf(Flip(l), 32) == Inverted(BitsOf(l, 32))
  {
    assert Flip(l) == Xor(l, 0xFFFF_FFFF);
    hide Xor, Flip, BitsOf;
    BitsXor(l, 0xFFFF_FFFF, 32);
    OnesBits();
  }

  lemma {:induction false} DividendComing(crc: word, data: seq<byte>)
    ensures Dividend(crc, data) == Coming(Flip(crc), Message(data))
  {
    hide Flip, BitsOf, Message;
    FlipBits(crc);
  }

  // The CRC is the remainder, inverted; there is no other.
  lemma {:induction false} CrcIsRemainder(crc: word, data: seq<byte>, r: seq<bool>)
    ensures (exists q :: IsRemainder(Dividend(crc, data), q, r)) <==> r == Inverted(BitsOf(Crc(crc, data), 32))
  {
    hide Flip, FeedAll, BitsOf, Message, Coming, Dividend, Remainder, Inverted, IsRemainder;
    var a, l := Dividend(crc, data), FeedAll(Flip(crc), data);
    DividendComing(crc, data);
    FedRemainder(Flip(crc), data);
    FlipBits(l);
    InvertedTwice(BitsOf(l, 32));
    var q := Divided(a);
    forall q | IsRemainder(a, q, r) ensures r == Remainder(a) {
      OnlyRemainder(a, q, r);
    }
  }

  lemma {:induction false} InvertedTwice(bits: seq<bool>)
    ensures Inverted(Inverted(bits)) == bits
  {
  }
}
