/** CRC32C four bytes at a time from tables, against the definition that shifts one bit
    at a time. The register of 64 bits in the code never exceeds 32. */
module Crc32c {
  type byte = bv8
  type word = bv32

  // The polynomial 0x1EDC6F41 of section 12.1 of RFC 3720, bits reversed.
  const POLY: word := 0x82F6_3B78

  function Xor(x: word, y: word): word {
    x ^ y
  }

  function Widen(b: byte): word {
    b as word
  }

  // ---------- The definition: bit by bit ----------

  predicate Odd(l: word) {
    l & 1 == 1
  }

  function Shift(l: word): word {
    l >> 1
  }

  function Half(l: word): word {
    if Odd(l) then Xor(Shift(l), POLY) else Shift(l)
  }

  function LastBit(w: word): word {
    w & 1
  }

  // One bit of the message, the lowest bit of `b`.
  function Feed(l: word, b: word): word {
    Half(Xor(l, LastBit(b)))
  }

  function FeedByte(l: word, b: byte): word {
    var w := Widen(b);
    var w1 := Shift(w);
    var w2 := Shift(w1);
    var w3 := Shift(w2);
    var w4 := Shift(w3);
    var w5 := Shift(w4);
    var w6 := Shift(w5);
    Feed(Feed(Feed(Feed(Feed(Feed(Feed(Feed(l, w), w1), w2), w3), w4), w5), w6), Shift(w6))
  }

  function FeedAll(l: word, data: seq<byte>): word
    decreases |data|
  {
    if data == [] then l else FeedAll(FeedByte(l, data[0]), data[1..])
  }

  function Flip(l: word): word {
    l ^ 0xFFFF_FFFF
  }

  // The CRC of a string with CRC `crc` extended by `data`.
  function Crc(crc: word, data: seq<byte>): word {
    Flip(FeedAll(Flip(crc), data))
  }

  // ---------- The tables, by their recurrence ----------

  function Eight(l: word): word {
    Half(Half(Half(Half(Half(Half(Half(Half(l))))))))
  }

  function Table0(x: byte): word {
    Eight(Widen(x))
  }

  function Low(l: word): byte {
    (l & 0xFF) as byte
  }

  function Down(l: word): word {
    l >> 8
  }

  function Advance(l: word): word {
    Xor(Table0(Low(l)), Down(l))
  }

  function Table1(x: byte): word {
    Advance(Table0(x))
  }

  function Table2(x: byte): word {
    Advance(Table1(x))
  }

  function Table3(x: byte): word {
    Advance(Table2(x))
  }

  // ---------- Arithmetic over two elements ----------

  lemma HalfXor(x: word, y: word)
    ensures Half(Xor(x, y)) == Xor(Half(x), Half(y))
  {
    hide Odd, Shift, Xor;
    OddXor(x, y);
    ShiftXor(x, y);
    var a, b := Shift(x), Shift(y);
    XorAssoc(a, POLY, b);
    XorCommutes(POLY, b);
    XorAssoc(a, b, POLY);
    XorAssoc(Xor(a, POLY), b, POLY);
    XorCancels(Xor(a, b), POLY);
  }

  lemma OddXor(x: word, y: word)
    ensures Odd(Xor(x, y)) <==> Odd(x) != Odd(y)
  {
  }

  lemma ShiftXor(x: word, y: word)
    ensures Shift(Xor(x, y)) == Xor(Shift(x), Shift(y))
  {
  }

  lemma XorCancels(x: word, y: word)
    ensures Xor(Xor(x, y), y) == x
  {
  }

  lemma EightXor(x: word, y: word)
    ensures Eight(Xor(x, y)) == Xor(Eight(x), Eight(y))
  {
    hide Half, Xor;
    HalfXor(x, y);
    var x1, y1 := Half(x), Half(y);
    HalfXor(x1, y1);
    HalfXor(Half(x1), Half(y1));
    HalfXor(Half(Half(x1)), Half(Half(y1)));
    var x4, y4 := Half(Half(Half(x1))), Half(Half(Half(y1)));
    HalfXor(x4, y4);
    HalfXor(Half(x4), Half(y4));
    HalfXor(Half(Half(x4)), Half(Half(y4)));
    HalfXor(Half(Half(Half(x4))), Half(Half(Half(y4))));
  }

  lemma XorAssoc(x: word, y: word, z: word)
    ensures Xor(Xor(x, y), z) == Xor(x, Xor(y, z))
  {
  }

  lemma XorCommutes(x: word, y: word)
    ensures Xor(x, y) == Xor(y, x)
  {
  }

  // A bit of the message may as well be there from the start.
  lemma FeedOne(l: word, w: word)
    ensures Half(Xor(l, w)) == Xor(Feed(l, w), Shift(w))
  {
    hide *;
    EvenPart(w);
    HalfEven(Even(w));
    XorAssoc(l, LastBit(w), Even(w));
    HalfXor(Xor(l, LastBit(w)), Even(w));
    FeedIs(l, w);
  }

  function Even(w: word): word {
    w & 0xFFFF_FFFE
  }

  lemma EvenPart(w: word)
    ensures w == Xor(LastBit(w), Even(w)) && Shift(Even(w)) == Shift(w) && !Odd(Even(w))
  {
  }

  lemma FeedIs(l: word, w: word)
    ensures Feed(l, w) == Half(Xor(l, LastBit(w)))
  {
  }

  lemma ByteGone(b: byte, x: word)
    ensures Xor(x, Shift(Shift(Shift(Shift(Shift(Shift(Shift(Shift(Widen(b))))))))))  == x
  {
  }

  // Eight bits one at a time are one byte at once.
  lemma FeedByteEight(l: word, b: byte)
    ensures FeedByte(l, b) == Eight(Xor(l, Widen(b)))
  {
    hide Half, Xor, Shift, Feed, Widen;
    var w := Widen(b);
    FeedOne(l, w);
    var l1, w1 := Feed(l, w), Shift(w);
    FeedOne(l1, w1);
    var l2, w2 := Feed(l1, w1), Shift(w1);
    FeedOne(l2, w2);
    var l3, w3 := Feed(l2, w2), Shift(w2);
    FeedOne(l3, w3);
    var l4, w4 := Feed(l3, w3), Shift(w3);
    FeedOne(l4, w4);
    var l5, w5 := Feed(l4, w4), Shift(w4);
    FeedOne(l5, w5);
    var l6, w6 := Feed(l5, w5), Shift(w5);
    FeedOne(l6, w6);
    var l7, w7 := Feed(l6, w6), Shift(w6);
    FeedOne(l7, w7);
    ByteGone(b, Feed(l7, w7));
  }

  lemma HalfEven(l: word)
    requires !Odd(l)
    ensures Half(l) == Shift(l)
  {
  }

  lemma LowZeros(l: word)
    requires l & 0xFF == 0
    ensures !Odd(l) && !Odd(Shift(l)) && !Odd(Shift(Shift(l))) && !Odd(Shift(Shift(Shift(l))))
    ensures var m := Shift(Shift(Shift(Shift(l))));
      !Odd(m) && !Odd(Shift(m)) && !Odd(Shift(Shift(m))) && !Odd(Shift(Shift(Shift(m))))
  {
  }

  lemma ShiftEight(l: word)
    ensures Shift(Shift(Shift(Shift(Shift(Shift(Shift(Shift(l)))))))) == Down(l)
  {
  }

  // Zeros at the bottom are just shifted out.
  lemma EightEven(l: word)
    requires l & 0xFF == 0
    ensures Eight(l) == Down(l)
  {
    LowZeros(l);
    ShiftEight(l);
    hide Half, Odd, Shift, Down;
    var m := Shift(Shift(Shift(Shift(l))));
    HalfEven(l);
    HalfEven(Shift(l));
    HalfEven(Shift(Shift(l)));
    HalfEven(Shift(Shift(Shift(l))));
    HalfEven(m);
    HalfEven(Shift(m));
    HalfEven(Shift(Shift(m)));
    HalfEven(Shift(Shift(Shift(m))));
  }

  lemma LowHigh(l: word)
    ensures Xor(Widen(Low(l)), l & 0xFFFF_FF00) == l
    ensures (l & 0xFFFF_FF00) & 0xFF == 0 && Down(l & 0xFFFF_FF00) == Down(l)
  {
  }

  lemma AdvanceEight(l: word)
    ensures Advance(l) == Eight(l)
  {
    LowHigh(l);
    hide Eight, Xor, Low, Widen, Down;
    EightEven(l & 0xFFFF_FF00);
    EightXor(Widen(Low(l)), l & 0xFFFF_FF00);
  }

  // ---------- One byte from the table ----------

  // STEP1.
  function Step1(l: word, b: byte): word {
    Xor(Table0(Mix(l, b)), Down(l))
  }

  function Mix(l: word, b: byte): byte {
    Low(l) ^ b
  }

  lemma ByteIn(l: word, b: byte)
    ensures Low(Xor(l, Widen(b))) == Mix(l, b) && Down(Xor(l, Widen(b))) == Down(l)
  {
  }

  lemma Step1Feeds(l: word, b: byte)
    ensures Step1(l, b) == FeedByte(l, b)
  {
    ByteIn(l, b);
    hide Eight, Xor, Low, Widen, FeedByte, Mix, Down, Table0;
    FeedByteEight(l, b);
    AdvanceEight(Xor(l, Widen(b)));
  }

  // ---------- Four bytes from four tables ----------

  function Up(w: word): word {
    w << 8
  }

  // Four bytes, the first one lowest.
  function Word(b0: byte, b1: byte, b2: byte, b3: byte): word {
    Xor(Widen(b0), Up(Xor(Widen(b1), Up(Xor(Widen(b2), Up(Widen(b3)))))))
  }

  function Byte(c: word, k: nat): byte
    requires k < 4
  {
    Low(if k == 0 then c else if k == 1 then c >> 8 else if k == 2 then c >> 16 else c >> 24)
  }

  // Half of Slow_CRC32.
  function Slow4(l: word, b0: byte, b1: byte, b2: byte, b3: byte): word {
    var c := Xor(l, Word(b0, b1, b2, b3));
    Xor(Xor(Xor(Table3(Byte(c, 0)), Table2(Byte(c, 1))), Table1(Byte(c, 2))), Table0(Byte(c, 3)))
  }

  lemma EightUp(w: word)
    requires w & 0xFF00_0000 == 0
    ensures Eight(Up(w)) == w
  {
    UpDown(w);
    hide Eight, Up, Down;
    EightEven(Up(w));
  }

  lemma UpDown(w: word)
    requires w & 0xFF00_0000 == 0
    ensures Up(w) & 0xFF == 0 && Down(Up(w)) == w
  {
  }

  // The first byte of a message on top of the rest.
  lemma FeedFirst(l: word, b: byte, rest: word)
    requires rest & 0xFF00_0000 == 0
    ensures Eight(Xor(l, Xor(Widen(b), Up(rest)))) == Xor(FeedByte(l, b), rest)
  {
    hide Eight, Xor, Widen, Up, FeedByte;
    XorAssoc(l, Widen(b), Up(rest));
    EightXor(Xor(l, Widen(b)), Up(rest));
    EightUp(rest);
    FeedByteEight(l, b);
  }

  lemma Small(b1: byte, b2: byte, b3: byte)
    ensures Xor(Widen(b1), Up(Xor(Widen(b2), Up(Widen(b3))))) & 0xFF00_0000 == 0
    ensures Xor(Widen(b2), Up(Widen(b3))) & 0xFF00_0000 == 0
    ensures Widen(b3) & 0xFF00_0000 == 0
  {
  }

  lemma FeedFour(l: word, b0: byte, b1: byte, b2: byte, b3: byte)
    ensures Eight(Eight(Eight(Eight(Xor(l, Word(b0, b1, b2, b3)))))) == FeedByte(FeedByte(FeedByte(FeedByte(l, b0), b1), b2), b3)
  {
    Small(b1, b2, b3);
    hide Eight, Xor, Widen, Up, FeedByte;
    FeedFirst(l, b0, Xor(Widen(b1), Up(Xor(Widen(b2), Up(Widen(b3))))));
    var l1 := FeedByte(l, b0);
    FeedFirst(l1, b1, Xor(Widen(b2), Up(Widen(b3))));
    var l2 := FeedByte(l1, b1);
    FeedFirst(l2, b2, Widen(b3));
    FeedByteEight(FeedByte(l2, b2), b3);
  }

  lemma Split(c: word)
    ensures c == Word(Byte(c, 0), Byte(c, 1), Byte(c, 2), Byte(c, 3))
  {
  }

  lemma TablesEight(x: byte)
    ensures Table1(x) == Eight(Eight(Widen(x)))
    ensures Table2(x) == Eight(Eight(Eight(Widen(x))))
    ensures Table3(x) == Eight(Eight(Eight(Eight(Widen(x)))))
  {
    hide Eight, Advance, Widen;
    AdvanceEight(Table0(x));
    AdvanceEight(Table1(x));
    AdvanceEight(Table2(x));
  }

  lemma TablesFour(b0: byte, b1: byte, b2: byte, b3: byte)
    ensures Eight(Eight(Eight(Eight(Word(b0, b1, b2, b3))))) == Xor(Xor(Xor(Table3(b0), Table2(b1)), Table1(b2)), Table0(b3))
  {
    Small(b1, b2, b3);
    hide Eight, Xor, Widen, Up, Table1, Table2, Table3;
    var w0, w1, w2, w3 := Widen(b0), Widen(b1), Widen(b2), Widen(b3);
    var r2 := Xor(w2, Up(w3));
    var r1 := Xor(w1, Up(r2));
    EightUp(w3);
    EightUp(r2);
    EightUp(r1);
    EightXor(w0, Up(r1));
    var e0 := Eight(w0);
    EightXor(e0, r1);
    EightXor(w1, Up(r2));
    var f0, f1 := Eight(e0), Eight(w1);
    EightXor(f0, Xor(f1, r2));
    EightXor(f1, r2);
    EightXor(w2, Up(w3));
    var g0, g1, g2 := Eight(f0), Eight(f1), Eight(w2);
    EightXor(g0, Xor(g1, Xor(g2, w3)));
    EightXor(g1, Xor(g2, w3));
    EightXor(g2, w3);
    var h0, h1, h2, h3 := Eight(g0), Eight(g1), Eight(g2), Eight(w3);
    XorAssoc(Xor(h0, h1), h2, h3);
    XorAssoc(h0, h1, Xor(h2, h3));
    TablesEight(b0);
    TablesEight(b1);
    TablesEight(b2);
  }

  lemma Slow4Feeds(l: word, b0: byte, b1: byte, b2: byte, b3: byte)
    ensures Slow4(l, b0, b1, b2, b3) == FeedByte(FeedByte(FeedByte(FeedByte(l, b0), b1), b2), b3)
  {
    hide Eight, Xor, Word, Byte, Table0, Table1, Table2, Table3, FeedByte;
    var c := Xor(l, Word(b0, b1, b2, b3));
    Split(c);
    TablesFour(Byte(c, 0), Byte(c, 1), Byte(c, 2), Byte(c, 3));
    FeedFour(l, b0, b1, b2, b3);
  }

  // ---------- ExtendImpl ----------

  lemma {:induction false} FeedFourAll(l: word, data: seq<byte>, p: nat)
    requires p + 4 <= |data|
    ensures FeedAll(l, data[p..])
         == FeedAll(FeedByte(FeedByte(FeedByte(FeedByte(l, data[p]), data[p + 1]), data[p + 2]), data[p + 3]), data[p + 4..])
  {
    hide FeedByte;
    FeedOneAll(l, data, p);
    var l1 := FeedByte(l, data[p]);
    FeedOneAll(l1, data, p + 1);
    var l2 := FeedByte(l1, data[p + 1]);
    FeedOneAll(l2, data, p + 2);
    FeedOneAll(FeedByte(l2, data[p + 2]), data, p + 3);
  }

  lemma {:induction false} FeedOneAll(l: word, data: seq<byte>, p: nat)
    requires p < |data|
    ensures FeedAll(l, data[p..]) == FeedAll(FeedByte(l, data[p]), data[p + 1..])
  {
    hide FeedByte;
    assert data[p..][1..] == data[p + 1..];
  }

  // Slow_CRC32: eight bytes.
  method SlowCrc32(l: word, data: seq<byte>, p: nat) returns (l': word)
    requires p + 8 <= |data|
    ensures FeedAll(l', data[p + 8..]) == FeedAll(l, data[p..])
  {
    hide FeedByte, FeedAll, Slow4;
    FeedFourAll(l, data, p);
    Slow4Feeds(l, data[p], data[p + 1], data[p + 2], data[p + 3]);
    l' := Slow4(l, data[p], data[p + 1], data[p + 2], data[p + 3]);
    FeedFourAll(l', data, p + 4);
    Slow4Feeds(l', data[p + 4], data[p + 5], data[p + 6], data[p + 7]);
    l' := Slow4(l', data[p + 4], data[p + 5], data[p + 6], data[p + 7]);
  }

  // The next address divisible by 16.
  function Align16(n: nat): nat {
    (n + 15) / 16 * 16
  }

  // Whatever the address `start` of the data, the result is the CRC by definition.
  method Extend(crc: word, data: seq<byte>, start: nat) returns (r: word)
    ensures r == Crc(crc, data)
  {
    hide FeedByte, FeedAll, Step1;
    var p: nat, e, l := 0, |data|, Flip(crc);
    assert data[0..] == data;
    var x := Align16(start) - start;
    if x <= e {
      while p != x
        invariant p <= x && FeedAll(l, data[p..]) == FeedAll(Flip(crc), data)
        decreases x - p
      {
        Step1Feeds(l, data[p]);
        FeedOneAll(l, data, p);
        l, p := Step1(l, data[p]), p + 1;
      }
    }
    while e - p >= 16
      invariant p <= e && FeedAll(l, data[p..]) == FeedAll(Flip(crc), data)
    {
      l := SlowCrc32(l, data, p);
      p := p + 8;
      l := SlowCrc32(l, data, p);
      p := p + 8;
    }
    while e - p >= 8
      invariant p <= e && FeedAll(l, data[p..]) == FeedAll(Flip(crc), data)
    {
      l := SlowCrc32(l, data, p);
      p := p + 8;
    }
    while p != e
      invariant p <= e && FeedAll(l, data[p..]) == FeedAll(Flip(crc), data)
      decreases e - p
    {
      Step1Feeds(l, data[p]);
      FeedOneAll(l, data, p);
      l, p := Step1(l, data[p]), p + 1;
    }
    NothingFed(l, data[p..]);
    return Flip(l);
  }

  lemma {:induction false} NothingFed(l: word, data: seq<byte>)
    requires data == []
    ensures FeedAll(l, data) == l
  {
  }

  // ---------- Composition ----------

  lemma {:induction false} FeedAllConcat(l: word, a: seq<byte>, b: seq<byte>)
    ensures FeedAll(l, a + b) == FeedAll(FeedAll(l, a), b)
    decreases |a|
  {
    hide FeedByte;
    if a == [] {
      assert a + b == b;
    } else {
      assert (a + b)[1..] == a[1..] + b;
      FeedAllConcat(FeedByte(l, a[0]), a[1..], b);
    }
  }

  // Extending by one piece and then another is extending by both.
  lemma {:induction false} CrcConcat(crc: word, a: seq<byte>, b: seq<byte>)
    ensures Crc(Crc(crc, a), b) == Crc(crc, a + b)
  {
    FlipTwice(FeedAll(Flip(crc), a));
    hide FeedAll, Flip;
    FeedAllConcat(Flip(crc), a, b);
  }

  lemma FlipTwice(l: word)
    ensures Flip(Flip(l)) == l
  {
  }

  // ---------- Stored checksums ----------

  const MASK_DELTA: word := 0xA282_EAD8

  function Right15(x: word): word {
    (x >> 15) | (x << 17)
  }

  function Left15(x: word): word {
    (x >> 17) | (x << 15)
  }

  function Mask(crc: word): word {
    Add(Right15(crc), MASK_DELTA)
  }

  function Unmask(masked: word): word {
    Left15(Sub(masked, MASK_DELTA))
  }

  function Add(x: word, y: word): word {
    x + y
  }

  function Sub(x: word, y: word): word {
    x - y
  }

  lemma AddSub(x: word)
    ensures Sub(Add(x, MASK_DELTA), MASK_DELTA) == x
  {
  }

  lemma SubAdd(x: word)
    ensures Add(Sub(x, MASK_DELTA), MASK_DELTA) == x
  {
  }

  lemma Rotations(x: word)
    ensures Left15(Right15(x)) == x && Right15(Left15(x)) == x
  {
  }

  // A masked checksum can be read back, and every word is the mask of one.
  lemma MaskInverse(x: word)
    ensures Unmask(Mask(x)) == x && Mask(Unmask(x)) == x
  {
    hide Left15, Right15, Add, Sub;
    AddSub(Right15(x));
    SubAdd(x);
    Rotations(x);
    Rotations(Sub(x, MASK_DELTA));
  }
}
