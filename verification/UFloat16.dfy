/** Unsigned floating point numbers of 16 bits: 5 bits of exponent and 11 of mantissa, the
    code of a number being the largest one whose value does not exceed it. */
module UFloat16 {
  type byte = x: int | 0 <= x < 256

  const CODES: nat := 0x1_0000
  const MAX_VALUE: nat := 0x3FF_C000_0000

  function Pow2(n: nat): (p: nat)
    ensures p >= 1
  {
    if n == 0 then 1 else 2 * Pow2(n - 1)
  }

  // How far the mantissa of a code is shifted.
  function Shift(u: nat): nat {
    if u < 4096 then 0 else u / 2048 - 1
  }

  // The value of a code, as ReadUFloat16 computes it.
  function Decode(u: nat): nat {
    if u < 4096 then u else (u - Shift(u) * 2048) * Pow2(Shift(u))
  }

  // `u` is the largest code with a value of at most `v`.
  predicate IsCode(v: nat, u: nat) {
    u < CODES && Decode(u) <= v && (u + 1 < CODES ==> v < Decode(u + 1))
  }

  // ---------- Facts about codes ----------

  // Five bits of exponent and eleven of mantissa, which has a hidden bit unless the
  // exponent is 0.
  lemma {:induction false} Fields(e: nat, m: nat)
    requires e < 32 && m < 2048
    ensures Decode(2048 * e + m) == if e == 0 then m else (2048 + m) * Pow2(e - 1)
  {
    hide Pow2;
    if e > 1 {
      assert (2048 * e + m) / 2048 == e;
    } else if e == 1 {
      One();
    }
  }

  lemma {:induction false} One()
    ensures Pow2(0) == 1
  {
  }

  lemma {:induction false} PowStep(n: nat)
    ensures Pow2(n + 1) == 2 * Pow2(n)
  {
  }

  // Values grow by the weight of the last bit of the mantissa.
  lemma {:induction false} DecodeNext(u: nat)
    ensures Decode(u + 1) == Decode(u) + Pow2(Shift(u))
  {
    if u >= 4095 {
      var e := Shift(u);
      if (u + 1) % 2048 == 0 {
        assert Shift(u + 1) == e + 1;
        PowStep(e);
        if u > 4095 {
          assert u - e * 2048 == 4095;
        }
        assert u + 1 - (e + 1) * 2048 == 2048;
      } else {
        assert Shift(u + 1) == e;
        Distribute(u - e * 2048, Pow2(e));
      }
    }
  }

  lemma Distribute(a: int, b: int)
    ensures (a + 1) * b == a * b + b
  {
  }

  lemma {:induction false} DecodeGrows(u: nat, w: nat)
    requires u < w
    ensures Decode(u) < Decode(w)
    decreases w
  {
    DecodeNext(w - 1);
    if u < w - 1 {
      DecodeGrows(u, w - 1);
    }
  }

  // Numbers have one code only, and larger numbers have no smaller one.
  lemma {:induction false} CodesMonotone(v: nat, u: nat, v': nat, u': nat)
    requires IsCode(v, u) && IsCode(v', u') && v <= v'
    ensures u <= u' && (v == v' ==> u == u')
  {
    hide Decode;
    if u' < u {
      AtMost(u' + 1, u);
    }
    if u < u' {
      AtMost(u + 1, u');
    }
  }

  lemma {:induction false} AtMost(u: nat, w: nat)
    requires u <= w
    ensures Decode(u) <= Decode(w)
  {
    if u < w {
      DecodeGrows(u, w);
    }
  }

  // A value that a code stands for has that code.
  lemma {:induction false} CodeOfValue(u: nat)
    requires u < CODES
    ensures IsCode(Decode(u), u)
  {
    DecodeGrows(u, u + 1);
  }

  lemma {:induction false} Pow30()
    ensures Pow2(30) == 0x4000_0000
  {
    assert Pow2(10) == 1024 by { Pow10(); }
    PowAdd(10, 10);
    PowAdd(20, 10);
  }

  lemma {:induction false} Pow10()
    ensures Pow2(10) == 1024 && Pow2(11) == 2048 && Pow2(12) == 4096
  {
    assert Pow2(4) == 16;
    PowAdd(4, 4);
    PowAdd(8, 2);
    PowStep(10);
    PowStep(11);
  }

  lemma {:induction false} PowAdd(m: nat, n: nat)
    ensures Pow2(m + n) == Pow2(m) * Pow2(n)
  {
    if n > 0 {
      PowAdd(m, n - 1);
      assert m + n - 1 == m + (n - 1);
      PowStep(m + n - 1);
      PowStep(n - 1);
      Double(Pow2(m), Pow2(n - 1));
    }
  }

  lemma Double(a: nat, b: nat)
    ensures 2 * (a * b) == a * (2 * b)
  {
  }

  lemma {:induction false} MaxCode()
    ensures Decode(CODES - 1) == MAX_VALUE
  {
    Pow30();
    assert Shift(CODES - 1) == 30;
  }

  // Numbers beyond the largest value all have the last code.
  lemma {:induction false} Clamped(v: nat)
    requires v >= MAX_VALUE
    ensures IsCode(v, CODES - 1)
  {
    MaxCode();
  }

  // What is lost is less than a part in 2048.
  lemma {:induction false} SmallError(v: nat, u: nat)
    requires IsCode(v, u) && v <= MAX_VALUE
    ensures Decode(u) <= v && (v - Decode(u)) * 2048 <= v && (v > 0 ==> (v - Decode(u)) * 2048 < v)
  {
    if u + 1 == CODES {
      MaxCode();
    } else {
      DecodeNext(u);
      if u >= 4096 {
        var e := Shift(u);
        assert 2048 <= u - e * 2048;
        AtLeast(u - e * 2048, Pow2(e));
      }
    }
  }

  lemma AtLeast(a: nat, b: nat)
    requires a >= 2048
    ensures a * b >= 2048 * b
  {
  }

  // ---------- Writing ----------

  // `m` is `v` shifted right by `e` places.
  predicate Shifted(v: nat, m: nat, e: nat) {
    m * Pow2(e) <= v < (m + 1) * Pow2(e)
  }

  lemma {:induction false} ShiftMore(v: nat, m: nat, e: nat, k: nat)
    requires Shifted(v, m, e)
    ensures Shifted(v, m / Pow2(k), e + k)
  {
    hide Pow2;
    PowAdd(e, k);
    DivStep(v, m, Pow2(e), Pow2(k));
  }

  lemma DivStep(v: nat, m: nat, p: nat, q: nat)
    requires m * p <= v < (m + 1) * p && q >= 1
    ensures m / q * (p * q) <= v < (m / q + 1) * (p * q)
  {
    var d := m / q;
    Quotient(m, q);
    Scale(d * q, m, p);
    Scale(m + 1, (d + 1) * q, p);
    Regroup(d, q, p);
    Regroup(d + 1, q, p);
  }

  lemma Quotient(m: nat, q: nat)
    requires q >= 1
    ensures m / q * q <= m < m / q * q + q == (m / q + 1) * q
  {
    Distribute(m / q, q);
  }

  lemma Scale(a: nat, b: nat, p: nat)
    requires a <= b
    ensures a * p <= b * p
  {
  }

  lemma Regroup(d: nat, q: nat, p: nat)
    ensures (d * q) * p == d * (p * q)
  {
  }

  lemma {:induction false} Below(m: nat, a: nat, k: nat)
    requires Pow2(a + k) <= m
    ensures Pow2(a) <= m / Pow2(k)
  {
    PowAdd(a, k);
    Whole(Pow2(a), Pow2(k), m);
  }

  lemma Whole(a: nat, q: nat, m: nat)
    requires q >= 1 && a * q <= m
    ensures a <= m / q
  {
    Quotient(m, q);
    if m / q < a {
      Scale(m / q + 1, a, q);
    }
  }

  lemma {:induction false} Above(m: nat, a: nat, k: nat)
    requires m < Pow2(a + k)
    ensures m / Pow2(k) < Pow2(a)
  {
    PowAdd(a, k);
    Quotient(m, Pow2(k));
    if Pow2(a) <= m / Pow2(k) {
      Scale(Pow2(a), m / Pow2(k), Pow2(k));
    }
  }

  // The top bit is brought to position 11 by halving the distance.
  method Normalize(v: nat) returns (m: nat, exponent: nat)
    requires 4096 <= v < MAX_VALUE
    ensures 2048 <= m < 4096 && Shifted(v, m, exponent)
  {
    hide Pow2, Shifted;
    Pow10();
    Range(v);
    m, exponent := v, 0;
    var offset := 16;
    while offset > 0
      invariant offset in {16, 8, 4, 2, 1, 0}
      invariant Shifted(v, m, exponent) && Pow2(11) <= m < Pow2(if offset == 0 then 12 else 11 + 2 * offset)
    {
      if m >= Pow2(11 + offset) {
        ShiftMore(v, m, exponent, offset);
        Below(m, 11, offset);
        Above(m, 11 + offset, offset);
        assert 11 + offset + offset == 11 + 2 * offset;
        exponent := exponent + offset;
        m := m / Pow2(offset);
      }
      offset := offset / 2;
    }
  }

  lemma {:induction false} Range(v: nat)
    requires v < MAX_VALUE
    ensures Shifted(v, v, 0) && v < Pow2(43)
  {
    Pow30();
    Pow10();
    PowAdd(30, 12);
    PowAdd(42, 1);
    assert Pow2(0) == 1 && Pow2(1) == 2;
  }

  // Mantissa and exponent of a number in range make its code.
  lemma {:induction false} Coded(v: nat, m: nat, e: nat)
    requires 4096 <= v < MAX_VALUE && 2048 <= m < 4096 && Shifted(v, m, e)
    ensures 1 <= e <= 30 && IsCode(v, m + e * 2048)
  {
    var u := m + e * 2048;
    assert Pow2(0) == 1;
    LargePow(e);
    Scale(2048, m, Pow2(e));
    assert Shift(u) == e;
    assert Decode(u) == m * Pow2(e);
    DecodeNext(u);
    Distribute(m, Pow2(e));
  }

  lemma {:induction false} LargePow(e: nat)
    ensures e > 30 ==> Pow2(e) >= 0x8000_0000
  {
    if e > 30 {
      AtMostPow(31, e);
      PowStep(30);
      Pow30();
    }
  }

  lemma {:induction false} AtMostPow(a: nat, b: nat)
    requires a <= b
    ensures Pow2(a) <= Pow2(b)
  {
    if a < b {
      AtMostPow(a, b - 1);
      PowStep(b - 1);
    }
  }

  // What WriteUFloat16 makes of a number: its code.
  method Encode(v: nat) returns (u: nat)
    ensures IsCode(v, u)
  {
    hide Pow2, Decode, Shifted;
    if v < 4096 {
      Small(v);
      return v;
    } else if v >= MAX_VALUE {
      Clamped(v);
      return CODES - 1;
    }
    var m, exponent := Normalize(v);
    Coded(v, m, exponent);
    return m + exponent * 2048;
  }

  lemma {:induction false} Small(v: nat)
    requires v < 4096
    ensures IsCode(v, v)
  {
    DecodeNext(v);
  }

  // ---------- Cursors ----------

  // The two bytes of a code: high byte first in network order.
  function Pack(u: nat, network: bool): seq<byte>
    requires u < CODES
  {
    if network then [u / 256, u % 256] else [u % 256, u / 256]
  }

  function Unpack(b: seq<byte>, network: bool): nat
    requires |b| == 2
  {
    var x: int, y: int := b[0], b[1];
    if network then x * 256 + y else y * 256 + x
  }

  class DataWriter {
    const buf: array<byte>
    const network: bool
    var pos: nat

    constructor (buf: array<byte>, network: bool)
      ensures this.buf == buf && this.network == network && pos == 0
    {
      this.buf, this.network, pos := buf, network, 0;
    }

    // False, and nothing changed, exactly when there is no room for two bytes.
    method WriteUFloat16(v: nat) returns (ok: bool, ghost u: nat)
      modifies this, buf
      ensures ok <==> old(pos) + 2 <= buf.Length
      ensures IsCode(v, u)
      ensures !ok ==> pos == old(pos) && buf[..] == old(buf[..])
      ensures ok ==> pos == old(pos) + 2 && buf[..] == old(buf[..pos]) + Pack(u, network) + old(buf[pos + 2..])
    {
      hide Pow2, Decode;
      var code := Encode(v);
      u := code;
      ok := pos <= buf.Length && buf.Length - pos >= 2;
      if ok {
        var b := Pack(code, network);
        buf[pos] := b[0];
        buf[pos + 1] := b[1];
        pos := pos + 2;
      }
    }
  }

  class DataReader {
    const data: seq<byte>
    const network: bool
    var pos: nat

    ghost predicate Valid()
      reads this
    {
      pos <= |data|
    }

    constructor (data: seq<byte>, network: bool)
      ensures this.data == data && this.network == network && pos == 0 && Valid()
    {
      this.data, this.network, pos := data, network, 0;
    }

    // On failure the cursor goes to the end.
    method ReadUFloat16() returns (ok: bool, v: nat)
      requires Valid()
      modifies this
      ensures Valid() && (ok <==> old(pos) + 2 <= |data|)
      ensures ok ==> pos == old(pos) + 2 && v == Decode(Unpack(data[old(pos)..old(pos) + 2], network))
      ensures !ok ==> pos == |data|
    {
      v := 0;
      if 2 > |data| - pos {
        pos := |data|;
        return false, v;
      }
      var u := Unpack(data[pos..pos + 2], network);
      pos := pos + 2;
      ok, v := true, u;
      if v < 4096 {
        return;
      }
      var exponent := u / 2048 - 1;
      v := (v - exponent * 2048) * Pow2(exponent);
    }
  }

  // In network order the high byte is first; the host's is the low byte.
  lemma {:induction false} ByteOrder(u: nat)
    requires u < CODES
    ensures var high: int, low: int := Pack(u, true)[0], Pack(u, true)[1]; 256 * high + low == u
    ensures var high: int, low: int := Pack(u, false)[1], Pack(u, false)[0]; 256 * high + low == u
  {
  }

  // What was written is read as the largest value the format has up to it; the values of
  // the format are read back exactly.
  lemma {:induction false} ReadBack(v: nat, u: nat, network: bool)
    requires IsCode(v, u)
    ensures Unpack(Pack(u, network), network) == u
    ensures forall w: nat :: w < CODES && Decode(w) <= v ==> Decode(w) <= Decode(Unpack(Pack(u, network), network))
    ensures forall w: nat :: w < CODES && v == Decode(w) ==> w == u
  {
    hide Decode;
    forall w: nat | w < CODES && Decode(w) <= v ensures Decode(w) <= Decode(u) {
      if u < w {
        AtMost(u + 1, w);
      } else {
        AtMost(w, u);
      }
    }
    forall w: nat | w < CODES && v == Decode(w) ensures w == u {
      CodeOfValue(w);
      CodesMonotone(v, u, v, w);
    }
  }
}
