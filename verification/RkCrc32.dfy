/**
 The Rockchip CRC-32, polynomial 0x04c10db7, most significant bit first, without reflection or final inversion: the
 bitwise form, the table form, and the register as a bit sequence.
 */
module RkCrc32 {
  import opened CrcBits
  import opened RkCrcTables

  type word = bv32

  predicate Has(c: word, m: word) { c & m != 0 }

  // ---------- one bit, one byte ----------

  function Step32(c: word): word { if c & 0x80000000 != 0 then (c << 1) ^ 0x04c10db7 else c << 1 }

  function Shift32(c: word): word { Step32(Step32(Step32(Step32(Step32(Step32(Step32(Step32(c)))))))) }

  // The bitwise form of the source.
  function Byte32(c: word, b: bv8): word { Shift32(c ^ ((b as word) << 24)) }

  // The table form of the source.
  function TableByte32(c: word, b: bv8): word { Sum(c << 8, Table32(Index(c, b))) }

  function Index(c: word, b: bv8): bv8 { ((c >> 24) as bv8) ^ b }

  // Exclusive or as a function: proofs use that equal arguments give equal sums.
  function Sum(a: word, b: word): word { a ^ b }

  function Union(a: word, b: word): word { a | b }

  // The bits of c at m and below.
  function Upto(c: word, m: word): word { c & (m | (m - 1)) }

  lemma {:induction false} Table32Part0(i: bv8)
    requires i & 0xe0 == 0x0
    ensures Table32(i) == Shift32((i as bv32) << 24)
  {
  }

  lemma {:induction false} Table32Part1(i: bv8)
    requires i & 0xe0 == 0x20
    ensures Table32(i) == Shift32((i as bv32) << 24)
  {
  }

  lemma {:induction false} Table32Part2(i: bv8)
    requires i & 0xe0 == 0x40
    ensures Table32(i) == Shift32((i as bv32) << 24)
  {
  }

  lemma {:induction false} Table32Part3(i: bv8)
    requires i & 0xe0 == 0x60
    ensures Table32(i) == Shift32((i as bv32) << 24)
  {
  }

  lemma {:induction false} Table32Part4(i: bv8)
    requires i & 0xe0 == 0x80
    ensures Table32(i) == Shift32((i as bv32) << 24)
  {
  }

  lemma {:induction false} Table32Part5(i: bv8)
    requires i & 0xe0 == 0xa0
    ensures Table32(i) == Shift32((i as bv32) << 24)
  {
  }

  lemma {:induction false} Table32Part6(i: bv8)
    requires i & 0xe0 == 0xc0
    ensures Table32(i) == Shift32((i as bv32) << 24)
  {
  }

  lemma {:induction false} Table32Part7(i: bv8)
    requires i & 0xe0 == 0xe0
    ensures Table32(i) == Shift32((i as bv32) << 24)
  {
  }

  /** Every entry of the table is eight bitwise steps of its index. */
  lemma {:induction false} Table32Entry(i: bv8)
    ensures Table32(i) == Shift32((i as bv32) << 24)
  {
    if i & 0xe0 == 0x0 { Table32Part0(i); }
    else if i & 0xe0 == 0x20 { Table32Part1(i); }
    else if i & 0xe0 == 0x40 { Table32Part2(i); }
    else if i & 0xe0 == 0x60 { Table32Part3(i); }
    else if i & 0xe0 == 0x80 { Table32Part4(i); }
    else if i & 0xe0 == 0xa0 { Table32Part5(i); }
    else if i & 0xe0 == 0xc0 { Table32Part6(i); }
    else { Table32Part7(i); }
  }

  // ---------- the register as a bit sequence ----------

  // The masks from m down to 1.
  function Masks(m: word): seq<word>
    decreases m
  {
    if m == 0 then [] else [m] + Masks(m >> 1)
  }

  // The bits of c at the given masks.
  function At(ms: seq<word>, c: word): (r: Bits)
    ensures |r| == |ms|
  {
    seq(|ms|, i requires 0 <= i < |ms| => Has(c, ms[i]))
  }

  lemma {:induction false} MasksCount()
    ensures |Masks(0x80000000)| == 32
  {
    assert |Masks(0x1)| == 1 && |Masks(0x2)| == 2 && |Masks(0x4)| == 3 && |Masks(0x8)| == 4;
    assert |Masks(0x10)| == 5 && |Masks(0x20)| == 6 && |Masks(0x40)| == 7 && |Masks(0x80)| == 8;
    assert |Masks(0x100)| == 9 && |Masks(0x200)| == 10 && |Masks(0x400)| == 11 && |Masks(0x800)| == 12;
    assert |Masks(0x1000)| == 13 && |Masks(0x2000)| == 14 && |Masks(0x4000)| == 15 && |Masks(0x8000)| == 16;
    assert |Masks(0x10000)| == 17 && |Masks(0x20000)| == 18 && |Masks(0x40000)| == 19 && |Masks(0x80000)| == 20;
    assert |Masks(0x100000)| == 21 && |Masks(0x200000)| == 22 && |Masks(0x400000)| == 23 && |Masks(0x800000)| == 24;
    assert |Masks(0x1000000)| == 25 && |Masks(0x2000000)| == 26 && |Masks(0x4000000)| == 27 && |Masks(0x8000000)| == 28;
    assert |Masks(0x10000000)| == 29 && |Masks(0x20000000)| == 30 && |Masks(0x40000000)| == 31 && |Masks(0x80000000)| == 32;
  }

  function Register(c: word): (r: Bits)
    ensures |r| == 32
  {
    MasksCount();
    At(Masks(0x80000000), c)
  }

  const POLY: Bits := Register(0x04c10db7)

  predicate Single(m: word) { m != 0 && m & (m - 1) == 0 }

  predicate Rung(m: word, n: word) { n < 0x80000000 && m == n << 1 }

  // One bit per mask, each mask half of the one before, down to 1.
  predicate Ladder(ms: seq<word>) {
    && ms != [] && ms[|ms| - 1] == 1
    && (forall i :: 0 <= i < |ms| ==> Single(ms[i]))
    && (forall i, j :: 0 <= i < |ms| - 1 && j == i + 1 ==> Rung(ms[i], ms[j]))
  }

  lemma {:induction false} Halve(m: word)
    requires Single(m) && m >> 1 != 0
    ensures Single(m >> 1) && Rung(m, m >> 1)
  {
  }

  lemma {:induction false} MasksLadder(m: word)
    requires Single(m)
    ensures Ladder(Masks(m)) && Masks(m)[0] == m
    decreases m
  {
    var rest := Masks(m >> 1);
    if m >> 1 != 0 {
      Halve(m);
      MasksLadder(m >> 1);
      assert forall i :: 0 <= i < |rest| ==> Masks(m)[i + 1] == rest[i];
    }
  }

  lemma {:induction false} XorBit(x: word, y: word, m: word)
    requires Single(m)
    ensures Has(x ^ y, m) == (Has(x, m) != Has(y, m))
  {
  }

  lemma {:induction false} XorAt(ms: seq<word>, c: word, d: word)
    requires Ladder(ms)
    ensures At(ms, c ^ d) == Xor(At(ms, c), At(ms, d))
  {
    forall i | 0 <= i < |ms|
      ensures Has(c ^ d, ms[i]) == (Has(c, ms[i]) != Has(d, ms[i]))
    {
      XorBit(c, d, ms[i]);
    }
  }

  lemma {:induction false} ShlOne(ms: seq<word>, c: word, i: nat)
    requires Ladder(ms) && i < |ms| - 1
    ensures Has(c << 1, ms[i]) == Has(c, ms[i + 1])
  {
    var m, n := ms[i], ms[i + 1];
    assert Rung(m, n);
  }

  lemma {:induction false} ShlAt(ms: seq<word>, c: word)
    requires Ladder(ms)
    ensures At(ms, c << 1) == Shl(At(ms, c))
  {
    var d := c << 1;
    forall i | 0 <= i < |ms| - 1
      ensures Has(d, ms[i]) == Has(c, ms[i + 1])
    {
      ShlOne(ms, c, i);
    }
  }

  lemma {:induction false} StepAt(ms: seq<word>, c: word)
    requires Ladder(ms) && ms[0] == 0x80000000
    ensures At(ms, Step32(c)) == Step(At(ms, 0x04c10db7), At(ms, c))
  {
    ShlAt(ms, c);
    XorAt(ms, c << 1, 0x04c10db7);
    assert At(ms, c)[0] == Has(c, 0x80000000);
  }

  /** A bitwise step on words is a step of the bit register. */
  lemma {:induction false} StepRegister(c: word)
    ensures Register(Step32(c)) == Step(POLY, Register(c))
  {
    MasksLadder(0x80000000);
    StepAt(Masks(0x80000000), c);
  }

  lemma {:induction false} ShiftRegister(c: word)
    ensures Register(Shift32(c)) == StepN(POLY, Register(c), 8)
  {
    var c1 := Step32(c);
    var c2 := Step32(c1);
    var c3 := Step32(c2);
    var c4 := Step32(c3);
    var c5 := Step32(c4);
    var c6 := Step32(c5);
    var c7 := Step32(c6);
    StepRegister(c); StepRegister(c1); StepRegister(c2); StepRegister(c3);
    StepRegister(c4); StepRegister(c5); StepRegister(c6); StepRegister(c7);
  }

  lemma {:induction false} PolyIsOdd()
    ensures |POLY| == 32 && Odd(POLY)
  {
    MasksLadder(0x80000000);
    assert Has(0x04c10db7, 1);
  }

  lemma {:induction false} XorRegister(c: word, d: word)
    ensures Register(c ^ d) == Xor(Register(c), Register(d))
  {
    MasksLadder(0x80000000);
    XorAt(Masks(0x80000000), c, d);
  }

  // ---------- a register determines its word ----------

  function Value(ms: seq<word>, bits: Bits): word
    requires |ms| == |bits|
  {
    if ms == [] then 0 else Union(if bits[0] then ms[0] else 0, Value(ms[1..], bits[1..]))
  }

  lemma {:induction false} Join(c: word, m: word)
    ensures Union(c & m, c & (m - 1)) == Upto(c, m)
  {
  }

  lemma {:induction false} ValueAt(c: word, m: word)
    requires Single(m)
    ensures Value(Masks(m), At(Masks(m), c)) == Upto(c, m)
    decreases m
  {
    var ms, rest := Masks(m), Masks(m >> 1);
    assert ms[1..] == rest && At(ms, c)[1..] == At(rest, c);
    Join(c, m);
    if m >> 1 != 0 {
      Halve(m);
      ValueAt(c, m >> 1);
    }
  }

  lemma {:induction false} RegisterInjective(c: word, d: word)
    requires Register(c) == Register(d)
    ensures c == d
  {
    ValueAt(c, 0x80000000);
    ValueAt(d, 0x80000000);
  }

  // ---------- the table form ----------

  // The register with a byte added, as its low part and the table index.
  lemma {:induction false} Split(c: word, b: bv8, i: bv8, low: word, high: word, z: word)
    requires i == Index(c, b) && low == c & 0xffffff && high == (i as word) << 24 && z == c ^ ((b as word) << 24)
    ensures z == low ^ high && low << 8 == c << 8 && low <= 0xffffff
  {
  }

  // Words whose registers add up are a word and its two parts.
  lemma {:induction false} SumOfRegisters(x: word, y: word, z: word)
    requires Register(z) == Xor(Register(x), Register(y))
    ensures z == Sum(x, y)
  {
    XorRegister(x, y);
    RegisterInjective(z, x ^ y);
  }

  // Shifting is linear.
  lemma {:induction false} ShiftLinear(x: word, y: word, z: word)
    requires z == x ^ y
    ensures Shift32(z) == Sum(Shift32(x), Shift32(y))
  {
    ShiftRegister(x);
    ShiftRegister(y);
    ShiftRegister(z);
    XorRegister(x, y);
    StepNLinear(POLY, Register(x), Register(y), 8);
    SumOfRegisters(Shift32(x), Shift32(y), Shift32(z));
  }

  lemma {:induction false} HighShift(i: bv8, high: word)
    requires high == (i as word) << 24
    ensures Shift32(high) == Table32(i)
  {
    Table32Entry(i);
  }

  lemma {:induction false} Parts(low: word, high: word, z: word, c8: word, t: word)
    requires z == low ^ high && Shift32(low) == c8 && Shift32(high) == t
    ensures Shift32(z) == Sum(c8, t)
  {
    ShiftLinear(low, high, z);
  }

  /** The table form of one byte is the bitwise form. */
  lemma {:induction false} TableByteIsByte(c: word, b: bv8)
    ensures TableByte32(c, b) == Byte32(c, b)
  {
    var i := Index(c, b);
    var low, high, z := c & 0xffffff, (i as word) << 24, c ^ ((b as word) << 24);
    assert Shift32(z) == Sum(c << 8, Table32(i)) by {
      Split(c, b, i, low, high, z);
      HighShift(i, high);
      Parts(low, high, z, c << 8, Table32(i));
    }
  }
}
