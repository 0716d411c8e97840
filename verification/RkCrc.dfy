/**
 The Rockchip CRCs over messages: the bitwise and the table loop of rkcrc.h, feeding a message in chunks, and which error
 bursts a CRC detects.
 */
module RkCrc {
  import opened CrcBits
  import C16 = RkCrc16
  import C32 = RkCrc32

  type byte = bv8

  function Crc32(c: bv32, msg: seq<byte>): bv32
    decreases |msg|
  {
    if msg == [] then c else Crc32(C32.Byte32(c, msg[0]), msg[1..])
  }

  function Crc16(c: bv16, msg: seq<byte>): bv16
    decreases |msg|
  {
    if msg == [] then c else Crc16(C16.Byte16(c, msg[0]), msg[1..])
  }

  // ---------- chunking ----------

  /** Feeding the running value gives the same result wherever the buffer is split. */
  lemma {:induction false} Crc32Concat(c: bv32, a: seq<byte>, b: seq<byte>)
    ensures Crc32(c, a + b) == Crc32(Crc32(c, a), b)
    decreases |a|
  {
    if a == [] {
      assert a + b == b;
    } else {
      assert (a + b)[1..] == a[1..] + b;
      Crc32Concat(C32.Byte32(c, a[0]), a[1..], b);
    }
  }

  lemma {:induction false} Crc16Concat(c: bv16, a: seq<byte>, b: seq<byte>)
    ensures Crc16(c, a + b) == Crc16(Crc16(c, a), b)
    decreases |a|
  {
    if a == [] {
      assert a + b == b;
    } else {
      assert (a + b)[1..] == a[1..] + b;
      Crc16Concat(C16.Byte16(c, a[0]), a[1..], b);
    }
  }

  lemma {:induction false} Crc32Snoc(c: bv32, buf: seq<byte>, k: nat)
    requires k < |buf|
    ensures Crc32(c, buf[..k + 1]) == C32.Byte32(Crc32(c, buf[..k]), buf[k])
  {
    assert buf[..k + 1] == buf[..k] + [buf[k]] && [buf[k]][1..] == [];
    Crc32Concat(c, buf[..k], [buf[k]]);
  }

  lemma {:induction false} Crc16Snoc(c: bv16, buf: seq<byte>, k: nat)
    requires k < |buf|
    ensures Crc16(c, buf[..k + 1]) == C16.Byte16(Crc16(c, buf[..k]), buf[k])
  {
    assert buf[..k + 1] == buf[..k] + [buf[k]] && [buf[k]][1..] == [];
    Crc16Concat(c, buf[..k], [buf[k]]);
  }

  // ---------- the loops of the source ----------

  function Steps32(c: bv32, n: nat): bv32 { if n == 0 then c else C32.Step32(Steps32(c, n - 1)) }

  function Steps16(c: bv16, n: nat): bv16 { if n == 0 then c else C16.Step16(Steps16(c, n - 1)) }

  lemma {:induction false} Steps32Eight(c: bv32)
    ensures Steps32(c, 8) == C32.Shift32(c)
  {
    assert Steps32(c, 1) == C32.Step32(Steps32(c, 0)) && Steps32(c, 2) == C32.Step32(Steps32(c, 1));
    assert Steps32(c, 3) == C32.Step32(Steps32(c, 2)) && Steps32(c, 4) == C32.Step32(Steps32(c, 3));
    assert Steps32(c, 5) == C32.Step32(Steps32(c, 4)) && Steps32(c, 6) == C32.Step32(Steps32(c, 5));
    assert Steps32(c, 7) == C32.Step32(Steps32(c, 6)) && Steps32(c, 8) == C32.Step32(Steps32(c, 7));
  }

  lemma {:induction false} Steps16Eight(c: bv16)
    ensures Steps16(c, 8) == C16.Shift16(c)
  {
    assert Steps16(c, 1) == C16.Step16(Steps16(c, 0)) && Steps16(c, 2) == C16.Step16(Steps16(c, 1));
    assert Steps16(c, 3) == C16.Step16(Steps16(c, 2)) && Steps16(c, 4) == C16.Step16(Steps16(c, 3));
    assert Steps16(c, 5) == C16.Step16(Steps16(c, 4)) && Steps16(c, 6) == C16.Step16(Steps16(c, 5));
    assert Steps16(c, 7) == C16.Step16(Steps16(c, 6)) && Steps16(c, 8) == C16.Step16(Steps16(c, 7));
  }

  /** rkcrc32, bitwise. */
  method SlowCrc32(crc0: bv32, buf: seq<byte>) returns (crc: bv32)
    ensures crc == Crc32(crc0, buf)
  {
    crc := crc0;
    for k := 0 to |buf|
      invariant crc == Crc32(crc0, buf[..k])
    {
      Crc32Snoc(crc0, buf, k);
      ghost var x := crc ^ ((buf[k] as bv32) << 24);
      crc := crc ^ ((buf[k] as bv32) << 24);
      for i := 0 to 8
        invariant crc == Steps32(x, i)
      {
        crc := C32.Step32(crc);
      }
      Steps32Eight(x);
    }
    assert buf[..|buf|] == buf;
  }

  /** rkcrc16, bitwise. */
  method SlowCrc16(crc0: bv16, buf: seq<byte>) returns (crc: bv16)
    ensures crc == Crc16(crc0, buf)
  {
    crc := crc0;
    for k := 0 to |buf|
      invariant crc == Crc16(crc0, buf[..k])
    {
      Crc16Snoc(crc0, buf, k);
      ghost var x := crc ^ ((buf[k] as bv16) << 8);
      crc := crc ^ ((buf[k] as bv16) << 8);
      for i := 0 to 8
        invariant crc == Steps16(x, i)
      {
        crc := C16.Step16(crc);
      }
      Steps16Eight(x);
    }
    assert buf[..|buf|] == buf;
  }

  /** rkcrc32, by table: the same function as the bitwise loop. */
  method TableCrc32(crc0: bv32, buf: seq<byte>) returns (crc: bv32)
    ensures crc == Crc32(crc0, buf)
  {
    crc := crc0;
    for k := 0 to |buf|
      invariant crc == Crc32(crc0, buf[..k])
    {
      Crc32Snoc(crc0, buf, k);
      C32.TableByteIsByte(crc, buf[k]);
      crc := C32.TableByte32(crc, buf[k]);
    }
    assert buf[..|buf|] == buf;
  }

  /** rkcrc16, by table: the same function as the bitwise loop. */
  method TableCrc16(crc0: bv16, buf: seq<byte>) returns (crc: bv16)
    ensures crc == Crc16(crc0, buf)
  {
    crc := crc0;
    for k := 0 to |buf|
      invariant crc == Crc16(crc0, buf[..k])
    {
      Crc16Snoc(crc0, buf, k);
      C16.TableByteIsByte(crc, buf[k]);
      crc := C16.TableByte16(crc, buf[k]);
    }
    assert buf[..|buf|] == buf;
  }

  // ---------- messages as bits ----------

  predicate Has8(b: byte, m: byte) { b & m != 0 }

  const HEAD8: seq<byte> := [0x80, 0x40, 0x20, 0x10, 0x08, 0x04, 0x02, 0x01]

  // The bits of a byte, highest first.
  function ByteBits(b: byte): (r: Bits)
    ensures |r| == 8
  {
    seq(8, i requires 0 <= i < 8 => Has8(b, HEAD8[i]))
  }

  function MsgBits(msg: seq<byte>): (r: Bits)
    ensures |r| == 8 * |msg|
    decreases |msg|
  {
    if msg == [] then [] else ByteBits(msg[0]) + MsgBits(msg[1..])
  }

  lemma {:induction false} MsgBitsConcat(a: seq<byte>, b: seq<byte>)
    ensures MsgBits(a + b) == MsgBits(a) + MsgBits(b)
    decreases |a|
  {
    if a == [] {
      assert a + b == b && [] + MsgBits(b) == MsgBits(b);
    } else {
      assert (a + b)[1..] == a[1..] + b;
      MsgBitsConcat(a[1..], b);
      assert ByteBits(a[0]) + (MsgBits(a[1..]) + MsgBits(b)) == ByteBits(a[0]) + MsgBits(a[1..]) + MsgBits(b);
    }
  }

  lemma {:induction false} ByteBitsInjective(a: byte, b: byte)
    requires ByteBits(a) == ByteBits(b)
    ensures a == b
  {
    var x, y := ByteBits(a), ByteBits(b);
    assert x[0] == y[0] && x[1] == y[1] && x[2] == y[2] && x[3] == y[3];
    assert x[4] == y[4] && x[5] == y[5] && x[6] == y[6] && x[7] == y[7];
  }

  lemma {:induction false} MsgBitsInjective(a: seq<byte>, b: seq<byte>)
    requires |a| == |b| && MsgBits(a) == MsgBits(b)
    ensures a == b
    decreases |a|
  {
    if a != [] {
      assert ByteBits(a[0]) == MsgBits(a)[..8] && ByteBits(b[0]) == MsgBits(b)[..8];
      assert MsgBits(a[1..]) == MsgBits(a)[8..] && MsgBits(b[1..]) == MsgBits(b)[8..];
      ByteBitsInjective(a[0], b[0]);
      MsgBitsInjective(a[1..], b[1..]);
      assert a == [a[0]] + a[1..] && b == [b[0]] + b[1..];
    }
  }

  // ---------- a byte is eight bits fed to the register ----------

  lemma {:induction false} Masks32Below(m: bv32, i: nat)
    requires C32.Single(m) && i < |C32.Masks(m)|
    ensures C32.Masks(m)[i] <= m
    decreases m
  {
    C32.MasksLadder(m);
    if i > 0 {
      C32.Halve(m);
      Masks32Below(m >> 1, i - 1);
    }
  }

  lemma {:induction false} Masks32Head()
    ensures C32.Masks(0x80000000) == HEAD32 + C32.Masks(0x800000)
  {
    assert C32.Masks(0x80000000) == [0x80000000] + C32.Masks(0x40000000);
    assert C32.Masks(0x40000000) == [0x40000000] + C32.Masks(0x20000000);
    assert C32.Masks(0x20000000) == [0x20000000] + C32.Masks(0x10000000);
    assert C32.Masks(0x10000000) == [0x10000000] + C32.Masks(0x8000000);
    assert C32.Masks(0x8000000) == [0x8000000] + C32.Masks(0x4000000);
    assert C32.Masks(0x4000000) == [0x4000000] + C32.Masks(0x2000000);
    assert C32.Masks(0x2000000) == [0x2000000] + C32.Masks(0x1000000);
    assert C32.Masks(0x1000000) == [0x1000000] + C32.Masks(0x800000);
  }

  lemma {:induction false} LowClear32(b: byte, x: bv32, i: nat)
    requires x == (b as bv32) << 24 && 8 <= i < 32
    ensures !C32.Register(x)[i]
  {
    C32.MasksCount();
    Masks32Head();
    var rest := C32.Masks(0x800000);
    Masks32Below(0x800000, i - 8);
    assert C32.Masks(0x80000000)[i] == rest[i - 8];
  }

  const HEAD32: seq<bv32> := [0x80000000, 0x40000000, 0x20000000, 0x10000000, 0x8000000, 0x4000000, 0x2000000, 0x1000000]

  lemma {:induction false} HeadMask32(i: nat)
    requires i < 8
    ensures i < |C32.Masks(0x80000000)| && C32.Masks(0x80000000)[i] == HEAD32[i]
  {
    Masks32Head();
  }

  lemma {:induction false} HighSet32(b: byte, x: bv32, i: nat)
    requires x == (b as bv32) << 24 && i < 8
    ensures C32.Register(x)[i] == ByteBits(b)[i]
  {
    HeadMask32(i);
  }

  // A byte at the top of a word is its bits followed by zeros.
  lemma {:induction false} Raised32(b: byte, x: bv32)
    requires x == (b as bv32) << 24
    ensures C32.Register(x) == Pad(ByteBits(b), 32)
  {
    var r := C32.Register(x);
    forall i | 0 <= i < 8 ensures r[i] == ByteBits(b)[i] { HighSet32(b, x, i); }
    forall i | 8 <= i < 32 ensures !r[i] { LowClear32(b, x, i); }
  }

  // A byte added at the top of a register and stepped out is the byte fed bit by bit.
  lemma {:induction false} Shifted32(rc: Bits, b: byte, rx: Bits, rz: Bits)
    requires |rc| == 32 && rx == Pad(ByteBits(b), 32) && rz == Xor(rc, rx)
    ensures StepN(C32.POLY, rz, 8) == FeedAll(C32.POLY, rc, ByteBits(b))
  {
    FeedAhead(C32.POLY, rc, ByteBits(b));
  }

  lemma {:induction false} ByteFeeds32(c: bv32, b: byte)
    ensures C32.Register(C32.Byte32(c, b)) == FeedAll(C32.POLY, C32.Register(c), ByteBits(b))
  {
    var x := (b as bv32) << 24;
    var z := c ^ x;
    Raised32(b, x);
    C32.XorRegister(c, x);
    C32.ShiftRegister(z);
    Shifted32(C32.Register(c), b, C32.Register(x), C32.Register(z));
  }

  /** The CRC of a message is its bits fed to the register, highest bit of the first byte first. */
  lemma {:induction false} Crc32Feeds(c: bv32, msg: seq<byte>)
    ensures C32.Register(Crc32(c, msg)) == FeedAll(C32.POLY, C32.Register(c), MsgBits(msg))
    decreases |msg|
  {
    if msg != [] {
      var d := C32.Byte32(c, msg[0]);
      ByteFeeds32(c, msg[0]);
      Crc32Feeds(d, msg[1..]);
      FeedConcat(C32.POLY, C32.Register(c), ByteBits(msg[0]), MsgBits(msg[1..]));
    }
  }

  /** Messages whose bits differ only inside a window of at most 32 bits have different CRC-32s, whatever comes
      before and after the window and whatever the initial value. */
  lemma {:induction false} Burst32(c: bv32, a: seq<byte>, b: seq<byte>, before: Bits, u: Bits, v: Bits, after: Bits)
    requires MsgBits(a) == before + u + after && MsgBits(b) == before + v + after
    requires |u| == |v| <= 32 && u != v
    ensures Crc32(c, a) != Crc32(c, b)
  {
    Crc32Feeds(c, a);
    Crc32Feeds(c, b);
    C32.PolyIsOdd();
    BurstDetected(C32.POLY, C32.Register(c), before, u, v, after);
  }

  /** The same for a window of at most 4 whole bytes. */
  lemma {:induction false} Window32(c: bv32, before: seq<byte>, u: seq<byte>, v: seq<byte>, after: seq<byte>)
    requires |u| == |v| <= 4 && u != v
    ensures Crc32(c, before + u + after) != Crc32(c, before + v + after)
  {
    MsgBitsConcat(before + u, after);
    MsgBitsConcat(before, u);
    MsgBitsConcat(before + v, after);
    MsgBitsConcat(before, v);
    if MsgBits(u) == MsgBits(v) {
      MsgBitsInjective(u, v);
    }
    Burst32(c, before + u + after, before + v + after, MsgBits(before), MsgBits(u), MsgBits(v), MsgBits(after));
  }

  lemma {:induction false} Masks16Below(m: bv16, i: nat)
    requires C16.Single(m) && i < |C16.Masks(m)|
    ensures C16.Masks(m)[i] <= m
    decreases m
  {
    C16.MasksLadder(m);
    if i > 0 {
      C16.Halve(m);
      Masks16Below(m >> 1, i - 1);
    }
  }

  lemma {:induction false} Masks16Head()
    ensures C16.Masks(0x8000) == HEAD16 + C16.Masks(0x80)
  {
    assert C16.Masks(0x8000) == [0x8000] + C16.Masks(0x4000);
    assert C16.Masks(0x4000) == [0x4000] + C16.Masks(0x2000);
    assert C16.Masks(0x2000) == [0x2000] + C16.Masks(0x1000);
    assert C16.Masks(0x1000) == [0x1000] + C16.Masks(0x800);
    assert C16.Masks(0x800) == [0x800] + C16.Masks(0x400);
    assert C16.Masks(0x400) == [0x400] + C16.Masks(0x200);
    assert C16.Masks(0x200) == [0x200] + C16.Masks(0x100);
    assert C16.Masks(0x100) == [0x100] + C16.Masks(0x80);
  }

  lemma {:induction false} LowClear16(b: byte, x: bv16, i: nat)
    requires x == (b as bv16) << 8 && 8 <= i < 16
    ensures !C16.Register(x)[i]
  {
    C16.MasksCount();
    Masks16Head();
    var rest := C16.Masks(0x80);
    Masks16Below(0x80, i - 8);
    assert C16.Masks(0x8000)[i] == rest[i - 8];
  }

  const HEAD16: seq<bv16> := [0x8000, 0x4000, 0x2000, 0x1000, 0x800, 0x400, 0x200, 0x100]

  lemma {:induction false} HeadMask16(i: nat)
    requires i < 8
    ensures i < |C16.Masks(0x8000)| && C16.Masks(0x8000)[i] == HEAD16[i]
  {
    Masks16Head();
  }

  lemma {:induction false} HighSet16(b: byte, x: bv16, i: nat)
    requires x == (b as bv16) << 8 && i < 8
    ensures C16.Register(x)[i] == ByteBits(b)[i]
  {
    HeadMask16(i);
  }

  // A byte at the top of a word is its bits followed by zeros.
  lemma {:induction false} Raised16(b: byte, x: bv16)
    requires x == (b as bv16) << 8
    ensures C16.Register(x) == Pad(ByteBits(b), 16)
  {
    var r := C16.Register(x);
    forall i | 0 <= i < 8 ensures r[i] == ByteBits(b)[i] { HighSet16(b, x, i); }
    forall i | 8 <= i < 16 ensures !r[i] { LowClear16(b, x, i); }
  }

  // A byte added at the top of a register and stepped out is the byte fed bit by bit.
  lemma {:induction false} Shifted16(rc: Bits, b: byte, rx: Bits, rz: Bits)
    requires |rc| == 16 && rx == Pad(ByteBits(b), 16) && rz == Xor(rc, rx)
    ensures StepN(C16.POLY, rz, 8) == FeedAll(C16.POLY, rc, ByteBits(b))
  {
    FeedAhead(C16.POLY, rc, ByteBits(b));
  }

  lemma {:induction false} ByteFeeds16(c: bv16, b: byte)
    ensures C16.Register(C16.Byte16(c, b)) == FeedAll(C16.POLY, C16.Register(c), ByteBits(b))
  {
    var x := (b as bv16) << 8;
    var z := c ^ x;
    Raised16(b, x);
    C16.XorRegister(c, x);
    C16.ShiftRegister(z);
    Shifted16(C16.Register(c), b, C16.Register(x), C16.Register(z));
  }

  /** The CRC of a message is its bits fed to the register, highest bit of the first byte first. */
  lemma {:induction false} Crc16Feeds(c: bv16, msg: seq<byte>)
    ensures C16.Register(Crc16(c, msg)) == FeedAll(C16.POLY, C16.Register(c), MsgBits(msg))
    decreases |msg|
  {
    if msg != [] {
      var d := C16.Byte16(c, msg[0]);
      ByteFeeds16(c, msg[0]);
      Crc16Feeds(d, msg[1..]);
      FeedConcat(C16.POLY, C16.Register(c), ByteBits(msg[0]), MsgBits(msg[1..]));
    }
  }

  /** Messages whose bits differ only inside a window of at most 16 bits have different CRC-16s, whatever comes
      before and after the window and whatever the initial value. */
  lemma {:induction false} Burst16(c: bv16, a: seq<byte>, b: seq<byte>, before: Bits, u: Bits, v: Bits, after: Bits)
    requires MsgBits(a) == before + u + after && MsgBits(b) == before + v + after
    requires |u| == |v| <= 16 && u != v
    ensures Crc16(c, a) != Crc16(c, b)
  {
    Crc16Feeds(c, a);
    Crc16Feeds(c, b);
    C16.PolyIsOdd();
    BurstDetected(C16.POLY, C16.Register(c), before, u, v, after);
  }

  /** The same for a window of at most 2 whole bytes. */
  lemma {:induction false} Window16(c: bv16, before: seq<byte>, u: seq<byte>, v: seq<byte>, after: seq<byte>)
    requires |u| == |v| <= 2 && u != v
    ensures Crc16(c, before + u + after) != Crc16(c, before + v + after)
  {
    MsgBitsConcat(before + u, after);
    MsgBitsConcat(before, u);
    MsgBitsConcat(before + v, after);
    MsgBitsConcat(before, v);
    if MsgBits(u) == MsgBits(v) {
      MsgBitsInjective(u, v);
    }
    Burst16(c, before + u + after, before + v + after, MsgBits(before), MsgBits(u), MsgBits(v), MsgBits(after));
  }
}
