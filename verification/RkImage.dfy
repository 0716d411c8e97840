/**
 Code that stores and checks the Rockchip CRCs: rkcrc appends a CRC-32 to an image, the kernel loader verifies it,
 and rkflashtool appends a CRC-16 to a TPL or SPL download.
 */
module RkImage {
  import opened CrcBits
  import opened RkCrc
  import C32 = RkCrc32

  function Flatten(chunks: seq<seq<byte>>): seq<byte>
    decreases |chunks|
  {
    if chunks == [] then [] else chunks[0] + Flatten(chunks[1..])
  }

  lemma {:induction false} FlattenSnoc(chunks: seq<seq<byte>>, last: seq<byte>)
    ensures Flatten(chunks + [last]) == Flatten(chunks) + last
    decreases |chunks|
  {
    if chunks == [] {
      assert [last][1..] == [] && last + [] == last && [] + last == last && chunks + [last] == [last];
    } else {
      assert (chunks + [last])[1..] == chunks[1..] + [last];
      FlattenSnoc(chunks[1..], last);
      assert chunks[0] + (Flatten(chunks[1..]) + last) == chunks[0] + Flatten(chunks[1..]) + last;
    }
  }

  lemma {:induction false} FlattenPrefix(chunks: seq<seq<byte>>, k: nat)
    requires k < |chunks|
    ensures Flatten(chunks[..k + 1]) == Flatten(chunks[..k]) + chunks[k]
  {
    assert chunks[..k + 1] == chunks[..k] + [chunks[k]];
    FlattenSnoc(chunks[..k], chunks[k]);
  }

  // ---------- images ----------

  function LowByte(c: bv32): byte { (c & 0xff) as byte }

  function Rest(c: bv32): bv32 { c >> 8 }

  // The n low bytes, lowest first; PUT32LE writes four.
  function Le(c: bv32, n: nat): (r: seq<byte>)
    ensures |r| == n
    decreases n
  {
    if n == 0 then [] else [LowByte(c)] + Le(Rest(c), n - 1)
  }

  function Le32(c: bv32): (r: seq<byte>)
    ensures |r| == 4
  {
    Le(c, 4)
  }

  function Push(acc: bv32, b: byte): bv32 { (acc << 8) + (b as bv32) }

  function FromLe(r: seq<byte>): bv32
    decreases |r|
  {
    if r == [] then 0 else Push(FromLe(r[1..]), r[0])
  }

  predicate Fits(c: bv32, n: nat)
    decreases n
  {
    if n == 0 then c == 0 else Fits(Rest(c), n - 1)
  }

  lemma {:induction false} LeRoundTrip(c: bv32, n: nat)
    requires Fits(c, n)
    ensures FromLe(Le(c, n)) == c
    decreases n
  {
    if n > 0 {
      LeRoundTrip(Rest(c), n - 1);
      assert Le(c, n)[1..] == Le(Rest(c), n - 1);
    }
  }

  /** rkcrc: copies the input chunk by chunk, however it was read, and appends the CRC of all of it. */
  method AppendCrc(chunks: seq<seq<byte>>) returns (out: seq<byte>)
    ensures out == Flatten(chunks) + Le32(Crc32(0, Flatten(chunks)))
  {
    var crc: bv32 := 0;
    out := [];
    for k := 0 to |chunks|
      invariant out == Flatten(chunks[..k]) && crc == Crc32(0, Flatten(chunks[..k]))
    {
      FlattenPrefix(chunks, k);
      Crc32Concat(0, Flatten(chunks[..k]), chunks[k]);
      crc := TableCrc32(crc, chunks[k]);
      out := out + chunks[k];
    }
    assert chunks[..|chunks|] == chunks;
    out := out + Le32(crc);
  }

  /** crc32_rk: a do-while loop, so it is only called on a non-empty buffer; there it is the CRC. */
  method Crc32Rk(crc0: bv32, s: seq<byte>) returns (crc: bv32)
    requires s != []
    ensures crc == Crc32(crc0, s)
  {
    crc := crc0;
    var k := 0;
    while true
      invariant k < |s| && crc == Crc32(crc0, s[..k])
      decreases |s| - k
    {
      Crc32Snoc(crc0, s, k);
      C32.TableByteIsByte(crc, s[k]);
      crc := C32.TableByte32(crc, s[k]);
      k := k + 1;
      if k == |s| { break; }
    }
    assert s[..|s|] == s;
  }

  // What crc32_verify answers: the stored CRC if it is right, and 0 otherwise.
  function Verdict(data: seq<byte>): bv32 {
    if |data| <= 4 then 0 else
      var n := |data| - 4;
      var stored := FromLe(data[n..]);
      if Crc32(0, data[..n]) == stored then stored else 0
  }

  method Crc32Verify(data: seq<byte>) returns (r: bv32)
    ensures r == Verdict(data)
  {
    if |data| <= 4 {
      return 0;
    }
    var size := |data| - 4;
    var check: bv32 := 0;
    ghost var t := data[size..];
    var i := 3;
    while i >= 0
      invariant -1 <= i <= 3 && check == FromLe(t[i + 1..])
    {
      assert data[size + i] == t[i] == t[i..][0] && t[i..][1..] == t[i + 1..];
      check := Push(check, data[size + i]);
      i := i - 1;
    }
    var computed := Crc32Rk(0, data[..size]);
    r := if computed == check then check else 0;
  }

  lemma {:induction false} VerdictOfParts(m: seq<byte>, stored: bv32)
    requires m != []
    ensures Verdict(m + Le32(stored)) == if Crc32(0, m) == stored then stored else 0
  {
    var data := m + Le32(stored);
    assert data[..|m|] == m && data[|m|..] == Le32(stored);
    LeRoundTrip(stored, 4);
  }

  /** An image with its own CRC appended is accepted, which the caller sees as a non-zero answer, if and only if
      that CRC is not 0. */
  lemma {:induction false} SealedImageVerifies(m: seq<byte>)
    requires m != []
    ensures Verdict(m + Le32(Crc32(0, m))) == Crc32(0, m)
    ensures Verdict(m + Le32(Crc32(0, m))) != 0 <==> Crc32(0, m) != 0
  {
    VerdictOfParts(m, Crc32(0, m));
  }

  // An all-zero image is a correct image that the loader reports as failed.
  lemma {:induction false} ZeroImage(n: nat)
    ensures Crc32(0, seq(n, _ => 0)) == 0
  {
    if n > 0 {
      var z: seq<byte> := seq(n, _ => 0);
      assert z[1..] == seq(n - 1, _ => 0);
      ZeroImage(n - 1);
    }
  }

  lemma {:induction false} ZeroImageFails(n: nat)
    requires n > 0
    ensures var m: seq<byte> := seq(n, _ => 0); Verdict(m + Le32(Crc32(0, m))) == 0
  {
    ZeroImage(n);
    SealedImageVerifies(seq(n, _ => 0));
  }

  /** No burst of at most 32 bits in the image data gets past the verifier. */
  lemma {:induction false} BurstRejected(m: seq<byte>, m': seq<byte>, before: Bits, u: Bits, v: Bits, after: Bits)
    requires m' != [] && MsgBits(m) == before + u + after && MsgBits(m') == before + v + after
    requires |u| == |v| <= 32 && u != v
    ensures Verdict(m' + Le32(Crc32(0, m))) == 0
  {
    Burst32(0, m, m', before, u, v, after);
    VerdictOfParts(m', Crc32(0, m));
  }

  // ---------- downloads ----------

  const CHUNK := 4096

  // The two CRC bytes, high byte first.
  function Be16(c: bv16): (r: seq<byte>)
    ensures |r| == 2
  {
    [(c >> 8) as byte, (c & 0xff) as byte]
  }

  /** A message followed by its own CRC-16 leaves nothing in the register. */
  lemma {:induction false} Residue(c: bv16, msg: seq<byte>)
    ensures Crc16(c, msg + Be16(Crc16(c, msg))) == 0
  {
    var d := Crc16(c, msg);
    var t := Be16(d);
    Crc16Concat(c, msg, t);
    assert t[1..] == [t[1]] && t[1..][1..] == [];
    assert Crc16(d, t) == Crc16((d & 0xff) << 8, t[1..]);
    assert Crc16((d & 0xff) << 8, t[1..]) == 0;
  }

  // The first n chunks are full.
  predicate AllFull(chunks: seq<seq<byte>>, n: int)
    requires n <= |chunks|
  {
    forall i :: 0 <= i < n ==> |chunks[i]| == CHUNK
  }

  // The loop over full chunks.
  method SendFull(chunks: seq<seq<byte>>) returns (sent: seq<seq<byte>>, used: nat, crc: bv16)
    ensures used <= |chunks| && AllFull(chunks, used) && (used == |chunks| || |chunks[used]| != CHUNK)
    ensures Flatten(sent) == Flatten(chunks[..used]) && crc == Crc16(0xffff, Flatten(chunks[..used]))
  {
    crc := 0xffff;
    sent, used := [], 0;
    while used < |chunks| && |chunks[used]| == CHUNK
      invariant used <= |chunks| && AllFull(chunks, used)
      invariant Flatten(sent) == Flatten(chunks[..used]) && crc == Crc16(0xffff, Flatten(chunks[..used]))
    {
      FlattenPrefix(chunks, used);
      Crc16Concat(0xffff, Flatten(chunks[..used]), chunks[used]);
      crc := TableCrc16(crc, chunks[used]);
      FlattenSnoc(sent, chunks[used]);
      sent := sent + [chunks[used]];
      used := used + 1;
    }
  }

  // The last chunk, followed by the CRC.
  method SendLast(sent0: seq<seq<byte>>, crc0: bv16, buf: seq<byte>, ghost read: seq<byte>) returns (sent: seq<seq<byte>>)
    requires Flatten(sent0) == read && crc0 == Crc16(0xffff, read)
    ensures Flatten(sent) == read + buf + Be16(Crc16(0xffff, read + buf))
  {
    Crc16Concat(0xffff, read, buf);
    var crc := TableCrc16(crc0, buf);
    FlattenSnoc(sent0, buf + Be16(crc));
    assert read + (buf + Be16(crc)) == read + buf + Be16(crc);
    sent := sent0 + [buf + Be16(crc)];
  }

  /** The 'l' and 'L' actions: sends each full chunk as it is read, then the last one with the CRC appended, so that
      the CRC-16 of the whole stream is 0.  `chunks` are the successive results of read, after which read returns 0,
      or fails if `fails` is set; a failure sends no CRC. */
  method Download(chunks: seq<seq<byte>>, fails: bool) returns (sent: seq<seq<byte>>, used: nat)
    ensures used <= |chunks|
    ensures AllFull(chunks, used) && used == |chunks| && fails ==> Flatten(sent) == Flatten(chunks)
    ensures AllFull(chunks, used) ==> used == |chunks|
    ensures !AllFull(chunks, used) ==> AllFull(chunks, used - 1)
    ensures !AllFull(chunks, used) || !fails ==>
              var read := Flatten(chunks[..used]);
              Flatten(sent) == read + Be16(Crc16(0xffff, read)) && Crc16(0xffff, Flatten(sent)) == 0
  {
    var full, n, crc := SendFull(chunks);
    ghost var read := Flatten(chunks[..n]);
    if n < |chunks| {
      sent := SendLast(full, crc, chunks[n], read);
      used := n + 1;
      FlattenPrefix(chunks, n);
      Residue(0xffff, read + chunks[n]);
    } else {
      assert chunks[..n] == chunks;
      sent, used := full, n;
      if !fails {
        sent := SendLast(full, crc, [], read);
        assert read + [] == read;
        Residue(0xffff, read);
      }
    }
  }
}
