/** Damaged S-records: exactly which are refused, and what a changed byte of a dump does to a load. */
module SrecDamage {
  import opened Options
  import opened Srec

  lemma {:induction false} ChecksumIff(n: nat, c: Byte)
    ensures c == Checksum(n) <==> (n + c) % 256 == 255
  {
  }

  lemma {:induction false} SumIff(n: Byte, body: seq<Byte>, c: Byte)
    ensures Sum([n] + (body + [c])) % 256 == 255 <==> c == Checksum(n + Sum(body))
  {
    SumConcat([n], body + [c]);
    SumConcat(body, [c]);
    assert Sum([n]) == n && Sum([c]) == c;
    ChecksumIff(n + Sum(body), c);
  }

  /**
   A record line whose count is the number of bytes that follow decodes if and only if all its bytes add up to 0xFF;
   otherwise the answer is a checksum error.
   */
  lemma {:induction false} DecodesIff(t: char, n: Byte, addr: seq<Byte>, data: seq<Byte>, c: Byte, tail: seq<Byte>)
    requires FieldLength(t, |addr|) && n == |addr| + |data| + 1 && tail == addr + data + [c]
    ensures Decode(LineOf(t, n, tail)) == if Sum([n] + tail) % 256 == 255 then Record(t, Value(addr), data) else Bad(-3)
  {
    DecodesIfChecksum(t, n, addr, data, c, tail);
    SumIff(n, addr + data, c);
  }

  /** Lines of an unknown type, or that are cut, are refused too. */
  lemma {:induction false} UnknownType(t: char, count: Byte, s: string)
    requires !('0' <= t <= '3') && t != '5' && !('7' <= t <= '9')
    ensures DecodeBody(t, count, s) == Bad(-1)
  {
  }

  lemma {:induction false} CutRecord(t: char, addr: seq<Byte>, data: seq<Byte>, k: nat)
    requires FieldLength(t, |addr|) && |addr| + |data| < 255 && k <= |addr| + |data|
    ensures DecodeBody(t, |addr| + |data| + 1, Hex((addr + data)[..k])) == Bad(-2)
  {
    HexPlain((addr + data)[..k]);
    TooShort(Hex((addr + data)[..k]), |addr| + |data| + 1);
  }

  lemma {:induction false} TooShort(s: string, n: nat)
    requires |s| < 2 * n
    ensures Unhex(s, n).None?
    decreases n
  {
    if Hex2(s).Some? { TooShort(s[2..], n - 1); }
  }

  /** A count record has an address field of two bytes and no data, whatever its count. */
  lemma {:induction false} CountRecord(n: Byte, addr: seq<Byte>, c: Byte)
    requires |addr| == 2
    ensures DecodeBody('5', n, Hex(addr + [c]))
         == if c == Checksum(n + Sum(addr)) then Record('5', Value(addr), []) else Bad(-3)
  {
    var bs := addr + [c];
    UnhexHex(bs, "");
    assert Hex(bs) + "" == Hex(bs);
    assert bs[..2] == addr && bs[2..2] == [];
  }

  // ---------- lines ----------

  /** NUL and ^C in a line stop the load. */
  lemma {:induction false} ReadStops(line: string, c: char, rest: string, room: nat)
    requires |line| < room && (c == '\0' || c == 3 as char) && forall i :: 0 <= i < |line| ==> LineChar(line[i])
    ensures ReadRecord(line + [c] + rest, room).None?
    decreases |line|
  {
    var s := line + [c] + rest;
    if line != [] {
      assert s[0] == line[0] && s[1..] == line[1..] + [c] + rest;
      ReadStops(line[1..], c, rest, room - 1);
    }
  }

  lemma {:induction false} ReadCuts(line: string, rest: string, room: nat)
    requires |line| == room && forall i :: 0 <= i < |line| ==> LineChar(line[i])
    ensures ReadRecord(line + rest, room) == Some((line, rest))
    decreases |line|
  {
    var s := line + rest;
    if line != [] {
      assert s[0] == line[0] && s[1..] == line[1..] + rest;
      ReadCuts(line[1..], rest, room - 1);
      assert [line[0]] + line[1..] == line;
    } else {
      assert s == rest;
    }
  }

  /** A line of 516 characters or more is cut there, and the rest is read as another line. */
  lemma {:induction false} LongLineCut(line: string, rest: string)
    requires |line| == 516 && forall i :: 0 <= i < |line| ==> LineChar(line[i])
    ensures Records(line + rest) == [Decode(line)] + Records(rest)
  {
    ReadCuts(line, rest, MAXRECLEN);
  }

  // ---------- a damaged dump ----------

  // A wrong record before the end record stops the load.
  lemma {:induction false} BadAborts(ds: seq<Decoded>, k: nat, st: Load, offset: nat)
    requires k < |ds| && ds[k].Bad? && forall i :: 0 <= i < k ==> ds[i].Record? && (ds[i].kind == '0' || ds[i].kind == '3')
    ensures LoadRecords(ds, st, offset).0 == Aborted
    decreases |ds|
  {
    if k > 0 {
      assert ds[0].Record?;
      var rest := ds[1..];
      assert rest[k - 1] == ds[k] && forall i :: 0 <= i < k - 1 ==> rest[i] == ds[i + 1];
      if ds[0].kind == '0' {
        BadAborts(rest, k - 1, st, offset);
      } else {
        BadAborts(rest, k - 1, StoreRecord(st, Word(ds[0].addr + offset), ds[0].data), offset);
      }
    }
  }

  // One changed byte changes the sum.
  lemma {:induction false} SumChanged(d: seq<Byte>, i: nat, b: Byte)
    requires i < |d| && b != d[i]
    ensures Sum(d[i := b]) == Sum(d) + b - d[i] && Sum(d[i := b]) % 256 != Sum(d) % 256
  {
    var x, y := d[..i], d[i + 1..];
    assert d == x + ([d[i]] + y) && d[i := b] == x + ([b] + y);
    SumConcat(x, [d[i]] + y);
    SumConcat([d[i]], y);
    SumConcat(x, [b] + y);
    SumConcat([b], y);
    assert Sum([b]) == b && Sum([d[i]]) == d[i];
  }

  // The checksum byte of a data line.
  function LineChecksum(ab: seq<Byte>, d: seq<Byte>): Byte
    requires |ab| == 4 && |d| <= PER_RECORD
  {
    Checksum(5 + |d| + Sum(ab + d))
  }

  // The bytes after the count of a data line whose byte i arrives as b.
  function BadTail(ab: seq<Byte>, d: seq<Byte>, i: nat, b: Byte): (tail: seq<Byte>)
    requires |ab| == 4 && |d| <= PER_RECORD && i < |d|
    ensures |tail| == 5 + |d|
  {
    ab + d[i := b] + [LineChecksum(ab, d)]
  }

  function BadLine(a: nat, d: seq<Byte>, i: nat, b: Byte): string
    requires a < TWO_32 && |d| <= PER_RECORD && i < |d|
  {
    LineOf('3', 5 + |d|, BadTail(AddressBytes(a), d, i, b)) + "\n"
  }

  lemma {:induction false} BadChecksum(ab: seq<Byte>, d: seq<Byte>, i: nat, b: Byte, n: Byte)
    requires i < |d| && b != d[i]
    ensures Checksum(n + Sum(ab + d)) != Checksum(n + Sum(ab + d[i := b]))
  {
    SumConcat(ab, d);
    SumConcat(ab, d[i := b]);
    SumChanged(d, i, b);
    Unequal(n + Sum(ab), Sum(d), Sum(d[i := b]));
  }

  lemma {:induction false} Unequal(m: nat, x: nat, y: nat)
    requires x % 256 != y % 256
    ensures Checksum(m + x) != Checksum(m + y)
  {
  }

  lemma {:induction false} BadLineIsBad(ab: seq<Byte>, d: seq<Byte>, i: nat, b: Byte)
    requires |ab| == 4 && |d| <= PER_RECORD && i < |d| && b != d[i]
    ensures Decode(LineOf('3', 5 + |d|, BadTail(ab, d, i, b))) == Bad(-3)
  {
    BadChecksum(ab, d, i, b, 5 + |d|);
    WrongLine('3', 5 + |d|, ab, d[i := b], LineChecksum(ab, d), BadTail(ab, d, i, b));
  }

  lemma {:induction false} WrongLine(t: char, n: Byte, addr: seq<Byte>, data: seq<Byte>, c: Byte, tail: seq<Byte>)
    requires FieldLength(t, |addr|) && n == |addr| + |data| + 1 && tail == addr + data + [c]
    requires c != Checksum(n + Sum(addr + data))
    ensures Decode(LineOf(t, n, tail)) == Bad(-3)
  {
    DecodesIfChecksum(t, n, addr, data, c, tail);
  }

  lemma {:induction false} BadLineReads(a: nat, d: seq<Byte>, i: nat, b: Byte, rest: string)
    requires a < TWO_32 && |d| <= PER_RECORD && i < |d| && b != d[i]
    ensures Records(BadLine(a, d, i, b) + rest) == [Bad(-3)] + Records(rest)
  {
    var tail := BadTail(AddressBytes(a), d, i, b);
    HexPlain([5 + |d|] + tail);
    ReadLine(LineOf('3', 5 + |d|, tail), rest, MAXRECLEN);
    BadLineIsBad(AddressBytes(a), d, i, b);
  }

  // ---------- where the line is ----------

  // The m-th line of a dump has these bytes.
  function Chunk(bs: seq<Byte>, m: nat): seq<Byte>
    requires m * PER_RECORD <= |bs|
  {
    bs[m * PER_RECORD..if (m + 1) * PER_RECORD <= |bs| then (m + 1) * PER_RECORD else |bs|]
  }

  function After(bs: seq<Byte>, m: nat): seq<Byte>
    requires m * PER_RECORD <= |bs|
  {
    bs[if (m + 1) * PER_RECORD <= |bs| then (m + 1) * PER_RECORD else |bs|..]
  }

  lemma {:induction false} FullLines(f: LineWriter, a: nat, bs: seq<Byte>, m: nat)
    requires m * PER_RECORD <= |bs|
    ensures Lines(f, a, bs) == Lines(f, a, bs[..m * PER_RECORD]) + Lines(f, a + m * PER_RECORD, bs[m * PER_RECORD..])
    decreases m
  {
    if m == 0 {
      assert bs[..0] == [] && bs[0..] == bs;
      assert "" + Lines(f, a, bs) == Lines(f, a, bs);
    } else {
      FullLinesNext(f, a, bs, bs[..PER_RECORD], bs[PER_RECORD..], m);
    }
  }

  lemma {:induction false} FullLinesNext(f: LineWriter, a: nat, bs: seq<Byte>, x: seq<Byte>, y: seq<Byte>, m: nat)
    requires m > 0 && m * PER_RECORD <= |bs| && bs == x + y && |x| == PER_RECORD
    ensures Lines(f, a, bs) == Lines(f, a, bs[..m * PER_RECORD]) + Lines(f, a + m * PER_RECORD, bs[m * PER_RECORD..])
    decreases m, 0
  {
    var p, n := PER_RECORD, m * PER_RECORD;
    var pre := bs[..n];
    assert (m - 1) * PER_RECORD == n - p;
    FullLines(f, a + p, y, m - 1);
    LinesSplit(f, a, bs, p);
    LinesSplit(f, a, pre, p);
    assert bs[..p] == x && bs[p..] == y && pre[..p] == x && pre[p..] == y[..n - p] && y[n - p..] == bs[n..];
    Regroup(f(a, x), Lines(f, a + p, y[..n - p]), Lines(f, a + n, bs[n..]));
  }

  /** The lines of a dump around its m-th line. */
  lemma {:induction false} LinesAround(f: LineWriter, a: nat, bs: seq<Byte>, m: nat)
    requires m * PER_RECORD < |bs|
    ensures var at := a + m * PER_RECORD;
            Lines(f, a, bs) == Lines(f, a, bs[..m * PER_RECORD])
                               + (f(at, Chunk(bs, m)) + Lines(f, at + |Chunk(bs, m)|, After(bs, m)))
  {
    var n := m * PER_RECORD;
    var rest, c := bs[n..], Chunk(bs, m);
    FullLines(f, a, bs, m);
    LinesSplit(f, a + n, rest, |c|);
    assert rest[..|c|] == c && rest[|c|..] == After(bs, m);
  }

  // ---------- a damaged dump ----------

  /** The lines of a dump in which byte i of line m arrives as b. */
  function DamagedLines(a: nat, bs: seq<Byte>, m: nat, i: nat, b: Byte): string
    requires a + |bs| <= TWO_32 && m * PER_RECORD <= |bs| && i < |Chunk(bs, m)|
  {
    var at := a + m * PER_RECORD;
    DataLines(a, bs[..m * PER_RECORD]) + (BadLine(at, Chunk(bs, m), i, b) + DataLines(at + |Chunk(bs, m)|, After(bs, m)))
  }

  /** With the right byte they are the lines of the dump. */
  lemma {:induction false} UndamagedLines(a: nat, bs: seq<Byte>, m: nat, i: nat)
    requires a + |bs| <= TWO_32 && m * PER_RECORD < |bs| && i < |Chunk(bs, m)|
    ensures DamagedLines(a, bs, m, i, bs[m * PER_RECORD + i]) == DataLines(a, bs)
  {
    LinesAround(DataLine, a, bs, m);
    RightLineIs(a + m * PER_RECORD, Chunk(bs, m), i);
  }

  lemma {:induction false} SameTail(ab: seq<Byte>, d: seq<Byte>, i: nat)
    requires |ab| == 4 && |d| <= PER_RECORD && i < |d|
    ensures BadTail(ab, d, i, d[i]) == RecordTail(ab, d)
  {
    assert d[i := d[i]] == d;
  }

  lemma {:induction false} RightLineIs(a: nat, d: seq<Byte>, i: nat)
    requires a < TWO_32 && |d| <= PER_RECORD && i < |d|
    ensures BadLine(a, d, i, d[i]) == DataLine(a, d)
  {
    SameTail(AddressBytes(a), d, i);
    DataLineIs(a, d);
  }

  // Data records, a bad one, and anything.
  lemma {:induction false} BadBehind(a: nat, bs: seq<Byte>, lines: string, ds: seq<Decoded>)
    requires a + |bs| <= TWO_32 && Records(lines) == [Bad(-3)] + ds
    ensures var all := Records(START_LINE + (DataLines(a, bs) + lines));
            all == [Record('0', 0, [])] + (DataRecords(a, bs) + ([Bad(-3)] + ds))
  {
    StartReads(DataLines(a, bs) + lines);
    DataLinesRead(a, bs, lines);
  }

  /** A dump with one byte of its data changed makes the load answer that it was aborted, at any offset. */
  lemma {:induction false} DamagedDumpAborts(a: nat, bs: seq<Byte>, m: nat, i: nat, b: Byte, mem: Memory, offset: nat)
    requires a + |bs| <= TWO_32 && m * PER_RECORD < |bs| && i < |Chunk(bs, m)| && b != bs[m * PER_RECORD + i]
    ensures LoadText(START_LINE + (DamagedLines(a, bs, m, i, b) + END_LINE), mem, offset).0 == Aborted
  {
    var at, c, pre := a + m * PER_RECORD, Chunk(bs, m), bs[..m * PER_RECORD];
    var rest := DataLines(at + |c|, After(bs, m)) + END_LINE;
    BadLineReads(at, c, i, b, rest);
    TextParts(DataLines(a, pre), BadLine(at, c, i, b), DataLines(at + |c|, After(bs, m)), END_LINE);
    AbortsText(a, pre, BadLine(at, c, i, b) + rest, Records(rest), mem, offset);
  }

  lemma {:induction false} AbortsText(a: nat, bs: seq<Byte>, lines: string, ds: seq<Decoded>, mem: Memory, offset: nat)
    requires a + |bs| <= TWO_32 && Records(lines) == [Bad(-3)] + ds
    ensures LoadText(START_LINE + (DataLines(a, bs) + lines), mem, offset).0 == Aborted
  {
    BadBehind(a, bs, lines, ds);
    var text := START_LINE + (DataLines(a, bs) + lines);
    LoadTextOf(text, Records(text), mem, offset);
    AbortsBehind(DataRecords(a, bs), ds, Records(text), Load(mem, TWO_32 - 1, 0), offset);
  }

  lemma {:induction false} TextParts(x: string, y: string, z: string, e: string)
    ensures x + (y + z) + e == x + (y + (z + e))
  {
  }

  lemma {:induction false} AbortsBehind(pre: seq<Decoded>, ds: seq<Decoded>, all: seq<Decoded>, st: Load, offset: nat)
    requires all == [Record('0', 0, [])] + (pre + ([Bad(-3)] + ds))
    requires forall j :: 0 <= j < |pre| ==> pre[j].Record? && pre[j].kind == '3'
    ensures LoadRecords(all, st, offset).0 == Aborted
  {
    var k := |pre| + 1;
    assert all[k] == Bad(-3);
    assert forall j :: 0 < j < k ==> all[j] == pre[j - 1];
    BadAborts(all, k, st, offset);
  }
}
