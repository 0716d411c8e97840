/** The loops of save_serial and load_serial over the board's memory. */
module SrecBoard {
  import opened Srec
  import opened Options

  // The bytes of a range.
  function Bytes(mem: Memory, a: nat, n: nat): (bs: seq<Byte>)
    requires forall k :: a <= k < a + n ==> k in mem
    ensures |bs| == n && forall i :: 0 <= i < n ==> bs[i] == mem[a + i]
  {
    seq(n, i requires 0 <= i < n => assert a + i in mem; mem[a + i])
  }

  lemma {:induction false} HexConcat(a: seq<Byte>, b: seq<Byte>)
    ensures Hex(a + b) == Hex(a) + Hex(b)
    decreases |a|
  {
    if a == [] {
      assert a + b == b;
    } else {
      HexConcat(a[1..], b);
      assert (a + b)[1..] == a[1..] + b;
    }
  }

  lemma {:induction false} Collected(d: seq<Byte>, c: Byte)
    ensures Hex(d + [c]) == Hex(d) + HexByte(c) && Sum(d + [c]) == Sum(d) + c
  {
    HexConcat(d, [c]);
    SumConcat(d, [c]);
  }

  // The checksum accumulated from the data, the two bytes of the length and the four of the address.
  function Accumulated(d: nat, length: nat, a: nat): nat
    requires a < TWO_32
  {
    d + length % 256 + length / 256 % 256 + a % 256 + a / 0x100 % 256 + a / 0x1_0000 % 256 + a / 0x100_0000 % 256
  }

  lemma {:induction false} FourSum(w: Byte, x: Byte, y: Byte, z: Byte)
    ensures Sum([w, x, y, z]) == w + x + y + z
  {
    assert [w, x, y, z] == [w, x] + [y, z] && [w, x] == [w] + [x] && [y, z] == [y] + [z];
    SumConcat([w, x], [y, z]);
    SumConcat([w], [x]);
    SumConcat([y], [z]);
  }

  lemma {:induction false} AddressSum(a: nat)
    requires a < TWO_32
    ensures Sum(AddressBytes(a)) == a % 256 + a / 0x100 % 256 + a / 0x1_0000 % 256 + a / 0x100_0000 % 256
  {
    FourSum(a / 0x100_0000, a / 0x1_0000 % 256, a / 256 % 256, a % 256);
  }

  lemma {:induction false} BodySum(a: nat, d: seq<Byte>)
    requires a < TWO_32 && |d| <= PER_RECORD
    ensures 5 + |d| + Sum(AddressBytes(a) + d) == Accumulated(Sum(d), 5 + |d|, a)
  {
    SumConcat(AddressBytes(a), d);
    AddressSum(a);
  }

  lemma {:induction false} HexRecord(n: Byte, ab: seq<Byte>, d: seq<Byte>, c: Byte)
    ensures Hex([n] + (ab + d + [c])) == HexByte(n) + Hex(ab) + Hex(d) + HexByte(c)
  {
    HexCons(n, ab + d + [c]);
    HexConcat(ab, d);
    HexConcat(ab + d, [c]);
    HexCons(c, []);
    assert [c] + [] == [c];
  }

  lemma {:induction false} LineText(h1: string, h2: string, h3: string, h4: string)
    ensures "S3" + h1 + h2 + h3 + h4 + "\n" == "S" + ['3'] + (h1 + h2 + h3 + h4) + "\n"
  {
  }

  lemma {:induction false} FormattedLine(n: Byte, ab: seq<Byte>, d: seq<Byte>, c: Byte, tail: seq<Byte>)
    requires tail == ab + d + [c]
    ensures "S3" + HexByte(n) + Hex(ab) + Hex(d) + HexByte(c) + "\n" == LineOf('3', n, tail) + "\n"
  {
    HexRecord(n, ab, d, c);
    LineText(HexByte(n), Hex(ab), Hex(d), HexByte(c));
  }

  // The formatted record is the record line of its data.
  lemma {:induction false} Formatted(a: nat, d: seq<Byte>, sum: nat)
    requires a < TWO_32 && |d| <= PER_RECORD && sum == Accumulated(Sum(d), 5 + |d|, a)
    ensures "S3" + HexByte(5 + |d|) + Hex(AddressBytes(a)) + Hex(d) + HexByte(Checksum(sum)) + "\n" == DataLine(a, d)
  {
    BodySum(a, d);
    DataLineIs(a, d);
    FormattedLine(5 + |d|, AddressBytes(a), d, Checksum(sum), RecordTail(AddressBytes(a), d));
  }

  // One record, from the hex data and the checksum collected so far.
  method Format(a: nat, ghost d: seq<Byte>, data: string, reclen: nat, sum: nat) returns (record: string)
    requires a < TWO_32 && reclen == |d| <= PER_RECORD && data == Hex(d) && sum == Sum(d)
    ensures record == DataLine(a, d)
  {
    var length := 4 + reclen + 1;
    var checksum := Accumulated(sum, length, a);
    Formatted(a, d, checksum);
    record := "S3" + HexByte(length) + Hex(AddressBytes(a)) + data + HexByte(Checksum(checksum)) + "\n";
  }

  // The record buffer: hex text and byte sum of the first bytes of what is left to dump.
  ghost predicate Collecting(rest: seq<Byte>, reclen: nat, data: string, sum: nat) {
    reclen <= |rest| && data == Hex(rest[..reclen]) && sum == Sum(rest[..reclen])
  }

  lemma {:induction false} CollectByte(rest: seq<Byte>, reclen: nat, data: string, sum: nat)
    requires Collecting(rest, reclen, data, sum) && reclen < |rest|
    ensures Collecting(rest, reclen + 1, data + HexByte(rest[reclen]), sum + rest[reclen])
  {
    assert rest[..reclen + 1] == rest[..reclen] + [rest[reclen]];
    Collected(rest[..reclen], rest[reclen]);
  }

  // What has been written, and what the bytes from a on will add, make up the whole.
  ghost predicate Written(f: LineWriter, lines: string, a: nat, rest: seq<Byte>, all: string) {
    a + |rest| <= TWO_32 && lines + Lines(f, a, rest) == all
  }

  lemma {:induction false} EmitRecord(f: LineWriter, lines: string, a: nat, rest: seq<Byte>, n: nat, record: string, all: string)
    requires Written(f, lines, a, rest, all) && 0 < n <= |rest| && (n == PER_RECORD || (n < PER_RECORD && n == |rest|))
    requires record == f(a, rest[..n])
    ensures Written(f, lines + record, a + n, rest[n..], all)
  {
    LinesSplit(f, a, rest, n);
    Regroup(lines, record, Lines(f, a + n, rest[n..]));
  }

  lemma {:induction false} WrittenAll(f: LineWriter, lines: string, a: nat, all: string)
    requires Written(f, lines, a, [], all)
    ensures lines == all
  {
    assert lines + "" == lines;
  }

  // A full or last record.
  method Flush(ghost f: LineWriter, lines: string, a: nat, ghost rest: seq<Byte>, data: string, reclen: nat, checksum: nat,
               ghost all: string)
    returns (r: string)
    requires f == DataLine && Written(f, lines, a, rest, all) && Collecting(rest, reclen, data, checksum)
    requires reclen <= |rest| && (reclen == PER_RECORD || (reclen < PER_RECORD && reclen == |rest|))
    ensures Written(f, r, a + reclen, rest[reclen..], all)
  {
    r := lines;
    if reclen > 0 {
      var record := Format(a, rest[..reclen], data, reclen, checksum);
      EmitRecord(f, lines, a, rest, reclen, record, all);
      r := lines + record;
    }
  }

  predicate Cell(mem: Memory, k: nat, b: Byte) { k in mem && mem[k] == b }

  // The bytes of memory from a on.
  ghost predicate Holds(mem: Memory, a: nat, rest: seq<Byte>) { forall i :: 0 <= i < |rest| ==> Cell(mem, a + i, rest[i]) }

  lemma {:induction false} HoldsTail(mem: Memory, a: nat, rest: seq<Byte>, n: nat)
    requires Holds(mem, a, rest) && n <= |rest|
    ensures Holds(mem, a + n, rest[n..])
  {
    forall i | 0 <= i < |rest[n..]| ensures Cell(mem, a + n + i, rest[n..][i]) {
      assert Cell(mem, a + (n + i), rest[n + i]);
    }
  }

  // The state of the dump loop.
  ghost predicate Dumping(f: LineWriter, mem: Memory, a: nat, left: nat, reclen: nat, checksum: nat, data: string, lines: string,
                          rest: seq<Byte>, all: string) {
    && reclen < PER_RECORD && |rest| == reclen + left && (left == 0 ==> reclen == 0) && Holds(mem, a, rest)
    && Collecting(rest, reclen, data, checksum) && Written(f, lines, a, rest, all)
  }

  // The record in front of the rest of the dump, and whether it is full or the last one.
  ghost predicate Flushable(f: LineWriter, mem: Memory, a: nat, left: nat, reclen: nat, checksum: nat, data: string, lines: string,
                            rest: seq<Byte>, all: string) {
    && reclen <= PER_RECORD && |rest| == reclen + left && Holds(mem, a, rest)
    && Collecting(rest, reclen, data, checksum) && Written(f, lines, a, rest, all)
  }

  lemma {:induction false} CollectNext(f: LineWriter, mem: Memory, a: nat, left: nat, reclen: nat, checksum: nat, data: string,
                                       lines: string, rest: seq<Byte>, all: string)
    requires left > 0 && Dumping(f, mem, a, left, reclen, checksum, data, lines, rest, all)
    ensures a + reclen in mem
    ensures var c := mem[a + reclen];
            Flushable(f, mem, a, left - 1, reclen + 1, checksum + c, data + HexByte(c), lines, rest, all)
  {
    assert Cell(mem, a + reclen, rest[reclen]);
    CollectByte(rest, reclen, data, checksum);
  }

  lemma {:induction false} StartNext(f: LineWriter, mem: Memory, a: nat, left: nat, lines: string, rest: seq<Byte>, all: string)
    requires |rest| == left && Holds(mem, a, rest) && Written(f, lines, a, rest, all)
    ensures Dumping(f, mem, a, left, 0, 0, "", lines, rest, all)
  {
  }

  // One round of the dump loop.
  method DumpByte(ghost f: LineWriter, mem: Memory, a0: nat, left0: nat, reclen0: nat, checksum0: nat, data0: string,
                  lines0: string, ghost rest0: seq<Byte>, ghost all: string)
    returns (a: nat, left: nat, reclen: nat, checksum: nat, data: string, lines: string, ghost rest: seq<Byte>)
    requires f == DataLine && Dumping(f, mem, a0, left0, reclen0, checksum0, data0, lines0, rest0, all)
    ensures Dumping(f, mem, a, left, reclen, checksum, data, lines, rest, all) && left == if left0 > 0 then left0 - 1 else 0
  {
    a, left, reclen, checksum, data, lines, rest := a0, left0, reclen0, checksum0, data0, lines0, rest0;
    if left > 0 {
      CollectNext(f, mem, a, left, reclen, checksum, data, lines, rest, all);
      var c := mem[a + reclen];
      checksum, data := checksum + c, data + HexByte(c);
      reclen, left := reclen + 1, left - 1;
    }
    assert Flushable(f, mem, a, left, reclen, checksum, data, lines, rest, all);
    if reclen == PER_RECORD || left == 0 {
      lines := Flush(f, lines, a, rest, data, reclen, checksum, all);
      HoldsTail(mem, a, rest, reclen);
      rest := rest[reclen..];
      a, checksum, reclen, data := a + reclen, 0, 0, "";
      StartNext(f, mem, a, left, lines, rest, all);
    }
  }

  // The loop of save_serial: the data records of a range.
  method Dump(ghost f: LineWriter, mem: Memory, address: nat, count: nat, ghost bs: seq<Byte>) returns (lines: string)
    requires f == DataLine && address + count <= TWO_32 && |bs| == count && Holds(mem, address, bs)
    ensures lines == Lines(f, address, bs)
  {
    ghost var rest, all := bs, Lines(f, address, bs);
    var data := "";
    lines := "";
    var a: nat, reclen: nat, checksum: nat, left: nat := address, 0, 0, count;
    var more := true;
    while more
      invariant Dumping(f, mem, a, left, reclen, checksum, data, lines, rest, all) && (!more ==> left == 0)
      decreases left, more
    {
      a, left, reclen, checksum, data, lines, rest := DumpByte(f, mem, a, left, reclen, checksum, data, lines, rest, all);
      more := left > 0;
    }
    assert rest == [];
    WrittenAll(f, lines, a, all);
  }

  class Board {
    var mem: Memory

    constructor (mem: Memory)
      ensures this.mem == mem
    {
      this.mem := mem;
    }

    /** save_serial, without ^C. */
    method SaveSerial(address: nat, count: nat) returns (out: string)
      requires address + count <= TWO_32 && forall k :: address <= k < address + count ==> k in mem
      ensures out == SaveText(address, Bytes(mem, address, count))
    {
      var lines := Dump(DataLine, mem, address, count, Bytes(mem, address, count));
      out := START_LINE + lines + END_LINE;
    }

    /** load_serial. */
    method LoadSerial(input: string, offset: nat) returns (r: Outcome)
      modifies this
      ensures (r, mem) == LoadText(input, old(mem), offset)
    {
      var s := input;
      var start: nat, end: nat := TWO_32 - 1, 0;
      while true
        invariant LoadRecords(Records(s), Load(mem, start, end), offset) == LoadText(input, old(mem), offset)
        decreases |s|
      {
        var line := ReadRecord(s, MAXRECLEN);
        if line.None? { return Aborted; }
        ReadShorter(s, MAXRECLEN);
        s := line.value.1;
        var d := Decode(line.value.0);
        LoadNext(d, Records(s), Load(mem, start, end), offset);
        if d.Bad? { return Aborted; }
        if d.Record? && IsData(d.kind) {
          var st := StoreRecord(Load(mem, start, end), Word(d.addr + offset), d.data);
          mem, start, end := st.mem, st.start, st.end;
        } else if d.Record? && IsEnd(d.kind) {
          return Done(d.addr, Word(end - start + 1));
        }
      }
      r := Aborted;
    }
  }

  // The loader on one more record.
  lemma {:induction false} LoadNext(d: Decoded, ds: seq<Decoded>, st: Load, offset: nat)
    ensures LoadRecords([d] + ds, st, offset)
         == if d.Bad? then (Aborted, st.mem)
            else if d.Record? && IsData(d.kind) then LoadRecords(ds, StoreRecord(st, Word(d.addr + offset), d.data), offset)
            else if d.Record? && IsEnd(d.kind) then (Done(d.addr, Word(st.end - st.start + 1)), st.mem)
            else LoadRecords(ds, st, offset)
  {
    assert ([d] + ds)[1..] == ds;
  }

  // Memory outside a range is the same.
  ghost predicate SameOutside(was: Memory, now: Memory, a: nat, n: nat) {
    forall k :: k in was && !(a <= k < a + n) ==> k in now && now[k] == was[k]
  }

  lemma {:induction false} StoreHolds(mem: Memory, a: nat, bs: seq<Byte>)
    ensures Holds(Store(mem, a, bs), a, bs) && SameOutside(mem, Store(mem, a, bs), a, |bs|)
  {
    forall i | 0 <= i < |bs| ensures Cell(Store(mem, a, bs), a + i, bs[i]) { Stored(mem, a, bs, a + i); }
    forall k | k in mem && !(a <= k < a + |bs|) ensures k in Store(mem, a, bs) && Store(mem, a, bs)[k] == mem[k] {
      Stored(mem, a, bs, k);
    }
  }

  /** Saving a range and loading the text at any offset puts the range there in any memory, and changes nothing else. */
  method SaveThenLoad(from: Board, to: Board, address: nat, count: nat, offset: nat) returns (r: Outcome)
    requires address + count <= TWO_32 && count < TWO_32 && Word(address + offset) + count <= TWO_32
    requires forall k :: address <= k < address + count ==> k in from.mem
    modifies to
    ensures r == Done(0, ReportedSize(count))
    ensures Holds(to.mem, Word(address + offset), old(Bytes(from.mem, address, count)))
    ensures SameOutside(old(to.mem), to.mem, Word(address + offset), count)
  {
    ghost var bs := Bytes(from.mem, address, count);
    var text := from.SaveSerial(address, count);
    DumpRoundTrip(address, bs, to.mem, offset);
    StoreHolds(to.mem, Word(address + offset), bs);
    r := to.LoadSerial(text, offset);
  }
}
