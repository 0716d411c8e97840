/**
 S-records: dumping memory over the serial line and loading it back.  `offset` and addresses are 32-bit words; memory is
 RAM, and the end of the input counts as an abort.
 */
module Srec {
  import opened Arith
  import opened Options

  type Byte = b: int | 0 <= b < 256

  type Memory = map<nat, Byte>

  const TWO_32 := 0x1_0000_0000
  const MAXRECLEN := 516
  const PER_RECORD := 16

  // ---------- hexadecimal ----------

  function HexDigit(d: nat): char
    requires d < 16
  {
    "0123456789ABCDEF"[d]
  }

  function HexByte(b: Byte): string { [HexDigit(b / 16), HexDigit(b % 16)] }

  function Hex(bs: seq<Byte>): string { if bs == [] then "" else HexByte(bs[0]) + Hex(bs[1..]) }

  // hex1_bin.
  function Hex1(c: char): Option<nat> {
    if '0' <= c <= '9' then Some((c - '0') as int)
    else if 'a' <= c <= 'f' then Some((c - 'a') as int + 10)
    else if 'A' <= c <= 'F' then Some((c - 'A') as int + 10)
    else None
  }

  // hex2_bin; the end of the string is no digit.
  function Hex2(s: string): (r: Option<Byte>)
    ensures r.Some? ==> |s| >= 2
  {
    if |s| >= 2 && Hex1(s[0]).Some? && Hex1(s[1]).Some? then Some((Hex1(s[0]).value * 16 + Hex1(s[1]).value) % 256) else None
  }

  // The first n bytes, if they are there.
  function Unhex(s: string, n: nat): (r: Option<seq<Byte>>)
    ensures r.Some? ==> |r.value| == n
    decreases n
  {
    if n == 0 then Some([])
    else if Hex2(s).None? then None
    else
      var more := Unhex(s[2..], n - 1);
      if more.None? then None else Some([Hex2(s).value] + more.value)
  }

  lemma {:induction false} HexDigitRoundTrip(d: nat)
    requires d < 16
    ensures Hex1(HexDigit(d)) == Some(d)
  {
    assert d < 10 ==> HexDigit(d) == '0' + (d as char);
    assert d >= 10 ==> HexDigit(d) == 'A' + ((d - 10) as char);
  }

  lemma {:induction false} HexByteRoundTrip(b: Byte, rest: string)
    ensures Hex2(HexByte(b) + rest) == Some(b)
  {
    HexDigitRoundTrip(b / 16);
    HexDigitRoundTrip(b % 16);
  }

  lemma {:induction false} UnhexHex(bs: seq<Byte>, rest: string)
    ensures Unhex(Hex(bs) + rest, |bs|) == Some(bs)
    decreases |bs|
  {
    if bs != [] {
      var tail := Hex(bs[1..]) + rest;
      assert Hex(bs) + rest == HexByte(bs[0]) + tail;
      HexByteRoundTrip(bs[0], tail);
      assert (HexByte(bs[0]) + tail)[2..] == tail;
      UnhexHex(bs[1..], rest);
      assert [bs[0]] + bs[1..] == bs;
    }
  }

  predicate PlainChar(c: char) { c != '\n' && c != '\r' && c != '\0' && c != 3 as char && c != 'S' }

  predicate Plain(s: string) { forall i :: 0 <= i < |s| ==> PlainChar(s[i]) }

  lemma {:induction false} HexDigitPlain(d: nat)
    requires d < 16
    ensures PlainChar(HexDigit(d))
  {
    HexDigitRoundTrip(d);
  }

  lemma {:induction false} HexPlain(bs: seq<Byte>)
    ensures |Hex(bs)| == 2 * |bs| && Plain(Hex(bs))
    decreases |bs|
  {
    if bs != [] {
      HexPlain(bs[1..]);
      HexDigitPlain(bs[0] / 16);
      HexDigitPlain(bs[0] % 16);
    }
  }

  // ---------- one record ----------

  function Sum(bs: seq<Byte>): nat { if bs == [] then 0 else bs[0] + Sum(bs[1..]) }

  lemma {:induction false} SumConcat(a: seq<Byte>, b: seq<Byte>)
    ensures Sum(a + b) == Sum(a) + Sum(b)
    decreases |a|
  {
    if a == [] {
      assert a + b == b;
    } else {
      assert (a + b)[1..] == a[1..] + b;
      SumConcat(a[1..], b);
    }
  }

  function Checksum(n: nat): Byte { 255 - n % 256 }

  // A number, most significant byte first.
  function Value(bs: seq<Byte>): nat { if bs == [] then 0 else Value(bs[..|bs| - 1]) * 256 + bs[|bs| - 1] }

  function AddressBytes(a: nat): (bs: seq<Byte>)
    requires a < TWO_32
    ensures |bs| == 4
  {
    [a / 0x100_0000, a / 0x1_0000 % 256, a / 256 % 256, a % 256]
  }

  lemma {:induction false} AddressRoundTrip(a: nat)
    requires a < TWO_32
    ensures Value(AddressBytes(a)) == a
  {
    var bs := AddressBytes(a);
    assert bs[..3] == [bs[0], bs[1], bs[2]] && bs[..3][..2] == [bs[0], bs[1]] && bs[..3][..2][..1] == [bs[0]];
    assert Value([bs[0]]) == bs[0];
    assert Value([bs[0], bs[1]]) == a / 0x1_0000;
    assert Value([bs[0], bs[1], bs[2]]) == a / 256;
  }

  // The bytes of a record after its count: address, data and checksum.
  function RecordTail(addr: seq<Byte>, data: seq<Byte>): (bs: seq<Byte>)
    ensures |bs| == 1 + |addr| + |data|
  {
    addr + data + [Checksum(|addr| + |data| + 1 + Sum(addr + data))]
  }

  /** The bytes of a record add up to 0xFF. */
  lemma {:induction false} RecordSum(addr: seq<Byte>, data: seq<Byte>)
    requires |addr| + |data| < 255
    ensures Sum([|addr| + |data| + 1] + RecordTail(addr, data)) % 256 == 255
  {
    var n, body := |addr| + |data| + 1, addr + data;
    var c := Checksum(n + Sum(body));
    SumConcat([n], body + [c]);
    SumConcat(body, [c]);
    assert Sum([n]) == n && Sum([c]) == c;
  }

  // The line of a count and the bytes after it.
  function LineOf(t: char, n: Byte, tail: seq<Byte>): string { "S" + [t] + Hex([n] + tail) }

  function RecordLine(t: char, addr: seq<Byte>, data: seq<Byte>): string
    requires |addr| + |data| < 255
  {
    LineOf(t, |addr| + |data| + 1, RecordTail(addr, data))
  }

  datatype Decoded = Empty | Record(kind: char, addr: nat, data: seq<Byte>) | Bad(error: int)

  const E_BADTYPE := -1
  const E_NOSREC := -2
  const E_BADCHKS := -3

  // After the first 'S'.
  function AfterS(s: string): string
    decreases |s|
  {
    if s == [] then "" else if s[0] == 'S' then s[1..] else AfterS(s[1..])
  }

  function AddressLength(t: char): nat {
    if t == '0' || t == '1' || t == '5' || t == '9' then 2
    else if t == '2' || t == '8' then 3
    else if t == '3' || t == '7' then 4
    else 0
  }

  // The bytes after the count: address, data and checksum.
  function DecodeBytes(t: char, count: Byte, alen: nat, bs: seq<Byte>): Decoded
    requires alen < |bs|
  {
    var n := |bs| - 1;
    if bs[n] != Checksum(count + Sum(bs[..n])) then Bad(E_BADCHKS) else Record(t, Value(bs[..alen]), bs[alen..n])
  }

  // srec_decode, after the type and the count.
  function DecodeBody(t: char, count: Byte, s: string): Decoded {
    var alen := AddressLength(t);
    if alen == 0 then Bad(E_BADTYPE) else
      var dlen := if t == '5' || count < alen + 1 then 0 else count - alen - 1;
      var bs := Unhex(s, alen + dlen + 1);
      if bs.None? then Bad(E_NOSREC) else DecodeBytes(t, count, alen, bs.value)
  }

  /** srec_decode. */
  function Decode(line: string): Decoded {
    var s := AfterS(line);
    if s == [] then Empty
    else if Hex2(s[1..]).None? then Bad(E_NOSREC)
    else DecodeBody(s[0], Hex2(s[1..]).value, s[3..])
  }

  // The length of the address field, by the type of the record.
  predicate FieldLength(t: char, n: nat) {
    (n == 2 && (t == '0' || t == '1' || t == '9')) || (n == 3 && (t == '2' || t == '8')) || (n == 4 && (t == '3' || t == '7'))
  }

  lemma {:induction false} AnyBytes(t: char, count: Byte, addr: seq<Byte>, data: seq<Byte>, c: Byte)
    ensures DecodeBytes(t, count, |addr|, addr + data + [c])
         == if c == Checksum(count + Sum(addr + data)) then Record(t, Value(addr), data) else Bad(E_BADCHKS)
  {
    var bs, n := addr + data + [c], |addr| + |data|;
    assert bs[..n] == addr + data && bs[..|addr|] == addr && bs[|addr|..n] == data && bs[n] == c;
  }

  lemma {:induction false} BodyReads(t: char, count: Byte, alen: nat, bs: seq<Byte>)
    requires FieldLength(t, alen) && |bs| == count && alen < count
    ensures DecodeBody(t, count, Hex(bs)) == DecodeBytes(t, count, alen, bs)
  {
    UnhexHex(bs, "");
    assert Hex(bs) + "" == Hex(bs);
  }

  lemma {:induction false} HexCons(b: Byte, bs: seq<Byte>)
    ensures Hex([b] + bs) == HexByte(b) + Hex(bs)
  {
    assert ([b] + bs)[1..] == bs;
  }

  lemma {:induction false} LineDecodes(t: char, n: Byte, tail: seq<Byte>)
    ensures Decode(LineOf(t, n, tail)) == DecodeBody(t, n, Hex(tail))
  {
    var h := HexByte(n) + Hex(tail);
    HexCons(n, tail);
    var line := "S" + [t] + h;
    assert line[0] == 'S' && line[1..] == [t] + h && line[1..][1..] == h;
    HexByteRoundTrip(n, Hex(tail));
    assert line[1..][3..] == Hex(tail);
  }

  lemma {:induction false} LineBytes(t: char, n: Byte, alen: nat, tail: seq<Byte>)
    requires FieldLength(t, alen) && |tail| == n && alen < n
    ensures Decode(LineOf(t, n, tail)) == DecodeBytes(t, n, alen, tail)
  {
    LineDecodes(t, n, tail);
    BodyReads(t, n, alen, tail);
  }

  lemma {:induction false} DecodesIfChecksum(t: char, n: Byte, addr: seq<Byte>, data: seq<Byte>, c: Byte, tail: seq<Byte>)
    requires FieldLength(t, |addr|) && n == |addr| + |data| + 1 && tail == addr + data + [c]
    ensures Decode(LineOf(t, n, tail))
         == if c == Checksum(n + Sum(addr + data)) then Record(t, Value(addr), data) else Bad(E_BADCHKS)
  {
    LineBytes(t, n, |addr|, tail);
    AnyBytes(t, n, addr, data, c);
  }

  lemma {:induction false} RightLine(t: char, n: Byte, addr: seq<Byte>, data: seq<Byte>, c: Byte, tail: seq<Byte>)
    requires FieldLength(t, |addr|) && n == |addr| + |data| + 1 && tail == addr + data + [c]
    requires c == Checksum(n + Sum(addr + data))
    ensures Decode(LineOf(t, n, tail)) == Record(t, Value(addr), data)
  {
    DecodesIfChecksum(t, n, addr, data, c, tail);
  }

  /** Every record decodes to what was put into it. */
  lemma {:induction false} RecordRoundTrip(t: char, addr: seq<Byte>, data: seq<Byte>)
    requires FieldLength(t, |addr|) && |addr| + |data| < 255
    ensures Decode(RecordLine(t, addr, data)) == Record(t, Value(addr), data)
  {
    var n := |addr| + |data| + 1;
    RightLine(t, n, addr, data, Checksum(n + Sum(addr + data)), RecordTail(addr, data));
  }

  // ---------- loading ----------

  // memcpy.
  function Store(mem: Memory, a: nat, bs: seq<Byte>): Memory {
    if bs == [] then mem else Store(mem, a, bs[..|bs| - 1])[a + |bs| - 1 := bs[|bs| - 1]]
  }

  lemma {:induction false} StoreConcat(mem: Memory, a: nat, x: seq<Byte>, y: seq<Byte>)
    ensures Store(Store(mem, a, x), a + |x|, y) == Store(mem, a, x + y)
    decreases |y|
  {
    if y == [] {
      assert x + y == x;
    } else {
      assert (x + y)[..|x + y| - 1] == x + y[..|y| - 1];
      StoreConcat(mem, a, x, y[..|y| - 1]);
    }
  }

  /** Stored bytes are there, and nothing else changes. */
  lemma {:induction false} Stored(mem: Memory, a: nat, bs: seq<Byte>, k: nat)
    ensures a <= k < a + |bs| ==> k in Store(mem, a, bs) && Store(mem, a, bs)[k] == bs[k - a]
    ensures !(a <= k < a + |bs|) ==> (k in Store(mem, a, bs) <==> k in mem)
    ensures !(a <= k < a + |bs|) && k in mem ==> Store(mem, a, bs)[k] == mem[k]
    decreases |bs|
  {
    if bs != [] { Stored(mem, a, bs[..|bs| - 1], k); }
  }

  datatype Load = Load(mem: Memory, start: nat, end: nat)

  datatype Outcome = Aborted | Done(addr: nat, size: nat)

  /** read_record: a line and what follows it, or nothing on NUL, ^C and the end; a long line is cut. */
  function ReadRecord(s: string, room: nat): Option<(string, string)>
    decreases |s|
  {
    if room == 0 then Some(("", s))
    else if s == [] || s[0] == '\0' || s[0] == 3 as char then None
    else if s[0] == '\r' || s[0] == '\n' then Some(("", s[1..]))
    else match ReadRecord(s[1..], room - 1)
      case None => None
      case Some((line, rest)) => Some(([s[0]] + line, rest))
  }

  lemma {:induction false} ReadShorter(s: string, room: nat)
    ensures var r := ReadRecord(s, room); r.Some? ==> |r.value.1| <= |s| && (room > 0 ==> |r.value.1| < |s|)
    decreases |s|
  {
    if room > 0 && s != [] { ReadShorter(s[1..], room - 1); }
  }

  function Word(x: int): nat { x % TWO_32 }

  // A data record.
  function StoreRecord(st: Load, a: nat, bs: seq<Byte>): Load {
    var last := Word(a + |bs| - 1);
    Load(Store(st.mem, a, bs), if a < st.start then a else st.start, if last > st.end then last else st.end)
  }

  // The records of the input, one a line.
  function Records(s: string): seq<Decoded>
    decreases |s|
  {
    var r := ReadRecord(s, MAXRECLEN);
    if r.None? then []
    else ReadShorter(s, MAXRECLEN); [Decode(r.value.0)] + Records(r.value.1)
  }

  predicate IsData(kind: char) { kind == '1' || kind == '2' || kind == '3' }

  predicate IsEnd(kind: char) { kind == '7' || kind == '8' || kind == '9' }

  /** The loop of load_serial over the records. */
  function LoadRecords(ds: seq<Decoded>, st: Load, offset: nat): (Outcome, Memory)
    decreases |ds|
  {
    if ds == [] || ds[0].Bad? then (Aborted, st.mem)
    else if ds[0].Empty? then LoadRecords(ds[1..], st, offset)
    else if IsData(ds[0].kind) then
      LoadRecords(ds[1..], StoreRecord(st, Word(ds[0].addr + offset), ds[0].data), offset)
    else if IsEnd(ds[0].kind) then (Done(ds[0].addr, Word(st.end - st.start + 1)), st.mem)
    else LoadRecords(ds[1..], st, offset)
  }

  /** load_serial. */
  function LoadText(s: string, mem: Memory, offset: nat): (Outcome, Memory) {
    LoadRecords(Records(s), Load(mem, TWO_32 - 1, 0), offset)
  }

  predicate LineChar(c: char) { c != '\n' && c != '\r' && c != '\0' && c != 3 as char }

  lemma {:induction false} ReadLine(line: string, rest: string, room: nat)
    requires |line| < room && forall i :: 0 <= i < |line| ==> LineChar(line[i])
    ensures ReadRecord(line + "\n" + rest, room) == Some((line, rest))
    decreases |line|
  {
    var s := line + "\n" + rest;
    if line == [] {
      assert s == ['\n'] + rest && s[1..] == rest;
    } else {
      assert s[0] == line[0] && s[1..] == line[1..] + "\n" + rest;
      ReadLine(line[1..], rest, room - 1);
      assert [line[0]] + line[1..] == line;
    }
  }

  lemma {:induction false} RecordLineReads(t: char, addr: seq<Byte>, data: seq<Byte>, rest: string)
    requires |addr| + |data| < 255 && LineChar(t)
    ensures ReadRecord(RecordLine(t, addr, data) + "\n" + rest, MAXRECLEN) == Some((RecordLine(t, addr, data), rest))
  {
    HexPlain([|addr| + |data| + 1] + RecordTail(addr, data));
    ReadLine(RecordLine(t, addr, data), rest, MAXRECLEN);
  }

  /** A record line in front of other lines gives back what was put into it. */
  lemma {:induction false} RecordsCons(t: char, addr: seq<Byte>, data: seq<Byte>, rest: string)
    requires FieldLength(t, |addr|) && |addr| + |data| < 255
    ensures Records(RecordLine(t, addr, data) + "\n" + rest) == [Record(t, Value(addr), data)] + Records(rest)
  {
    RecordLineReads(t, addr, data, rest);
    RecordRoundTrip(t, addr, data);
  }

  // ---------- saving ----------

  // The data records of a byte string: 16 bytes each, the last one shorter.
  function Chunks(a: nat, bs: seq<Byte>): (cs: seq<(nat, seq<Byte>)>)
    decreases |bs|
  {
    if bs == [] then []
    else if |bs| <= PER_RECORD then [(a, bs)]
    else [(a, bs[..PER_RECORD])] + Chunks(a + PER_RECORD, bs[PER_RECORD..])
  }

  // Consecutive pieces of one address range.
  ghost predicate Tiles(cs: seq<(nat, seq<Byte>)>, a: nat, bs: seq<Byte>)
    decreases |cs|
  {
    if cs == [] then bs == []
    else
      && cs[0].0 == a && 1 <= |cs[0].1| <= PER_RECORD && |cs[0].1| <= |bs|
      && cs[0].1 == bs[..|cs[0].1|] && Tiles(cs[1..], a + |cs[0].1|, bs[|cs[0].1|..])
  }

  /** The data records tile the range in order, with 1 to 16 bytes each. */
  lemma {:induction false} ChunksTile(a: nat, bs: seq<Byte>)
    ensures Tiles(Chunks(a, bs), a, bs)
    decreases |bs|
  {
    if bs != [] {
      var cs := Chunks(a, bs);
      if |bs| <= PER_RECORD {
        assert cs[1..] == [] && bs[|bs|..] == [] && bs[..|bs|] == bs;
      } else {
        ChunksTile(a + PER_RECORD, bs[PER_RECORD..]);
        assert cs[1..] == Chunks(a + PER_RECORD, bs[PER_RECORD..]);
      }
    }
  }

  type LineWriter = (nat, seq<Byte>) -> string

  // The lines that f writes for a range.
  function Lines(f: LineWriter, a: nat, bs: seq<Byte>): string
    decreases |bs|
  {
    if bs == [] then ""
    else if |bs| <= PER_RECORD then f(a, bs)
    else f(a, bs[..PER_RECORD]) + Lines(f, a + PER_RECORD, bs[PER_RECORD..])
  }

  lemma {:induction false} LinesSplit(f: LineWriter, a: nat, bs: seq<Byte>, n: nat)
    requires 0 < n <= |bs| && (n == PER_RECORD || (n < PER_RECORD && n == |bs|))
    ensures Lines(f, a, bs) == f(a, bs[..n]) + Lines(f, a + n, bs[n..])
  {
    if n == |bs| {
      assert bs[..n] == bs && bs[n..] == [];
      assert f(a, bs) + "" == f(a, bs);
    }
  }

  function DataLine(a: nat, bs: seq<Byte>): string {
    if a < TWO_32 && |bs| <= PER_RECORD then RecordLine('3', AddressBytes(a), bs) + "\n" else ""
  }

  lemma {:induction false} DataLineIs(a: nat, d: seq<Byte>)
    requires a < TWO_32 && |d| <= PER_RECORD
    ensures DataLine(a, d) == LineOf('3', 5 + |d|, RecordTail(AddressBytes(a), d)) + "\n"
  {
  }

  function DataLines(a: nat, bs: seq<Byte>): string { Lines(DataLine, a, bs) }

  const START_LINE := "S0030000FC\n"
  const END_LINE := "S70500000000FA\n"

  function SaveText(a: nat, bs: seq<Byte>): string
    requires a + |bs| <= TWO_32
  {
    START_LINE + DataLines(a, bs) + END_LINE
  }

  // ---------- the round trip ----------

  // The loader after the bytes of a range.
  function Loaded(st: Load, a: nat, bs: seq<Byte>): Load {
    if bs == [] then st
    else Load(Store(st.mem, a, bs), if a < st.start then a else st.start,
              if a + |bs| - 1 > st.end then a + |bs| - 1 else st.end)
  }

  lemma {:induction false} LoadedConcat(st: Load, a: nat, x: seq<Byte>, y: seq<Byte>)
    requires x != []
    ensures Loaded(Loaded(st, a, x), a + |x|, y) == Loaded(st, a, x + y)
  {
    StoreConcat(st.mem, a, x, y);
    if y == [] { assert x + y == x; }
  }

  // The data records of a range.
  function DataRecords(a: nat, bs: seq<Byte>): seq<Decoded> {
    var cs := Chunks(a, bs);
    seq(|cs|, i requires 0 <= i < |cs| => Record('3', cs[i].0, cs[i].1))
  }

  lemma {:induction false} DataRecordsCons(a: nat, bs: seq<Byte>)
    requires |bs| > PER_RECORD
    ensures DataRecords(a, bs)
         == [Record('3', a, bs[..PER_RECORD])] + DataRecords(a + PER_RECORD, bs[PER_RECORD..])
  {
  }

  lemma {:induction false} DataRecordsLast(a: nat, bs: seq<Byte>)
    requires 0 < |bs| <= PER_RECORD
    ensures DataRecords(a, bs) == [Record('3', a, bs)]
  {
  }

  lemma {:induction false} DataLineReads(a: nat, bs: seq<Byte>, rest: string)
    requires a < TWO_32 && |bs| <= PER_RECORD
    ensures Records(DataLine(a, bs) + rest) == [Record('3', a, bs)] + Records(rest)
  {
    AddressRoundTrip(a);
    RecordsCons('3', AddressBytes(a), bs, rest);
  }

  lemma {:induction false} DataLinesCons(a: nat, bs: seq<Byte>, rest: string)
    requires a + |bs| <= TWO_32 && |bs| > PER_RECORD
    ensures DataLines(a, bs) + rest
         == DataLine(a, bs[..PER_RECORD]) + (DataLines(a + PER_RECORD, bs[PER_RECORD..]) + rest)
  {
    LinesSplit(DataLine, a, bs, PER_RECORD);
    Regroup(DataLine(a, bs[..PER_RECORD]), DataLines(a + PER_RECORD, bs[PER_RECORD..]), rest);
  }

  /** The text of a dump reads back as its records. */
  lemma {:induction false} DataLinesRead(a: nat, bs: seq<Byte>, rest: string)
    requires a + |bs| <= TWO_32
    ensures Records(DataLines(a, bs) + rest) == DataRecords(a, bs) + Records(rest)
    decreases |bs|, 1
  {
    if bs == [] {
      assert "" + rest == rest && DataRecords(a, bs) == [];
    } else if |bs| <= PER_RECORD {
      DataLineReads(a, bs, rest);
      DataRecordsLast(a, bs);
    } else {
      DataLinesReadCons(a, bs, rest);
    }
  }

  lemma {:induction false} DataLinesReadCons(a: nat, bs: seq<Byte>, rest: string)
    requires a + |bs| <= TWO_32 && |bs| > PER_RECORD
    ensures Records(DataLines(a, bs) + rest) == DataRecords(a, bs) + Records(rest)
    decreases |bs|, 0
  {
    var x, y := bs[..PER_RECORD], bs[PER_RECORD..];
    DataLinesRead(a + PER_RECORD, y, rest);
    DataLinesGlue(a, x, DataLines(a + PER_RECORD, y) + rest, DataRecords(a + PER_RECORD, y), Records(rest));
    DataLinesCons(a, bs, rest);
    DataRecordsCons(a, bs);
  }

  lemma {:induction false} DataLinesGlue(a: nat, x: seq<Byte>, more: string, ds: seq<Decoded>, es: seq<Decoded>)
    requires a < TWO_32 && |x| <= PER_RECORD && Records(more) == ds + es
    ensures Records(DataLine(a, x) + more) == [Record('3', a, x)] + ds + es
  {
    DataLineReads(a, x, more);
    Regroup([Record('3', a, x)], ds, es);
  }

  lemma {:induction false} Regroup<T>(a: seq<T>, b: seq<T>, c: seq<T>)
    ensures a + (b + c) == a + b + c
  {
  }

  lemma {:induction false} WordAdd(a: nat, k: nat)
    requires Word(a) + k < TWO_32
    ensures Word(a + k) == Word(a) + k
  {
    DivModUnique(a / TWO_32, Word(a) + k, TWO_32);
  }

  // A data record of any of the three kinds is stored at its address plus the offset.
  lemma {:induction false} LoadCons(kind: char, a: nat, bs: seq<Byte>, ds: seq<Decoded>, st: Load, offset: nat)
    requires kind == '1' || kind == '2' || kind == '3'
    requires bs != [] && Word(a + offset) + |bs| <= TWO_32
    ensures LoadRecords([Record(kind, a, bs)] + ds, st, offset)
         == LoadRecords(ds, Loaded(st, Word(a + offset), bs), offset)
  {
    assert ([Record(kind, a, bs)] + ds)[1..] == ds;
  }

  lemma {:induction false} LoadDataRecords(a: nat, bs: seq<Byte>, ds: seq<Decoded>, st: Load, offset: nat)
    requires Word(a + offset) + |bs| <= TWO_32
    ensures LoadRecords(DataRecords(a, bs) + ds, st, offset) == LoadRecords(ds, Loaded(st, Word(a + offset), bs), offset)
    decreases |bs|, 1
  {
    if bs == [] {
      assert DataRecords(a, bs) + ds == ds;
    } else if |bs| <= PER_RECORD {
      DataRecordsLast(a, bs);
      LoadCons('3', a, bs, ds, st, offset);
    } else {
      DataRecordsCons(a, bs);
      LoadFull(a, bs, bs[..PER_RECORD], bs[PER_RECORD..], ds, st, offset);
    }
  }

  // One full record in front of the rest of a range.
  lemma {:induction false} LoadFull(a: nat, bs: seq<Byte>, x: seq<Byte>, y: seq<Byte>, ds: seq<Decoded>, st: Load, offset: nat)
    requires bs == x + y && |x| == PER_RECORD && y != [] && Word(a + offset) + |bs| <= TWO_32
    ensures LoadRecords([Record('3', a, x)] + DataRecords(a + PER_RECORD, y) + ds, st, offset)
         == LoadRecords(ds, Loaded(st, Word(a + offset), bs), offset)
    decreases |bs|, 0
  {
    var t, rest := Word(a + offset), DataRecords(a + PER_RECORD, y);
    WordAdd(a + offset, PER_RECORD);
    assert a + offset + PER_RECORD == a + PER_RECORD + offset;
    Regroup([Record('3', a, x)], rest, ds);
    LoadCons('3', a, x, rest + ds, st, offset);
    LoadDataRecords(a + PER_RECORD, y, ds, Loaded(st, t, x), offset);
    LoadedConcat(st, t, x, y);
  }

  lemma {:induction false} SumZeros(n: nat)
    ensures Sum(seq(n, _ => 0)) == 0
    decreases n
  {
    if n > 0 {
      SumZeros(n - 1);
      assert seq(n, _ => 0)[1..] == seq(n - 1, _ => 0);
    }
  }

  // A record without data at address 0.
  lemma {:induction false} ZeroRecord(n: nat)
    requires n < 255
    ensures var zeros := seq(n, _ => 0); RecordTail(zeros, []) == zeros + [254 - n]
  {
    var zeros: seq<Byte> := seq(n, _ => 0);
    SumZeros(n);
    assert zeros + [] == zeros;
  }

  lemma {:induction false} StartLine()
    ensures START_LINE == RecordLine('0', seq(2, _ => 0), []) + "\n"
  {
    ZeroRecord(2);
    assert RecordTail(seq(2, _ => 0), []) == [0] + ([0] + [0xFC]);
    HexCons(0xFC, []);
    assert [0xFC] + [] == [0xFC];
    HexTwoZeros([0xFC]);
    HexCons(3, [0] + ([0] + [0xFC]));
    assert START_LINE == "S" + ['0'] + "030000FC" + "\n";
  }

  lemma {:induction false} HexTwoZeros(bs: seq<Byte>)
    ensures Hex([0] + ([0] + bs)) == "0000" + Hex(bs)
  {
    HexCons(0, bs);
    HexCons(0, [0] + bs);
  }

  lemma {:induction false} EndBytes()
    ensures RecordTail(seq(4, _ => 0), []) == [0] + ([0] + ([0] + ([0] + [0xFA])))
  {
    ZeroRecord(4);
    assert seq(4, _ => 0) == [0, 0, 0, 0];
  }

  lemma {:induction false} EndHex()
    ensures Hex([5] + ([0] + ([0] + ([0] + ([0] + [0xFA]))))) == "0500000000FA"
  {
    HexCons(0xFA, []);
    assert [0xFA] + [] == [0xFA];
    HexTwoZeros([0xFA]);
    HexTwoZeros([0] + ([0] + [0xFA]));
    HexCons(5, [0] + ([0] + ([0] + ([0] + [0xFA]))));
  }

  lemma {:induction false} EndLine()
    ensures END_LINE == RecordLine('7', seq(4, _ => 0), []) + "\n"
  {
    EndBytes();
    EndHex();
    assert END_LINE == "S" + ['7'] + "0500000000FA" + "\n";
  }

  lemma {:induction false} ValueZeros(n: nat)
    ensures Value(seq(n, _ => 0)) == 0
    decreases n
  {
    if n > 0 {
      ValueZeros(n - 1);
      assert seq(n, _ => 0)[..n - 1] == seq(n - 1, _ => 0);
    }
  }

  lemma {:induction false} StartReads(rest: string)
    ensures Records(START_LINE + rest) == [Record('0', 0, [])] + Records(rest)
  {
    StartLine();
    ValueZeros(2);
    RecordsCons('0', seq(2, _ => 0), [], rest);
  }

  lemma {:induction false} EndReads()
    ensures Records(END_LINE) == [Record('7', 0, [])]
  {
    EndLine();
    ValueZeros(4);
    RecordsCons('7', seq(4, _ => 0), [], "");
    assert END_LINE + "" == END_LINE;
    assert Records("") == [];
  }

  /** A dump reads back as a start record, its data records and an end record. */
  lemma {:induction false} DumpRecords(a: nat, bs: seq<Byte>)
    requires a + |bs| <= TWO_32
    ensures Records(SaveText(a, bs)) == [Record('0', 0, [])] + (DataRecords(a, bs) + [Record('7', 0, [])])
  {
    var tail := DataLines(a, bs) + END_LINE;
    assert SaveText(a, bs) == START_LINE + tail;
    StartReads(tail);
    DataLinesRead(a, bs, END_LINE);
    EndReads();
  }

  /** The size that the loader reports for a dump of n bytes: an empty dump counts as 2. */
  function ReportedSize(n: nat): nat { if n == 0 then 2 else n }

  lemma {:induction false} LoadedSize(mem: Memory, a: nat, bs: seq<Byte>)
    requires a + |bs| <= TWO_32 && |bs| < TWO_32
    ensures var st := Loaded(Load(mem, TWO_32 - 1, 0), a, bs); Word(st.end - st.start + 1) == ReportedSize(|bs|)
  {
  }

  /**
   Loading a dump restores the bytes at their addresses plus the offset, changes nothing else, and reports the size of any
   non-empty range.
   */
  lemma {:induction false} DumpRoundTrip(a: nat, bs: seq<Byte>, mem: Memory, offset: nat)
    requires a + |bs| <= TWO_32 && |bs| < TWO_32 && Word(a + offset) + |bs| <= TWO_32
    ensures LoadText(SaveText(a, bs), mem, offset) == (Done(0, ReportedSize(|bs|)), Store(mem, Word(a + offset), bs))
  {
    DumpRecords(a, bs);
    LoadFramed(a, bs, Load(mem, TWO_32 - 1, 0), offset);
    LoadedSize(mem, Word(a + offset), bs);
    LoadTextOf(SaveText(a, bs), [Record('0', 0, [])] + (DataRecords(a, bs) + [Record('7', 0, [])]), mem, offset);
  }

  lemma {:induction false} LoadTextOf(s: string, ds: seq<Decoded>, mem: Memory, offset: nat)
    requires Records(s) == ds
    ensures LoadText(s, mem, offset) == LoadRecords(ds, Load(mem, TWO_32 - 1, 0), offset)
  {
  }

  // A start record, the data records and an end record.
  lemma {:induction false} LoadFramed(a: nat, bs: seq<Byte>, st: Load, offset: nat)
    requires Word(a + offset) + |bs| <= TWO_32
    ensures var end := Loaded(st, Word(a + offset), bs);
            LoadRecords([Record('0', 0, [])] + (DataRecords(a, bs) + [Record('7', 0, [])]), st, offset)
            == (Done(0, Word(end.end - end.start + 1)), end.mem)
  {
    var ds := DataRecords(a, bs) + [Record('7', 0, [])];
    assert ([Record('0', 0, [])] + ds)[1..] == ds;
    LoadDataRecords(a, bs, [Record('7', 0, [])], st, offset);
  }
}
