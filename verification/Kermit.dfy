/**
 The binary Kermit receiver of the `loadb` command.

 The receiver is given twice.  `Step` is a byte-driven machine: a control part that only looks at the framing
 (`CtlStep`, `EventOf`) and a data part that reacts to the events of the control part (`Apply`).  The class
 `Receiver` (KermitReceiver.dfy) has the loops of the source and is proved to compute `Run` of that machine.
 Characters are unsigned bytes, and `sum`, `length` and addresses do not wrap.
 */
module Kermit {
  type byte = x: int | 0 <= x < 256

  const START: byte := 0x01
  const ETX: byte := 0x03
  const END: byte := 0x0D
  const ESCAPE: byte := 0x23
  const SEND_TYPE: byte := 83   // 'S'
  const DATA_TYPE: byte := 68   // 'D'
  const ACK_TYPE: byte := 89    // 'Y'
  const NACK_TYPE: byte := 78   // 'N'
  const BREAK_TYPE: byte := 66  // 'B'
  const SEND_DATA_SIZE := 20

  function ToChar(x: int): byte { (x + 32) % 256 }

  function UnChar(c: byte): nat { (c - 32) % 256 }

  // (c & 0xE0) == 0
  predicate IsControl(c: byte) { c < 32 }

  // The type 1 block check of a character sum.
  function BlockCheck(sum: nat): byte { ToChar((sum + sum / 64 % 4) % 64) }

  // Converts the character after a quote: bits 6 and 5 equal to 10 clear bit 6, and ?/0xBF set it.
  function KTrans(c: byte): byte {
    if 64 <= c % 128 < 96 then c - 64
    else if c % 128 == 63 then c + 64
    else c
  }

  function Sum(s: seq<byte>): nat { if s == [] then 0 else s[0] + Sum(s[1..]) }

  // ---------- control part ----------

  datatype Phase = Wait | Len | Seq | Type | LenHi | LenLo | HdrChk | Body | Chk | End | Done | Aborted

  /** What the receiver keeps while it reads one packet. */
  datatype Ctl = Ctl(phase: Phase, sum: nat, length: int, n: int, ktype: byte, hi: nat)

  datatype Event = Quiet | Fail | Header(n: int) | Datum(c: byte) | Accept

  function EventOf(c: Ctl, b: byte): Event {
    match c.phase
    case Wait | Done | Aborted => Quiet
    case Len | Type | LenHi | LenLo => if IsControl(b) then Fail else Quiet
    case Seq => if IsControl(b) then Fail else Header(UnChar(b))
    case HdrChk | Chk => if IsControl(b) || b != BlockCheck(c.sum) then Fail else Quiet
    case Body => if IsControl(b) then Fail else Datum(b)
    case End => if b != END then Fail else Accept
  }

  // The data loop runs while more than the block check is left.
  function AtBody(c: Ctl): Ctl { c.(phase := if c.length > 1 then Body else Chk) }

  function CtlStep(c: Ctl, b: byte): Ctl {
    if EventOf(c, b).Fail? then c.(phase := Wait) else
      match c.phase
      case Wait => if b == START then c.(phase := Len, sum := 0)
                   else if b == ETX then c.(phase := Aborted) else c
      case Len => c.(phase := Seq, sum := b, length := UnChar(b))
      case Seq => c.(phase := Type, sum := c.sum + b, n := UnChar(b), length := c.length - 1)
      case Type =>
        var c' := c.(sum := c.sum + b, ktype := b, length := c.length - 1);
        if c'.length == -2 then c'.(phase := LenHi) else AtBody(c')
      case LenHi => c.(phase := LenLo, sum := c.sum + b, hi := UnChar(b))
      case LenLo => c.(phase := HdrChk, sum := c.sum + b, length := c.hi * 95 + UnChar(b))
      case HdrChk => AtBody(c.(sum := c.sum + b))
      case Body => AtBody(c.(sum := c.sum + b, length := c.length - 1))
      case Chk => c.(phase := End)
      case End => c.(phase := if c.ktype == BREAK_TYPE then Done else Wait)
      case Done | Aborted => c
  }

  // ---------- data part ----------

  /** The link parameters learnt from the sender's S packet. */
  datatype Link = Link(eol: byte, padCount: nat, padChar: byte, quote: byte)

  const DEFAULT_LINK := Link(END, 0, 0, ESCAPE)

  datatype Dat = Dat(start: int, mem: map<int, byte>, addr: int, esc: bool, addrSaved: int, escSaved: bool,
                     lastN: int, link: Link, parms: seq<byte>, tx: seq<byte>)

  function Restore(d: Dat): Dat { d.(addr := d.addrSaved, esc := d.escSaved) }

  function Store(d: Dat, c: byte): Dat { d.(mem := d.mem[d.addr := c], addr := d.addr + 1) }

  // k_data_char on top of bin_data_char.
  function DataChar(d: Dat, c: byte): Dat {
    if d.esc then Store(d, KTrans(c)).(esc := false)
    else if c == d.link.quote then d.(esc := true)
    else Store(d, c)
  }

  // The S packet buffer: the twentieth character is written but never counted.
  function KeepParm(parms: seq<byte>, c: byte): seq<byte> {
    if |parms| < SEND_DATA_SIZE - 1 then parms + [c] else parms
  }

  function Usable(parms: seq<byte>): (k: nat)
    ensures k <= |parms|
  {
    if |parms| == SEND_DATA_SIZE - 1 then |parms| - 1 else |parms|
  }

  function Negotiate(parms: seq<byte>): Link {
    var k := Usable(parms);
    Link(if k >= 5 then UnChar(parms[4]) else END,
         if k >= 3 then UnChar(parms[2]) else 0,
         if k >= 4 then KTrans(parms[3]) else 0,
         if k >= 6 then parms[5] else ESCAPE)
  }

  // MAXL TIME NPAD PADC EOL QCTL QBIN CHKT REPT, then CAPAS and its three followers.
  const OFFER: seq<byte> := [126, 33, 32, 64, 45, 35, 78, 49, 78]
  const CAPAS: seq<byte> := [34, 32, 126, 126]

  function Offer(parms: seq<byte>): seq<byte> {
    var k := Usable(parms);
    if k <= 9 then OFFER[..k] else OFFER + CAPAS
  }

  // A reply packet: padding, the short frame, and the line end unless it is the terminating NUL of the buffer.
  function ReplyFrame(ktype: byte, n: int, fields: seq<byte>, eol: byte): seq<byte> {
    var body := [ToChar(|fields| + 3), ToChar(n), ktype] + fields;
    [START] + body + [BlockCheck(Sum(body))] + if eol == 0 then [] else [eol]
  }

  function Pad(l: Link): seq<byte> { seq(l.padCount, _ => l.padChar) }

  function Reply(d: Dat, ktype: byte, n: int, fields: seq<byte>): Dat {
    d.(tx := d.tx + Pad(d.link) + ReplyFrame(ktype, n, fields, d.link.eol))
  }

  function Apply(d: Dat, ev: Event, ktype: byte, n: int): Dat {
    match ev
    case Quiet => d
    case Fail => Reply(Restore(d).(parms := []), NACK_TYPE, n, [])
    case Header(m) => if m == d.lastN then Restore(d)
                      else d.(lastN := m, addrSaved := d.addr, escSaved := d.esc)
    case Datum(c) => if ktype == DATA_TYPE then DataChar(d, c)
                     else if ktype == SEND_TYPE then d.(parms := KeepParm(d.parms, c)) else d
    case Accept => (if ktype == SEND_TYPE
                    then Reply(d.(link := Negotiate(d.parms)), ACK_TYPE, n, Offer(d.parms))
                    else Reply(d, ACK_TYPE, n, [])).(parms := [])
  }

  datatype Rx = Rx(c: Ctl, d: Dat)

  function Step(s: Rx, b: byte): Rx {
    Rx(CtlStep(s.c, b), Apply(s.d, EventOf(s.c, b), s.c.ktype, s.c.n))
  }

  function Run(s: Rx, input: seq<byte>): Rx
    decreases |input|
  {
    if input == [] then s else Run(Step(s, input[0]), input[1..])
  }

  function Init(start: int, mem: map<int, byte>): Rx {
    Rx(Ctl(Wait, 0, 0, 0, 0, 0),
       Dat(start, mem, start, false, start, false, -1, DEFAULT_LINK, [], []))
  }

  // What k_recv returns once it has returned.
  function Result(s: Rx): int { if s.c.phase == Done then s.d.addr - s.d.start else 0 }

  lemma {:induction false} RunConcat(s: Rx, a: seq<byte>, b: seq<byte>)
    ensures Run(s, a + b) == Run(Run(s, a), b)
    decreases |a|
  {
    if a == [] {
      assert a + b == b;
    } else {
      assert (a + b)[1..] == a[1..] + b;
      RunConcat(Step(s, a[0]), a[1..], b);
    }
  }

  lemma {:induction false} FinishedIgnores(s: Rx, input: seq<byte>)
    requires s.c.phase in {Done, Aborted}
    ensures Run(s, input) == s
    decreases |input|
  {
    if input != [] {
      FinishedIgnores(s, input[1..]);
    }
  }

  // ---------- safety on every byte stream ----------

  predicate Ordered(d: Dat) { d.start <= d.addrSaved <= d.addr }

  /** On any input at all, the checkpoint never moves back and no byte below it is ever written again. */
  lemma {:induction false} CheckpointIsStable(s: Rx, input: seq<byte>)
    requires Ordered(s.d)
    ensures var s' := Run(s, input);
            && Ordered(s'.d) && s'.d.start == s.d.start
            && s.d.addrSaved <= s'.d.addrSaved
            && forall a :: a < s.d.addrSaved ==>
                 (a in s'.d.mem <==> a in s.d.mem) && (a in s.d.mem ==> s'.d.mem[a] == s.d.mem[a])
    decreases |input|
  {
    if input != [] {
      CheckpointIsStable(Step(s, input[0]), input[1..]);
    }
  }
}
