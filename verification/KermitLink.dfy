/**
 What the two sides agree on: the link parameters that a sender's S packet sets, what the receiver offers in return, and
 whole file transfers in the terms of the sender's own parameters.
 */
module KermitLink {
  import opened Arith
  import opened Kermit
  import opened KermitSession

  /** What a sender says about itself: packet length, timeout, padding it needs, line end it needs, its control prefix. */
  datatype Sender = Sender(maxl: nat, time: nat, npad: nat, padc: byte, eol: nat, qctl: byte)

  // Padding characters are controls or DEL, and the prefix is a printable character.
  predicate Sane(w: Sender) {
    && w.maxl <= 94 && w.time <= 94 && w.npad <= 94 && (w.padc < 32 || w.padc == 127) && w.eol <= 94 && ValidQuote(w.qctl)
  }

  // The other half of the control characters: ^A is sent as A, DEL as ?.
  function Uncontrol(c: byte): byte { if c == 127 then 63 else (c + 64) % 256 }

  /** The six fields of the S packet, in the order of the protocol. */
  function FieldsOf(w: Sender): seq<byte> {
    [ToChar(w.maxl), ToChar(w.time), ToChar(w.npad), Uncontrol(w.padc), ToChar(w.eol), w.qctl]
  }

  /** An S packet of this sender: its fields, cut after the first k, or followed by any others. */
  predicate Announces(p: Packet, w: Sender, k: nat, more: seq<byte>) {
    && p.ktype == SEND_TYPE && k <= 6 && (k < 6 ==> more == []) && p.data == FieldsOf(w)[..k] + more
  }

  lemma {:induction false} PadRoundTrip(c: byte)
    requires c < 32 || c == 127
    ensures KTrans(Uncontrol(c)) == c
  {
  }

  lemma {:induction false} FieldAt(w: Sender, k: nat, more: seq<byte>, i: nat)
    requires k <= 6 && (k < 6 ==> more == []) && i < k
    ensures var parms := Parms(FieldsOf(w)[..k] + more); Usable(parms) >= k && parms[i] == FieldsOf(w)[i]
  {
  }

  /**
   The link after an S packet: NPAD, PADC, EOL and QCTL of the sender, each with its default (no padding of NUL, CR and '#')
   if the packet ends before that field.
   */
  lemma {:induction false} LinkIsSenders(a: Abs, p: Packet, w: Sender, k: nat, more: seq<byte>)
    requires Sane(w) && Announces(p, w, k, more)
    ensures Absorb(a, p).link.padCount == if k >= 3 then w.npad else 0
    ensures Absorb(a, p).link.padChar == if k >= 4 then w.padc else 0
    ensures Absorb(a, p).link.eol == if k >= 5 then w.eol else 13
    ensures Absorb(a, p).link.quote == if k >= 6 then w.qctl else 35
  {
    if k >= 3 { FieldAt(w, k, more, 2); CharRoundTrip(w.npad); }
    if k >= 4 { FieldAt(w, k, more, 3); PadRoundTrip(w.padc); }
    if k >= 5 { FieldAt(w, k, more, 4); CharRoundTrip(w.eol); }
    if k >= 6 { FieldAt(w, k, more, 5); }
    if k < 6 {
      assert p.data + [] == p.data && |Parms(p.data)| == k;
    }
  }

  /** The receiver itself, after an S packet has arrived intact. */
  lemma {:induction false} ReceiverLink(start: int, mem: map<int, byte>, p: Packet, w: Sender, k: nat, more: seq<byte>)
    requires WellFormed(p) && Sane(w) && Announces(p, w, k, more)
    ensures var l := Run(Init(start, mem), Wire(p, Intact([]))).d.link;
            && l.padCount == (if k >= 3 then w.npad else 0) && l.padChar == (if k >= 4 then w.padc else 0)
            && l.eol == (if k >= 5 then w.eol else 13) && l.quote == (if k >= 6 then w.qctl else 35)
  {
    OneDelivery(Init(start, mem), p, Intact([]), Fresh());
    LinkIsSenders(Fresh(), p, w, k, more);
  }

  // ---------- the receiver's own offer ----------

  /** The acknowledgement of an S packet answers as many fields as it had, and all thirteen from ten on. */
  lemma {:induction false} OfferIs(parms: seq<byte>)
    ensures var k, all := Usable(parms), [ToChar(94), ToChar(1), ToChar(0), 0x40, ToChar(13), 35, 78, 49, 78, ToChar(2),
                                          ToChar(0), ToChar(94), ToChar(94)];
            Offer(parms) == if k <= 9 then all[..k] else all
  {
    assert OFFER + CAPAS == [126, 33, 32, 64, 45, 35, 78, 49, 78, 34, 32, 126, 126];
    assert OFFER == (OFFER + CAPAS)[..9];
  }

  // ---------- the block check ----------

  // Bits 6 and 7 of the sum are added to its low six bits.
  lemma {:induction false} BlockCheckIs(sum: nat)
    ensures 32 <= BlockCheck(sum) < 96 && (BlockCheck(sum) - 32) as int == (sum % 64 + sum / 64 % 4) % 64
  {
    CharRoundTrip((sum + sum / 64 % 4) % 64);
    assert sum == sum / 64 * 64 + sum % 64;
  }

  // The check of a sum with low bits l and the two bits h above them.
  function Fold(h: nat, l: nat): int { if l + h < 64 then l + h else l + h - 64 }

  lemma {:induction false} CheckIsFold(q: nat, h: nat, l: nat)
    requires h < 4 && l < 64
    ensures (BlockCheck(256 * q + 64 * h + l) - 32) as int == Fold(h, l)
  {
    var sum := 256 * q + 64 * h + l;
    assert sum == (4 * q + h) * 64 + l;
    DivModUnique(4 * q + h, l, 64);
    DivModUnique(q, h, 4);
    assert 4 * q + h == q * 4 + h;
    BlockCheckIs(sum);
  }

  predicate Bit(d: nat) { d == 1 || d == 2 || d == 4 || d == 8 || d == 16 || d == 32 || d == 64 || d == 128 }

  // Adding a bit: the new low bits, the two bits above, and the carry out of them.
  lemma {:induction false} AddBit(h: nat, l: nat, d: nat) returns (c: nat, h': nat, l': nat)
    requires h < 4 && l < 64 && Bit(d)
    ensures h' < 4 && l' < 64 && 64 * h + l + d == 256 * c + 64 * h' + l' && Fold(h', l') != Fold(h, l)
  {
    if d == 64 {
      c, h', l' := if h == 3 then 1 else 0, if h == 3 then 0 else h + 1, l;
    } else if d == 128 {
      c, h', l' := if h >= 2 then 1 else 0, if h >= 2 then h - 2 else h + 2, l;
    } else if l + d < 64 {
      c, h', l' := 0, h, l + d;
    } else {
      c, h', l' := if h == 3 then 1 else 0, if h == 3 then 0 else h + 1, l + d - 64;
    }
  }

  /** A single flipped bit in a character of the packet changes the block check. */
  lemma {:induction false} BitFlipDetected(sum: nat, d: nat)
    requires Bit(d)
    ensures BlockCheck(sum + d) != BlockCheck(sum)
  {
    var q, h, l := sum / 256, sum % 256 / 64, sum % 64;
    assert sum == 256 * q + 64 * h + l;
    var c, h', l' := AddBit(h, l, d);
    CheckIsFold(q, h, l);
    CheckIsFold(q + c, h', l');
    assert sum + d == 256 * (q + c) + 64 * h' + l';
  }

  // ---------- files ----------

  /**
   A whole transfer: an S packet of the sender, other packets without data, and the file quoted with the sender's own
   prefix ('#' if the S packet has no QCTL) and cut into data packets anywhere.  The file arrives exactly, in any session.
   */
  lemma {:induction false} SenderTransfer(start: int, mem: map<int, byte>, noise: seq<byte>, w: Sender, k: nat, more: seq<byte>,
                                          s: Packet, middle: seq<Packet>, rest: seq<Packet>, dss: seq<seq<Delivery>>,
                                          file: seq<byte>)
    requires Noise(noise) && Sane(w) && Announces(s, w, k, more) && Session([s] + middle + rest, dss)
    requires Without(middle, DATA_TYPE) && Without(middle, SEND_TYPE) && Without(rest, SEND_TYPE)
    requires DataOf(rest) == Quote(if k >= 6 then w.qctl else 35, file)
    ensures var r := Run(Init(start, mem), noise + Stream([s] + middle + rest, dss));
            r.c.phase == Done && Result(r) == |file| && Holds(r.d, start + |file|, file)
  {
    var prelude := [s] + middle;
    LinkIsSenders(Fresh(), s, w, k, more);
    assert prelude[1..] == middle;
    LinkKept(Absorb(Fresh(), s), middle);
    FileTransfer(start, mem, noise, prelude, rest, dss, file);
  }

  lemma {:induction false} LinkKept(a: Abs, ps: seq<Packet>)
    requires Without(ps, SEND_TYPE)
    ensures AbsorbAll(a, ps).link == a.link
    decreases |ps|
  {
    if ps != [] { LinkKept(Absorb(a, ps[0]), ps[1..]); }
  }

  const USUAL := Sender(94, 10, 0, 0, 13, 35)

  // The usual S packet "~* @-#": the prefix is '#'.
  lemma {:induction false} UsualQuote(a: Abs, more: seq<byte>)
    ensures FieldsOf(USUAL) == [126, 42, 32, 64, 45, 35]
    ensures Absorb(a, Packet(SEND_TYPE, 0, [126, 42, 32, 64, 45, 35] + more, false)).link == Link(13, 0, 0, 35)
  {
    var p := Packet(SEND_TYPE, 0, [126, 42, 32, 64, 45, 35] + more, false);
    assert FieldsOf(USUAL)[..6] == [126, 42, 32, 64, 45, 35];
    LinkIsSenders(a, p, USUAL, 6, more);
  }

  // ---------- packets on the wire ----------

  // The block check of a sum of characters, as the protocol defines its type 1.
  function Type1(sum: nat): nat { (sum % 64 + sum / 64 % 4) % 64 + 32 }

  lemma {:induction false} TypeCodes()
    ensures SEND_TYPE == 'S' as int && DATA_TYPE == 'D' as int && BREAK_TYPE == 'B' as int
    ensures ACK_TYPE == 'Y' as int && NACK_TYPE == 'N' as int
  {
  }

  lemma {:induction false} WireOf(p: Packet, head: seq<byte>)
    requires head == Head(p) + Front(p)
    ensures Wire(p, Intact([])) == [1] + head + p.data + [Type1(Sum(head + p.data)), 13]
  {
    BlockCheckIs(Sum(head + p.data));
  }

  /** A short packet, character by character: SOH, length and number as printable characters, type, data, check and CR. */
  lemma {:induction false} ShortWire(p: Packet)
    requires WellFormed(p) && !p.long
    ensures var head := [|p.data| + 35, p.n + 32, p.ktype];
            Wire(p, Intact([])) == [1] + head + p.data + [Type1(Sum(head + p.data)), 13]
  {
    CharRoundTrip(|p.data| + 3);
    CharRoundTrip(p.n);
    WireOf(p, [|p.data| + 35, p.n + 32, p.ktype]);
  }

  function LongStart(p: Packet): seq<int> {
    var l := |p.data| + 1; [32, p.n + 32, p.ktype as int, l / 95 + 32, l % 95 + 32]
  }

  lemma {:induction false} LongHeader(p: Packet, h: seq<byte>)
    requires WellFormed(p) && p.long && h == LongStart(p)
    ensures Head(p) + Front(p) == h + [Type1(Sum(h))]
  {
    var l := |p.data| + 1;
    assert l / 95 <= 94;
    CharRoundTrip(0);
    CharRoundTrip(p.n);
    CharRoundTrip(l / 95);
    CharRoundTrip(l % 95);
    assert Head(p) + [p.ktype, ToChar(l / 95), ToChar(l % 95)] == h;
    BlockCheckIs(Sum(h));
  }

  /** A long packet: length 0, and behind the type the real length in two characters and a check of the header. */
  lemma {:induction false} LongWire(p: Packet, h: seq<byte>)
    requires WellFormed(p) && p.long && h == LongStart(p)
    ensures var head := h + [Type1(Sum(h))];
            Wire(p, Intact([])) == [1] + head + p.data + [Type1(Sum(head + p.data)), 13]
  {
    LongHeader(p, h);
    WireOf(p, h + [Type1(Sum(h))]);
  }

  /** ^C between packets ends the reception with 0, whatever has arrived. */
  lemma {:induction false} CtrlC(s: Rx, rest: seq<byte>)
    requires s.c.phase == Wait
    ensures Result(Run(s, [3] + rest)) == 0 && Run(s, [3] + rest).d == s.d
  {
    assert ([3] + rest)[1..] == rest;
    FinishedIgnores(Step(s, 3), rest);
  }
}
