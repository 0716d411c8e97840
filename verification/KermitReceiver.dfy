/**
 The receiver in the form of the source: global state updated while a packet is being read, packet by packet.
 Every method advances through the input and is proved to follow the byte machine of module `Kermit`.
 `getc` blocks at the end of `input`, so each method also stops there.
 */
module KermitReceiver {
  import opened Kermit

  // One call of getc advances the machine by one step.
  lemma GetC(s: Rx, input: seq<byte>, p: nat)
    requires p < |input|
    ensures Run(s, input[..p + 1]) == Step(Run(s, input[..p]), input[p])
  {
    assert input[..p + 1] == input[..p] + [input[p]];
    RunConcat(s, input[..p], [input[p]]);
    assert [input[p]][1..] == [];
  }

  lemma SumSnoc(s: seq<byte>, k: nat)
    requires k < |s|
    ensures Sum(s[..k + 1]) == Sum(s[..k]) + s[k]
  {
    if k == 0 {
      assert s[..1] == [s[0]] && Sum([s[0]][1..]) == 0;
    } else {
      SumSnoc(s[1..], k - 1);
      assert s[..k + 1][1..] == s[1..][..k] && s[..k][1..] == s[1..][..k - 1];
    }
  }

  class Receiver {
    const start: int
    var mem: map<int, byte>
    var addr: int
    var addrSaved: int
    var esc: bool
    var escSaved: bool
    var lastN: int
    var eol: byte
    var padCount: nat
    var padChar: byte
    var quote: byte
    const sendParms: array<byte>
    var sendPtr: nat
    var tx: seq<byte>

    ghost predicate Valid()
      reads this
    {
      sendParms.Length == SEND_DATA_SIZE && sendPtr < SEND_DATA_SIZE
    }

    ghost function D(): Dat
      requires Valid()
      reads this, sendParms
    {
      Dat(start, mem, addr, esc, addrSaved, escSaved, lastN, Link(eol, padCount, padChar, quote),
          sendParms[..sendPtr], tx)
    }

    constructor (start: int, mem: map<int, byte>)
      ensures Valid() && this.start == start && this.mem == mem && fresh(sendParms)
    {
      this.start, this.mem := start, mem;
      sendParms := new byte[SEND_DATA_SIZE](_ => 0);
      addr, addrSaved, esc, escSaved, lastN := start, start, false, false, -1;
      eol, padCount, padChar, quote := END, 0, 0, ESCAPE;
      sendPtr, tx := 0, [];
    }

    method DataSave()
      requires Valid()
      modifies `addrSaved, `escSaved
      ensures D() == old(D()).(addrSaved := old(addr), escSaved := old(esc))
    {
      escSaved := esc;
      addrSaved := addr;
    }

    method DataRestore()
      requires Valid()
      modifies `addr, `esc
      ensures D() == Restore(old(D()))
    {
      esc := escSaved;
      addr := addrSaved;
    }

    method DataCharacter(c: byte)
      requires Valid()
      modifies `mem, `addr, `esc
      ensures D() == DataChar(old(D()), c)
    {
      if esc {
        mem := mem[addr := KTrans(c)];
        addr := addr + 1;
        esc := false;
      } else if c == quote {
        esc := true;
      } else {
        mem := mem[addr := c];
        addr := addr + 1;
      }
    }

    method KeepParameter(c: byte)
      requires Valid()
      modifies `sendPtr, sendParms
      ensures Valid() && D() == old(D()).(parms := KeepParm(old(D()).parms, c))
    {
      sendParms[sendPtr] := c;
      sendPtr := sendPtr + 1;
      if sendPtr >= SEND_DATA_SIZE {
        sendPtr := sendPtr - 1;
      }
    }

    method Checksum(body: seq<byte>) returns (k: byte)
      ensures ToChar(k) == BlockCheck(Sum(body))
    {
      var total: nat := 0;
      for i := 0 to |body|
        invariant total == Sum(body[..i])
      {
        SumSnoc(body, i);
        total := total + body[i];
      }
      assert body[..|body|] == body;
      k := (total + total / 64 % 4) % 64;
    }

    method SendPacket(ktype: byte, n: int, fields: seq<byte>)
      requires Valid()
      modifies `tx
      ensures D() == Reply(old(D()), ktype, n, fields)
    {
      var body := [ToChar(|fields| + 3), ToChar(n), ktype] + fields;
      var k := Checksum(body);
      ghost var l := old(D()).link;
      var count, ch := padCount, padChar;
      while count > 0
        invariant 0 <= count <= padCount
        invariant tx == old(tx) + seq(padCount - count, _ => ch)
      {
        tx := tx + [ch];
        count := count - 1;
      }
      assert tx == old(tx) + Pad(l);
      tx := tx + ([START] + body + [ToChar(k)] + if eol == 0 then [] else [eol]);
    }

    method PacketError(n: int)
      requires Valid()
      modifies `addr, `esc, `tx, `sendPtr
      ensures Valid() && forall kt :: D() == Apply(old(D()), Fail, kt, n)
    {
      DataRestore();
      sendPtr := 0;
      assert sendParms[..0] == [];
      SendPacket(NACK_TYPE, n, []);
    }

    // Takes over what the sender asked for in its S packet.
    method Adopt() returns (bytes: nat)
      requires Valid()
      modifies `eol, `padCount, `padChar, `quote, `sendPtr
      ensures Valid() && bytes == Usable(old(D()).parms)
      ensures D() == old(D()).(link := Negotiate(old(D()).parms), parms := [])
    {
      eol, padCount, padChar, quote := END, 0, 0, ESCAPE;
      if sendPtr == SEND_DATA_SIZE - 1 {
        sendPtr := sendPtr - 1;
      }
      bytes := sendPtr;
      if bytes >= 3 { padCount := UnChar(sendParms[2]); }
      if bytes >= 4 { padChar := KTrans(sendParms[3]); }
      if bytes >= 5 { eol := UnChar(sendParms[4]); }
      if bytes >= 6 { quote := sendParms[5]; }
      sendPtr := 0;
    }

    method HandleSendPacket(n: int)
      requires Valid()
      modifies `eol, `padCount, `padChar, `quote, `sendPtr, `tx
      ensures Valid() && D() == Apply(old(D()), Accept, SEND_TYPE, n)
    {
      var bytes := Adopt();
      var fields := if bytes <= 9 then OFFER[..bytes] else OFFER + CAPAS;
      SendPacket(ACK_TYPE, n, fields);
    }

    // Waits for START or ^C.
    method AwaitStart(ghost s: Rx, input: seq<byte>, p0: nat, c0: Ctl) returns (c: Ctl, p: nat)
      requires Valid() && p0 <= |input| && c0.phase == Wait
      requires Rx(c0, D()) == Run(s, input[..p0])
      ensures p0 <= p <= |input| && c.phase in {Wait, Len, Aborted} && (p == |input| || c.phase != Wait)
      ensures p0 < |input| ==> p0 < p
      ensures Rx(c, D()) == Run(s, input[..p])
    {
      c, p := c0, p0;
      while p < |input|
        invariant p0 <= p <= |input| && c == c0
        invariant Rx(c, D()) == Run(s, input[..p])
      {
        GetC(s, input, p);
        p := p + 1;
        if input[p - 1] == START {
          c := c.(phase := Len, sum := 0);
          return;
        } else if input[p - 1] == ETX {
          c := c.(phase := Aborted);
          return;
        }
      }
    }

    // LEN and SEQ; a repeated sequence number goes back to the checkpoint, a new one sets it.
    method Header(ghost s: Rx, input: seq<byte>, p0: nat, c0: Ctl) returns (c: Ctl, p: nat)
      requires Valid() && p0 <= |input| && c0.phase == Len
      requires Rx(c0, D()) == Run(s, input[..p0])
      modifies this
      ensures Valid() && p0 <= p <= |input| && c.phase in {Wait, Len, Seq, Type} && (p == |input| || c.phase in {Wait, Type})
      ensures Rx(c, D()) == Run(s, input[..p])
    {
      c, p := c0, p0;
      if p == |input| { return; }
      GetC(s, input, p);
      var ch := input[p];
      p := p + 1;
      if IsControl(ch) {
        PacketError(c.n);
        c := c.(phase := Wait);
        return;
      }
      c := c.(phase := Seq, sum := ch, length := UnChar(ch));
      if p == |input| { return; }
      GetC(s, input, p);
      ch := input[p];
      p := p + 1;
      if IsControl(ch) {
        PacketError(c.n);
        c := c.(phase := Wait);
        return;
      }
      c := c.(phase := Type, sum := c.sum + ch, n := UnChar(ch), length := c.length - 1);
      if c.n == lastN {
        DataRestore();
      } else {
        lastN := c.n;
        DataSave();
      }
    }

    // The packet type.
    method PacketType(ghost s: Rx, input: seq<byte>, p0: nat, c0: Ctl) returns (c: Ctl, p: nat)
      requires Valid() && p0 <= |input| && c0.phase == Type
      requires Rx(c0, D()) == Run(s, input[..p0])
      modifies this
      ensures Valid() && p0 <= p <= |input| && c.phase in {Wait, Type, LenHi, Body, Chk} && (p == |input| || c.phase != Type)
      ensures c.phase == Body ==> c.length > 1
      ensures Rx(c, D()) == Run(s, input[..p])
    {
      c, p := c0, p0;
      if p == |input| { return; }
      GetC(s, input, p);
      var ch := input[p];
      p := p + 1;
      if IsControl(ch) {
        PacketError(c.n);
        c := c.(phase := Wait);
        return;
      }
      c := c.(sum := c.sum + ch, ktype := ch, length := c.length - 1);
      c := if c.length == -2 then c.(phase := LenHi) else AtBody(c);
    }

    // The extended length and its header check.
    method LongLength(ghost s: Rx, input: seq<byte>, p0: nat, c0: Ctl) returns (c: Ctl, p: nat)
      requires Valid() && p0 <= |input| && c0.phase == LenHi
      requires Rx(c0, D()) == Run(s, input[..p0])
      modifies this
      ensures Valid() && p0 <= p <= |input| && (p == |input| || c.phase in {Wait, Body, Chk})
      ensures c.phase == Body ==> c.length > 1
      ensures Rx(c, D()) == Run(s, input[..p])
    {
      c, p := c0, p0;
      while p < |input| && c.phase in {LenHi, LenLo, HdrChk}
        invariant Valid() && p0 <= p <= |input| && c.phase in {Wait, LenHi, LenLo, HdrChk, Body, Chk}
        invariant c.phase == Body ==> c.length > 1
        invariant Rx(c, D()) == Run(s, input[..p])
      {
        GetC(s, input, p);
        var ch := input[p];
        p := p + 1;
        if IsControl(ch) || (c.phase == HdrChk && ch != BlockCheck(c.sum)) {
          PacketError(c.n);
          c := c.(phase := Wait);
        } else if c.phase == LenHi {
          c := c.(phase := LenLo, sum := c.sum + ch, hi := UnChar(ch));
        } else if c.phase == LenLo {
          c := c.(phase := HdrChk, sum := c.sum + ch, length := c.hi * 95 + UnChar(ch));
        } else {
          c := AtBody(c.(sum := c.sum + ch));
        }
      }
    }

    // The data characters.
    method DataLoop(ghost s: Rx, input: seq<byte>, p0: nat, c0: Ctl) returns (c: Ctl, p: nat)
      requires Valid() && p0 <= |input| && c0.phase == Body && c0.length > 1
      requires Rx(c0, D()) == Run(s, input[..p0])
      modifies this, sendParms
      ensures Valid() && p0 <= p <= |input| && (p == |input| || c.phase in {Wait, Chk})
      ensures Rx(c, D()) == Run(s, input[..p])
    {
      c, p := c0, p0;
      while c.length > 1
        invariant Valid() && p0 <= p <= |input| && c == AtBody(c)
        invariant Rx(c, D()) == Run(s, input[..p])
        decreases c.length
      {
        if p == |input| { return; }
        GetC(s, input, p);
        var ch := input[p];
        p := p + 1;
        if IsControl(ch) {
          PacketError(c.n);
          c := c.(phase := Wait);
          return;
        }
        c := AtBody(c.(sum := c.sum + ch, length := c.length - 1));
        if c.ktype == DATA_TYPE {
          DataCharacter(ch);
        } else if c.ktype == SEND_TYPE {
          KeepParameter(ch);
        }
      }
    }

    // The block check and the line end, then the acknowledgement.
    method Trailer(ghost s: Rx, input: seq<byte>, p0: nat, c0: Ctl) returns (c: Ctl, p: nat)
      requires Valid() && p0 <= |input| && c0.phase == Chk
      requires Rx(c0, D()) == Run(s, input[..p0])
      modifies this
      ensures Valid() && p0 <= p <= |input| && (p == |input| || c.phase in {Wait, Done})
      ensures Rx(c, D()) == Run(s, input[..p])
    {
      c, p := c0, p0;
      if p == |input| { return; }
      GetC(s, input, p);
      var ch := input[p];
      p := p + 1;
      if IsControl(ch) || ch != BlockCheck(c.sum) {
        PacketError(c.n);
        c := c.(phase := Wait);
        return;
      }
      c := c.(phase := End);
      if p == |input| { return; }
      GetC(s, input, p);
      ch := input[p];
      p := p + 1;
      if ch != END {
        PacketError(c.n);
        c := c.(phase := Wait);
      } else if c.ktype == SEND_TYPE {
        HandleSendPacket(c.n);
        c := c.(phase := Wait);
      } else {
        SendPacket(ACK_TYPE, c.n, []);
        sendPtr := 0;
        assert sendParms[..0] == [];
        c := c.(phase := if c.ktype == BREAK_TYPE then Done else Wait);
      }
    }

    // From waiting to the start of the data.
    method Opening(ghost s: Rx, input: seq<byte>, p0: nat, c0: Ctl) returns (c: Ctl, p: nat)
      requires Valid() && p0 < |input| && c0.phase == Wait
      requires Rx(c0, D()) == Run(s, input[..p0])
      modifies this
      ensures Valid() && p0 < p <= |input| && (p == |input| || c.phase in {Wait, Aborted, LenHi, Body, Chk})
      ensures c.phase == Body ==> c.length > 1
      ensures Rx(c, D()) == Run(s, input[..p])
    {
      c, p := AwaitStart(s, input, p0, c0);
      if c.phase == Len { c, p := Header(s, input, p, c); }
      if c.phase == Type { c, p := PacketType(s, input, p, c); }
    }

    // From the start of the data to the reply.
    method Closing(ghost s: Rx, input: seq<byte>, p0: nat, c0: Ctl) returns (c: Ctl, p: nat)
      requires Valid() && p0 <= |input| && c0.phase in {LenHi, Body, Chk}
      requires Rx(c0, D()) == Run(s, input[..p0])
      requires c0.phase == Body ==> c0.length > 1
      modifies this, sendParms
      ensures Valid() && p0 <= p <= |input| && (p == |input| || c.phase in {Wait, Done})
      ensures Rx(c, D()) == Run(s, input[..p])
    {
      c, p := c0, p0;
      if c.phase == LenHi { c, p := LongLength(s, input, p, c); }
      if c.phase == Body { c, p := DataLoop(s, input, p, c); }
      if c.phase == Chk { c, p := Trailer(s, input, p, c); }
    }

    // What k_recv starts from: the link defaults and an empty file; earlier transmissions stay sent.
    ghost function Begin(): Rx
      reads this
    {
      var s := Init(start, mem);
      s.(d := s.d.(tx := tx))
    }

    method Reset() returns (c: Ctl)
      requires Valid()
      modifies this
      ensures Valid() && Rx(c, D()) == old(Begin())
    {
      eol, padCount, padChar, quote := END, 0, 0, ESCAPE;
      esc, addr, lastN, sendPtr := false, start, -1, 0;
      DataSave();
      c := Ctl(Wait, 0, 0, 0, 0, 0);
    }

    /** k_recv: follows the byte machine over the whole input, whatever it is. */
    method Receive(input: seq<byte>) returns (c: Ctl, size: int)
      requires Valid()
      modifies this, sendParms
      ensures Valid() && Rx(c, D()) == Run(old(Begin()), input)
      ensures size == Result(Rx(c, D()))
    {
      c := Reset();
      var p := 0;
      ghost var s := Rx(c, D());
      while p < |input| && c.phase == Wait
        invariant Valid() && p <= |input| && (p == |input| || c.phase in {Wait, Done, Aborted})
        invariant Rx(c, D()) == Run(s, input[..p])
        decreases |input| - p
      {
        c, p := Opening(s, input, p, c);
        if c.phase in {LenHi, Body, Chk} { c, p := Closing(s, input, p, c); }
      }
      if p < |input| { FinishedIgnores(Rx(c, D()), input[p..]); }
      assert input == input[..p] + input[p..];
      RunConcat(s, input[..p], input[p..]);
      size := if c.phase == Done then addr - start else 0;
    }
  }
}
