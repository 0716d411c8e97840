/**
 Damage to LEN and SEQ, which a session excludes.  An error before the checkpoint, or the number of the packet before,
 takes the receiver back past a packet that it has already acknowledged.
 */
module KermitDamage {
  import opened Kermit
  import opened KermitSession

  /** A packet that leaves nothing behind: no data packet, or an empty one. */
  predicate CarriesNothing(p: Packet) { p.ktype != DATA_TYPE || p.data == [] }

  // A non-empty data field stores a byte or turns the escape flag.
  lemma {:induction false} UnquoteNothing(q: byte, esc: bool, s: seq<byte>)
    ensures Unquote(q, esc, s) == ([], esc) <==> s == []
  {
    if s != [] && !esc && s[0] == q { assert Unquote(q, true, s[1..]).0 == [] ==> Unquote(q, true, s[1..]).1; }
  }

  lemma {:induction false} AbsorbNothing(a: Abs, p: Packet)
    ensures Absorb(a, p).content == a.content && Absorb(a, p).esc == a.esc <==> CarriesNothing(p)
  {
    if p.ktype == DATA_TYPE {
      UnquoteNothing(a.link.quote, a.esc, p.data);
      var bytes := Unquote(a.link.quote, a.esc, p.data).0;
      assert |a.content + bytes| == |a.content| + |bytes|;
      if bytes == [] { assert a.content + bytes == a.content; }
    }
  }

  // Two descriptions of the same memory agree.
  lemma {:induction false} HoldsOne(d: Dat, addr: int, x: seq<byte>, y: seq<byte>)
    requires Holds(d, addr, x) && Holds(d, addr, y)
    ensures x == y
  {
    forall i | 0 <= i < |x| ensures x[i] == y[i] {
      var k := d.start + i;
      assert d.mem[k] == x[k - d.start] && d.mem[k] == y[k - d.start];
    }
  }

  // A receiver in the state from before a packet is in the state from after it only if the packet carries nothing.
  lemma {:induction false} LiveBoth(d: Dat, a: Abs, p: Packet)
    requires Live(d, a)
    ensures Live(d, Absorb(a, p)) <==> CarriesNothing(p)
  {
    AbsorbNothing(a, p);
    if Live(d, Absorb(a, p)) { HoldsOne(d, d.addr, a.content, Absorb(a, p).content); }
  }

  // LEN and SEQ arrive as printable characters, and SEQ is not the number n.
  predicate FreshHeader(junk: seq<byte>, n: nat) {
    |junk| >= 2 && !IsControl(junk[0]) && !IsControl(junk[1]) && UnChar(junk[1]) != n
  }

  // The receiver after START and two printable characters, as far as the damage goes.
  lemma {:induction false} HeaderStep(s: Rx, len: byte, sq: byte)
    requires s.c.phase == Wait && !IsControl(len) && !IsControl(sq)
    ensures var s3 := Step(Step(Step(s, START), len), sq);
            && s3.c.phase == Type
            && s3.d == if UnChar(sq) == s.d.lastN then Restore(s.d)
                       else s.d.(lastN := UnChar(sq), addrSaved := s.d.addr, escSaved := s.d.esc)
  {
  }

  // What a header and its rejected rest leave.
  lemma {:induction false} HeaderThenReject(s: Rx, junk: seq<byte>, a: Abs)
    requires s.c.phase == Wait && |junk| >= 2 && !IsControl(junk[0]) && !IsControl(junk[1])
    requires Rejects(Step(s, START).c, junk)
    requires if UnChar(junk[1]) == s.d.lastN then Saved(s.d, a) else Live(s.d, a)
    ensures var s' := Run(s, [START] + junk); s'.c.phase == Wait && Live(s'.d, a)
  {
    var s1 := Step(s, START);
    var s2 := Step(s1, junk[0]);
    var s3 := Step(s2, junk[1]);
    HeaderStep(s, junk[0], junk[1]);
    assert Rejects(s2.c, junk[1..]);
    assert junk[1..][1..] == junk[2..] && Rejects(s3.c, junk[2..]);
    RejectedRollsBack(s3, junk[2..], a);
    assert ([START] + junk)[1..] == junk;
    assert Run(s, [START] + junk) == Run(s1, junk) == Run(s2, junk[1..]) == Run(s3, junk[2..]);
  }

  // A control character in place of LEN or SEQ.
  lemma {:induction false} ControlRestores(s: Rx, junk: seq<byte>, a: Abs)
    requires s.c.phase == Wait && Rejects(Step(s, START).c, junk) && Saved(s.d, a)
    requires IsControl(junk[0]) || (|junk| >= 2 && IsControl(junk[1]))
    ensures var s' := Run(s, [START] + junk); s'.c.phase == Wait && Live(s'.d, a)
  {
    var s1 := Step(s, START);
    assert ([START] + junk)[1..] == junk;
    assert Run(s, [START] + junk) == Run(s1, junk);
    if IsControl(junk[0]) {
      assert junk[1..] == [];
      assert Run(s1, junk) == Step(s1, junk[0]);
    } else {
      var s2 := Step(s1, junk[0]);
      assert Rejects(s2.c, junk[1..]) && junk[1..][1..] == [];
      assert Run(s1, junk) == Run(s2, junk[1..]) == Step(s2, junk[1]);
    }
  }

  /**
   Packet `p` has been accepted and acknowledged, and then a packet with any LEN and SEQ is rejected anywhere.  What `p`
   brought is still there if and only if it carried nothing, or LEN and SEQ are printable and SEQ is not `p`'s number;
   otherwise the receiver is back in the state from before `p`.
   */
  lemma {:induction false} EarlyDamage(s: Rx, p: Packet, a: Abs, junk: seq<byte>)
    requires s.c.phase == Wait && Begun(s.d, a, p) && Live(s.d, Absorb(a, p)) && Rejects(Step(s, START).c, junk)
    ensures var s' := Run(s, [START] + junk);
            && s'.c.phase == Wait
            && (Live(s'.d, Absorb(a, p)) <==> CarriesNothing(p) || FreshHeader(junk, p.n))
            && (!FreshHeader(junk, p.n) ==> Live(s'.d, a))
  {
    if FreshHeader(junk, p.n) {
      HeaderThenReject(s, junk, Absorb(a, p));
    } else {
      SecondCharacter(s, junk);
      if IsControl(junk[0]) || IsControl(junk[1]) {
        ControlRestores(s, junk, a);
      } else {
        HeaderThenReject(s, junk, a);
      }
      LiveBoth(Run(s, [START] + junk).d, a, p);
    }
  }

  // A printable LEN is not the end of a rejected packet.
  lemma {:induction false} SecondCharacter(s: Rx, junk: seq<byte>)
    requires s.c.phase == Wait && Rejects(Step(s, START).c, junk)
    ensures IsControl(junk[0]) || |junk| >= 2
  {
    if !IsControl(junk[0]) { assert Rejects(Step(Step(s, START), junk[0]).c, junk[1..]); }
  }

  /** From the start of a download: any first packet, delivered intact and acknowledged, and then such a damaged one. */
  lemma {:induction false} FirstPacketLost(start: int, mem: map<int, byte>, p: Packet, junk: seq<byte>)
    requires WellFormed(p) && p.ktype != BREAK_TYPE
    requires Rejects(Step(Run(Init(start, mem), Wire(p, Intact([]))), START).c, junk)
    ensures var s' := Run(Init(start, mem), Wire(p, Intact([])) + ([START] + junk));
            && s'.c.phase == Wait
            && (Live(s'.d, Absorb(Fresh(), p)) <==> CarriesNothing(p) || FreshHeader(junk, p.n))
            && (!FreshHeader(junk, p.n) ==> s'.d.addr == start)
  {
    var s := Init(start, mem);
    OneDelivery(s, p, Intact([]), Fresh());
    RunConcat(s, Wire(p, Intact([])), [START] + junk);
    EarlyDamage(Run(s, Wire(p, Intact([]))), p, Fresh(), junk);
    StartKept(Run(s, Wire(p, Intact([]))), [START] + junk);
  }

  const LETTER := Packet(DATA_TYPE, 0, [65], false)

  lemma {:induction false} LetterContent()
    ensures Absorb(Fresh(), LETTER).content == [65]
  {
    assert [65][1..] == [] && Unquote(ESCAPE, false, []) == ([], false);
    assert Unquote(ESCAPE, false, [65]).0 == [65] + [];
    assert [] + [65] == [65];
  }

  // The letter A arrives in packet 0, with its acknowledgement ...
  lemma {:induction false} LetterArrives(start: int, mem: map<int, byte>)
    ensures var s := Run(Init(start, mem), Wire(LETTER, Intact([])));
            s.d.addr == start + 1 && start in s.d.mem && s.d.mem[start] == 65
  {
    OneDelivery(Init(start, mem), LETTER, Intact([]), Fresh());
    LetterContent();
  }

  // ... and is gone after a START and one control character, or after a rejected packet with the same number.
  lemma {:induction false} LetterLost(start: int, mem: map<int, byte>)
    ensures Run(Init(start, mem), Wire(LETTER, Intact([])) + ([START] + [2])).d.addr == start
    ensures Run(Init(start, mem), Wire(LETTER, Intact([])) + ([START] + [36, 32, 2])).d.addr == start
  {
    var s := Run(Init(start, mem), Wire(LETTER, Intact([])));
    OneDelivery(Init(start, mem), LETTER, Intact([]), Fresh());
    RejectedInputs(s);
    FirstPacketLost(start, mem, LETTER, [2]);
    FirstPacketLost(start, mem, LETTER, [36, 32, 2]);
  }

  lemma {:induction false} RejectedInputs(s: Rx)
    requires s.c.phase == Wait
    ensures Rejects(Step(s, START).c, [2]) && Rejects(Step(s, START).c, [36, 32, 2])
  {
    assert [36, 32, 2][1..] == [32, 2] && [32, 2][1..] == [2];
    var c := Step(s, START).c;
    var c1 := CtlStep(c, 36);
    assert Rejects(CtlStep(c1, 32), [2]);
    assert Rejects(c1, [32, 2]);
  }

  lemma {:induction false} StartKept(s: Rx, input: seq<byte>)
    ensures Run(s, input).d.start == s.d.start
    decreases |input|
  {
    if input != [] { StartKept(Step(s, input[0]), input[1..]); }
  }
}
