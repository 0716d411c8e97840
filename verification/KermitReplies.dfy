/** What the receiver sends: one reply to every delivery of a session, and nothing else. */
module KermitReplies {
  import opened Kermit
  import opened KermitSession
  import opened Options

  /** A reply, and the link parameters under which it is sent. */
  datatype Sent = Sent(link: Link, ktype: byte, n: nat, fields: seq<byte>)

  // Padding, the frame and the line end.
  function Bytes(r: Sent): seq<byte> { Pad(r.link) + ReplyFrame(r.ktype, r.n, r.fields, r.link.eol) }

  /** The acknowledgement of a packet; that of an S packet answers its parameters. */
  function Ack(l: Link, p: Packet): Sent {
    Sent(l, ACK_TYPE, p.n, if p.ktype == SEND_TYPE then Offer(Parms(p.data)) else [])
  }

  function Nack(l: Link, n: nat): Sent { Sent(l, NACK_TYPE, n, []) }

  // ---------- one delivery ----------

  // Header characters neither send anything nor change the link.
  lemma {:induction false} HeadIsSilent(s: Rx, p: Packet)
    requires WellFormed(p) && s.c.phase == Wait
    ensures var s' := Run(s, [START] + Head(p));
            s'.c == AfterHead(s'.c, p) && s'.d.tx == s.d.tx && s'.d.link == s.d.link && s'.d.parms == s.d.parms
  {
    var h := Head(p);
    var len := if p.long then 0 else |p.data| + 3;
    CharRoundTrip(len);
    CharRoundTrip(p.n);
    var s1 := Rx(s.c.(phase := Len, sum := 0), s.d);
    var s2 := Rx(s.c.(phase := Seq, sum := h[0], length := len), s.d);
    assert Step(s, START) == s1 && Step(s1, h[0]) == s2;
    SumShort(h[0], h[1], 0);
    Run2(s, START, 0);
    Run2(s1, h[0], h[1]);
    RunConcat(s, [START], h);
    assert h == [h[0], h[1]];
  }

  // A rejected rest is answered once, where it is rejected.
  lemma {:induction false} RejectAnswers(s: Rx, junk: seq<byte>)
    requires Rejects(s.c, junk) && s.c.phase !in {Wait, Len, Seq, Done, Aborted} && s.c.n >= 0
    ensures var s' := Run(s, junk); s'.d.tx == s.d.tx + Bytes(Nack(s.d.link, s.c.n)) && s'.d.link == s.d.link
    decreases |junk|
  {
    if EventOf(s.c, junk[0]).Fail? {
      assert junk[1..] == [];
      assert s.d.tx + Pad(s.d.link) + ReplyFrame(NACK_TYPE, s.c.n, [], s.d.link.eol) == s.d.tx + Bytes(Nack(s.d.link, s.c.n));
    } else {
      RejectAnswers(Step(s, junk[0]), junk[1..]);
    }
  }

  lemma {:induction false} FeedIsSilent(d: Dat, ktype: byte, data: seq<byte>)
    ensures var d' := FeedAll(d, ktype, data); d'.tx == d.tx && d'.link == d.link
    decreases |data|
  {
    if data != [] { FeedIsSilent(Apply(d, Datum(data[0]), ktype, 0), ktype, data[1..]); }
  }

  lemma {:induction false} AnswerBytes(tx: seq<byte>, r: Sent)
    ensures tx + Pad(r.link) + ReplyFrame(r.ktype, r.n, r.fields, r.link.eol) == tx + Bytes(r)
  {
  }

  // An accepted rest is answered once, under the link parameters after it.
  lemma {:induction false} AcceptAnswers(s: Rx, p: Packet, a: Abs)
    requires WellFormed(p) && s.c == AfterHead(s.c, p) && LinkOk(s.d, a, p) && s.d.parms == []
    ensures Run(s, Tail(p)).d.tx == s.d.tx + Bytes(Ack(Absorb(a, p).link, p))
  {
    TailRun(s, p);
    var d := FeedAll(s.d, p.ktype, p.data);
    FeedIsSilent(s.d, p.ktype, p.data);
    if p.ktype == SEND_TYPE {
      FeedParms(s.d, p.data);
      assert s.d.parms + p.data == p.data;
    }
    AnswerBytes(d.tx, Ack(Absorb(a, p).link, p));
  }

  function ReplyTo(l: Link, a: Abs, p: Packet, dl: Delivery): Sent {
    if dl.Intact? then Ack(Absorb(a, p).link, p) else Nack(l, p.n)
  }

  /** Every delivery is answered exactly once: an intact one with an ACK of its number, a damaged one with a NACK. */
  lemma {:induction false} OneReply(s: Rx, p: Packet, dl: Delivery, a: Abs)
    requires WellFormed(p) && ValidDelivery(p, dl) && s.c.phase == Wait && s.d.parms == []
    requires if s.d.lastN == p.n then Begun(s.d, a, p) else Live(s.d, a) && s.d.link == a.link
    ensures var s' := Run(s, Wire(p, dl));
            && s'.d.tx == s.d.tx + Bytes(ReplyTo(s.d.link, a, p, dl))
            && s'.d.link == (if dl.Intact? then Absorb(a, p).link else s.d.link)
  {
    var middle := if dl.Intact? then Tail(p) else dl.junk;
    var s1 := Run(s, [START] + Head(p));
    HeadIsSilent(s, p);
    RunConcat(s, [START] + Head(p) + middle, dl.noise);
    RunConcat(s, [START] + Head(p), middle);
    var s2 := Run(s1, middle);
    if dl.Intact? {
      AcceptAnswers(s1, p, a);
      OneDelivery(s, p, dl, a);
      TailRun(s1, p);
      if s2.c.phase == Done { FinishedIgnores(s2, dl.noise); } else { NoiseIgnored(s2, dl.noise); }
    } else {
      RejectAnswers(s1, dl.junk);
      HeadRun(s, p, a);
      RejectedRollsBack(s1, dl.junk, a);
      NoiseIgnored(s2, dl.noise);
    }
  }

  // ---------- sessions ----------

  function AllBytes(rs: seq<Sent>): seq<byte>
    decreases |rs|
  {
    if rs == [] then [] else Bytes(rs[0]) + AllBytes(rs[1..])
  }

  lemma {:induction false} BytesConcat(x: seq<Sent>, y: seq<Sent>)
    ensures AllBytes(x + y) == AllBytes(x) + AllBytes(y)
    decreases |x|
  {
    if x == [] {
      assert x + y == y;
    } else {
      assert (x + y)[1..] == x[1..] + y;
      BytesConcat(x[1..], y);
    }
  }

  // Sent bytes, one reply or a list of replies later.
  ghost predicate Grown(before: seq<byte>, rs: seq<Sent>, after: seq<byte>) { after == before + AllBytes(rs) }

  lemma {:induction false} GrownNone(t: seq<byte>)
    ensures Grown(t, [], t)
  {
  }

  lemma {:induction false} GrownOne(t: seq<byte>, r: Sent, u: seq<byte>)
    requires u == t + Bytes(r)
    ensures Grown(t, [r], u)
  {
    assert [r][1..] == [] && Bytes(r) + [] == Bytes(r);
  }

  lemma {:induction false} GrownConcat(t: seq<byte>, x: seq<Sent>, u: seq<byte>, y: seq<Sent>, v: seq<byte>)
    requires Grown(t, x, u) && Grown(u, y, v)
    ensures Grown(t, x + y, v)
  {
    BytesConcat(x, y);
    Regroup(t, AllBytes(x), AllBytes(y));
  }

  lemma {:induction false} Regroup(a: seq<byte>, b: seq<byte>, c: seq<byte>)
    ensures a + b + c == a + (b + c)
  {
  }

  /** The replies to the deliveries of one packet; after an accepted break packet the receiver is gone. */
  function Replies(l: Link, a: Abs, p: Packet, dls: seq<Delivery>): (rs: seq<Sent>)
    ensures p.ktype != BREAK_TYPE ==> |rs| == |dls|
    decreases |dls|
  {
    if dls == [] then []
    else
      [ReplyTo(l, a, p, dls[0])]
      + if dls[0].Damaged? then Replies(l, a, p, dls[1..])
        else if p.ktype == BREAK_TYPE then []
        else Replies(Absorb(a, p).link, a, p, dls[1..])
  }

  function SessionReplies(a: Abs, ps: seq<Packet>, dss: seq<seq<Delivery>>): seq<Sent>
    requires |ps| == |dss|
    decreases |ps|
  {
    if ps == [] then [] else Replies(a.link, a, ps[0], dss[0]) + SessionReplies(Absorb(a, ps[0]), ps[1..], dss[1..])
  }

  // One delivery, with the state that the next one starts from.
  lemma {:induction false} DeliveryReply(s: Rx, p: Packet, dl: Delivery, a: Abs)
    requires WellFormed(p) && ValidDelivery(p, dl) && s.c.phase == Wait && s.d.parms == []
    requires if s.d.lastN == p.n then Begun(s.d, a, p) else Live(s.d, a) && s.d.link == a.link
    ensures var s' := Run(s, Wire(p, dl));
            && Grown(s.d.tx, [ReplyTo(s.d.link, a, p, dl)], s'.d.tx) && Begun(s'.d, a, p)
            && s'.d.link == (if dl.Intact? then Absorb(a, p).link else s.d.link)
            && s'.c.phase == (if dl.Intact? && p.ktype == BREAK_TYPE then Done else Wait)
  {
    OneDelivery(s, p, dl, a);
    OneReply(s, p, dl, a);
    GrownOne(s.d.tx, ReplyTo(s.d.link, a, p, dl), Run(s, Wire(p, dl)).d.tx);
  }

  lemma {:induction false} PacketReplies(s: Rx, p: Packet, dls: seq<Delivery>, a: Abs)
    requires WellFormed(p) && s.c.phase == Wait && s.d.parms == []
    requires forall i :: 0 <= i < |dls| ==> ValidDelivery(p, dls[i])
    requires if s.d.lastN == p.n then Begun(s.d, a, p) else Live(s.d, a) && s.d.link == a.link
    ensures Grown(s.d.tx, Replies(s.d.link, a, p, dls), Run(s, Wires(p, dls)).d.tx)
    decreases |dls|
  {
    if dls == [] {
      GrownNone(s.d.tx);
    } else {
      var s1 := Run(s, Wire(p, dls[0]));
      DeliveryReply(s, p, dls[0], a);
      RunConcat(s, Wire(p, dls[0]), Wires(p, dls[1..]));
      if s1.c.phase == Done {
        FinishedIgnores(s1, Wires(p, dls[1..]));
        assert [ReplyTo(s.d.link, a, p, dls[0])] + [] == [ReplyTo(s.d.link, a, p, dls[0])];
      } else {
        PacketReplies(s1, p, dls[1..], a);
        GrownConcat(s.d.tx, [ReplyTo(s.d.link, a, p, dls[0])], s1.d.tx, Replies(s1.d.link, a, p, dls[1..]),
                    Run(s1, Wires(p, dls[1..])).d.tx);
      }
    }
  }

  lemma {:induction false} TailSession(ps: seq<Packet>, dss: seq<seq<Delivery>>)
    requires Session(ps, dss) && |ps| > 1
    ensures Session(ps[1..], dss[1..])
  {
    assert forall i :: 0 <= i < |ps[1..]| ==> ps[1..][i] == ps[i + 1] && dss[1..][i] == dss[i + 1];
  }

  lemma {:induction false} RepliesFrom(s: Rx, ps: seq<Packet>, dss: seq<seq<Delivery>>, a: Abs)
    requires Session(ps, dss) && s.c.phase == Wait && Live(s.d, a) && s.d.link == a.link
    requires s.d.lastN != ps[0].n
    ensures Grown(s.d.tx, SessionReplies(a, ps, dss), Run(s, Stream(ps, dss)).d.tx)
    decreases |ps|
  {
    var s1 := Run(s, Wires(ps[0], dss[0]));
    var first, rest := Replies(a.link, a, ps[0], dss[0]), SessionReplies(Absorb(a, ps[0]), ps[1..], dss[1..]);
    OnePacket(s, ps[0], dss[0], a);
    PacketReplies(s, ps[0], dss[0], a);
    RunConcat(s, Wires(ps[0], dss[0]), Stream(ps[1..], dss[1..]));
    if |ps| > 1 {
      TailSession(ps, dss);
      RepliesFrom(s1, ps[1..], dss[1..], Absorb(a, ps[0]));
    } else {
      GrownNone(s1.d.tx);
    }
    GrownConcat(s.d.tx, first, s1.d.tx, rest, Run(s1, Stream(ps[1..], dss[1..])).d.tx);
  }

  /** Over a whole session the receiver sends exactly one reply to each delivery, in order. */
  lemma {:induction false} SessionAnswered(start: int, mem: map<int, byte>, noise: seq<byte>, ps: seq<Packet>,
                                           dss: seq<seq<Delivery>>)
    requires Noise(noise) && Session(ps, dss)
    ensures Run(Init(start, mem), noise + Stream(ps, dss)).d.tx == AllBytes(SessionReplies(Fresh(), ps, dss))
  {
    var s := Init(start, mem);
    AfterNoise(s, noise, Stream(ps, dss));
    RepliesFrom(s, ps, dss, Fresh());
    assert s.d.tx == [] && [] + AllBytes(SessionReplies(Fresh(), ps, dss)) == AllBytes(SessionReplies(Fresh(), ps, dss));
  }

  // ---------- replies are packets ----------

  /** An intact packet up to its line end. */
  function Frame(p: Packet): seq<byte> {
    [START] + Head(p) + Front(p) + p.data + [BlockCheck(Sum(Head(p) + Front(p) + p.data))]
  }

  lemma {:induction false} WireIsFrame(p: Packet)
    ensures Wire(p, Intact([])) == Frame(p) + [END]
  {
  }

  lemma {:induction false} ReplyIsFrame(p: Packet, eol: byte)
    requires !p.long && !IsControl(p.ktype) && Printable(p.data) && |p.data| <= 13 && p.n < 64
    ensures WellFormed(p) && ReplyFrame(p.ktype, p.n, p.data, eol) == Frame(p) + (if eol == 0 then [] else [eol])
  {
    assert [ToChar(|p.data| + 3), ToChar(p.n), p.ktype] + p.data == Head(p) + Front(p) + p.data;
  }

  lemma {:induction false} OfferPrintable(parms: seq<byte>)
    ensures Printable(Offer(parms)) && |Offer(parms)| <= 13
  {
    assert Printable(OFFER + CAPAS);
    assert Printable(OFFER);
  }

  // The packet that a reply stands for.
  function ReplyPacket(ktype: byte, n: nat, parms: Option<seq<byte>>): Packet {
    Packet(ktype, n, if parms.Some? then Offer(parms.value) else [], false)
  }

  /**
   A reply is a well-formed packet with the negotiated line end in place of CR (and without one if that is NUL), so it is
   an intact packet of the protocol if and only if the line end is CR.
   */
  lemma {:induction false} ReplyIsPacket(ktype: byte, n: nat, parms: Option<seq<byte>>, eol: byte)
    requires n < 64 && !IsControl(ktype)
    ensures var p := ReplyPacket(ktype, n, parms);
            && WellFormed(p) && ReplyFrame(ktype, n, p.data, eol) == Frame(p) + (if eol == 0 then [] else [eol])
            && Wire(p, Intact([])) == Frame(p) + [END]
            && (ReplyFrame(ktype, n, p.data, eol) == Wire(p, Intact([])) <==> eol == END)
  {
    var p := ReplyPacket(ktype, n, parms);
    if parms.Some? { OfferPrintable(parms.value); }
    ReplyIsFrame(p, eol);
    WireIsFrame(p);
    assert (Frame(p) + [END])[|Frame(p)|] == END && (Frame(p) + [eol])[|Frame(p)|] == eol;
    assert |Frame(p) + []| == |Frame(p)|;
  }
}
