/**
 Exactly-once delivery of the Kermit receiver: whatever retransmissions, damaged copies and line noise the wire
 adds to a session, the memory holds each packet's data once, in order.
 */
module KermitSession {
  import opened Kermit

  // ---------- packets, frames and deliveries ----------

  /** A packet as the sender means it; `long` selects the extended length form. */
  datatype Packet = Packet(ktype: byte, n: nat, data: seq<byte>, long: bool)

  predicate Printable(s: seq<byte>) { forall i :: 0 <= i < |s| ==> !IsControl(s[i]) }

  predicate WellFormed(p: Packet) {
    && p.n < 64
    && !IsControl(p.ktype)
    && Printable(p.data)
    && if p.long then |p.data| + 1 <= 94 * 95 + 94 else |p.data| + 3 <= 94
  }

  function Head(p: Packet): seq<byte> {
    [ToChar(if p.long then 0 else |p.data| + 3), ToChar(p.n)]
  }

  function LongHead(p: Packet): seq<byte> {
    var l := |p.data| + 1;
    var h := [p.ktype, ToChar(l / 95), ToChar(l % 95)];
    h + [BlockCheck(Sum(Head(p) + h))]
  }

  function Front(p: Packet): seq<byte> { if p.long then LongHead(p) else [p.ktype] }

  function Tail(p: Packet): seq<byte> {
    Front(p) + p.data + [BlockCheck(Sum(Head(p) + Front(p) + p.data)), END]
  }

  /** One transmission of a packet: intact, or with everything after LEN and SEQ replaced; then line noise. */
  datatype Delivery = Intact(noise: seq<byte>) | Damaged(junk: seq<byte>, noise: seq<byte>)

  predicate Noise(s: seq<byte>) { START !in s && ETX !in s }

  // The control part reads `junk` up to its last character and refuses the packet exactly there.
  predicate Rejects(c: Ctl, junk: seq<byte>)
    decreases |junk|
  {
    junk != [] &&
    match EventOf(c, junk[0])
    case Fail => |junk| == 1
    case Accept => false
    case _ => Rejects(CtlStep(c, junk[0]), junk[1..])
  }

  // The control part after START and an intact LEN and SEQ.
  function AfterHead(c: Ctl, p: Packet): Ctl {
    c.(phase := Type, sum := Sum(Head(p)), length := (if p.long then 0 else |p.data| + 3) - 1, n := p.n)
  }

  ghost predicate ValidDelivery(p: Packet, dl: Delivery) {
    Noise(dl.noise) && (dl.Damaged? ==> forall c :: Rejects(AfterHead(c, p), dl.junk))
  }

  function Wire(p: Packet, dl: Delivery): seq<byte> {
    [START] + Head(p) + (if dl.Intact? then Tail(p) else dl.junk) + dl.noise
  }

  function Wires(p: Packet, dls: seq<Delivery>): seq<byte>
    decreases |dls|
  {
    if dls == [] then [] else Wire(p, dls[0]) + Wires(p, dls[1..])
  }

  /** All transmissions of one packet: one or more, the last one intact. */
  ghost predicate ValidDeliveries(p: Packet, dls: seq<Delivery>) {
    && dls != [] && dls[|dls| - 1].Intact?
    && forall i :: 0 <= i < |dls| ==> ValidDelivery(p, dls[i])
  }

  function Stream(ps: seq<Packet>, dss: seq<seq<Delivery>>): seq<byte>
    requires |ps| == |dss|
    decreases |ps|
  {
    if ps == [] then [] else Wires(ps[0], dss[0]) + Stream(ps[1..], dss[1..])
  }

  /** Successive packets differ in their sequence number, and only the last packet ends the transmission. */
  ghost predicate Session(ps: seq<Packet>, dss: seq<seq<Delivery>>) {
    && |ps| == |dss| && ps != []
    && (forall i :: 0 <= i < |ps| ==> WellFormed(ps[i]) && ValidDeliveries(ps[i], dss[i]))
    && (forall i :: 0 <= i < |ps| - 1 ==> ps[i].n != ps[i + 1].n)
    && (forall i :: 0 <= i < |ps| ==> (ps[i].ktype == BREAK_TYPE <==> i == |ps| - 1))
  }

  // ---------- the meaning of a session ----------

  /** Removes quotes from a data stream; `esc` says that the character before was a quote. */
  function Unquote(q: byte, esc: bool, s: seq<byte>): (seq<byte>, bool)
    decreases |s|
  {
    if s == [] then ([], esc)
    else if !esc && s[0] == q then Unquote(q, true, s[1..])
    else
      var (rest, e) := Unquote(q, false, s[1..]);
      ([if esc then KTrans(s[0]) else s[0]] + rest, e)
  }

  /** The received file so far, whether a quote is pending, and the link parameters. */
  datatype Abs = Abs(content: seq<byte>, esc: bool, link: Link)

  function Parms(data: seq<byte>): seq<byte> { if |data| <= 19 then data else data[..19] }

  function Absorb(a: Abs, p: Packet): Abs {
    if p.ktype == DATA_TYPE then
      var (bytes, e) := Unquote(a.link.quote, a.esc, p.data);
      a.(content := a.content + bytes, esc := e)
    else if p.ktype == SEND_TYPE then a.(link := Negotiate(Parms(p.data)))
    else a
  }

  function AbsorbAll(a: Abs, ps: seq<Packet>): Abs
    decreases |ps|
  {
    if ps == [] then a else AbsorbAll(Absorb(a, ps[0]), ps[1..])
  }

  predicate Holds(d: Dat, addr: int, content: seq<byte>) {
    && addr == d.start + |content|
    && forall k :: d.start <= k < addr ==> k in d.mem && d.mem[k] == content[k - d.start]
  }

  // The live state of the receiver is `a`, apart from the link parameters.
  predicate Live(d: Dat, a: Abs) { Holds(d, d.addr, a.content) && d.esc == a.esc && d.parms == [] }

  // The checkpoint of the receiver is `a`.
  predicate Saved(d: Dat, a: Abs) { Holds(d, d.addrSaved, a.content) && d.escSaved == a.esc }

  // The link parameters are those from before or from after `p`.
  predicate LinkOk(d: Dat, a: Abs, p: Packet) { d.link == a.link || d.link == Absorb(a, p).link }

  // Packet `p` has begun at checkpoint `a`.
  predicate Begun(d: Dat, a: Abs, p: Packet) {
    d.lastN == p.n && Saved(d, a) && LinkOk(d, a, p) && d.parms == []
  }

  // ---------- damaged deliveries ----------

  // Inside a packet only addresses from the checkpoint on are written, and rejection rolls back to it.
  lemma {:induction false} RejectedRollsBack(s: Rx, junk: seq<byte>, a: Abs)
    requires Rejects(s.c, junk) && s.c.phase !in {Wait, Len, Seq, Done, Aborted}
    requires Saved(s.d, a) && s.d.addrSaved <= s.d.addr
    ensures var s' := Run(s, junk);
            && s'.c.phase == Wait && Saved(s'.d, a) && Live(s'.d, a)
            && s'.d.lastN == s.d.lastN && s'.d.link == s.d.link && s'.d.start == s.d.start
    decreases |junk|
  {
    if EventOf(s.c, junk[0]).Fail? {
      assert junk[1..] == [];
    } else {
      RejectedRollsBack(Step(s, junk[0]), junk[1..], a);
    }
  }

  // ---------- intact deliveries ----------

  lemma {:induction false} SumConcat(s: seq<byte>, t: seq<byte>)
    ensures Sum(s + t) == Sum(s) + Sum(t)
    decreases |s|
  {
    if s == [] {
      assert s + t == t;
    } else {
      assert (s + t)[1..] == s[1..] + t;
      SumConcat(s[1..], t);
    }
  }

  lemma {:induction false} SumShort(a: byte, b: byte, c: byte)
    ensures Sum([a, b]) == a as int + b as int && Sum([a, b, c]) == a as int + b as int + c as int
  {
    assert [a, b, c][1..] == [b, c] && [b, c][1..] == [c] && [a, b][1..] == [b];
    assert Sum([b]) == b && Sum([c]) == c && Sum([b, c]) == b as int + c as int;
  }

  function FeedAll(d: Dat, ktype: byte, data: seq<byte>): Dat
    decreases |data|
  {
    if data == [] then d else FeedAll(Apply(d, Datum(data[0]), ktype, 0), ktype, data[1..])
  }

  // The data loop consumes exactly the data characters.
  lemma {:induction false} BodyRun(s: Rx, data: seq<byte>)
    requires Printable(data) && s.c.length == |data| + 1
    requires s.c == AtBody(s.c)
    ensures Run(s, data) == Rx(s.c.(phase := Chk, length := 1, sum := s.c.sum + Sum(data)),
                               FeedAll(s.d, s.c.ktype, data))
    decreases |data|
  {
    if data != [] {
      BodyRun(Step(s, data[0]), data[1..]);
    }
  }

  lemma {:induction false} StoreHolds(d: Dat, b: byte, content: seq<byte>)
    requires Holds(d, d.addr, content)
    ensures Holds(Store(d, b), d.addr + 1, content + [b])
  {
    assert forall k :: d.start <= k < d.addr ==> k in d.mem && d.mem[k] == (content + [b])[k - d.start];
  }

  lemma {:induction false} FeedData(d: Dat, data: seq<byte>, a: Abs)
    requires Holds(d, d.addr, a.content) && d.esc == a.esc
    requires d.link.quote == a.link.quote && d.addrSaved <= d.addr
    ensures var d' := FeedAll(d, DATA_TYPE, data);
            var (bytes, e) := Unquote(a.link.quote, a.esc, data);
            && Holds(d', d'.addr, a.content + bytes) && d'.esc == e
            && d'.(mem := d.mem, addr := d.addr, esc := d.esc) == d
    decreases |data|
  {
    if data == [] {
      assert a.content + [] == a.content;
    } else {
      var d1 := DataChar(d, data[0]);
      if !d.esc && data[0] == a.link.quote {
        FeedData(d1, data[1..], a.(esc := true));
      } else {
        var b: byte := if d.esc then KTrans(data[0]) else data[0];
        StoreHolds(d, b, a.content);
        FeedData(d1, data[1..], a.(content := a.content + [b], esc := false));
        var rest := Unquote(a.link.quote, false, data[1..]).0;
        assert a.content + ([b] + rest) == a.content + [b] + rest;
      }
    }
  }

  lemma {:induction false} FeedParms(d: Dat, data: seq<byte>)
    requires |d.parms| <= 19
    ensures FeedAll(d, SEND_TYPE, data) == d.(parms := Parms(d.parms + data))
    decreases |data|
  {
    if data == [] {
      assert d.parms + data == d.parms;
    } else {
      var d1 := Apply(d, Datum(data[0]), SEND_TYPE, 0);
      FeedParms(d1, data[1..]);
      if |d.parms| < 19 {
        assert d1.parms + data[1..] == d.parms + data;
      } else {
        assert Parms(d.parms + data) == d.parms;
      }
    }
  }

  lemma {:induction false} FeedOther(d: Dat, ktype: byte, data: seq<byte>)
    requires ktype != DATA_TYPE && ktype != SEND_TYPE
    ensures FeedAll(d, ktype, data) == d
    decreases |data|
  {
    if data != [] {
      FeedOther(d, ktype, data[1..]);
    }
  }

  lemma {:induction false} Run2(s: Rx, x: byte, y: byte)
    ensures Run(s, [x]) == Step(s, x)
    ensures Run(s, [x, y]) == Step(Step(s, x), y)
  {
    assert [x, y] == [x] + [y];
    RunConcat(s, [x], [y]);
  }

  lemma {:induction false} CharRoundTrip(x: int)
    requires 0 <= x < 224
    ensures ToChar(x) == x + 32 && UnChar(ToChar(x)) == x && !IsControl(ToChar(x))
  {
  }

  lemma {:induction false} CheckPrintable(sum: nat)
    ensures !IsControl(BlockCheck(sum))
  {
    CharRoundTrip((sum + sum / 64 % 4) % 64);
  }

  // The two extended length characters and the header check.
  lemma {:induction false} LongRun(s: Rx, l: nat)
    requires s.c.phase == LenHi && l <= 94 * 95 + 94
    ensures var x := ToChar(l / 95);
            var y := ToChar(l % 95);
            var sum := s.c.sum + x + y;
            var k := BlockCheck(sum);
            Run(s, [x, y] + [k]) == Rx(AtBody(s.c.(length := l, sum := sum + k, hi := l / 95)), s.d)
  {
    assert l / 95 <= 94;
    CharRoundTrip(l / 95);
    CharRoundTrip(l % 95);
    var x, y := ToChar(l / 95), ToChar(l % 95);
    var s1 := Rx(s.c.(phase := LenLo, sum := s.c.sum + x, hi := l / 95), s.d);
    var s2 := Rx(s.c.(phase := HdrChk, sum := s.c.sum + x + y, hi := l / 95, length := l), s.d);
    assert Step(s, x) == s1;
    assert Step(s1, y) == s2;
    Run2(s, x, y);
    var k := BlockCheck(s2.c.sum);
    CheckPrintable(s2.c.sum);
    RunConcat(s, [x, y], [k]);
    Run2(s2, k, 0);
  }

  // Type and extended length lead to the data loop with the right count and sum.
  lemma {:induction false} FrontRun(s: Rx, p: Packet)
    requires WellFormed(p) && s.c == AfterHead(s.c, p)
    ensures var s' := Run(s, Front(p));
            && s'.d == s.d && s'.c == AtBody(s'.c) && s'.c.length == |p.data| + 1
            && s'.c.ktype == p.ktype && s'.c.n == p.n && s'.c.sum == Sum(Head(p) + Front(p))
  {
    var s1 := Step(s, p.ktype);
    Run2(s, p.ktype, 0);
    SumConcat(Head(p), Front(p));
    if p.long {
      var l := |p.data| + 1;
      var h := [p.ktype, ToChar(l / 95), ToChar(l % 95)];
      var k := BlockCheck(Sum(Head(p) + h));
      SumConcat(Head(p), h);
      SumConcat(h, [k]);
      SumShort(h[0], h[1], h[2]);
      LongRun(s1, l);
      assert Front(p) == [p.ktype] + ([h[1], h[2]] + [k]);
      RunConcat(s, [p.ktype], [h[1], h[2]] + [k]);
    }
  }

  // The data characters of a packet, fed to the live state, give the state after the packet.
  lemma {:induction false} FedPacket(d: Dat, p: Packet, a: Abs)
    requires Begun(d, a, p) && Live(d, a)
    ensures var d' := FeedAll(d, p.ktype, p.data);
            var a' := Absorb(a, p);
            && Holds(d', d'.addr, a'.content) && d'.esc == a'.esc && Saved(d', a)
            && d'.lastN == p.n && d'.link == d.link && d'.start == d.start
            && (p.ktype == SEND_TYPE ==> d'.parms == Parms(p.data))
            && (p.ktype != SEND_TYPE ==> d'.link == a'.link)
  {
    if p.ktype == DATA_TYPE {
      FeedData(d, p.data, a);
      var content := Absorb(a, p).content;
      assert forall i :: 0 <= i < |a.content| ==> content[i] == a.content[i];
    } else if p.ktype == SEND_TYPE {
      FeedParms(d, p.data);
      assert d.parms + p.data == p.data;
    } else {
      FeedOther(d, p.ktype, p.data);
    }
  }

  lemma {:induction false} CheckAndEnd(s: Rx, k: byte)
    requires s.c.phase == Chk && k == BlockCheck(s.c.sum)
    ensures Run(s, [k] + [END])
         == Rx(s.c.(phase := if s.c.ktype == BREAK_TYPE then Done else Wait), Apply(s.d, Accept, s.c.ktype, s.c.n))
  {
    assert [k] + [END] == [k, END];
    CheckPrintable(s.c.sum);
    assert Step(s, k) == Rx(s.c.(phase := End), s.d);
    Run2(s, k, END);
  }

  // The block check and line end of an intact packet bring the receiver to the accepting event.
  lemma {:induction false} TailRun(s: Rx, p: Packet)
    requires WellFormed(p) && s.c == AfterHead(s.c, p)
    ensures var s' := Run(s, Tail(p));
            && s'.c.phase == (if p.ktype == BREAK_TYPE then Done else Wait)
            && s'.d == Apply(FeedAll(s.d, p.ktype, p.data), Accept, p.ktype, p.n)
  {
    var k := BlockCheck(Sum(Head(p) + Front(p) + p.data));
    var s1 := Run(s, Front(p));
    FrontRun(s, p);
    var s2 := Run(s1, p.data);
    BodyRun(s1, p.data);
    SumConcat(Head(p) + Front(p), p.data);
    assert Tail(p) == Front(p) + (p.data + ([k] + [END]));
    RunConcat(s, Front(p), p.data + ([k] + [END]));
    RunConcat(s1, p.data, [k] + [END]);
    CheckAndEnd(s2, k);
  }

  // Acceptance after the data has been fed.
  lemma {:induction false} AcceptKeeps(d: Dat, p: Packet, a: Abs)
    requires Holds(d, d.addr, Absorb(a, p).content) && d.esc == Absorb(a, p).esc && Saved(d, a) && d.lastN == p.n
    requires p.ktype == SEND_TYPE ==> d.parms == Parms(p.data)
    requires p.ktype != SEND_TYPE ==> d.link == Absorb(a, p).link
    ensures var d' := Apply(d, Accept, p.ktype, p.n);
            && Live(d', Absorb(a, p)) && Begun(d', a, p) && d'.link == Absorb(a, p).link && d'.start == d.start
  {
  }

  // An intact rest of a packet is accepted and absorbed once.
  lemma {:induction false} TailAccepted(s: Rx, p: Packet, a: Abs)
    requires WellFormed(p) && s.c == AfterHead(s.c, p)
    requires Begun(s.d, a, p) && Live(s.d, a)
    ensures var s' := Run(s, Tail(p));
            && s'.c.phase == (if p.ktype == BREAK_TYPE then Done else Wait)
            && Live(s'.d, Absorb(a, p)) && Begun(s'.d, a, p)
            && s'.d.link == Absorb(a, p).link && s'.d.start == s.d.start
  {
    TailRun(s, p);
    FedPacket(s.d, p, a);
    AcceptKeeps(FeedAll(s.d, p.ktype, p.data), p, a);
  }

  // ---------- one packet ----------

  lemma {:induction false} NoiseIgnored(s: Rx, noise: seq<byte>)
    requires s.c.phase == Wait && Noise(noise)
    ensures Run(s, noise) == s
    decreases |noise|
  {
    if noise != [] {
      NoiseIgnored(s, noise[1..]);
    }
  }

  // START, LEN and SEQ either checkpoint the live state or go back to the checkpoint of the same packet.
  lemma {:induction false} HeadRun(s: Rx, p: Packet, a: Abs)
    requires WellFormed(p) && s.c.phase == Wait && s.d.parms == []
    requires if s.d.lastN == p.n then Begun(s.d, a, p) else Live(s.d, a) && s.d.link == a.link
    ensures var s' := Run(s, [START] + Head(p));
            && s'.c == AfterHead(s'.c, p) && Begun(s'.d, a, p) && Live(s'.d, a) && s'.d.start == s.d.start
  {
    var h := Head(p);
    var len := if p.long then 0 else |p.data| + 3;
    CharRoundTrip(len);
    CharRoundTrip(p.n);
    var s1 := Rx(s.c.(phase := Len, sum := 0), s.d);
    var s2 := Rx(s.c.(phase := Seq, sum := h[0], length := len), s.d);
    assert Step(s, START) == s1 && Step(s1, h[0]) == s2;
    SumShort(h[0], h[1], 0);
    Run2(s, START, 0);
    Run2(s1, h[0], h[1]);
    RunConcat(s, [START], h);
    assert h == [h[0], h[1]];
  }

  lemma {:induction false} OneDelivery(s: Rx, p: Packet, dl: Delivery, a: Abs)
    requires WellFormed(p) && ValidDelivery(p, dl) && s.c.phase == Wait && s.d.parms == []
    requires if s.d.lastN == p.n then Begun(s.d, a, p) else Live(s.d, a) && s.d.link == a.link
    ensures var s' := Run(s, Wire(p, dl));
            && Begun(s'.d, a, p) && s'.d.start == s.d.start
            && s'.c.phase == (if dl.Intact? && p.ktype == BREAK_TYPE then Done else Wait)
            && (dl.Intact? ==> Live(s'.d, Absorb(a, p)) && s'.d.link == Absorb(a, p).link)
  {
    var middle := if dl.Intact? then Tail(p) else dl.junk;
    var s1 := Run(s, [START] + Head(p));
    HeadRun(s, p, a);
    RunConcat(s, [START] + Head(p) + middle, dl.noise);
    RunConcat(s, [START] + Head(p), middle);
    var s2 := Run(s1, middle);
    if dl.Intact? {
      TailAccepted(s1, p, a);
      if s2.c.phase == Done { FinishedIgnores(s2, dl.noise); } else { NoiseIgnored(s2, dl.noise); }
    } else {
      RejectedRollsBack(s1, dl.junk, a);
      NoiseIgnored(s2, dl.noise);
    }
  }

  // Any number of transmissions of a packet, the last one intact, absorb it once.
  lemma {:induction false} OnePacket(s: Rx, p: Packet, dls: seq<Delivery>, a: Abs)
    requires WellFormed(p) && ValidDeliveries(p, dls) && s.c.phase == Wait && s.d.parms == []
    requires if s.d.lastN == p.n then Begun(s.d, a, p) else Live(s.d, a) && s.d.link == a.link
    ensures var s' := Run(s, Wires(p, dls));
            && s'.c.phase == (if p.ktype == BREAK_TYPE then Done else Wait)
            && s'.d.lastN == p.n && s'.d.start == s.d.start
            && Live(s'.d, Absorb(a, p)) && s'.d.link == Absorb(a, p).link
    decreases |dls|
  {
    var s1 := Run(s, Wire(p, dls[0]));
    OneDelivery(s, p, dls[0], a);
    RunConcat(s, Wire(p, dls[0]), Wires(p, dls[1..]));
    if |dls| > 1 {
      if s1.c.phase == Done {
        FinishedIgnores(s1, Wires(p, dls[1..]));
      } else {
        assert ValidDeliveries(p, dls[1..]);
        OnePacket(s1, p, dls[1..], a);
      }
    }
  }

  // ---------- whole sessions ----------

  lemma {:induction false} SessionFrom(s: Rx, ps: seq<Packet>, dss: seq<seq<Delivery>>, a: Abs)
    requires Session(ps, dss) && s.c.phase == Wait && Live(s.d, a) && s.d.link == a.link
    requires s.d.lastN != ps[0].n
    ensures var s' := Run(s, Stream(ps, dss));
            && s'.c.phase == Done && Live(s'.d, AbsorbAll(a, ps)) && s'.d.start == s.d.start
    decreases |ps|
  {
    var s1 := Run(s, Wires(ps[0], dss[0]));
    OnePacket(s, ps[0], dss[0], a);
    RunConcat(s, Wires(ps[0], dss[0]), Stream(ps[1..], dss[1..]));
    if |ps| > 1 {
      assert Session(ps[1..], dss[1..]) by {
        assert forall i :: 0 <= i < |ps[1..]| ==> ps[1..][i] == ps[i + 1] && dss[1..][i] == dss[i + 1];
      }
      SessionFrom(s1, ps[1..], dss[1..], Absorb(a, ps[0]));
    }
  }

  function Fresh(): Abs { Abs([], false, DEFAULT_LINK) }

  /** Exactly-once delivery: after noise and any valid session the receiver has finished, memory from the load
      address holds the absorbed packets and nothing is counted twice. */
  lemma {:induction false} ExactlyOnce(start: int, mem: map<int, byte>, noise: seq<byte>, ps: seq<Packet>, dss: seq<seq<Delivery>>)
    requires Noise(noise) && Session(ps, dss)
    ensures var s := Run(Init(start, mem), noise + Stream(ps, dss));
            var file := AbsorbAll(Fresh(), ps).content;
            s.c.phase == Done && Result(s) == |file| && Holds(s.d, start + |file|, file)
  {
    SessionAfterNoise(Init(start, mem), noise, ps, dss, Fresh());
  }

  lemma {:induction false} SessionAfterNoise(s: Rx, noise: seq<byte>, ps: seq<Packet>, dss: seq<seq<Delivery>>, a: Abs)
    requires Noise(noise) && Session(ps, dss) && s.c.phase == Wait && Live(s.d, a) && s.d.link == a.link
    requires s.d.lastN != ps[0].n
    ensures var s' := Run(s, noise + Stream(ps, dss));
            var file := AbsorbAll(a, ps).content;
            s'.c.phase == Done && Result(s') == |file| && Holds(s'.d, s.d.start + |file|, file)
  {
    AfterNoise(s, noise, Stream(ps, dss));
    SessionFrom(s, ps, dss, a);
    LiveResult(Run(s, Stream(ps, dss)), AbsorbAll(a, ps));
  }

  lemma {:induction false} AfterNoise(s: Rx, noise: seq<byte>, input: seq<byte>)
    requires Noise(noise) && s.c.phase == Wait
    ensures Run(s, noise + input) == Run(s, input)
  {
    RunConcat(s, noise, input);
    NoiseIgnored(s, noise);
  }

  lemma {:induction false} LiveResult(s: Rx, a: Abs)
    requires s.c.phase == Done && Live(s.d, a)
    ensures Result(s) == |a.content| && Holds(s.d, s.d.start + |a.content|, a.content)
  {
  }

  // ---------- files ----------

  // Control quoting as a sender does it with prefix `q`: controls and DEL of either parity, and `q` itself.
  function Quote(q: byte, file: seq<byte>): seq<byte>
    decreases |file|
  {
    if file == [] then [] else
      var b := file[0];
      (if b % 128 < 32 then [q, b + 64]
       else if b % 128 == 127 then [q, b - 64]
       else if b == q then [q, q]
       else [b]) + Quote(q, file[1..])
  }

  predicate ValidQuote(q: byte) { 33 <= q <= 62 || 96 <= q <= 126 }

  lemma {:induction false} UnquoteConcat(q: byte, esc: bool, s: seq<byte>, t: seq<byte>)
    ensures var (x, e) := Unquote(q, esc, s);
            Unquote(q, esc, s + t) == (x + Unquote(q, e, t).0, Unquote(q, e, t).1)
    decreases |s|
  {
    if s == [] {
      assert s + t == t && [] + Unquote(q, esc, t).0 == Unquote(q, esc, t).0;
    } else {
      assert (s + t)[1..] == s[1..] + t;
      var esc' := !esc && s[0] == q;
      UnquoteConcat(q, esc', s[1..], t);
      var (x, e) := Unquote(q, esc', s[1..]);
      var c: byte := if esc then KTrans(s[0]) else s[0];
      assert [c] + (x + Unquote(q, e, t).0) == [c] + x + Unquote(q, e, t).0;
    }
  }

  lemma {:induction false} QuotedChar(q: byte, b: byte)
    requires ValidQuote(q)
    ensures Unquote(q, false, Quote(q, [b])) == ([b], false) && Printable(Quote(q, [b]))
  {
    var s := Quote(q, [b]);
    assert Quote(q, [b][1..]) == [];
    if |s| == 2 {
      assert s[1..] == [s[1]];
      assert KTrans(s[1]) == b && [s[1]][1..] == [] && [b] + [] == [b];
      assert Unquote(q, true, [s[1]]) == ([b], false);
    } else {
      assert s == [b] && s[1..] == [];
    }
  }

  lemma {:induction false} QuoteCons(q: byte, file: seq<byte>)
    requires file != []
    ensures Quote(q, file) == Quote(q, [file[0]]) + Quote(q, file[1..])
  {
    var b := file[0];
    assert [b][0] == b && [b][1..] == [];
  }

  lemma {:induction false} UnquoteBoth(q: byte, s: seq<byte>, t: seq<byte>, x: seq<byte>, y: seq<byte>)
    requires Unquote(q, false, s) == (x, false) && Unquote(q, false, t) == (y, false) && Printable(s) && Printable(t)
    ensures Unquote(q, false, s + t) == (x + y, false) && Printable(s + t)
  {
    UnquoteConcat(q, false, s, t);
  }

  /** Unquoting inverts quoting, and every quoted character passes the receiver's control character test. */
  lemma {:induction false} UnquoteQuote(q: byte, file: seq<byte>)
    requires ValidQuote(q)
    ensures Unquote(q, false, Quote(q, file)) == (file, false)
    ensures Printable(Quote(q, file))
    decreases |file|
  {
    if file != [] {
      QuotedChar(q, file[0]);
      UnquoteQuote(q, file[1..]);
      QuoteCons(q, file);
      UnquoteBoth(q, Quote(q, [file[0]]), Quote(q, file[1..]), [file[0]], file[1..]);
      assert file == [file[0]] + file[1..];
    }
  }

  function DataOf(ps: seq<Packet>): seq<byte>
    decreases |ps|
  {
    if ps == [] then [] else (if ps[0].ktype == DATA_TYPE then ps[0].data else []) + DataOf(ps[1..])
  }

  lemma {:induction false} AbsorbConcat(a: Abs, ps: seq<Packet>, qs: seq<Packet>)
    ensures AbsorbAll(a, ps + qs) == AbsorbAll(AbsorbAll(a, ps), qs)
    decreases |ps|
  {
    if ps == [] {
      assert ps + qs == qs;
    } else {
      assert (ps + qs)[1..] == ps[1..] + qs;
      AbsorbConcat(Absorb(a, ps[0]), ps[1..], qs);
    }
  }

  predicate Without(ps: seq<Packet>, ktype: byte) { forall i :: 0 <= i < |ps| ==> ps[i].ktype != ktype }

  // Packets without an S packet among them are unquoted as one stream, wherever it was cut.
  lemma {:induction false} AbsorbIsUnquote(a: Abs, ps: seq<Packet>)
    requires Without(ps, SEND_TYPE)
    ensures var (bytes, e) := Unquote(a.link.quote, a.esc, DataOf(ps));
            AbsorbAll(a, ps) == Abs(a.content + bytes, e, a.link)
    decreases |ps|
  {
    if ps == [] {
      assert a.content + [] == a.content;
    } else {
      var a1 := Absorb(a, ps[0]);
      AbsorbIsUnquote(a1, ps[1..]);
      if ps[0].ktype == DATA_TYPE {
        UnquoteConcat(a.link.quote, a.esc, ps[0].data, DataOf(ps[1..]));
        var x := Unquote(a.link.quote, a.esc, ps[0].data).0;
        var y := Unquote(a1.link.quote, a1.esc, DataOf(ps[1..])).0;
        assert a.content + x + y == a.content + (x + y);
      } else {
        assert DataOf(ps) == DataOf(ps[1..]);
      }
    }
  }

  lemma {:induction false} PreludeCarriesNothing(a: Abs, ps: seq<Packet>)
    requires Without(ps, DATA_TYPE)
    ensures AbsorbAll(a, ps).content == a.content && AbsorbAll(a, ps).esc == a.esc
    decreases |ps|
  {
    if ps != [] {
      PreludeCarriesNothing(Absorb(a, ps[0]), ps[1..]);
    }
  }

  /** A file sent under the negotiated quote, cut into data packets anywhere (even between a quote and its
      character), arrives exactly, and its length is returned. */
  lemma {:induction false} FileTransfer(start: int, mem: map<int, byte>, noise: seq<byte>, prelude: seq<Packet>, rest: seq<Packet>,
                     dss: seq<seq<Delivery>>, file: seq<byte>)
    requires Noise(noise) && Session(prelude + rest, dss)
    requires Without(prelude, DATA_TYPE) && Without(rest, SEND_TYPE)
    requires var q := AbsorbAll(Fresh(), prelude).link.quote;
             ValidQuote(q) && DataOf(rest) == Quote(q, file)
    ensures var s := Run(Init(start, mem), noise + Stream(prelude + rest, dss));
            s.c.phase == Done && Result(s) == |file| && Holds(s.d, start + |file|, file)
  {
    var a := AbsorbAll(Fresh(), prelude);
    PreludeCarriesNothing(Fresh(), prelude);
    AbsorbConcat(Fresh(), prelude, rest);
    AbsorbIsUnquote(a, rest);
    UnquoteQuote(a.link.quote, file);
    assert a.content + file == file;
    ExactlyOnce(start, mem, noise, prelude + rest, dss);
  }
}
