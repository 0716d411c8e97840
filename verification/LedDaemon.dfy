/**
 The LED daemon: one iteration every 400 ms watches boot, carrier and gateway, and drives a red/green status LED and a
 yellow disk LED.  What the system reports in an iteration is an input; ticks do not wrap.
 */
module LedDaemon {
  import opened Options

  const PING_EVERY := 50
  const RETRY_EVERY := 5
  const MU_EVERY := 4
  const GREEN := 0
  const RED := 1

  /** What one iteration observes.  `open` and `openDisk` say whether the LED files can be opened. */
  datatype Input = Input(multiuser: bool, link: bool, ip: bool, gateway: bool, ping: int, open: bool, openDisk: bool,
                         rd: nat, wr: nat)

  // Without a default route, or without a socket, an address is good enough.
  predicate Answers(i: Input) { i.ip && (!i.gateway || i.ping == 1 || i.ping == -1) }

  datatype Led = Led(cached: int, device: int)

  // set_status and set_yellow: written only on a change, cached only if the file opens.
  function Set(l: Led, v: int, open: bool): Led { if v != l.cached && open then Led(v, v) else l }

  /** The variables of the daemon. */
  datatype State = State(netok: int, boot: bool, tick: nat, blink: int, hadLink: bool, nextProbe: nat, status: Led,
                         haveDisk: bool, prd: nat, pwr: nat, yellow: Led)

  const START := State(-1, false, 0, 0, false, 0, Led(-1, -1), false, 0, 0, Led(-1, -1))

  predicate Boots(s: State, i: Input) { !s.boot && (s.tick + 1) % MU_EVERY == 0 && i.multiuser }

  // Whether the iteration asks the network: at once with a new carrier or no answer yet, else when it is time.
  predicate Probes(s: State, i: Input) { i.link && (!s.hadLink || s.netok < 0 || s.tick + 1 >= s.nextProbe) }

  function Netok(s: State, i: Input): int {
    if !i.link then 0 else if Probes(s, i) then (if Answers(i) then 1 else 0) else s.netok
  }

  function Tick(s: State, i: Input): nat { if i.link && !s.hadLink then 0 else s.tick + 1 }

  function NextProbe(s: State, i: Input): nat {
    if Probes(s, i) then Tick(s, i) + (if Answers(i) then PING_EVERY else RETRY_EVERY) else s.nextProbe
  }

  function Blinks(s: State, i: Input): bool { !(s.boot || Boots(s, i)) || Netok(s, i) < 0 }

  // The colour that the iteration asks for.
  function Target(s: State, i: Input): int {
    if Blinks(s, i) then 1 - s.blink else if Netok(s, i) == 1 then GREEN else RED
  }

  function DiskTarget(s: State, i: Input): int {
    if (i.rd != 0 || i.wr != 0) && s.haveDisk && (i.rd != s.prd || i.wr != s.pwr) then 1 else 0
  }

  /** One iteration. */
  function Step(s: State, i: Input): State {
    var disk := i.rd != 0 || i.wr != 0;
    State(Netok(s, i), s.boot || Boots(s, i), Tick(s, i), if Blinks(s, i) then 1 - s.blink else s.blink, i.link,
          NextProbe(s, i), Set(s.status, Target(s, i), i.open), s.haveDisk || disk, if disk then i.rd else s.prd,
          if disk then i.wr else s.pwr, Set(s.yellow, DiskTarget(s, i), i.openDisk))
  }

  function Run(s: State, ins: seq<Input>): State
    decreases |ins|
  {
    if ins == [] then s else Step(Run(s, ins[..|ins| - 1]), ins[|ins| - 1])
  }

  // ---------- the parts of an iteration, in order ----------

  function BootPart(s: State, i: Input): State {
    var t := s.tick + 1;
    s.(tick := t, boot := s.boot || (t % MU_EVERY == 0 && i.multiuser))
  }

  function NetPart(s: State, i: Input): State {
    if !i.link then s.(netok := 0, hadLink := false)
    else
      var s := if s.hadLink then s else s.(hadLink := true, netok := -1, tick := 0, nextProbe := 0);
      if s.netok < 0 || s.tick >= s.nextProbe then
        if Answers(i) then s.(netok := 1, nextProbe := s.tick + PING_EVERY)
        else s.(netok := 0, nextProbe := s.tick + RETRY_EVERY)
      else s
  }

  function StatusPart(s: State, i: Input): State {
    if !s.boot || s.netok < 0 then s.(blink := 1 - s.blink, status := Set(s.status, 1 - s.blink, i.open))
    else s.(status := Set(s.status, if s.netok == 1 then GREEN else RED, i.open))
  }

  function DiskPart(s: State, i: Input): State {
    var yellow := Set(s.yellow, DiskTarget(s, i), i.openDisk);
    if i.rd != 0 || i.wr != 0 then s.(haveDisk := true, prd := i.rd, pwr := i.wr, yellow := yellow)
    else s.(yellow := yellow)
  }

  lemma {:induction false} NetIsPart(s: State, i: Input)
    ensures NetPart(BootPart(s, i), i)
         == s.(netok := Netok(s, i), boot := s.boot || Boots(s, i), tick := Tick(s, i), hadLink := i.link,
               nextProbe := NextProbe(s, i))
  {
  }

  lemma {:induction false} StatusIsPart(s: State, t: State, i: Input)
    requires t.netok == Netok(s, i) && t.boot == (s.boot || Boots(s, i)) && t.blink == s.blink && t.status == s.status
    ensures StatusPart(t, i)
         == t.(blink := if Blinks(s, i) then 1 - s.blink else s.blink, status := Set(s.status, Target(s, i), i.open))
  {
  }

  /** The closed form of an iteration is its parts in order. */
  lemma {:induction false} StepIsParts(s: State, i: Input)
    ensures Step(s, i) == DiskPart(StatusPart(NetPart(BootPart(s, i), i), i), i)
  {
    NetIsPart(s, i);
    StatusIsPart(s, NetPart(BootPart(s, i), i), i);
  }

  // ---------- the loop ----------

  class Daemon {
    var netok: int
    var boot: bool
    var tick: nat
    var blink: int
    var hadLink: bool
    var nextProbe: nat
    var status: Led
    var haveDisk: bool
    var prd: nat
    var pwr: nat
    var yellow: Led

    ghost function Value(): State
      reads this
    {
      State(netok, boot, tick, blink, hadLink, nextProbe, status, haveDisk, prd, pwr, yellow)
    }

    constructor ()
      ensures Value() == START
    {
      netok, boot, tick, blink, hadLink, nextProbe := -1, false, 0, 0, false, 0;
      status, haveDisk, prd, pwr, yellow := Led(-1, -1), false, 0, 0, Led(-1, -1);
    }

    method SetStatus(v: int, open: bool)
      modifies this`status
      ensures status == Set(old(status), v, open)
    {
      if v != status.cached && open { status := Led(v, v); }
    }

    method SetYellow(v: int, open: bool)
      modifies this`yellow
      ensures yellow == Set(old(yellow), v, open)
    {
      if v != yellow.cached && open { yellow := Led(v, v); }
    }

    method Boot(i: Input)
      modifies this`tick, this`boot
      ensures Value() == BootPart(old(Value()), i)
    {
      tick := tick + 1;
      if !boot && tick % MU_EVERY == 0 && i.multiuser { boot := true; }
    }

    method Network(i: Input)
      modifies this`netok, this`hadLink, this`tick, this`nextProbe
      ensures Value() == NetPart(old(Value()), i)
    {
      if !i.link {
        netok, hadLink := 0, false;
      } else {
        if !hadLink { hadLink, netok, tick, nextProbe := true, -1, 0, 0; }
        if netok < 0 || tick >= nextProbe {
          if !i.ip {
            netok := 0;
          } else if i.gateway {
            netok := if i.ping == 1 || i.ping == -1 then 1 else 0;
          } else {
            netok := 1;
          }
          nextProbe := tick + (if netok == 1 then PING_EVERY else RETRY_EVERY);
        }
      }
    }

    method Status(i: Input)
      modifies this`blink, this`status
      ensures Value() == StatusPart(old(Value()), i)
    {
      if !boot || netok < 0 {
        blink := 1 - blink;
        SetStatus(blink, i.open);
      } else if netok == 1 {
        SetStatus(GREEN, i.open);
      } else {
        SetStatus(RED, i.open);
      }
    }

    method Disk(i: Input)
      modifies this`haveDisk, this`prd, this`pwr, this`yellow
      ensures Value() == DiskPart(old(Value()), i)
    {
      if i.rd != 0 || i.wr != 0 {
        if !haveDisk {
          SetYellow(0, i.openDisk);
          haveDisk := true;
        } else if i.rd != prd || i.wr != pwr {
          SetYellow(1, i.openDisk);
        } else {
          SetYellow(0, i.openDisk);
        }
        prd, pwr := i.rd, i.wr;
      } else {
        SetYellow(0, i.openDisk);
      }
    }

    /** The body of the endless loop. */
    method Iterate(i: Input)
      modifies this
      ensures Value() == Step(old(Value()), i)
    {
      Boot(i);
      Network(i);
      Status(i);
      Disk(i);
      StepIsParts(old(Value()), i);
    }

    /** Any finite run of the loop. */
    method Loop(ins: seq<Input>)
      modifies this
      ensures Value() == Run(old(Value()), ins)
    {
      for k := 0 to |ins|
        invariant Value() == Run(old(Value()), ins[..k])
      {
        Iterate(ins[k]);
        assert ins[..k + 1][..k] == ins[..k];
      }
      assert ins[..|ins|] == ins;
    }
  }

  // ---------- what every iteration keeps ----------

  predicate Inv(s: State) {
    && (s.netok == 0 || s.netok == 1) && (s.netok == 1 ==> s.hadLink)
    && (s.hadLink ==> s.tick < s.nextProbe <= s.tick + (if s.netok == 1 then PING_EVERY else RETRY_EVERY))
    && (s.blink == 0 || s.blink == 1) && s.status.cached == s.status.device && s.yellow.cached == s.yellow.device
  }

  // The start is not decided yet, but nothing else differs.
  predicate Reachable(s: State) { Inv(s) || s == START }

  lemma {:induction false} StepKeeps(s: State, i: Input)
    requires Reachable(s)
    ensures Inv(Step(s, i)) && (s.boot ==> Step(s, i).boot)
  {
  }

  /** After every iteration the network is decided, the caches say what the LEDs show, and boot does not go back. */
  lemma {:induction false} RunKeeps(ins: seq<Input>)
    ensures Reachable(Run(START, ins)) && (ins != [] ==> Inv(Run(START, ins)))
    decreases |ins|
  {
    if ins != [] {
      RunKeeps(ins[..|ins| - 1]);
      StepKeeps(Run(START, ins[..|ins| - 1]), ins[|ins| - 1]);
    }
  }

  lemma {:induction false} BootIsMonotone(s: State, ins: seq<Input>, k: nat)
    requires k <= |ins| && Run(s, ins[..k]).boot
    ensures Run(s, ins).boot
    decreases |ins|
  {
    if k == |ins| {
      assert ins[..k] == ins;
    } else {
      assert ins[..|ins| - 1][..k] == ins[..k];
      BootIsMonotone(s, ins[..|ins| - 1], k);
    }
  }

  // ---------- when boot is detected ----------

  // Iteration k finds a carrier that iteration k - 1 did not have; it starts the ticks again.
  predicate NewCarrier(ins: seq<Input>, k: nat)
    requires k < |ins|
  {
    ins[k].link && (k == 0 || !ins[k - 1].link)
  }

  // The three iterations before k have no new carrier.
  ghost predicate Quiet(ins: seq<Input>, k: int) {
    3 <= k < |ins| && !NewCarrier(ins, k - 3) && !NewCarrier(ins, k - 2) && !NewCarrier(ins, k - 1)
  }

  // Before boot is detected the tick counts the iterations since the last new carrier.
  ghost predicate TicksSince(ins: seq<Input>, tick: nat) {
    && tick <= 3 && tick <= |ins| && (tick < |ins| ==> NewCarrier(ins, |ins| - 1 - tick))
    && forall k :: |ins| - tick <= k < |ins| ==> !NewCarrier(ins, k)
  }

  lemma {:induction false} QuietNow(ins: seq<Input>, tick: nat)
    requires ins != [] && TicksSince(ins[..|ins| - 1], tick)
    ensures tick == 3 <==> Quiet(ins, |ins| - 1)
  {
    var before := ins[..|ins| - 1];
    assert forall k :: 0 <= k < |before| ==> (NewCarrier(before, k) <==> NewCarrier(ins, k));
  }

  lemma {:induction false} TicksStep(ins: seq<Input>, tick: nat)
    requires ins != [] && TicksSince(ins[..|ins| - 1], tick) && tick < 3
    ensures TicksSince(ins, if NewCarrier(ins, |ins| - 1) then 0 else tick + 1)
  {
    var before := ins[..|ins| - 1];
    assert forall k :: 0 <= k < |before| ==> (NewCarrier(before, k) <==> NewCarrier(ins, k));
  }

  lemma {:induction false} QuietPrefix(ins: seq<Input>, before: seq<Input>)
    requires ins != [] && before == ins[..|ins| - 1]
    ensures (exists k :: Quiet(ins, k)) <==> (exists k :: Quiet(before, k)) || Quiet(ins, |ins| - 1)
  {
    forall k ensures Quiet(before, k) <==> Quiet(ins, k) && k < |before| {
      assert forall j :: 0 <= j < |before| ==> (NewCarrier(before, j) <==> NewCarrier(ins, j));
    }
  }

  lemma {:induction false} BootInvariant(ins: seq<Input>)
    requires forall k :: 0 <= k < |ins| ==> ins[k].multiuser
    ensures var s := Run(START, ins);
            && s.hadLink == (ins != [] && ins[|ins| - 1].link) && (s.boot <==> exists k :: Quiet(ins, k))
            && (!s.boot ==> TicksSince(ins, s.tick))
    decreases |ins|
  {
    if ins != [] {
      var m := |ins| - 1;
      BootInvariant(ins[..m]);
      QuietPrefix(ins, ins[..m]);
      var s := Run(START, ins[..m]);
      if !s.boot {
        QuietNow(ins, s.tick);
        assert Boots(s, ins[m]) <==> s.tick == 3;
        assert ins[m].link && !s.hadLink <==> NewCarrier(ins, m);
        if s.tick < 3 { TicksStep(ins, s.tick); }
      }
    }
  }

  /**
   With the multi-user target reached all along, boot is detected if and only if three iterations in a row before some
   iteration have no new carrier: a new carrier starts the ticks again, and only every fourth tick looks.
   */
  lemma {:induction false} BootIff(ins: seq<Input>)
    requires forall k :: 0 <= k < |ins| ==> ins[k].multiuser
    ensures Run(START, ins).boot <==> exists k :: Quiet(ins, k)
  {
    BootInvariant(ins);
  }

  lemma {:induction false} RunFour(s: State, a: Input, b: Input, c: Input, d: Input)
    ensures Run(s, [a, b, c, d]) == Step(Step(Step(Step(s, a), b), c), d)
  {
    assert [a, b, c, d][..3] == [a, b, c] && [a, b, c][..2] == [a, b] && [a, b][..1] == [a] && [a][..0] == [];
    assert Run(s, [a]) == Step(s, a);
    assert Run(s, [a, b]) == Step(Step(s, a), b);
    assert Run(s, [a, b, c]) == Step(Step(Step(s, a), b), c);
  }

  // One iteration with the target reached, as far as boot goes.
  predicate Ticked(s: State, i: Input, t: State) {
    && (t.boot <==> s.boot || (s.tick + 1) % 4 == 0) && t.hadLink == i.link
    && ((i.link ==> s.hadLink) ==> t.tick == s.tick + 1)
  }

  lemma {:induction false} BootStep(s: State, i: Input)
    requires i.multiuser
    ensures Ticked(s, i, Step(s, i))
  {
  }

  lemma {:induction false} FourTicks(s: State, a: Input, s1: State, b: Input, s2: State, c: Input, s3: State, d: Input, s4: State)
    requires Ticked(s, a, s1) && Ticked(s1, b, s2) && Ticked(s2, c, s3) && Ticked(s3, d, s4)
    requires (a.link ==> s.hadLink) && (b.link ==> a.link) && (c.link ==> b.link)
    ensures s4.boot
  {
    assert (s.tick + 1) % 4 == 0 || (s.tick + 2) % 4 == 0 || (s.tick + 3) % 4 == 0 || (s.tick + 4) % 4 == 0;
  }

  /** From any state, four iterations without a new carrier and with the target reached detect boot. */
  lemma {:induction false} BootsWithinFour(s: State, a: Input, b: Input, c: Input, d: Input)
    requires a.multiuser && b.multiuser && c.multiuser && d.multiuser
    requires (a.link ==> s.hadLink) && (b.link ==> a.link) && (c.link ==> b.link)
    ensures Run(s, [a, b, c, d]).boot
  {
    var s1 := Step(s, a);
    var s2 := Step(s1, b);
    var s3 := Step(s2, c);
    BootStep(s, a);
    BootStep(s1, b);
    BootStep(s2, c);
    BootStep(s3, d);
    FourTicks(s, a, s1, b, s2, c, s3, d, Step(s3, d));
    RunFour(s, a, b, c, d);
  }

  // A carrier that comes and goes with every iteration.
  function Flap(n: nat): (ins: seq<Input>)
    ensures |ins| == n && forall k :: 0 <= k < n ==> ins[k].multiuser && ins[k].link == (k % 2 == 0)
  {
    seq(n, k => Input(true, k % 2 == 0, true, true, 1, true, true, 1, 1))
  }

  /** A flapping carrier hides boot for ever. */
  lemma {:induction false} FlapNeverBoots(n: nat)
    ensures !Run(START, Flap(n)).boot
  {
    BootIff(Flap(n));
  }

  // ---------- when the LED is green ----------

  // Iteration k asked the network and has an address, and no gateway to ask, a reply from it, or no socket to ask it with.
  predicate AnsweredAt(ins: seq<Input>, k: nat)
    requires k < |ins|
  {
    && Probes(Run(START, ins[..k]), ins[k])
    && ins[k].ip && (ins[k].gateway ==> ins[k].ping == 1 || ins[k].ping == -1)
  }

  ghost predicate LinkSince(ins: seq<Input>, k: nat) { forall j :: k <= j < |ins| ==> ins[j].link }

  // An answer k was the last probe, and the next one is not due.
  ghost predicate LastAnswer(ins: seq<Input>, k: int) {
    && 0 <= k < |ins| && |ins| - 50 <= k && AnsweredAt(ins, k) && LinkSince(ins, k)
  }

  // Where the timers stand after an answer at k with carrier ever since.
  lemma {:induction false} AfterAnswer(ins: seq<Input>, k: nat)
    requires LastAnswer(ins, k)
    ensures var s := Run(START, ins); s.netok == 1 && s.hadLink && s.nextProbe - s.tick == k + 51 - |ins|
    decreases |ins|
  {
    var m := |ins| - 1;
    if k < m {
      var before := ins[..m];
      assert before[..k] == ins[..k] && before[k] == ins[k];
      assert forall j :: k <= j < |before| ==> before[j] == ins[j];
      AfterAnswer(before, k);
      assert ins[m].link;
    } else {
      assert ins[k].link;
      RunKeeps(ins[..m]);
    }
  }

  lemma {:induction false} FindAnswer(ins: seq<Input>) returns (k: nat)
    requires Run(START, ins).netok == 1
    ensures LastAnswer(ins, k)
    decreases |ins|
  {
    var m := |ins| - 1;
    var s := Run(START, ins[..m]);
    RunKeeps(ins[..m]);
    if Probes(s, ins[m]) {
      k := m;
    } else {
      k := FindAnswer(ins[..m]);
      AfterAnswer(ins[..m], k);
      assert ins[..m][..k] == ins[..k] && ins[..m][k] == ins[k];
      assert forall j :: k <= j < m ==> ins[j] == ins[..m][j];
    }
  }

  /**
   The network counts as connected exactly when some iteration of the last 50 asked and got an answer, with carrier in
   every iteration since.
   */
  lemma {:induction false} ConnectedIff(ins: seq<Input>)
    ensures Run(START, ins).netok == 1 <==> exists k :: LastAnswer(ins, k)
  {
    if Run(START, ins).netok == 1 {
      var k := FindAnswer(ins);
    } else if k :| LastAnswer(ins, k) {
      AfterAnswer(ins, k);
    }
  }

  /** Once booted, the iteration writes 0, green, exactly when the network counts as connected, and 1, red, otherwise. */
  lemma {:induction false} GreenIff(ins: seq<Input>, i: Input)
    requires Run(START, ins + [i]).boot
    ensures Target(Run(START, ins), i) == 0 <==> exists k :: LastAnswer(ins + [i], k)
    ensures Target(Run(START, ins), i) == 0 ==> i.link
    ensures Target(Run(START, ins), i) == 0 || Target(Run(START, ins), i) == 1
  {
    var all := ins + [i];
    assert all[..|all| - 1] == ins;
    RunKeeps(all);
    ConnectedIff(all);
  }

  /** Until boot is detected the LED is asked to alternate, beginning with red. */
  lemma {:induction false} BlinksBeforeBoot(ins: seq<Input>, i: Input)
    requires !Run(START, ins + [i]).boot
    ensures Target(Run(START, ins), i) == (|ins| + 1) % 2
  {
    var all := ins + [i];
    assert all[..|all| - 1] == ins;
    BlinkCounts(ins);
  }

  lemma {:induction false} BlinkCounts(ins: seq<Input>)
    requires !Run(START, ins).boot
    ensures Run(START, ins).blink == |ins| % 2
    decreases |ins|
  {
    if ins != [] { BlinkCounts(ins[..|ins| - 1]); }
  }

  // Where the timers stand after a probe at k with carrier ever since, until the next one is due.
  lemma {:induction false} AfterProbe(ins: seq<Input>, k: nat, d: nat)
    requires k < |ins| <= k + d && LinkSince(ins, k) && Probes(Run(START, ins[..k]), ins[k])
    requires d == if ins[k].ip && (ins[k].gateway ==> ins[k].ping == 1 || ins[k].ping == -1) then 50 else 5
    ensures var s := Run(START, ins); s.netok >= 0 && s.hadLink && s.nextProbe - s.tick == k + d + 1 - |ins|
    decreases |ins|
  {
    var m := |ins| - 1;
    if k < m {
      var before := ins[..m];
      assert before[..k] == ins[..k] && before[k] == ins[k];
      assert forall j :: k <= j < |before| ==> before[j] == ins[j];
      AfterProbe(before, k, d);
      assert ins[m].link;
    } else {
      assert ins[k].link;
    }
  }

  /**
   When the network is asked: at every new carrier, and while the carrier stays, 50 iterations after an answer and 5 after
   none, and not before.
   */
  lemma {:induction false} ProbeSchedule(ins: seq<Input>, k: nat, m: nat)
    requires k < m < |ins| && Probes(Run(START, ins[..k]), ins[k]) && forall j :: k <= j <= m ==> ins[j].link
    ensures var d := if ins[k].ip && (ins[k].gateway ==> ins[k].ping == 1 || ins[k].ping == -1) then 50 else 5;
            m <= k + d ==> (Probes(Run(START, ins[..m]), ins[m]) <==> m == k + d)
  {
    var d := if ins[k].ip && (ins[k].gateway ==> ins[k].ping == 1 || ins[k].ping == -1) then 50 else 5;
    if m <= k + d {
      assert ins[..m][..k] == ins[..k];
      AfterProbe(ins[..m], k, d);
    }
  }

  lemma {:induction false} NewCarrierProbes(ins: seq<Input>, k: nat)
    requires k < |ins| && NewCarrier(ins, k)
    ensures Probes(Run(START, ins[..k]), ins[k])
  {
    if k > 0 { assert ins[..k][|ins[..k]| - 1] == ins[k - 1]; }
  }

  /** A LED shows what was last asked for if its file could be opened then, or if that was what it showed. */
  lemma {:induction false} LedFollows(ins: seq<Input>, i: Input)
    ensures var s, t := Run(START, ins), Run(START, ins + [i]);
            && t.status.device == t.status.cached
            && (t.status.device == Target(s, i) <==> i.open || s.status.device == Target(s, i))
            && (!i.open ==> t.status == s.status)
  {
    var all := ins + [i];
    assert all[..|all| - 1] == ins;
    RunKeeps(ins);
  }

  // The colour asked for by the last iteration that could open the LED file.
  function LastAsked(ins: seq<Input>): int
    decreases |ins|
  {
    if ins == [] then -1
    else
      var m := |ins| - 1;
      if ins[m].open then Target(Run(START, ins[..m]), ins[m]) else LastAsked(ins[..m])
  }

  /** Writing only on a change loses nothing: the LED always shows the last colour asked for while it could be opened. */
  lemma {:induction false} LedIsLastAsked(ins: seq<Input>)
    ensures Run(START, ins).status == Led(LastAsked(ins), LastAsked(ins))
    decreases |ins|
  {
    if ins != [] {
      var m := |ins| - 1;
      LedIsLastAsked(ins[..m]);
      StatusOfStep(Run(START, ins[..m]), ins[m]);
    }
  }

  lemma {:induction false} StatusOfStep(s: State, i: Input)
    ensures Step(s, i).status == Set(s.status, Target(s, i), i.open)
  {
  }

  // ---------- how fast the LED follows ----------

  // Iterations to the next probe.
  function Due(s: State): int { if s.hadLink then s.nextProbe - s.tick else 1 }

  lemma {:induction false} AnswersStep(s: State, i: Input)
    requires Reachable(s) && i.link && Answers(i)
    ensures var t := Step(s, i); t.netok == 1 || Due(t) < Due(s)
    ensures s.netok == 1 || Due(s) <= 1 ==> Step(s, i).netok == 1
  {
  }

  lemma {:induction false} RunConnects(s: State, ins: seq<Input>)
    requires Reachable(s) && forall k :: 0 <= k < |ins| ==> ins[k].link && Answers(ins[k])
    ensures Reachable(Run(s, ins))
    ensures Run(s, ins).netok == 1 || Due(Run(s, ins)) <= Due(s) - |ins|
    decreases |ins|
  {
    if ins != [] {
      var m := |ins| - 1;
      RunConnects(s, ins[..m]);
      StepKeeps(Run(s, ins[..m]), ins[m]);
      AnswersStep(Run(s, ins[..m]), ins[m]);
    }
  }

  /** Five iterations with carrier, an address, and no gateway, a replying one or no socket always reconnect. */
  lemma {:induction false} ConnectsWithinFive(before: seq<Input>, ins: seq<Input>)
    requires |ins| >= 5 && forall k :: 0 <= k < |ins| ==>
               ins[k].link && ins[k].ip && (!ins[k].gateway || ins[k].ping == 1 || ins[k].ping == -1)
    ensures Run(Run(START, before), ins).netok == 1
  {
    var s := Run(START, before);
    RunKeeps(before);
    RunConnects(s, ins);
    if s.netok == 1 {
      StaysConnected(s, ins);
    } else {
      RunKeepsInv(s, ins);
    }
  }

  lemma {:induction false} StaysConnected(s: State, ins: seq<Input>)
    requires Reachable(s) && s.netok == 1 && forall k :: 0 <= k < |ins| ==> ins[k].link && Answers(ins[k])
    ensures Run(s, ins).netok == 1
    decreases |ins|
  {
    if ins != [] {
      var m := |ins| - 1;
      StaysConnected(s, ins[..m]);
      RunConnects(s, ins[..m]);
      AnswersStep(Run(s, ins[..m]), ins[m]);
    }
  }

  lemma {:induction false} RunKeepsInv(s: State, ins: seq<Input>)
    requires Reachable(s) && ins != []
    ensures Inv(Run(s, ins))
    decreases |ins|
  {
    var m := |ins| - 1;
    if m > 0 { RunKeepsInv(s, ins[..m]); } else { assert ins[..m] == []; }
    StepKeeps(Run(s, ins[..m]), ins[m]);
  }

  lemma {:induction false} RunDisconnects(s: State, ins: seq<Input>)
    requires Reachable(s) && forall k :: 0 <= k < |ins| ==> !(ins[k].link && Answers(ins[k]))
    ensures Reachable(Run(s, ins)) && (ins != [] ==> Inv(Run(s, ins)))
    ensures s.netok != 1 && ins != [] ==> Run(s, ins).netok == 0
    ensures Run(s, ins).netok != 1 || Due(Run(s, ins)) <= Due(s) - |ins|
    decreases |ins|
  {
    if ins != [] {
      var m := |ins| - 1;
      RunDisconnects(s, ins[..m]);
      StepKeeps(Run(s, ins[..m]), ins[m]);
      if m == 0 { assert ins[..m] == []; }
    }
  }

  /** Fifty iterations without carrier, without an address, or with a gateway that does not reply always disconnect. */
  lemma {:induction false} DisconnectsWithinFifty(before: seq<Input>, ins: seq<Input>)
    requires |ins| >= 50 && forall k :: 0 <= k < |ins| ==>
               !ins[k].link || !ins[k].ip || (ins[k].gateway && ins[k].ping != 1 && ins[k].ping != -1)
    ensures Run(Run(START, before), ins).netok == 0
  {
    RunKeeps(before);
    RunDisconnects(Run(START, before), ins);
  }

  // ---------- the disk LED ----------

  // The disk statistics of the last iteration that had any.
  function LastDisk(ins: seq<Input>): Option<(nat, nat)>
    decreases |ins|
  {
    if ins == [] then None
    else
      var i := ins[|ins| - 1];
      if i.rd > 0 || i.wr > 0 then Some((i.rd, i.wr)) else LastDisk(ins[..|ins| - 1])
  }

  lemma {:induction false} DiskRemembered(ins: seq<Input>)
    ensures var s := Run(START, ins); s.haveDisk == LastDisk(ins).Some? && (s.haveDisk ==> (s.prd, s.pwr) == LastDisk(ins).value)
    decreases |ins|
  {
    if ins != [] { DiskRemembered(ins[..|ins| - 1]); }
  }

  /** The yellow LED is asked to light exactly when there are statistics and they differ from the last ones. */
  lemma {:induction false} YellowIff(ins: seq<Input>, i: Input)
    ensures DiskTarget(Run(START, ins), i) == 0 || DiskTarget(Run(START, ins), i) == 1
    ensures DiskTarget(Run(START, ins), i) == 1
       <==> (i.rd > 0 || i.wr > 0) && LastDisk(ins).Some? && LastDisk(ins).value != (i.rd, i.wr)
  {
    DiskRemembered(ins);
  }

  // What the yellow LED was last asked for while its file could be opened.
  function LastYellow(ins: seq<Input>): int
    decreases |ins|
  {
    if ins == [] then -1
    else
      var m := |ins| - 1;
      if ins[m].openDisk then DiskTarget(Run(START, ins[..m]), ins[m]) else LastYellow(ins[..m])
  }

  lemma {:induction false} YellowIsLastAsked(ins: seq<Input>)
    ensures Run(START, ins).yellow == Led(LastYellow(ins), LastYellow(ins))
    decreases |ins|
  {
    if ins != [] {
      var m := |ins| - 1;
      YellowIsLastAsked(ins[..m]);
      assert Step(Run(START, ins[..m]), ins[m]).yellow
          == Set(Run(START, ins[..m]).yellow, DiskTarget(Run(START, ins[..m]), ins[m]), ins[m].openDisk);
    }
  }
}
