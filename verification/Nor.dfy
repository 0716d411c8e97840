/**
 NOR flash erase planning: from an address range to sector ranges, bank by bank.  Addresses do not wrap.
 */
module Nor {
  import opened Options

  /** A bank: whether it was identified, the start addresses of its sectors, and its size in bytes. */
  datatype Bank = Bank(known: bool, start: seq<nat>, size: nat) {
    // Sectors ascend and fill the bank.
    predicate Valid() {
      && start != []
      && (forall i, j :: 0 <= i < j < |start| ==> start[i] < start[j])
      && start[|start| - 1] < start[0] + size
    }

    // The last address of sector i.
    function End(i: nat): int
      requires i < |start|
    {
      if i == |start| - 1 then start[0] + size - 1 else start[i + 1] as int - 1
    }

    function Lo(): nat
      requires start != []
    {
      start[0]
    }

    function Hi(): int
      requires start != []
    {
      start[0] + size - 1
    }
  }

  predicate AllValid(banks: seq<Bank>) {
    forall b :: 0 <= b < |banks| && banks[b].known ==> banks[b].Valid()
  }

  /** The chosen sectors of one bank. */
  datatype Range = Range(first: nat, last: nat)

  type Selection = seq<Option<Range>>

  predicate Chosen(sel: Selection, b: nat, s: nat) {
    b < |sel| && sel[b].Some? && sel[b].value.first <= s <= sel[b].value.last
  }

  function Count(sel: Selection): int {
    if sel == [] then 0
    else (if sel[0].Some? then sel[0].value.last - sel[0].value.first + 1 else 0) + Count(sel[1..])
  }

  // ---------- one bank ----------

  // The sector that starts at `a`, or -1.
  function StartAt(bank: Bank, a: int, n: nat): (r: int)
    requires n <= |bank.start|
    ensures -1 <= r < n
    ensures r >= 0 ==> bank.start[r] == a
    ensures r == -1 ==> forall i :: 0 <= i < n ==> bank.start[i] != a
  {
    if n == 0 then -1 else if bank.start[n - 1] == a then n - 1 else StartAt(bank, a, n - 1)
  }

  // The sector that ends at `a`, or -1.
  function EndAt(bank: Bank, a: int, n: nat): (r: int)
    requires n <= |bank.start|
    ensures -1 <= r < n
    ensures r >= 0 ==> bank.End(r) == a
    ensures r == -1 ==> forall i :: 0 <= i < n ==> bank.End(i) != a
  {
    if n == 0 then -1 else if bank.End(n - 1) == a then n - 1 else EndAt(bank, a, n - 1)
  }

  datatype Step = Error | Skip | Take(r: Range)

  // What the planner decides in one bank, given the first address not yet covered and the last address.
  function PlanBank(bank: Bank, first: nat, last: nat): Step
    requires bank.known ==> bank.Valid()
  {
    if !bank.known then Skip else
      var n := |bank.start|;
      var f, l := StartAt(bank, first, n), EndAt(bank, last, n);
      if f >= 0 then
        if l < 0 && last <= bank.Hi() then Error
        else
          var l' := if l < 0 then n - 1 else l;
          if l' < f then Error else Take(Range(f, l'))
      else if bank.Lo() <= first < bank.Hi() then Error
      else if l >= 0 then Error
      else Skip
  }

  // The plan for banks b and on: None is an error.
  function Plan(banks: seq<Bank>, first: nat, last: nat): (r: Option<Selection>)
    requires AllValid(banks)
    ensures r.Some? ==> |r.value| == |banks|
    decreases |banks|
  {
    if banks == [] then Some([])
    else if first > last then Some(seq(|banks|, _ => None))
    else
      match PlanBank(banks[0], first, last)
      case Error => None
      case Skip => Prepend(None, Plan(banks[1..], first, last))
      case Take(r) => Prepend(Some(r), Plan(banks[1..], banks[0].End(r.last) + 1, last))
  }

  function Prepend(x: Option<Range>, rest: Option<Selection>): Option<Selection> {
    if rest.None? then None else Some([x] + rest.value)
  }

  // ---------- nothing outside the range ----------

  lemma {:induction false} EndInBank(bank: Bank, i: nat)
    requires bank.Valid() && i < |bank.start|
    ensures bank.start[i] <= bank.End(i) <= bank.Hi() && bank.Lo() <= bank.start[i]
    ensures forall j :: 0 <= j < i ==> bank.End(j) < bank.start[i]
  {
    forall j | 0 <= j < i
      ensures bank.End(j) < bank.start[i]
    {
      assert j + 1 < i ==> bank.start[j + 1] < bank.start[i];
    }
  }

  lemma {:induction false} TakeInside(bank: Bank, first: nat, last: nat)
    requires bank.known && bank.Valid() && first <= last && PlanBank(bank, first, last).Take?
    ensures var r := PlanBank(bank, first, last).r;
            && r.first <= r.last < |bank.start| && bank.start[r.first] == first && bank.End(r.last) <= last
            && first <= bank.End(r.last)
            && forall s :: r.first <= s <= r.last ==> first <= bank.start[s] && bank.End(s) <= last
  {
    var r := PlanBank(bank, first, last).r;
    EndInBank(bank, r.last);
    forall s | r.first <= s <= r.last
      ensures first <= bank.start[s] && bank.End(s) <= last
    {
      if s < r.last {
        EndInBank(bank, s + 1);
        assert bank.start[s + 1] <= bank.start[r.last];
      }
      assert r.first < s ==> bank.start[r.first] < bank.start[s];
    }
    EndInBank(bank, r.first);
    assert r.first < r.last ==> bank.start[r.first] < bank.start[r.last];
  }

  // What the plan selects in the first bank, and from where it goes on.
  lemma {:induction false} PlanFirst(banks: seq<Bank>, first: nat, last: nat)
    requires banks != [] && AllValid(banks) && first <= last && Plan(banks, first, last).Some?
    ensures var step, sel := PlanBank(banks[0], first, last), Plan(banks, first, last).value;
            && !step.Error? && sel[0] == Entry(step)
            && (step.Take? ==> banks[0].known && step.r.last < |banks[0].start|)
            && first <= NextFirst(banks[0], step, first)
            && Plan(banks[1..], NextFirst(banks[0], step, first), last) == Some(sel[1..])
  {
    var step := PlanBank(banks[0], first, last);
    if step.Take? { TakeInside(banks[0], first, last); }
    var rest := Plan(banks[1..], NextFirst(banks[0], step, first), last).value;
    assert ([Entry(step)] + rest)[1..] == rest;
  }

  /** For banks in any order, a successful plan never touches an address outside the given range. */
  lemma {:induction false} PlanStaysInside(banks: seq<Bank>, first: nat, last: nat, b: nat, s: nat)
    requires AllValid(banks) && Plan(banks, first, last).Some? && Chosen(Plan(banks, first, last).value, b, s)
    ensures b < |banks| && banks[b].known && s < |banks[b].start|
    ensures first <= banks[b].start[s] && banks[b].End(s) <= last
    decreases |banks|
  {
    if first <= last {
      var step, sel := PlanBank(banks[0], first, last), Plan(banks, first, last).value;
      PlanFirst(banks, first, last);
      if b == 0 {
        TakeInside(banks[0], first, last);
      } else {
        assert Chosen(sel[1..], b - 1, s) && banks[1..][b - 1] == banks[b];
        PlanStaysInside(banks[1..], NextFirst(banks[0], step, first), last, b - 1, s);
      }
    }
  }

  // ---------- exactness ----------

  /** All banks known, each ending where the next one starts. */
  ghost predicate Contiguous(banks: seq<Bank>) {
    && (forall b :: 0 <= b < |banks| ==> banks[b].known && banks[b].Valid())
    && (forall b, c :: 0 <= b && c == b + 1 && c < |banks| ==> banks[b].Hi() + 1 == banks[c].Lo())
  }

  ghost predicate SectorStarts(banks: seq<Bank>, a: int) {
    exists b, s :: 0 <= b < |banks| && 0 <= s < |banks[b].start| && banks[b].start[s] == a
  }

  ghost predicate SectorEnds(banks: seq<Bank>, a: int) {
    exists b, s :: 0 <= b < |banks| && 0 <= s < |banks[b].start| && banks[b].End(s) == a
  }

  // Sector s of the bank meets the range.
  predicate Meets(bank: Bank, s: nat, first: int, last: int)
    requires s < |bank.start|
  {
    bank.start[s] <= last && first <= bank.End(s)
  }

  // The selection is exactly the sectors that meet the range.
  ghost predicate Exact(banks: seq<Bank>, sel: Selection, first: int, last: int) {
    && |sel| == |banks|
    && (forall b, s :: 0 <= b < |banks| && 0 <= s < |banks[b].start| ==>
          (Chosen(sel, b, s) <==> Meets(banks[b], s, first, last)))
    && (forall b :: 0 <= b < |banks| && sel[b].Some? ==> sel[b].value.first <= sel[b].value.last < |banks[b].start|)
  }

  // Later banks lie above the first one.
  lemma {:induction false} LaterAbove(banks: seq<Bank>, b: nat, s: nat)
    requires Contiguous(banks) && 0 < b < |banks| && s < |banks[b].start|
    ensures banks[0].Hi() < banks[b].start[s] <= banks[b].End(s)
  {
    EndInBank(banks[b], s);
    if b > 1 {
      EndInBank(banks[b - 1], 0);
      LaterAbove(banks, b - 1, 0);
    }
  }

  // A sector boundary at or below the end of the first bank is in the first bank, and one above it is not.
  lemma {:induction false} WhichBank(banks: seq<Bank>, a: int)
    requires Contiguous(banks) && banks != []
    ensures SectorStarts(banks, a) && a > banks[0].Hi() ==> SectorStarts(banks[1..], a)
    ensures SectorStarts(banks, a) && a <= banks[0].Hi() ==> StartAt(banks[0], a, |banks[0].start|) >= 0
    ensures SectorEnds(banks, a) && a > banks[0].Hi() ==> SectorEnds(banks[1..], a)
    ensures SectorEnds(banks, a) && a <= banks[0].Hi() ==> EndAt(banks[0], a, |banks[0].start|) >= 0
  {
    if SectorStarts(banks, a) {
      var b, s :| 0 <= b < |banks| && 0 <= s < |banks[b].start| && banks[b].start[s] == a;
      EndInBank(banks[b], s);
      if b > 0 {
        LaterAbove(banks, b, s);
        assert banks[1..][b - 1].start[s] == a;
      }
    }
    if SectorEnds(banks, a) {
      var b, s :| 0 <= b < |banks| && 0 <= s < |banks[b].start| && banks[b].End(s) == a;
      EndInBank(banks[b], s);
      if b > 0 {
        LaterAbove(banks, b, s);
        assert banks[1..][b - 1].End(s) == a;
      }
    }
  }

  // The decision in the first bank is exact for that bank.
  lemma {:induction false} BankExact(banks: seq<Bank>, first: nat, last: nat)
    requires Contiguous(banks) && banks != [] && first <= last
    requires SectorStarts(banks, first) && SectorEnds(banks, last)
    ensures var step := PlanBank(banks[0], first, last);
            var n := |banks[0].start|;
            && !step.Error? && (step.Skip? <==> first > banks[0].Hi())
            && (step.Take? ==>
                  && step.r.first <= step.r.last < n
                  && banks[0].End(step.r.last) == if last <= banks[0].Hi() then last else banks[0].Hi())
            && forall s :: 0 <= s < n ==>
                 (step.Take? && step.r.first <= s <= step.r.last <==> Meets(banks[0], s, first, last))
  {
    var bank := banks[0];
    var n := |bank.start|;
    WhichBank(banks, first);
    WhichBank(banks, last);
    var f, l := StartAt(bank, first, n), EndAt(bank, last, n);
    forall s | 0 <= s < n
      ensures bank.start[s] <= bank.End(s) <= bank.Hi()
      ensures f >= 0 ==> (s < f ==> bank.End(s) < first) && (s >= f ==> first <= bank.End(s))
      ensures l >= 0 ==> (s <= l ==> bank.start[s] <= last) && (s > l ==> last < bank.start[s])
    {
      EndInBank(bank, s);
      if f >= 0 { EndInBank(bank, f); }
      if l >= 0 { EndInBank(bank, l); }
      assert f >= 0 && f < s ==> bank.start[f] < bank.start[s];
      assert l >= 0 && s < l ==> bank.start[s] < bank.start[l];
    }
    EndInBank(bank, n - 1);
  }

  // An exact first bank in front of an exact rest.
  lemma {:induction false} ConsExact(banks: seq<Bank>, x: Option<Range>, rest: Selection, first: int, last: int)
    requires banks != [] && |rest| == |banks| - 1
    requires x.Some? ==> x.value.first <= x.value.last < |banks[0].start|
    requires forall s :: 0 <= s < |banks[0].start| ==>
               (x.Some? && x.value.first <= s <= x.value.last <==> Meets(banks[0], s, first, last))
    requires Exact(banks[1..], rest, first, last)
    ensures Exact(banks, [x] + rest, first, last)
  {
    var sel := [x] + rest;
    forall b, s | 0 <= b < |banks| && 0 <= s < |banks[b].start|
      ensures Chosen(sel, b, s) <==> Meets(banks[b], s, first, last)
    {
      if b > 0 {
        assert banks[b] == banks[1..][b - 1];
        assert Chosen(sel, b, s) <==> Chosen(rest, b - 1, s);
      }
    }
    forall b | 0 <= b < |banks| && sel[b].Some?
      ensures sel[b].value.first <= sel[b].value.last < |banks[b].start|
    {
      if b > 0 {
        assert banks[b] == banks[1..][b - 1] && sel[b] == rest[b - 1];
      }
    }
  }

  // Once the range is used up, the later banks are left alone.
  lemma {:induction false} NothingLeft(banks: seq<Bank>, first: int, last: int)
    requires Contiguous(banks) && banks != [] && last <= banks[0].Hi()
    ensures Exact(banks[1..], seq(|banks| - 1, _ => None), first, last)
  {
    forall b, s | 0 <= b < |banks[1..]| && 0 <= s < |banks[1..][b].start|
      ensures !Meets(banks[1..][b], s, first, last)
    {
      LaterAbove(banks, b + 1, s);
    }
  }

  // Seen from the later banks, the range may as well start with them.
  lemma {:induction false} LaterSame(banks: seq<Bank>, sel: Selection, first: int, next: int, last: int)
    requires Contiguous(banks) && banks != [] && first <= next == banks[0].Hi() + 1
    requires Exact(banks[1..], sel, next, last)
    ensures Exact(banks[1..], sel, first, last)
  {
    forall b, s | 0 <= b < |banks[1..]| && 0 <= s < |banks[1..][b].start|
      ensures Meets(banks[1..][b], s, first, last) <==> Meets(banks[1..][b], s, next, last)
    {
      LaterAbove(banks, b + 1, s);
    }
  }

  ghost predicate Boundaries(banks: seq<Bank>, first: nat, last: nat) {
    Contiguous(banks) && first <= last && SectorStarts(banks, first) && SectorEnds(banks, last)
  }

  ghost predicate PlannedExactly(banks: seq<Bank>, from: nat, first: nat, last: nat) {
    AllValid(banks) && Plan(banks, from, last).Some? && Exact(banks, Plan(banks, from, last).value, first, last)
  }

  lemma {:induction false} RangeAfterBank(banks: seq<Bank>, first: nat, last: nat)
    requires Boundaries(banks, first, last) && first > banks[0].Hi()
    requires PlannedExactly(banks[1..], first, first, last)
    ensures PlannedExactly(banks, first, first, last)
  {
    BankExact(banks, first, last);
    ConsExact(banks, None, Plan(banks[1..], first, last).value, first, last);
  }

  lemma {:induction false} RangeInBank(banks: seq<Bank>, first: nat, last: nat)
    requires Boundaries(banks, first, last) && last <= banks[0].Hi()
    ensures PlannedExactly(banks, first, first, last)
  {
    BankExact(banks, first, last);
    NothingLeft(banks, first, last);
    var r := PlanBank(banks[0], first, last).r;
    ConsExact(banks, Some(r), seq(|banks| - 1, _ => None), first, last);
    assert Plan(banks[1..], last + 1, last) == Some(seq(|banks| - 1, _ => None));
  }

  lemma {:induction false} RangeAcrossBank(banks: seq<Bank>, first: nat, last: nat)
    requires Boundaries(banks, first, last) && first <= banks[0].Hi() < last
    requires PlannedExactly(banks[1..], banks[0].Hi() + 1, banks[0].Hi() + 1, last)
    ensures PlannedExactly(banks, first, first, last)
  {
    BankExact(banks, first, last);
    var sel := Plan(banks[1..], banks[0].Hi() + 1, last).value;
    LaterSame(banks, sel, first, banks[0].Hi() + 1, last);
    ConsExact(banks, Some(PlanBank(banks[0], first, last).r), sel, first, last);
  }

  lemma {:induction false} TailBoundaries(banks: seq<Bank>, first: nat, last: nat)
    requires Boundaries(banks, first, last)
    ensures first > banks[0].Hi() ==> Boundaries(banks[1..], first, last)
    ensures banks[0].Hi() < last ==> banks[0].Hi() + 1 >= 0 && Boundaries(banks[1..], banks[0].Hi() + 1, last)
  {
    WhichBank(banks, first);
    WhichBank(banks, last);
    EndInBank(banks[0], 0);
    if banks[0].Hi() < last {
      assert banks[1..][0].start[0] == banks[0].Hi() + 1;
    }
  }

  /** The plan for a range that starts and ends on sector boundaries of contiguous banks is exact. */
  lemma {:induction false} PlanIsExact(banks: seq<Bank>, first: nat, last: nat)
    requires Boundaries(banks, first, last)
    ensures PlannedExactly(banks, first, first, last)
    decreases |banks|
  {
    TailBoundaries(banks, first, last);
    if first > banks[0].Hi() {
      PlanIsExact(banks[1..], first, last);
      RangeAfterBank(banks, first, last);
    } else if last <= banks[0].Hi() {
      RangeInBank(banks, first, last);
    } else {
      PlanIsExact(banks[1..], banks[0].Hi() + 1, last);
      RangeAcrossBank(banks, first, last);
    }
  }

  // ---------- rounding the end ----------

  // Sector s of bank b holds address `a`.
  ghost predicate Holds(banks: seq<Bank>, b: int, s: int, a: int) {
    0 <= b < |banks| && 0 <= s < |banks[b].start| && banks[b].start[s] <= a <= banks[b].End(s)
  }

  /** flash_sect_roundb: moves an address to the end of its sector, and fails exactly if no sector holds it. */
  method RoundB(banks: seq<Bank>, addr0: nat) returns (ret: int, addr: int)
    ensures ret == 1 <==> forall b, s :: !Holds(banks, b, s, addr0)
    ensures ret == 0 || ret == 1
    ensures ret == 0 ==> exists b, s :: Holds(banks, b, s, addr0) && addr == banks[b].End(s)
    ensures ret == 1 ==> addr == addr0
  {
    addr := addr0;
    var b := 0;
    while b < |banks|
      invariant 0 <= b <= |banks| && addr == addr0
      invariant forall c, s :: c < b ==> !Holds(banks, c, s, addr0)
    {
      var bank := banks[b];
      for i := 0 to |bank.start|
        invariant addr == addr0 && forall s :: s < i ==> !Holds(banks, b, s, addr0)
      {
        var end := bank.End(i);
        if addr <= end && addr >= bank.start[i] {
          assert Holds(banks, b, i, addr0);
          addr := if addr < end then end else addr;
          return 0, addr;
        }
      }
      b := b + 1;
    }
    return 1, addr;
  }

  lemma {:induction false} MeetsUpToSectorEnd(banks: seq<Bank>, first: int, e: int, b: int, s: int, c: nat, t: nat)
    requires Contiguous(banks) && Holds(banks, b, s, e) && c < |banks| && t < |banks[c].start|
    ensures Meets(banks[c], t, first, e) <==> Meets(banks[c], t, first, banks[b].End(s))
  {
    if banks[c].start[t] <= banks[b].End(s) {
      SectorsDisjoint(banks, b, s, c, t);
    }
  }

  // A sector that does not start after another one ends, does not start after any of its addresses.
  lemma {:induction false} SectorsDisjoint(banks: seq<Bank>, b: nat, s: nat, c: nat, t: nat)
    requires Contiguous(banks) && b < |banks| && c < |banks| && s < |banks[b].start| && t < |banks[c].start|
    requires banks[c].start[t] <= banks[b].End(s)
    ensures banks[c].start[t] <= banks[b].start[s]
    decreases |banks|
  {
    EndInBank(banks[b], s);
    EndInBank(banks[c], t);
    if b == 0 && c > 0 {
      LaterAbove(banks, c, t);
    } else if c == 0 && b > 0 {
      LaterAbove(banks, b, s);
    } else if b > 0 {
      assert banks[1..][b - 1] == banks[b] && banks[1..][c - 1] == banks[c];
      SectorsDisjoint(banks[1..], b - 1, s, c - 1, t);
    }
  }

  /** "start +len": with a start on a sector boundary and an end inside the flash, the plan selects exactly the sectors
      that meet the len bytes from start. */
  lemma {:induction false} PlusLengthIsExact(banks: seq<Bank>, start: nat, len: nat, b: int, s: int)
    requires Contiguous(banks) && SectorStarts(banks, start) && len > 0 && Holds(banks, b, s, start + len - 1)
    ensures start <= banks[b].End(s) && PlannedExactly(banks, start, start, banks[b].End(s))
    ensures Exact(banks, Plan(banks, start, banks[b].End(s)).value, start, start + len - 1)
  {
    var last := banks[b].End(s);
    assert SectorEnds(banks, last);
    PlanIsExact(banks, start, last);
    forall c, t | 0 <= c < |banks| && 0 <= t < |banks[c].start|
      ensures Meets(banks[c], t, start, start + len - 1) <==> Meets(banks[c], t, start, last)
    {
      MeetsUpToSectorEnd(banks, start, start + len - 1, b, s, c, t);
    }
  }

  // ---------- the planner of the source ----------

  // The scan over the sectors of one bank.
  method ScanBank(bank: Bank, first: nat, last: nat) returns (f: int, l: int)
    requires bank.Valid() && first <= last
    ensures f == StartAt(bank, first, |bank.start|) && l == EndAt(bank, last, |bank.start|)
  {
    f, l := -1, -1;
    for sect := 0 to |bank.start|
      invariant f == StartAt(bank, first, sect) && l == EndAt(bank, last, sect)
    {
      EndInBank(bank, sect);
      var end := bank.End(sect);
      if first > end || last < bank.start[sect] {
        continue;
      }
      if first == bank.start[sect] { f := sect; }
      if last == end { l := sect; }
    }
  }

  function FirstOf(x: Option<Range>): int { if x.None? then -1 else x.value.first }

  function LastOf(x: Option<Range>): int { if x.None? then -1 else x.value.last }

  // One bank of the planning loop: the scan and the decision.
  method DecideBank(info: Bank, first: nat, last: nat) returns (err: bool, f: int, l: int, next: nat)
    requires (info.known ==> info.Valid()) && first <= last
    ensures match PlanBank(info, first, last)
            case Error => err
            case Skip => !err && f == -1 && l == -1 && next == first
            case Take(r) => !err && f == r.first && l == r.last && next == info.End(r.last) + 1
  {
    err, f, l, next := false, -1, -1, first;
    if !info.known { return; }
    f, l := ScanBank(info, first, last);
    if f >= 0 {
      if l < 0 {
        if last > info.Hi() { l := |info.start| - 1; } else { err := true; return; }
      }
      if l < f { err := true; return; }
      next := if l == |info.start| - 1 then info.Hi() + 1 else info.start[l + 1];
    } else if info.Lo() <= first < info.Hi() {
      err := true;
    } else if l >= 0 {
      err := true;
    }
  }

  ghost predicate Matches(sel: Selection, sFirst: seq<int>, sLast: seq<int>, sCount: int) {
    && |sFirst| == |sLast| == |sel| && sCount == Count(sel)
    && forall b :: 0 <= b < |sel| ==> sFirst[b] == FirstOf(sel[b]) && sLast[b] == LastOf(sel[b])
  }

  function Entry(step: Step): Option<Range> { if step.Take? then Some(step.r) else None }

  function NextFirst(bank: Bank, step: Step, first: nat): int
    requires step.Take? ==> step.r.last < |bank.start|
  {
    if step.Take? then bank.End(step.r.last) + 1 else first
  }

  // One iteration of the planning loop, seen from the plan.
  lemma {:induction false} PlanStep(banks: seq<Bank>, bank: nat, first: nat, last: nat, sel: Selection)
    requires AllValid(banks) && bank < |banks| && first <= last
    ensures var step := PlanBank(banks[bank], first, last);
            var plan := Append(sel, Plan(banks[bank..], first, last));
            && (step.Error? ==> plan.None?)
            && (!step.Error? ==>
                  var next := NextFirst(banks[bank], step, first);
                  next >= 0 && plan == Append(sel + [Entry(step)], Plan(banks[bank + 1..], next, last)))
  {
    var step := PlanBank(banks[bank], first, last);
    assert banks[bank..][0] == banks[bank] && banks[bank..][1..] == banks[bank + 1..];
    if step.Take? { TakeInside(banks[bank], first, last); }
    if !step.Error? {
      AppendPrepend(sel, Entry(step), Plan(banks[bank + 1..], NextFirst(banks[bank], step, first), last));
    }
  }

  lemma {:induction false} MatchesSnoc(sel: Selection, sFirst: seq<int>, sLast: seq<int>, sCount: int, x: Option<Range>)
    requires Matches(sel, sFirst, sLast, sCount)
    ensures Matches(sel + [x], sFirst + [FirstOf(x)], sLast + [LastOf(x)],
                    sCount + if x.Some? then x.value.last - x.value.first + 1 else 0)
  {
    CountSnoc(sel, x);
  }

  lemma {:induction false} MatchesNones(sel: Selection, sFirst: seq<int>, sLast: seq<int>, sCount: int, n: nat)
    requires Matches(sel, sFirst, sLast, sCount)
    ensures Matches(sel + seq(n, _ => None), sFirst + seq(n, _ => -1), sLast + seq(n, _ => -1), sCount)
  {
    CountNones(sel, n);
  }

  /** flash_fill_sect_ranges: computes the plan, or reports an error exactly when there is none. */
  method FillSectRanges(banks: seq<Bank>, addrFirst: nat, addrLast: nat)
    returns (rcode: int, sFirst: seq<int>, sLast: seq<int>, sCount: int)
    requires AllValid(banks)
    ensures rcode == if Plan(banks, addrFirst, addrLast).None? then 1 else 0
    ensures rcode == 0 ==> Matches(Plan(banks, addrFirst, addrLast).value, sFirst, sLast, sCount)
  {
    var first: nat, bank := addrFirst, 0;
    sFirst, sLast, sCount, rcode := [], [], 0, 0;
    ghost var sel: Selection, plan := [], Plan(banks, addrFirst, addrLast);
    assert banks[0..] == banks && (plan.Some? ==> [] + plan.value == plan.value);
    while bank < |banks| && first <= addrLast
      invariant 0 <= bank <= |banks| && |sel| == bank && Matches(sel, sFirst, sLast, sCount)
      invariant plan == Append(sel, Plan(banks[bank..], first, addrLast))
    {
      PlanStep(banks, bank, first, addrLast, sel);
      var err, f, l, next := DecideBank(banks[bank], first, addrLast);
      if err { return 1, [], [], 0; }
      ghost var x := Entry(PlanBank(banks[bank], first, addrLast));
      MatchesSnoc(sel, sFirst, sLast, sCount, x);
      sel := sel + [x];
      if f >= 0 { sCount := sCount + l - f + 1; }
      first, sFirst, sLast, bank := next, sFirst + [f], sLast + [l], bank + 1;
    }
    MatchesNones(sel, sFirst, sLast, sCount, |banks| - bank);
    sFirst := sFirst + seq(|banks| - bank, _ => -1);
    sLast := sLast + seq(|banks| - bank, _ => -1);
  }

  function Append(done: Selection, rest: Option<Selection>): Option<Selection> {
    if rest.None? then None else Some(done + rest.value)
  }

  lemma {:induction false} AppendPrepend(done: Selection, x: Option<Range>, rest: Option<Selection>)
    ensures Append(done, Prepend(x, rest)) == Append(done + [x], rest)
  {
    if rest.Some? {
      assert done + ([x] + rest.value) == done + [x] + rest.value;
    }
  }

  lemma {:induction false} CountSnoc(sel: Selection, x: Option<Range>)
    ensures Count(sel + [x]) == Count(sel) + if x.Some? then x.value.last - x.value.first + 1 else 0
  {
    if sel != [] {
      assert (sel + [x])[1..] == sel[1..] + [x];
      CountSnoc(sel[1..], x);
    }
  }

  lemma {:induction false} CountNones(sel: Selection, n: nat)
    ensures Count(sel + seq(n, _ => None)) == Count(sel)
    decreases n
  {
    if n == 0 {
      assert sel + seq(0, _ => None) == sel;
    } else {
      CountNones(sel + [None], n - 1);
      CountSnoc(sel, None);
      assert sel + [None] + seq(n - 1, _ => None) == sel + seq(n, _ => None);
    }
  }
}
