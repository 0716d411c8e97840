/**
 NOR flash erase commands on banks whose identified ones are contiguous: exactly when the planner succeeds, what it
 selects, and the command form "start +len" from its numbers to the sectors and their count.
 */
module NorErase {
  import opened Options
  import opened Nor

  // ---------- exactly when there is a plan ----------

  predicate Sound(banks: seq<Bank>) { forall b :: 0 <= b < |banks| ==> banks[b].known && banks[b].Valid() }

  // The address is inside a bank and not its last one.
  ghost predicate Inside(banks: seq<Bank>, a: int)
    requires Sound(banks)
  {
    exists b :: 0 <= b < |banks| && banks[b].Lo() <= a < banks[b].Hi()
  }

  // The address is behind all banks.
  ghost predicate Beyond(banks: seq<Bank>, a: int)
    requires Sound(banks)
  {
    forall b :: 0 <= b < |banks| ==> banks[b].Hi() < a
  }

  function Nothing(n: nat): Selection { seq(n, _ => None) }

  ghost predicate Plannable(banks: seq<Bank>, first: int, last: int)
    requires Sound(banks)
  {
    if SectorStarts(banks, first) then SectorEnds(banks, last) || Beyond(banks, last)
    else !Inside(banks, first) && !SectorEnds(banks, last)
  }

  lemma {:induction false} StartsLater(banks: seq<Bank>, a: int)
    requires banks != [] && SectorStarts(banks[1..], a)
    ensures SectorStarts(banks, a)
  {
    var b, s :| 0 <= b < |banks[1..]| && 0 <= s < |banks[1..][b].start| && banks[1..][b].start[s] == a;
    assert banks[b + 1].start[s] == a;
  }

  lemma {:induction false} EndsLater(banks: seq<Bank>, a: int)
    requires banks != [] && SectorEnds(banks[1..], a)
    ensures SectorEnds(banks, a)
  {
    var b, s :| 0 <= b < |banks[1..]| && 0 <= s < |banks[1..][b].start| && banks[1..][b].End(s) == a;
    assert banks[b + 1].End(s) == a;
  }

  lemma {:induction false} EndsCons(banks: seq<Bank>, a: int)
    requires banks != []
    ensures SectorEnds(banks, a) <==> EndAt(banks[0], a, |banks[0].start|) >= 0 || SectorEnds(banks[1..], a)
  {
    if SectorEnds(banks, a) {
      var b, s :| 0 <= b < |banks| && 0 <= s < |banks[b].start| && banks[b].End(s) == a;
      if b > 0 { assert banks[1..][b - 1].End(s) == a; }
    }
    if SectorEnds(banks[1..], a) { EndsLater(banks, a); }
  }

  lemma {:induction false} InsideCons(banks: seq<Bank>, a: int)
    requires banks != [] && Sound(banks)
    ensures Inside(banks, a) <==> banks[0].Lo() <= a < banks[0].Hi() || Inside(banks[1..], a)
  {
    if Inside(banks, a) {
      var b :| 0 <= b < |banks| && banks[b].Lo() <= a < banks[b].Hi();
      if b > 0 { assert banks[1..][b - 1] == banks[b]; }
    }
    if Inside(banks[1..], a) {
      var b :| 0 <= b < |banks[1..]| && banks[1..][b].Lo() <= a < banks[1..][b].Hi();
      assert banks[b + 1] == banks[1..][b];
    }
  }

  // From an address where no sector starts nothing is selected, with or without an error.
  lemma {:induction false} NoStart(banks: seq<Bank>, first: nat, last: nat)
    requires Sound(banks) && first <= last
    requires !SectorStarts(banks, first)
    ensures Plan(banks, first, last)
         == if Inside(banks, first) || SectorEnds(banks, last) then None else Some(Nothing(|banks|))
    decreases |banks|
  {
    if banks != [] {
      if SectorStarts(banks[1..], first) { StartsLater(banks, first); }
      NoStart(banks[1..], first, last);
      EndsCons(banks, last);
      InsideCons(banks, first);
      assert [None] + Nothing(|banks| - 1) == Nothing(|banks|);
    }
  }

  // A bank below the range.
  lemma {:induction false} SkipsBelow(banks: seq<Bank>, first: nat, last: nat)
    requires banks != [] && Sound(banks) && banks[0].Hi() < first <= last
    ensures Plan(banks, first, last) == Prepend(None, Plan(banks[1..], first, last))
  {
    NoEndAbove(banks[0], last);
  }

  // A bank where the range starts and does not end.
  lemma {:induction false} TakesRest(banks: seq<Bank>, first: nat, last: nat)
    requires banks != [] && Sound(banks) && first <= banks[0].Hi() < last
    requires StartAt(banks[0], first, |banks[0].start|) >= 0
    ensures var n := |banks[0].start|;
            && banks[0].Hi() + 1 >= 0
            && Plan(banks, first, last)
               == Prepend(Some(Range(StartAt(banks[0], first, n), n - 1)), Plan(banks[1..], banks[0].Hi() + 1, last))
  {
    NoEndAbove(banks[0], last);
  }

  // A bank where the range starts, and where it ends inside a sector.
  lemma {:induction false} EndsInside(banks: seq<Bank>, first: nat, last: nat)
    requires banks != [] && Sound(banks) && first <= last <= banks[0].Hi()
    requires StartAt(banks[0], first, |banks[0].start|) >= 0 && EndAt(banks[0], last, |banks[0].start|) < 0
    ensures Plan(banks, first, last).None?
  {
  }

  lemma {:induction false} FirstBank(banks: seq<Bank>, first: nat)
    requires Contiguous(banks) && banks != [] && SectorStarts(banks, first)
    ensures if banks[0].Hi() < first then SectorStarts(banks[1..], first)
            else StartAt(banks[0], first, |banks[0].start|) >= 0
  {
    WhichBank(banks, first);
  }

  // The same conditions, bank by bank: ascending banks, a start, no end, and an end that is not behind the flash.
  predicate Ascending(banks: seq<Bank>)
    decreases |banks|
  {
    banks == [] ||
    (banks[0].known && banks[0].Valid() && Ascending(banks[1..]) && (|banks| > 1 ==> banks[0].Hi() + 1 == banks[1].Lo()))
  }

  predicate StartsIn(banks: seq<Bank>, first: int)
    requires Ascending(banks)
    decreases |banks|
  {
    banks != [] &&
    if banks[0].Hi() < first then StartsIn(banks[1..], first) else StartAt(banks[0], first, |banks[0].start|) >= 0
  }

  predicate EndsNowhere(banks: seq<Bank>, last: int)
    decreases |banks|
  {
    banks == [] || (EndAt(banks[0], last, |banks[0].start|) < 0 && EndsNowhere(banks[1..], last))
  }

  predicate Past(banks: seq<Bank>, last: int)
    requires Ascending(banks)
    decreases |banks|
  {
    banks == [] || (banks[0].Hi() < last && Past(banks[1..], last))
  }

  lemma {:induction false} ContiguousAscends(banks: seq<Bank>)
    requires Contiguous(banks)
    ensures Ascending(banks)
    decreases |banks|
  {
    if banks != [] { ContiguousAscends(banks[1..]); }
  }

  lemma {:induction false} StartsIsIn(banks: seq<Bank>, first: nat)
    requires Contiguous(banks) && Ascending(banks) && SectorStarts(banks, first)
    ensures StartsIn(banks, first)
    decreases |banks|
  {
    FirstBank(banks, first);
    if banks[0].Hi() < first { StartsIsIn(banks[1..], first); }
  }

  lemma {:induction false} EndsIsNowhere(banks: seq<Bank>, last: int)
    requires !SectorEnds(banks, last)
    ensures EndsNowhere(banks, last)
    decreases |banks|
  {
    if banks != [] {
      EndsCons(banks, last);
      EndsIsNowhere(banks[1..], last);
    }
  }

  lemma {:induction false} BeyondIsPast(banks: seq<Bank>, last: int)
    requires Sound(banks) && Ascending(banks)
    ensures Beyond(banks, last) <==> Past(banks, last)
    decreases |banks|
  {
    if banks != [] {
      BeyondCons(banks, last);
      BeyondIsPast(banks[1..], last);
    }
  }

  // The next bank starts behind the first one.
  lemma {:induction false} NextStartsIn(banks: seq<Bank>)
    requires Ascending(banks) && |banks| > 1
    ensures 0 <= banks[0].Hi() + 1 && StartsIn(banks[1..], banks[0].Hi() + 1)
  {
    var next := banks[1..][0];
    EndInBank(next, 0);
    assert next.start[0] == banks[0].Hi() + 1;
  }

  // From a sector start to an address inside the flash where no sector ends there is no plan.
  lemma {:induction false} NoEnd(banks: seq<Bank>, first: nat, last: nat)
    requires Ascending(banks) && Sound(banks) && first <= last && StartsIn(banks, first) && EndsNowhere(banks, last)
    requires !Past(banks, last)
    ensures Plan(banks, first, last).None?
    decreases |banks|
  {
    if last <= banks[0].Hi() {
      EndsInside(banks, first, last);
    } else if banks[0].Hi() < first {
      NoEnd(banks[1..], first, last);
      SkipsBelow(banks, first, last);
    } else {
      NextStartsIn(banks);
      NoEnd(banks[1..], banks[0].Hi() + 1, last);
      TakesRest(banks, first, last);
    }
  }

  lemma {:induction false} BeyondCons(banks: seq<Bank>, a: int)
    requires banks != [] && Sound(banks)
    ensures Beyond(banks, a) <==> banks[0].Hi() < a && Beyond(banks[1..], a)
  {
    if banks[0].Hi() < a && Beyond(banks[1..], a) {
      forall b | 0 <= b < |banks| ensures banks[b].Hi() < a { if b > 0 { assert banks[1..][b - 1] == banks[b]; } }
    }
    if Beyond(banks, a) {
      forall b | 0 <= b < |banks[1..]| ensures banks[1..][b].Hi() < a { assert banks[1..][b] == banks[b + 1]; }
    }
  }

  function Top(banks: seq<Bank>): int
    requires banks != [] && banks[|banks| - 1].start != []
  {
    banks[|banks| - 1].Hi()
  }

  lemma {:induction false} TopIsHighest(banks: seq<Bank>, b: nat, s: nat)
    requires Contiguous(banks) && b < |banks| && s < |banks[b].start|
    ensures banks[b].End(s) <= Top(banks) && SectorEnds(banks, Top(banks))
    decreases |banks| - b
  {
    var last := banks[|banks| - 1];
    assert last.End(|last.start| - 1) == Top(banks);
    EndInBank(banks[b], s);
    if b + 1 < |banks| {
      EndInBank(banks[b + 1], 0);
      TopIsHighest(banks, b + 1, 0);
      if b + 1 == |banks| - 1 { EndInBank(banks[b + 1], 0); }
    }
  }

  lemma {:induction false} TopBounds(banks: seq<Bank>, first: nat, last: nat)
    requires Ascending(banks) && Sound(banks) && StartsIn(banks, first) && Past(banks, last)
    ensures first <= Top(banks) < last
    decreases |banks|
  {
    if |banks| == 1 {
      assert !StartsIn(banks[1..], first);
    } else {
      LaterTop(banks);
      NextStartsIn(banks);
      TopBounds(banks[1..], if banks[0].Hi() < first then first else banks[0].Hi() + 1, last);
    }
  }

  // An end behind the last bank is cut to its last address.
  lemma {:induction false} PlanPastEnd(banks: seq<Bank>, first: nat, last: nat)
    requires Ascending(banks) && Sound(banks) && StartsIn(banks, first) && Past(banks, last) && Top(banks) >= 0
    ensures Plan(banks, first, last) == Plan(banks, first, Top(banks))
    decreases |banks|
  {
    TopBounds(banks, first, last);
    if |banks| == 1 {
      OneBank(banks, first, last);
    } else {
      LaterTop(banks);
      if banks[0].Hi() < first {
        PlanPastEnd(banks[1..], first, last);
        BothSkip(banks, first, last);
      } else {
        NextStartsIn(banks);
        TopBounds(banks[1..], banks[0].Hi() + 1, last);
        PlanPastEnd(banks[1..], banks[0].Hi() + 1, last);
        BothTake(banks, first, last);
      }
    }
  }

  lemma {:induction false} LaterTop(banks: seq<Bank>)
    requires |banks| > 1 && Sound(banks)
    ensures Sound(banks[1..]) && Top(banks[1..]) == Top(banks)
  {
  }

  lemma {:induction false} OneBank(banks: seq<Bank>, first: nat, last: nat)
    requires |banks| == 1 && Sound(banks) && first <= banks[0].Hi() < last
    requires StartAt(banks[0], first, |banks[0].start|) >= 0
    ensures Plan(banks, first, last) == Plan(banks, first, banks[0].Hi())
  {
    LastBank(banks[0], first, last);
    assert banks[1..] == [];
  }

  lemma {:induction false} BothSkip(banks: seq<Bank>, first: nat, last: nat)
    requires |banks| > 1 && Sound(banks) && banks[0].Hi() < first <= Top(banks) <= last
    requires Plan(banks[1..], first, last) == Plan(banks[1..], first, Top(banks))
    ensures Plan(banks, first, last) == Plan(banks, first, Top(banks))
  {
    SkipsBelow(banks, first, last);
    SkipsBelow(banks, first, Top(banks));
  }

  lemma {:induction false} BothTake(banks: seq<Bank>, first: nat, last: nat)
    requires |banks| > 1 && Sound(banks) && first <= banks[0].Hi() < Top(banks) <= last
    requires StartAt(banks[0], first, |banks[0].start|) >= 0
    requires Plan(banks[1..], banks[0].Hi() + 1, last) == Plan(banks[1..], banks[0].Hi() + 1, Top(banks))
    ensures Plan(banks, first, last) == Plan(banks, first, Top(banks))
  {
    TakesRest(banks, first, last);
    TakesRest(banks, first, Top(banks));
  }

  lemma {:induction false} NoEndAbove(bank: Bank, a: int)
    requires bank.Valid() && a > bank.Hi()
    ensures EndAt(bank, a, |bank.start|) == -1
  {
    var l := EndAt(bank, a, |bank.start|);
    if l >= 0 { EndInBank(bank, l); }
  }

  // In the last bank an end at the top and an end behind it select the same.
  lemma {:induction false} LastBank(bank: Bank, first: nat, last: nat)
    requires bank.known && bank.Valid() && first <= bank.Hi() < last && StartAt(bank, first, |bank.start|) >= 0
    ensures PlanBank(bank, first, last) == PlanBank(bank, first, bank.Hi())
  {
    var n := |bank.start|;
    NoEndAbove(bank, last);
    EndIsLast(bank, n);
  }

  lemma {:induction false} EndIsLast(bank: Bank, n: nat)
    requires bank.Valid() && n == |bank.start|
    ensures EndAt(bank, bank.Hi(), n) == n - 1
  {
    assert bank.End(n - 1) == bank.Hi();
  }

  lemma {:induction false} ExactPastEnd(banks: seq<Bank>, sel: Selection, first: int, last: int)
    requires Contiguous(banks) && banks != [] && Exact(banks, sel, first, Top(banks)) && Top(banks) < last
    ensures Exact(banks, sel, first, last)
  {
    forall b, s | 0 <= b < |banks| && 0 <= s < |banks[b].start|
      ensures Meets(banks[b], s, first, last) <==> Meets(banks[b], s, first, Top(banks))
    {
      TopIsHighest(banks, b, s);
      EndInBank(banks[b], s);
    }
  }

  // All banks known.
  lemma {:induction false} KnownPlanIff(banks: seq<Bank>, first: nat, last: nat)
    requires Contiguous(banks) && first <= last
    ensures AllValid(banks) && (Plan(banks, first, last).Some? <==> Plannable(banks, first, last))
    ensures Plannable(banks, first, last) ==>
              if SectorStarts(banks, first) then Exact(banks, Plan(banks, first, last).value, first, last)
              else Plan(banks, first, last).value == Nothing(|banks|)
  {
    if !SectorStarts(banks, first) {
      NoStart(banks, first, last);
    } else if SectorEnds(banks, last) {
      PlanIsExact(banks, first, last);
    } else if Beyond(banks, last) {
      ContiguousAscends(banks);
      StartsIsIn(banks, first);
      BeyondIsPast(banks, last);
      TopBounds(banks, first, last);
      PlanPastEnd(banks, first, last);
      var b, s :| 0 <= b < |banks| && 0 <= s < |banks[b].start| && banks[b].start[s] == first;
      TopIsHighest(banks, b, s);
      PlanIsExact(banks, first, Top(banks));
      ExactPastEnd(banks, Plan(banks, first, Top(banks)).value, first, last);
    } else {
      ContiguousAscends(banks);
      StartsIsIn(banks, first);
      EndsIsNowhere(banks, last);
      BeyondIsPast(banks, last);
      NoEnd(banks, first, last);
    }
  }

  // ---------- unknown banks ----------

  /** The banks that were identified. */
  function Known(banks: seq<Bank>): (k: seq<Bank>)
    ensures |k| <= |banks|
    decreases |banks|
  {
    if banks == [] then [] else (if banks[0].known then [banks[0]] else []) + Known(banks[1..])
  }

  // A selection in the known banks, with nothing in the others.
  function Spread(banks: seq<Bank>, sel: Selection): (r: Selection)
    requires |sel| == |Known(banks)|
    ensures |r| == |banks|
    decreases |banks|
  {
    if banks == [] then []
    else if banks[0].known then [sel[0]] + Spread(banks[1..], sel[1..])
    else [None] + Spread(banks[1..], sel)
  }

  function Spreads(banks: seq<Bank>, plan: Option<Selection>): Option<Selection>
    requires plan.Some? ==> |plan.value| == |Known(banks)|
  {
    if plan.None? then None else Some(Spread(banks, plan.value))
  }

  lemma {:induction false} KnownCons(banks: seq<Bank>)
    requires banks != []
    ensures banks[0].known ==> Known(banks) != [] && Known(banks)[0] == banks[0] && Known(banks)[1..] == Known(banks[1..])
    ensures !banks[0].known ==> Known(banks) == Known(banks[1..])
  {
  }

  lemma {:induction false} AllKnownValid(banks: seq<Bank>)
    requires AllValid(banks)
    ensures AllValid(Known(banks))
    decreases |banks|
  {
    if banks != [] {
      AllKnownValid(banks[1..]);
      KnownCons(banks);
      var k := Known(banks);
      forall b | 0 <= b < |k| && k[b].known ensures k[b].Valid() {
        if banks[0].known && b > 0 { assert k[b] == k[1..][b - 1]; }
      }
    }
  }

  lemma {:induction false} SpreadNothing(banks: seq<Bank>)
    ensures Spread(banks, Nothing(|Known(banks)|)) == Nothing(|banks|)
    decreases |banks|
  {
    if banks != [] {
      KnownCons(banks);
      SpreadNothing(banks[1..]);
      if banks[0].known { assert Nothing(|Known(banks)|)[1..] == Nothing(|Known(banks[1..])|); }
      assert [None] + Nothing(|banks| - 1) == Nothing(|banks|);
    }
  }

  lemma {:induction false} PlanNothing(banks: seq<Bank>, first: nat, last: nat)
    requires AllValid(banks) && first > last
    ensures Plan(banks, first, last) == Some(Nothing(|banks|))
  {
    assert Plan(banks, first, last).value == Nothing(|banks|);
  }

  /**
   For any banks there is a plan if and only if there is one for the known banks alone; it selects the same sectors there,
   and nothing in an unknown bank.
   */
  lemma {:induction false} PlanSkipsUnknown(banks: seq<Bank>, first: nat, last: nat)
    requires AllValid(banks)
    ensures AllValid(Known(banks)) && Plan(banks, first, last) == Spreads(banks, Plan(Known(banks), first, last))
    decreases |banks|
  {
    AllKnownValid(banks);
    if first > last {
      SpreadNothing(banks);
      PlanNothing(banks, first, last);
      PlanNothing(Known(banks), first, last);
    } else if banks != [] {
      KnownCons(banks);
      if !banks[0].known {
        PlanSkipsUnknown(banks[1..], first, last);
      } else {
        KnownFirst(banks, first, last);
      }
    }
  }

  lemma {:induction false} KnownFirst(banks: seq<Bank>, first: nat, last: nat)
    requires banks != [] && banks[0].known && AllValid(banks) && AllValid(Known(banks)) && first <= last
    ensures Plan(banks, first, last) == Spreads(banks, Plan(Known(banks), first, last))
    decreases |banks|, 0
  {
    KnownCons(banks);
    var step := PlanBank(banks[0], first, last);
    if !step.Error? {
      if step.Take? { TakeInside(banks[0], first, last); }
      var next := NextFirst(banks[0], step, first);
      PlanSkipsUnknown(banks[1..], next, last);
      PrependSpreads(banks, Entry(step), Plan(Known(banks[1..]), next, last));
    }
  }

  lemma {:induction false} PrependSpreads(banks: seq<Bank>, x: Option<Range>, plan: Option<Selection>)
    requires banks != [] && banks[0].known && (plan.Some? ==> |plan.value| == |Known(banks[1..])|)
    ensures |Known(banks)| == |Known(banks[1..])| + 1
    ensures Prepend(x, Spreads(banks[1..], plan)) == Spreads(banks, Prepend(x, plan))
  {
    KnownCons(banks);
    if plan.Some? { assert ([x] + plan.value)[1..] == plan.value; }
  }

  lemma {:induction false} CountSpread(banks: seq<Bank>, sel: Selection)
    requires |sel| == |Known(banks)|
    ensures Count(Spread(banks, sel)) == Count(sel)
    decreases |banks|
  {
    if banks != [] {
      KnownCons(banks);
      CountSpread(banks[1..], if banks[0].known then sel[1..] else sel);
      assert Spread(banks, sel)[1..] == Spread(banks[1..], if banks[0].known then sel[1..] else sel);
    }
  }

  /** The selection is exactly the sectors of known banks that meet the range. */
  ghost predicate ExactKnown(banks: seq<Bank>, sel: Selection, first: int, last: int) {
    && |sel| == |banks|
    && forall b, s :: 0 <= b < |banks| && 0 <= s < |banks[b].start| ==>
         (Chosen(sel, b, s) <==> banks[b].known && Meets(banks[b], s, first, last))
  }

  predicate InRange(x: Option<Range>, s: nat) { x.Some? && x.value.first <= s <= x.value.last }

  // The selection of one bank.
  ghost predicate ExactIn(bank: Bank, x: Option<Range>, first: int, last: int) {
    forall s: nat :: s < |bank.start| ==> (InRange(x, s) <==> bank.known && Meets(bank, s, first, last))
  }

  lemma {:induction false} ExactKnownCons(banks: seq<Bank>, x: Option<Range>, rest: Selection, first: int, last: int)
    requires banks != [] && ExactKnown(banks[1..], rest, first, last) && ExactIn(banks[0], x, first, last)
    ensures ExactKnown(banks, [x] + rest, first, last)
  {
    var sel := [x] + rest;
    forall b, s | 0 <= b < |banks| && 0 <= s < |banks[b].start|
      ensures Chosen(sel, b, s) <==> banks[b].known && Meets(banks[b], s, first, last)
    {
      if b > 0 {
        assert banks[b] == banks[1..][b - 1];
        assert Chosen(sel, b, s) <==> Chosen(rest, b - 1, s);
      } else {
        assert Chosen(sel, 0, s) <==> InRange(x, s);
      }
    }
  }

  lemma {:induction false} SpreadExact(banks: seq<Bank>, sel: Selection, first: int, last: int)
    requires Exact(Known(banks), sel, first, last)
    ensures ExactKnown(banks, Spread(banks, sel), first, last)
    decreases |banks|
  {
    if banks != [] {
      KnownCons(banks);
      if banks[0].known {
        ExactTail(Known(banks), sel, first, last);
        FirstExact(Known(banks), sel, first, last);
        SpreadExact(banks[1..], sel[1..], first, last);
        ExactKnownCons(banks, sel[0], Spread(banks[1..], sel[1..]), first, last);
      } else {
        SpreadExact(banks[1..], sel, first, last);
        ExactKnownCons(banks, None, Spread(banks[1..], sel), first, last);
      }
    }
  }

  // A known bank is among the known banks.
  lemma {:induction false} KnownAt(banks: seq<Bank>, b: nat) returns (k: nat)
    requires b < |banks| && banks[b].known
    ensures k < |Known(banks)| && Known(banks)[k] == banks[b]
    decreases |banks|
  {
    KnownCons(banks);
    if b == 0 {
      k := 0;
    } else {
      var j := KnownAt(banks[1..], b - 1);
      k := if banks[0].known then j + 1 else j;
      if banks[0].known { assert Known(banks)[1..][j] == Known(banks)[j + 1]; }
    }
  }

  lemma {:induction false} ContiguousValid(banks: seq<Bank>)
    requires Contiguous(Known(banks))
    ensures AllValid(banks)
  {
    forall b | 0 <= b < |banks| && banks[b].known ensures banks[b].Valid() { var k := KnownAt(banks, b); }
  }

  /**
   With contiguous known banks there is a plan if and only if the range starts on a sector boundary of them and ends on one
   or behind them, or it does neither and does not start inside a known bank.  In the first case the plan is exactly the
   sectors of known banks that meet the range, in the second it is empty.
   */
  lemma {:induction false} PlanIff(banks: seq<Bank>, first: nat, last: nat)
    requires Contiguous(Known(banks)) && first <= last
    ensures AllValid(banks) && (Plan(banks, first, last).Some? <==> Plannable(Known(banks), first, last))
    ensures Plannable(Known(banks), first, last) ==>
              if SectorStarts(Known(banks), first) then ExactKnown(banks, Plan(banks, first, last).value, first, last)
              else Plan(banks, first, last).value == Nothing(|banks|)
  {
    ContiguousValid(banks);
    KnownPlanIff(Known(banks), first, last);
    PlanSkipsUnknown(banks, first, last);
    if Plannable(Known(banks), first, last) {
      if SectorStarts(Known(banks), first) {
        SpreadExact(banks, Plan(Known(banks), first, last).value, first, last);
      } else {
        SpreadNothing(banks);
      }
    }
  }

  // ---------- counting ----------

  // The sectors of a bank below n that meet the range, and those of all banks.
  function Meeting(bank: Bank, first: int, last: int, n: nat): nat
    requires n <= |bank.start|
  {
    if n == 0 then 0 else Meeting(bank, first, last, n - 1) + if Meets(bank, n - 1, first, last) then 1 else 0
  }

  function AllMeeting(banks: seq<Bank>, first: int, last: int): nat
    decreases |banks|
  {
    if banks == [] then 0 else Meeting(banks[0], first, last, |banks[0].start|) + AllMeeting(banks[1..], first, last)
  }

  lemma {:induction false} CountRange(bank: Bank, first: int, last: int, r: Range, n: nat)
    requires n <= |bank.start| && r.first <= r.last
    requires forall s :: 0 <= s < n ==> (r.first <= s <= r.last <==> Meets(bank, s, first, last))
    ensures Meeting(bank, first, last, n)
         == if n <= r.first then 0 else (if n <= r.last then n else r.last + 1) - r.first
    decreases n
  {
    if n > 0 { CountRange(bank, first, last, r, n - 1); }
  }

  lemma {:induction false} CountNone(bank: Bank, first: int, last: int, n: nat)
    requires n <= |bank.start| && forall s :: 0 <= s < n ==> !Meets(bank, s, first, last)
    ensures Meeting(bank, first, last, n) == 0
    decreases n
  {
    if n > 0 { CountNone(bank, first, last, n - 1); }
  }

  lemma {:induction false} ExactTail(banks: seq<Bank>, sel: Selection, first: int, last: int)
    requires banks != [] && Exact(banks, sel, first, last)
    ensures Exact(banks[1..], sel[1..], first, last)
  {
    forall b, s | 0 <= b < |banks[1..]| && 0 <= s < |banks[1..][b].start|
      ensures Chosen(sel[1..], b, s) <==> Meets(banks[1..][b], s, first, last)
    {
      assert banks[1..][b] == banks[b + 1];
      assert Chosen(sel, b + 1, s) <==> Chosen(sel[1..], b, s);
    }
  }

  /** The count of an exact selection is the number of sectors that meet the range. */
  lemma {:induction false} CountIsMeeting(banks: seq<Bank>, sel: Selection, first: int, last: int)
    requires Exact(banks, sel, first, last)
    ensures Count(sel) == AllMeeting(banks, first, last)
    decreases |banks|
  {
    if banks != [] {
      ExactTail(banks, sel, first, last);
      CountIsMeeting(banks[1..], sel[1..], first, last);
      FirstExact(banks, sel, first, last);
      if sel[0].Some? {
        CountRange(banks[0], first, last, sel[0].value, |banks[0].start|);
      } else {
        CountNone(banks[0], first, last, |banks[0].start|);
      }
    }
  }

  lemma {:induction false} FirstExact(banks: seq<Bank>, sel: Selection, first: int, last: int)
    requires banks != [] && Exact(banks, sel, first, last)
    ensures forall s :: 0 <= s < |banks[0].start| ==>
              (sel[0].Some? && sel[0].value.first <= s <= sel[0].value.last <==> Meets(banks[0], s, first, last))
  {
    forall s | 0 <= s < |banks[0].start|
      ensures sel[0].Some? && sel[0].value.first <= s <= sel[0].value.last <==> Meets(banks[0], s, first, last)
    {
      assert Chosen(sel, 0, s) <==> Meets(banks[0], s, first, last);
    }
  }

  // ---------- the command ----------

  // Some sector holds the address.
  ghost predicate InFlash(banks: seq<Bank>, a: int) { exists b, s :: Holds(banks, b, s, a) }

  /** addr_spec, from the numbers: with "+len" the last address of the range is rounded up to the end of its sector. */
  method AddrSpec(banks: seq<Bank>, first: nat, second: nat, plus: bool) returns (ret: int, last: int)
    requires plus ==> first + second > 0
    ensures ret == 1 || ret == -1
    ensures ret == 1 <==> !plus || InFlash(banks, first + second - 1)
    ensures ret == 1 && !plus ==> last == second
    ensures ret == 1 && plus ==> exists b, s :: Holds(banks, b, s, first + second - 1) && last == banks[b].End(s)
  {
    if !plus { return 1, second; }
    var r, end := RoundB(banks, first + second - 1);
    if r > 0 { return -1, end; }
    return 1, end;
  }

  predicate Selects(sFirst: seq<int>, sLast: seq<int>, b: nat, s: nat) {
    b < |sFirst| && b < |sLast| && 0 <= sFirst[b] <= s <= sLast[b]
  }

  lemma {:induction false} SelectsChosen(sel: Selection, sFirst: seq<int>, sLast: seq<int>, sCount: int, b: nat, s: nat)
    requires Matches(sel, sFirst, sLast, sCount)
    ensures Selects(sFirst, sLast, b, s) <==> Chosen(sel, b, s)
  {
  }

  // No bank that was not identified claims the address.
  ghost predicate OnlyKnown(banks: seq<Bank>, a: int) { forall b, s :: Holds(banks, b, s, a) ==> banks[b].known }

  // The plan of "start +len" once its end has been rounded in a known bank.
  lemma {:induction false} RoundedPlan(banks: seq<Bank>, start: nat, len: nat, b: nat, s: nat)
    requires Contiguous(Known(banks)) && SectorStarts(Known(banks), start) && len > 0
    requires Holds(banks, b, s, start + len - 1) && banks[b].known
    ensures var last := banks[b].End(s);
            && start <= last && AllValid(banks) && Plan(banks, start, last).Some?
            && ExactKnown(banks, Plan(banks, start, last).value, start, start + len - 1)
            && Count(Plan(banks, start, last).value) == AllMeeting(Known(banks), start, start + len - 1)
  {
    var last := banks[b].End(s);
    var k := KnownAt(banks, b);
    assert Holds(Known(banks), k, s, start + len - 1);
    PlusLengthIsExact(Known(banks), start, len, k, s);
    ContiguousValid(banks);
    PlanSkipsUnknown(banks, start, last);
    var sel := Plan(Known(banks), start, last).value;
    CountIsMeeting(Known(banks), sel, start, start + len - 1);
    CountSpread(banks, sel);
    SpreadExact(banks, sel, start, start + len - 1);
  }

  /**
   "erase start +len" up to the erasing itself, with contiguous known banks and a start on a sector boundary: an error
   exactly if no sector holds the last byte, and otherwise, unless an unknown bank claims that byte, exactly the sectors of
   known banks that meet the len bytes, with their number.
   */
  method PlusLength(banks: seq<Bank>, start: nat, len: nat)
    returns (ret: int, rcode: int, sFirst: seq<int>, sLast: seq<int>, sCount: int)
    requires Contiguous(Known(banks)) && SectorStarts(Known(banks), start) && len > 0
    ensures ret == if InFlash(banks, start + len - 1) then 1 else -1
    ensures ret == 1 && OnlyKnown(banks, start + len - 1) ==>
              && rcode == 0 && sCount == AllMeeting(Known(banks), start, start + len - 1) && |sFirst| == |sLast| == |banks|
              && forall b, s :: 0 <= b < |banks| && 0 <= s < |banks[b].start| ==>
                   (Selects(sFirst, sLast, b, s) <==> banks[b].known && Meets(banks[b], s, start, start + len - 1))
  {
    ContiguousValid(banks);
    var last;
    ret, last := AddrSpec(banks, start, len, true);
    if ret != 1 { return ret, 1, [], [], 0; }
    ghost var b, s :| Holds(banks, b, s, start + len - 1) && last == banks[b].End(s);
    rcode, sFirst, sLast, sCount := FillSectRanges(banks, start, last);
    if OnlyKnown(banks, start + len - 1) {
      RoundedPlan(banks, start, len, b, s);
      ghost var sel := Plan(banks, start, last).value;
      forall b, s | 0 <= b < |banks| && 0 <= s < |banks[b].start|
        ensures Selects(sFirst, sLast, b, s) <==> banks[b].known && Meets(banks[b], s, start, start + len - 1)
      {
        SelectsChosen(sel, sFirst, sLast, sCount, b, s);
        assert Chosen(sel, b, s) <==> banks[b].known && Meets(banks[b], s, start, start + len - 1);
      }
    }
  }

  // An unknown bank in front of a bank with one sector of 16 bytes: the sector is selected.
  lemma {:induction false} UnknownFirst(unknown: Bank)
    requires !unknown.known
    ensures var banks := [unknown, Bank(true, [0], 16)];
            AllValid(banks) && Plan(banks, 0, 15) == Some([None, Some(Range(0, 0))])
  {
    var bank := Bank(true, [0], 16);
    var banks := [unknown, bank];
    assert banks[1..] == [bank] && [bank][1..] == [];
    assert StartAt(bank, 0, 1) == 0 && EndAt(bank, 15, 1) == 0;
    assert Plan([], 16, 15) == Some([]);
    assert [Some(Range(0, 0))] + [] == [Some(Range(0, 0))];
    assert Plan([bank], 0, 15) == Some([Some(Range(0, 0))]);
    assert Plan(banks, 0, 15) == Prepend(None, Plan([bank], 0, 15));
    assert Prepend(None, Plan([bank], 0, 15)).value == [None, Some(Range(0, 0))];
  }
}
