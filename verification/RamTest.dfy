/**
 The alternative RAM test, over memory that may be faulty: an address decoder maps every tested word and the
 parking word to a cell, and every cell has bits stuck at one or at zero.  The test is exact: it reports no error
 if and only if the decoder is injective on the tested words, no tested bit is stuck, and the parking word does
 not share the cell of word 0.  Words are 32 bits wide; the error counter is shown to fit a word.
 */
module RamTest {
  const MAX := 0xffff_ffff

  type word = x: int | 0 <= x <= MAX

  function Not(v: word): word { MAX - v }

  // A 32-bit shift to the left by one.
  function Shl1(v: word): word { if v * 2 > MAX then v * 2 - MAX - 1 else v * 2 }

  function Pow2(k: nat): (p: nat)
    ensures p > 0
  {
    if k == 0 then 1 else 2 * Pow2(k - 1)
  }

  lemma {:induction false} Pow2Values()
    ensures Pow2(30) == 0x4000_0000 && Pow2(32) == MAX + 1
  {
    assert Pow2(8) == 0x100;
    assert Pow2(16) == 0x1_0000;
    assert Pow2(24) == 0x100_0000;
  }

  // ---------- stuck bits ----------

  // The k low bits shown for `v` when the bits of `one` are stuck at one and those of `zero` at zero.
  function Mix(v: nat, one: nat, zero: nat, k: nat): nat {
    if k == 0 then 0
    else (if zero % 2 == 1 then 0 else if one % 2 == 1 then 1 else v % 2) + 2 * Mix(v / 2, one / 2, zero / 2, k - 1)
  }

  // What a cell with stuck bits `one` and `zero` shows when it holds `v`.
  function Seen(v: word, one: word, zero: word): nat { Mix(v, one, zero, 32) }

  lemma {:induction false} MixHealthy(v: nat, k: nat)
    requires v < Pow2(k)
    ensures Mix(v, 0, 0, k) == v
  {
    if k > 0 { MixHealthy(v / 2, k - 1); }
  }

  lemma {:induction false} HealthyShows(v: word)
    ensures Seen(v, 0, 0) == v
  {
    Pow2Values();
    MixHealthy(v, 32);
  }

  // A value and its complement, both shown by the same cell, leave no room for a stuck bit.
  lemma {:induction false} ShownBothWays(x: nat, y: nat, v: nat, one: nat, zero: nat, k: nat)
    requires v < Pow2(k) && one < Pow2(k) && zero < Pow2(k)
    requires Mix(x, one, zero, k) == v && Mix(y, one, zero, k) == Pow2(k) - 1 - v
    ensures one == 0 && zero == 0
  {
    if k > 0 {
      ShownBothWays(x / 2, y / 2, v / 2, one / 2, zero / 2, k - 1);
    }
  }

  class Memory {
    const decode: nat -> nat
    const park: nat
    const cells: array<word>
    const one: seq<word>
    const zero: seq<word>

    constructor (decode: nat -> nat, park: nat, one: seq<word>, zero: seq<word>)
      requires |one| == |zero|
      ensures this.decode == decode && this.park == park && this.one == one && this.zero == zero
      ensures fresh(cells) && cells.Length == |one|
    {
      this.decode, this.park, this.one, this.zero := decode, park, one, zero;
      cells := new word[|one|](_ => 0);
    }

    // Words 0 to n and the parking word exist.
    ghost predicate Valid(n: nat) {
      && |one| == |zero| == cells.Length && park < cells.Length
      && (forall i: nat :: i <= n ==> decode(i) < cells.Length)
    }

    function Load(c: nat): nat
      requires c < |one| && c < |zero| && c < cells.Length
      reads cells
    {
      Seen(cells[c], one[c], zero[c])
    }

    predicate Healthy(c: nat)
      requires c < |one| && c < |zero|
    {
      one[c] == 0 && zero[c] == 0
    }

    ghost predicate AllHealthy(n: nat)
      requires Valid(n)
    {
      forall i: nat :: i <= n ==> Healthy(decode(i))
    }

    ghost predicate Injective(n: nat) {
      forall i: nat, j: nat :: i < j <= n ==> decode(i) != decode(j)
    }

    /** The tested words are good memory. */
    ghost predicate Good(n: nat)
      requires Valid(n)
    {
      AllHealthy(n) && Injective(n)
    }

    // ---------- data lines ----------

    // Stores to word 0, stores the complement to the parking word, and checks word 0.
    method DataProbe(val: word) returns (errs: nat)
      requires Valid(0)
      modifies cells
      ensures errs <= 1
      ensures Healthy(decode(0)) ==> (errs == 0 <==> park != decode(0))
    {
      cells[decode(0)] := val;
      cells[park] := Not(val);
      HealthyShows(val);
      HealthyShows(Not(val));
      errs := if Load(decode(0)) != val then 1 else 0;
    }

    static lemma {:induction false} PositiveMultiple(a: int, p: nat)
      requires a * p > 0
      ensures a * p >= p
    {
    }

    // A multiple of 2^k below 2^32, shifted left, is a multiple of 2^(k+1).
    static lemma {:induction false} ShiftMultiple(val: word, a: int, k: nat) returns (b: int)
      requires val == a * Pow2(k) && val != 0
      ensures k < 32 && Shl1(val) == b * Pow2(k + 1)
    {
      Pow2Values();
      PositiveMultiple(a, Pow2(k));
      if k >= 32 { Pow2Mono(32, k); }
      b := ReduceMultiple(val, a, Pow2(k), Pow2(31 - k)) by { Pow2Split(k + 1, 31 - k); }
    }

    static lemma {:induction false} ReduceMultiple(val: word, a: int, p: nat, c: nat) returns (b: int)
      requires val == a * p && c * (2 * p) == MAX + 1
      ensures Shl1(val) == b * (2 * p)
    {
      b := if 2 * val <= MAX then a else a - c;
      assert a * (2 * p) == 2 * val;
      assert (a - c) * (2 * p) == a * (2 * p) - c * (2 * p);
    }

    static lemma {:induction false} Pow2Mono(j: nat, k: nat)
      requires j <= k
      ensures Pow2(j) <= Pow2(k)
    {
      if j < k { Pow2Mono(j, k - 1); }
    }

    static lemma {:induction false} Pow2Split(j: nat, k: nat)
      ensures Pow2(j + k) == Pow2(k) * Pow2(j)
    {
      if k > 0 { Pow2Split(j, k - 1); }
    }

    // One pattern and its complement, shifted out to the left.
    method DataPattern(pattern: word) returns (errs: nat)
      requires Valid(0) && pattern != 0
      modifies cells
      ensures errs <= 64
      ensures Healthy(decode(0)) ==> (errs == 0 <==> park != decode(0))
    {
      errs := 0;
      var val := pattern;
      ghost var k, a := 0, pattern as int;
      while val != 0
        invariant val == a * Pow2(k) && errs <= 2 * k && k <= 32
        invariant Healthy(decode(0)) ==> (errs == 0 <==> k == 0 || park != decode(0))
        invariant k == 0 ==> val == pattern
        decreases 32 - k
      {
        a := ShiftMultiple(val, a, k);
        var e := DataProbe(val);
        var e' := DataProbe(Not(val));
        errs := errs + e + e';
        val := Shl1(val);
        k := k + 1;
      }
    }

    method DataLines() returns (errs: nat)
      requires Valid(0)
      modifies cells
      ensures errs <= 512
      ensures Healthy(decode(0)) ==> (errs == 0 <==> park != decode(0))
    {
      var bitpattern: seq<word> := [0x1, 0x3, 0x7, 0xF, 0x5, 0x15, 0x55, 0xaaaa_aaaa];
      errs := 0;
      for j := 0 to |bitpattern|
        invariant errs <= 64 * j
        invariant Healthy(decode(0)) ==> (errs == 0 <==> j == 0 || park != decode(0))
      {
        var e := DataPattern(bitpattern[j]);
        errs := errs + e;
      }
    }

    // ---------- address lines ----------

    static const PATTERN: word := 0xaaaa_aaaa
    static const ANTI_PATTERN: word := 0x5555_5555

    static ghost predicate IsPow2(o: nat) { exists k: nat :: Pow2(k) == o }

    // Every power-of-two word below n and below `lim`, apart from `except`, holds the pattern.
    ghost predicate Patterned(n: nat, except: nat, lim: nat)
      requires Valid(n)
      reads cells
    {
      forall o: nat :: o < n && o < lim && IsPow2(o) && o != except ==> cells[decode(o)] == PATTERN
    }

    // One sweep over the power-of-two words below n, which must show the pattern unless excepted.
    method Sweep(n: nat, except: nat) returns (errs: nat)
      requires Valid(n) && n <= 0x3fff_ffff
      ensures errs <= 30
      ensures AllHealthy(n) ==> (errs == 0 <==> Patterned(n, except, n))
    {
      errs := 0;
      var offset := 1;
      ghost var k := 0;
      while offset < n
        invariant offset == Pow2(k) && errs <= k <= 30
        invariant AllHealthy(n) ==> (errs == 0 <==> Patterned(n, except, offset))
        decreases n - offset
      {
        SmallExponent(k, n);
        HealthyShows(cells[decode(offset)]);
        if Load(decode(offset)) != PATTERN && offset != except {
          errs := errs + 1;
        }
        NoneBetween(k);
        offset := offset * 2;
        k := k + 1;
      }
    }

    static lemma {:induction false} SmallExponent(k: nat, n: nat)
      requires Pow2(k) < n <= 0x3fff_ffff
      ensures k < 30 && IsPow2(Pow2(k))
    {
      Pow2Values();
      if k >= 30 { Pow2Mono(30, k); }
    }

    // No other power-of-two word below n shares the cell of word t.
    ghost predicate ApartFrom(n: nat, t: nat) {
      forall o: nat :: o < n && IsPow2(o) && o != t ==> decode(o) != decode(t)
    }

    // Word 0 and the power-of-two words below n and `lim` are different cells.
    ghost predicate LinesApart(n: nat, lim: nat) {
      ApartFrom(n, 0) && forall t: nat :: t < n && t < lim && IsPow2(t) ==> ApartFrom(n, t)
    }

    // Writes the complement to word t, sweeps, and restores the pattern.
    method TestLine(n: nat, t: nat) returns (errs: nat)
      requires Valid(n) && n <= 0x3fff_ffff && t <= n && Patterned(n, 0, n)
      modifies cells
      ensures errs <= 30 && Patterned(n, 0, n)
      ensures AllHealthy(n) ==> (errs == 0 <==> ApartFrom(n, t))
    {
      ZeroIsNoPower();
      cells[decode(t)] := ANTI_PATTERN;
      assert Patterned(n, t, n) <==> ApartFrom(n, t);
      errs := Sweep(n, t);
      cells[decode(t)] := PATTERN;
    }

    method AddressLines(n: nat) returns (errs: nat)
      requires Valid(n) && n <= 0x3fff_ffff
      modifies cells
      ensures errs <= 930
      ensures AllHealthy(n) ==> (errs == 0 <==> LinesApart(n, n))
    {
      var offset := 1;
      ghost var k := 0;
      while offset < n
        invariant offset == Pow2(k) && Patterned(n, 0, offset)
        decreases n - offset
      {
        cells[decode(offset)] := PATTERN;
        NoneBetween(k);
        offset := offset * 2;
        k := k + 1;
      }
      errs := TestLine(n, 0);
      var test := 1;
      k := 0;
      while test < n
        invariant test == Pow2(k) && k <= 30 && errs <= 30 + 30 * k && Patterned(n, 0, n)
        invariant AllHealthy(n) ==> (errs == 0 <==> LinesApart(n, test))
        decreases n - test
      {
        SmallExponent(k, n);
        var e := TestLine(n, test);
        errs := errs + e;
        NoneBetween(k);
        test := test * 2;
        k := k + 1;
      }
    }

    lemma {:induction false} GoodLines(n: nat)
      requires Valid(n) && Good(n)
      ensures LinesApart(n, n)
    {
    }

    static lemma {:induction false} ZeroIsNoPower()
      ensures !IsPow2(0)
    {
    }

    // No power of two lies strictly between two neighbours.
    static lemma {:induction false} NoneBetween(k: nat)
      ensures forall o: nat :: Pow2(k) < o < Pow2(k + 1) ==> !IsPow2(o)
    {
      forall j: nat
        ensures !(Pow2(k) < Pow2(j) < Pow2(k + 1))
      {
        if j <= k { Pow2Mono(j, k); } else { Pow2Mono(k + 1, j); }
      }
    }

    // ---------- storage bits ----------

    // Word i holds the number of the last word below hi that shares its cell.
    ghost predicate Filled(n: nat, hi: nat, i: nat)
      requires Valid(n) && i <= n && n < MAX
      reads cells
    {
      exists j: nat :: i <= j < hi && decode(j) == decode(i) && cells[decode(i)] == j + 1
    }

    ghost predicate AllFilled(n: nat, hi: nat)
      requires Valid(n) && hi <= n + 1 && n < MAX
      reads cells
    {
      forall i: nat :: i < hi ==> Filled(n, hi, i)
    }

    lemma {:induction false} FilledIsNumbered(n: nat)
      requires Valid(n) && Good(n) && n < MAX && AllFilled(n, n + 1)
      ensures Numbered(n, 0, n + 1, false)
    {
      forall i: nat | i < n + 1 ensures cells[decode(i)] == i + 1 {
        assert Filled(n, n + 1, i);
        var j: nat :| i <= j < n + 1 && decode(j) == decode(i) && cells[decode(i)] == j + 1;
        assert i == j;
      }
    }

    // One more number: it replaces that of every word that shares its cell.
    method FillWord(n: nat, k: nat)
      requires Valid(n) && k <= n < MAX && AllFilled(n, k)
      modifies cells
      ensures AllFilled(n, k + 1)
    {
      label before:
      cells[decode(k)] := k + 1;
      var hi := k + 1;
      forall i: nat | i < hi ensures Filled(n, hi, i) {
        if decode(i) == decode(k) {
          assert cells[decode(i)] == k + 1;
        } else {
          assert old@before(Filled(n, k, i));
        }
      }
    }

    // Fills words 0 to n with 1, 2, 3, ...
    method Fill(n: nat)
      requires Valid(n) && n <= 0x3fff_ffff
      modifies cells
      ensures AllFilled(n, n + 1)
      ensures Good(n) ==> Numbered(n, 0, n + 1, false)
    {
      for offset := 0 to n + 1
        invariant AllFilled(n, offset)
      {
        FillWord(n, offset);
      }
      if Good(n) { FilledIsNumbered(n); }
    }

    // Word i was seen to show its number, or the complement of its number.
    ghost predicate Shows(i: nat, inverted: bool)
      requires decode(i) < |one| && decode(i) < |zero| && i < MAX
    {
      exists x: word :: Seen(x, one[decode(i)], zero[decode(i)]) == if inverted then Not(i + 1) else i + 1
    }

    // A word that reads back as expected was seen to show it.
    lemma {:induction false} ReadsBack(i: nat, inverted: bool)
      requires decode(i) < |one| && decode(i) < |zero| && decode(i) < cells.Length && i < MAX
      requires Load(decode(i)) == if inverted then Not(i + 1) else i + 1
      ensures Shows(i, inverted)
    {
    }

    ghost predicate AllShow(n: nat, k: nat, inverted: bool)
      requires Valid(n) && n < MAX && k <= n + 1
    {
      forall i: nat :: i < k ==> Shows(i, inverted)
    }

    // Words lo to hi - 1 hold their number, or its complement.
    ghost predicate Numbered(n: nat, lo: nat, hi: nat, inverted: bool)
      requires Valid(n) && hi <= n + 1 && n < MAX
      reads cells
    {
      forall i: nat :: lo <= i < hi ==> cells[decode(i)] == if inverted then Not(i + 1) else i + 1
    }

    // Checks every word and inverts it.
    method CheckAndInvert(n: nat) returns (errs: nat)
      requires Valid(n) && n <= 0x3fff_ffff
      modifies cells
      ensures errs <= n + 1
      ensures errs == 0 ==> AllShow(n, n + 1, false)
      ensures Good(n) && old(Numbered(n, 0, n + 1, false)) ==> errs == 0 && Numbered(n, 0, n + 1, true)
    {
      errs := 0;
      var offset, pattern := 0, 1;
      ghost var good := Good(n) && Numbered(n, 0, n + 1, false);
      while offset < n + 1
        invariant offset <= n + 1 && pattern == offset + 1 && errs <= offset
        invariant errs == 0 ==> AllShow(n, offset, false)
        invariant good ==> errs == 0 && Numbered(n, 0, offset, true) && Numbered(n, offset, n + 1, false)
      {
        HealthyShows(pattern);
        if Load(decode(offset)) != pattern {
          errs := errs + 1;
        } else {
          ReadsBack(offset, false);
        }
        cells[decode(offset)] := Not(pattern);
        pattern, offset := pattern + 1, offset + 1;
      }
    }

    // The first k words decode to different cells.
    ghost predicate Apart(k: nat) { forall i: nat, j: nat :: i < j < k ==> decode(i) != decode(j) }

    ghost predicate Zeroed(n: nat, k: nat)
      requires Valid(n) && k <= n + 1
      reads cells
    {
      forall i: nat :: i < k ==> cells[decode(i)] == 0
    }

    // A zeroed word does not show the complement of a number.
    lemma {:induction false} NewCell(n: nat, k: nat)
      requires Valid(n) && k <= n <= 0x3fff_ffff && AllHealthy(n) && Zeroed(n, k) && Load(decode(k)) == Not(k + 1)
      requires Apart(k)
      ensures Apart(k + 1)
    {
      HealthyShows(0);
      forall i: nat | i < k ensures decode(i) != decode(k) { assert Healthy(decode(i)); }
    }

    // Checks an inverted word and zeroes it.
    method ZeroWord(n: nat, k: nat) returns (bad: bool)
      requires Valid(n) && k <= n <= 0x3fff_ffff && Zeroed(n, k)
      modifies cells
      ensures !bad ==> Shows(k, true)
      ensures Zeroed(n, k + 1)
      ensures !bad && AllHealthy(n) && Apart(k) ==> Apart(k + 1)
      ensures Good(n) && old(Numbered(n, k, n + 1, true)) ==> !bad && Numbered(n, k + 1, n + 1, true)
    {
      HealthyShows(Not(k + 1));
      bad := Load(decode(k)) != Not(k + 1);
      if !bad {
        ReadsBack(k, true);
        if AllHealthy(n) && Apart(k) { NewCell(n, k); }
      }
      cells[decode(k)] := 0;
    }

    // Checks every inverted word and zeroes it.
    method CheckAndZero(n: nat) returns (errs: nat)
      requires Valid(n) && n <= 0x3fff_ffff
      modifies cells
      ensures errs <= n + 1
      ensures errs == 0 ==> AllShow(n, n + 1, true)
      ensures errs == 0 && AllHealthy(n) ==> Injective(n)
      ensures Zeroed(n, n + 1)
      ensures Good(n) && old(Numbered(n, 0, n + 1, true)) ==> errs == 0
    {
      errs := 0;
      var offset := 0;
      ghost var good := Good(n) && Numbered(n, 0, n + 1, true);
      while offset < n + 1
        invariant offset <= n + 1 && errs <= offset
        invariant errs == 0 ==> AllShow(n, offset, true)
        invariant Zeroed(n, offset)
        invariant errs == 0 && AllHealthy(n) ==> Apart(offset)
        invariant good ==> errs == 0 && Numbered(n, offset, n + 1, true)
      {
        var bad := ZeroWord(n, offset);
        if bad { errs := errs + 1; }
        offset := offset + 1;
      }
    }

    lemma {:induction false} NoStuckBits(n: nat)
      requires Valid(n) && n <= 0x3fff_ffff
      requires AllShow(n, n + 1, false) && AllShow(n, n + 1, true)
      ensures AllHealthy(n)
    {
      Pow2Values();
      forall i: nat | i <= n
        ensures Healthy(decode(i))
      {
        var c := decode(i);
        assert Shows(i, false) && Shows(i, true);
        var x: word :| Seen(x, one[c], zero[c]) == i + 1;
        var y: word :| Seen(y, one[c], zero[c]) == Not(i + 1);
        ShownBothWays(x, y, i + 1, one[c], zero[c], 32);
      }
    }

    /** mem_test_alt, not interrupted, on words 0 to n, where n is the word count of the address range. */
    method MemTestAlt(n: nat) returns (errs: nat)
      requires Valid(n) && n <= 0x3fff_ffff
      modifies cells
      ensures errs == 0 <==> Good(n) && park != decode(0)
      ensures errs < MAX
      ensures forall i: nat :: i <= n ==> cells[decode(i)] == 0
      ensures Good(n) ==> forall i: nat :: i <= n ==> Load(decode(i)) == 0
    {
      errs := DataLines();
      var e := AddressLines(n);
      if Good(n) { GoodLines(n); }
      errs := errs + e;
      Fill(n);
      e := CheckAndInvert(n);
      errs := errs + e;
      e := CheckAndZero(n);
      errs := errs + e;
      if errs == 0 {
        NoStuckBits(n);
      }
      HealthyShows(0);
    }
  }
}
