/**
 A CRC register fed one bit at a time, for a polynomial of any degree.  Registers are bit sequences, highest bit
 first, of the width of the polynomial.  The main result is the classical one: if the polynomial has a constant
 term, every error burst no longer than the register is detected, in any message, at any position.
 */
module CrcBits {
  type Bits = seq<bool>

  function Xor(a: Bits, b: Bits): (x: Bits)
    requires |a| == |b|
    ensures |x| == |a| && forall i :: 0 <= i < |a| ==> x[i] == (a[i] != b[i])
  {
    seq(|a|, i requires 0 <= i < |a| => a[i] != b[i])
  }

  function Shl(c: Bits): (r: Bits)
    requires c != []
    ensures |r| == |c| && !r[|c| - 1] && forall i :: 0 <= i < |c| - 1 ==> r[i] == c[i + 1]
  {
    c[1..] + [false]
  }

  predicate SameWidth(p: Bits, c: Bits) { |p| == |c| && c != [] }

  function Step(p: Bits, c: Bits): (r: Bits)
    requires SameWidth(p, c)
    ensures |r| == |c|
  {
    if c[0] then Xor(Shl(c), p) else Shl(c)
  }

  function Feed(p: Bits, c: Bits, b: bool): (r: Bits)
    requires SameWidth(p, c)
    ensures |r| == |c|
  {
    Step(p, c[0 := c[0] != b])
  }

  function FeedAll(p: Bits, c: Bits, bits: Bits): (r: Bits)
    requires SameWidth(p, c)
    ensures |r| == |c|
    decreases |bits|
  {
    if bits == [] then c else FeedAll(p, Feed(p, c, bits[0]), bits[1..])
  }

  // The polynomial has a constant term.
  predicate Odd(p: Bits) { p != [] && p[|p| - 1] }

  lemma {:induction false} FeedConcat(p: Bits, c: Bits, a: Bits, b: Bits)
    requires SameWidth(p, c)
    ensures FeedAll(p, c, a + b) == FeedAll(p, FeedAll(p, c, a), b)
    decreases |a|
  {
    if a == [] {
      assert a + b == b;
    } else {
      assert (a + b)[1..] == a[1..] + b;
      FeedConcat(p, Feed(p, c, a[0]), a[1..], b);
    }
  }

  // ---------- a step can be undone ----------

  lemma {:induction false} StepInjective(p: Bits, x: Bits, y: Bits)
    requires SameWidth(p, x) && SameWidth(p, y) && Odd(p) && Step(p, x) == Step(p, y)
    ensures x == y
  {
    var s, t := Step(p, x), Step(p, y);
    assert s[|p| - 1] == x[0] && t[|p| - 1] == y[0];
    forall i | 0 < i < |x|
      ensures x[i] == y[i]
    {
      assert s[i - 1] == t[i - 1];
    }
  }

  lemma {:induction false} FeedAllInjective(p: Bits, c: Bits, d: Bits, bits: Bits)
    requires SameWidth(p, c) && SameWidth(p, d) && Odd(p) && FeedAll(p, c, bits) == FeedAll(p, d, bits)
    ensures c == d
    decreases |bits|
  {
    if bits != [] {
      var b := bits[0];
      FeedAllInjective(p, Feed(p, c, b), Feed(p, d, b), bits[1..]);
      var x, y := c[0 := c[0] != b], d[0 := d[0] != b];
      StepInjective(p, x, y);
      assert forall i :: 0 <= i < |c| ==> x[i] == y[i];
    }
  }

  // ---------- linearity ----------

  lemma {:induction false} FeedLinear(p: Bits, c: Bits, d: Bits, a: bool, b: bool)
    requires SameWidth(p, c) && SameWidth(p, d)
    ensures Feed(p, Xor(c, d), a != b) == Xor(Feed(p, c, a), Feed(p, d, b))
  {
  }

  lemma {:induction false} FeedAllLinear(p: Bits, c: Bits, d: Bits, a: Bits, b: Bits)
    requires SameWidth(p, c) && SameWidth(p, d) && |a| == |b|
    ensures FeedAll(p, Xor(c, d), Xor(a, b)) == Xor(FeedAll(p, c, a), FeedAll(p, d, b))
    decreases |a|
  {
    if a != [] {
      assert Xor(a, b)[1..] == Xor(a[1..], b[1..]);
      FeedLinear(p, c, d, a[0], b[0]);
      FeedAllLinear(p, Feed(p, c, a[0]), Feed(p, d, b[0]), a[1..], b[1..]);
    }
  }

  // ---------- bursts ----------

  // Bits k and below are zero.
  predicate ZeroFrom(x: Bits, k: nat) { forall i :: k <= i < |x| ==> !x[i] }

  // An input no longer than the register that leaves it empty started from a register that held only these bits.
  lemma {:induction false} ShortInput(p: Bits, x: Bits, bits: Bits)
    requires SameWidth(p, x) && Odd(p) && |bits| <= |p| && ZeroFrom(FeedAll(p, x, bits), 0)
    ensures ZeroFrom(x, |bits|)
    ensures ZeroFrom(x, 0) ==> ZeroFrom(bits, 0)
    decreases |bits|
  {
    if bits != [] {
      var y := Feed(p, x, bits[0]);
      ShortInput(p, y, bits[1..]);
      var z := x[0 := x[0] != bits[0]];
      assert !y[|p| - 1] && !z[0];
      assert y == Shl(z);
      forall i | |bits| <= i < |x|
        ensures !x[i]
      {
        assert y[i - 1] == z[i];
      }
      if ZeroFrom(x, 0) {
        assert forall i :: 0 < i < |bits| ==> bits[i] == bits[1..][i - 1];
      }
    }
  }

  lemma {:induction false} WindowDetected(p: Bits, d: Bits, u: Bits, v: Bits)
    requires SameWidth(p, d) && Odd(p) && |u| == |v| <= |p| && u != v
    ensures FeedAll(p, d, u) != FeedAll(p, d, v)
  {
    FeedAllLinear(p, d, d, u, v);
    if FeedAll(p, d, u) == FeedAll(p, d, v) {
      ShortInput(p, Xor(d, d), Xor(u, v));
    }
  }

  /** Bit strings that agree outside a window no longer than the register leave different registers, from any start,
      whatever precedes and follows the window. */
  lemma {:induction false} BurstDetected(p: Bits, c: Bits, before: Bits, u: Bits, v: Bits, after: Bits)
    requires SameWidth(p, c) && Odd(p) && |u| == |v| <= |p| && u != v
    ensures FeedAll(p, c, before + u + after) != FeedAll(p, c, before + v + after)
  {
    var d := FeedAll(p, c, before);
    FeedConcat(p, c, before + u, after);
    FeedConcat(p, c, before + v, after);
    FeedConcat(p, c, before, u);
    FeedConcat(p, c, before, v);
    WindowDetected(p, d, u, v);
    var x, y := FeedAll(p, d, u), FeedAll(p, d, v);
    if FeedAll(p, x, after) == FeedAll(p, y, after) {
      FeedAllInjective(p, x, y, after);
    }
  }

  // ---------- feeding ahead ----------

  function StepN(p: Bits, c: Bits, n: nat): (r: Bits)
    requires SameWidth(p, c)
    ensures |r| == |c|
    decreases n
  {
    if n == 0 then c else StepN(p, Step(p, c), n - 1)
  }

  lemma {:induction false} StepLinear(p: Bits, c: Bits, d: Bits)
    requires SameWidth(p, c) && SameWidth(p, d)
    ensures Step(p, Xor(c, d)) == Xor(Step(p, c), Step(p, d))
  {
  }

  lemma {:induction false} StepNLinear(p: Bits, c: Bits, d: Bits, n: nat)
    requires SameWidth(p, c) && SameWidth(p, d)
    ensures StepN(p, Xor(c, d), n) == Xor(StepN(p, c, n), StepN(p, d, n))
    decreases n
  {
    if n > 0 {
      StepLinear(p, c, d);
      StepNLinear(p, Step(p, c), Step(p, d), n - 1);
    }
  }

  // `bits` at the top of a register of width w.
  function Pad(bits: Bits, w: nat): (r: Bits)
    requires |bits| <= w
    ensures |r| == w
  {
    bits + seq(w - |bits|, _ => false)
  }

  /** Adding a whole input to the top of the register before stepping is the same as feeding it bit by bit. */
  lemma {:induction false} FeedAhead(p: Bits, c: Bits, bits: Bits)
    requires SameWidth(p, c) && |bits| <= |c|
    ensures StepN(p, Xor(c, Pad(bits, |c|)), |bits|) == FeedAll(p, c, bits)
    decreases |bits|
  {
    if bits == [] {
      assert Xor(c, Pad(bits, |c|)) == c;
    } else {
      var x := Xor(c, Pad(bits, |c|));
      var y := Feed(p, c, bits[0]);
      assert Step(p, x) == Xor(y, Pad(bits[1..], |c|));
      FeedAhead(p, y, bits[1..]);
    }
  }
}
