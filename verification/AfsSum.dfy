/** The end-around-carry checksum of an ARM flash image. */
module AfsSum {
  import opened Arith

  const ONES := 0xFFFF_FFFF

  type Word = x: int | 0 <= x <= ONES

  function Complement(x: Word): Word { ONES - x }

  // 32-bit addition.
  function Plus(a: Word, b: Word): Word { if a + b > ONES then a + b - ONES - 1 else a + b }

  // One word: when the sum would not fit, one is added first.
  function Add(sum: Word, val: Word): Word { Plus(if val > Complement(sum) then Plus(sum, 1) else sum, val) }

  function Fold(ws: seq<Word>): Word {
    if ws == [] then 0 else Add(Fold(ws[..|ws| - 1]), ws[|ws| - 1])
  }

  /** compute_crc: the words of memory from the start address, and a length in bytes. */
  method ComputeCrc(mem: seq<Word>, len: nat) returns (crc: Word)
    requires len <= 4 * |mem|
    ensures crc == if len % 4 != 0 then 0 else Complement(Fold(mem[..len / 4]))
  {
    if len % 4 != 0 { return 0; }
    crc := SumWords(mem, len / 4);
  }

  // The loop over n words.
  method SumWords(mem: seq<Word>, n: nat) returns (crc: Word)
    requires n <= |mem|
    ensures crc == Complement(Fold(mem[..n]))
  {
    var sum: Word := 0;
    for i := 0 to n
      invariant sum == Fold(mem[..i])
    {
      var val := mem[i];
      assert mem[..i + 1] == mem[..i] + [val];
      if val > Complement(sum) { sum := Plus(sum, 1); }
      sum := Plus(sum, val);
    }
    crc := Complement(sum);
  }

  // ---------- the closed form ----------

  function Sum(ws: seq<Word>): nat {
    if ws == [] then 0 else Sum(ws[..|ws| - 1]) + ws[|ws| - 1]
  }

  // The residue of a sum modulo 2^32 - 1, with 2^32 - 1 itself in place of a zero that is not the empty sum.
  function Residue(n: nat): Word { if n == 0 then 0 else (n - 1) % ONES + 1 }

  lemma {:induction false} ResidueUnique(q: nat, w: Word)
    requires w > 0
    ensures Residue(q * ONES + w) == w
  {
    DivModUnique(q, w - 1, ONES);
  }

  lemma {:induction false} ResidueSplits(n: nat) returns (q: nat)
    requires n > 0
    ensures Residue(n) > 0 && n == q * ONES + Residue(n)
  {
    q := (n - 1) / ONES;
  }

  lemma {:induction false} ResidueAdd(n: nat, v: Word)
    ensures Add(Residue(n), v) == Residue(n + v)
  {
    if n == 0 {
      if v > 0 { ResidueUnique(0, v); }
    } else {
      var q := ResidueSplits(n);
      var w := Residue(n) + v;
      if w > ONES {
        assert n + v == (q + 1) * ONES + (w - ONES);
        ResidueUnique(q + 1, w - ONES);
      } else {
        ResidueUnique(q, w);
      }
    }
  }

  /** The loop computes the sum modulo 2^32 - 1. */
  lemma {:induction false} FoldIsResidue(ws: seq<Word>)
    ensures Fold(ws) == Residue(Sum(ws))
    decreases |ws|
  {
    if ws != [] {
      FoldIsResidue(ws[..|ws| - 1]);
      ResidueAdd(Sum(ws[..|ws| - 1]), ws[|ws| - 1]);
    }
  }

  lemma {:induction false} ZeroSum(ws: seq<Word>)
    ensures Sum(ws) == 0 <==> forall i :: 0 <= i < |ws| ==> ws[i] == 0
    decreases |ws|
  {
    if ws != [] {
      var m := |ws| - 1;
      ZeroSum(ws[..m]);
      assert Sum(ws) == Sum(ws[..m]) + ws[m];
    }
  }

  lemma {:induction false} SumConcat(a: seq<Word>, b: seq<Word>)
    ensures Sum(a + b) == Sum(a) + Sum(b)
    decreases |b|
  {
    if b == [] {
      assert a + b == a;
    } else {
      assert (a + b)[..|a + b| - 1] == a + b[..|b| - 1];
      SumConcat(a, b[..|b| - 1]);
    }
  }

  lemma {:induction false} SumInsert(a: seq<Word>, x: Word, b: seq<Word>)
    ensures Sum(a + [x] + b) == Sum(a + b) + x
  {
    SumConcat(a + [x], b);
    SumConcat(a, [x]);
    SumConcat(a, b);
    assert Sum([x]) == x;
  }

  lemma {:induction false} SumPermutation(a: seq<Word>, b: seq<Word>)
    requires multiset(a) == multiset(b)
    ensures Sum(a) == Sum(b)
    decreases |a|
  {
    assert |multiset(a)| == |a| && |multiset(b)| == |b|;
    if a != [] {
      var m := |a| - 1;
      assert a == a[..m] + [a[m]];
      assert a[m] in multiset(a);
      var k :| 0 <= k < |b| && b[k] == a[m];
      var b' := b[..k] + b[k + 1..];
      assert b == b[..k] + [b[k]] + b[k + 1..];
      assert multiset(b') == multiset(b) - multiset{b[k]};
      assert multiset(a[..m]) == multiset(a) - multiset{a[m]};
      SumPermutation(a[..m], b');
      SumInsert(b[..k], b[k], b[k + 1..]);
    }
  }

  /** The order of the words does not matter. */
  lemma {:induction false} OrderIndependent(a: seq<Word>, b: seq<Word>)
    requires multiset(a) == multiset(b)
    ensures Fold(a) == Fold(b)
  {
    SumPermutation(a, b);
    FoldIsResidue(a);
    FoldIsResidue(b);
  }

  /** A word in the middle counts like a word at the end. */
  lemma {:induction false} FoldInsert(a: seq<Word>, x: Word, b: seq<Word>)
    ensures Fold(a + [x] + b) == Add(Fold(a + b), x)
  {
    SumInsert(a, x, b);
    FoldIsResidue(a + [x] + b);
    FoldIsResidue(a + b);
    ResidueAdd(Sum(a + b), x);
  }

  /**
   The stored word that makes the checksum of the whole 0, wherever it stands: the checksum of the others, or also all
   ones when that checksum is 0.
   */
  lemma {:induction false} SealIff(a: seq<Word>, x: Word, b: seq<Word>)
    ensures Complement(Fold(a + [x] + b)) == 0
       <==> x == Complement(Fold(a + b)) || (x == ONES && Complement(Fold(a + b)) == 0)
  {
    FoldInsert(a, x, b);
  }

  /** A changed word changes the checksum, except between 0 and all ones beside other non-zero words. */
  lemma {:induction false} OneWordDetected(a: seq<Word>, v: Word, w: Word, b: seq<Word>)
    ensures Fold(a + [v] + b) == Fold(a + [w] + b)
       <==> v == w || (Sum(a + b) > 0 && ((v == 0 && w == ONES) || (v == ONES && w == 0)))
  {
    FoldInsert(a, v, b);
    FoldInsert(a, w, b);
    FoldIsResidue(a + b);
    if Sum(a + b) > 0 { var q := ResidueSplits(Sum(a + b)); }
  }
}
