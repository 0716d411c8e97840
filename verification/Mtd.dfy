/**
 The page loop of `mtd read` and `mtd write` and the loop of `mtd erase`, on a NAND device with bad blocks.
 Offsets are kept as block and page numbers; the command only gets here with page-aligned (block-aligned) offsets.
 Programming a NAND page can only clear bits, so it stores the conjunction of old and new.
 */
module Mtd {
  type byte = bv8
  type Page = seq<byte>

  function And(a: byte, b: byte): byte { a & b }

  lemma {:induction false} AndOnes(a: byte)
    ensures And(a, 0xff) == a && And(0xff, a) == a
  {
  }

  // A page after programming `new` into it.
  function Program(old_: Page, new_: Page): (r: Page)
    requires |old_| == |new_|
    ensures |r| == |new_|
  {
    seq(|new_|, i requires 0 <= i < |new_| => And(old_[i], new_[i]))
  }

  predicate Blank(p: Page) { forall i :: 0 <= i < |p| ==> p[i] == 0xff }

  lemma {:induction false} ProgramBlank(p: Page, q: Page)
    requires |p| == |q|
    ensures Blank(q) ==> Program(p, q) == p
    ensures Blank(p) ==> Program(p, q) == q
  {
    forall i | 0 <= i < |p|
      ensures Blank(q) ==> Program(p, q)[i] == p[i]
      ensures Blank(p) ==> Program(p, q)[i] == q[i]
    {
      AndOnes(p[i]);
      AndOnes(q[i]);
    }
  }

  /** A page-aligned offset: page k of erase block b, that is byte (b * ppb + k) * writesize. */
  datatype Pos = Pos(b: nat, k: nat)

  predicate Before(p: Pos, q: Pos) { p.b < q.b || (p.b == q.b && p.k < q.k) }

  /** The bad-block map of a device with `ppb` pages per erase block. */
  datatype Map = Map(ppb: nat, bad: seq<bool>) {
    predicate Valid(p: Pos) { p.b <= |bad| && p.k < ppb }

    predicate Good(p: Pos) { p.b < |bad| && p.k < ppb && !bad[p.b] }

    // off += writesize.
    function NextPage(p: Pos): Pos { if p.k + 1 < ppb then Pos(p.b, p.k + 1) else Pos(p.b + 1, 0) }

    // off += erasesize.
    function NextBlock(p: Pos): Pos { Pos(p.b + 1, p.k) }

    // All good pages from p on, in order.
    function Goods(p: Pos): seq<Pos>
      requires Valid(p)
      decreases |bad| - p.b, ppb - p.k
    {
      if p.b == |bad| then []
      else if Good(p) then [p] + Goods(NextPage(p))
      else Goods(NextPage(p))
    }

    // Some block from p's block on is good.
    ghost predicate Reachable(p: Pos) { Valid(p) && exists b :: p.b <= b < |bad| && !bad[b] }
  }

  // ---------- the specification of the walk ----------

  // A bad block contributes no page.
  lemma {:induction false} SkipBlock(m: Map, p: Pos)
    requires m.Valid(p) && p.b < |m.bad| && m.bad[p.b]
    ensures m.Goods(p) == m.Goods(Pos(p.b + 1, 0))
    decreases m.ppb - p.k
  {
    if p.k + 1 < m.ppb {
      SkipBlock(m, Pos(p.b, p.k + 1));
    }
  }

  /** Where the first loop of the command stops: the first good block, entered at the page offset of p. */
  function First(m: Map, p: Pos): (f: Pos)
    requires m.Reachable(p)
    ensures m.Good(f) && f.k == p.k && p.b <= f.b
    decreases |m.bad| - p.b
  {
    if m.bad[p.b] then First(m, m.NextBlock(p)) else p
  }

  // The good pages are all at or after the start, in increasing order.
  lemma {:induction false} GoodsOrdered(m: Map, p: Pos)
    requires m.Valid(p)
    ensures forall i :: 0 <= i < |m.Goods(p)| ==> !Before(m.Goods(p)[i], p) && m.Good(m.Goods(p)[i])
    ensures forall i, j :: 0 <= i < j < |m.Goods(p)| ==> Before(m.Goods(p)[i], m.Goods(p)[j])
    decreases |m.bad| - p.b, m.ppb - p.k
  {
    if p.b < |m.bad| {
      var q := m.NextPage(p);
      GoodsOrdered(m, q);
      if m.Good(p) {
        assert forall i :: 0 < i < |m.Goods(p)| ==> m.Goods(p)[i] == m.Goods(q)[i - 1];
      }
    }
  }

  lemma {:induction false} GoodsComplete(m: Map, p: Pos, q: Pos)
    requires m.Valid(p) && !Before(q, p) && m.Good(q)
    ensures q in m.Goods(p)
    decreases |m.bad| - p.b, m.ppb - p.k
  {
    if p != q {
      GoodsComplete(m, m.NextPage(p), q);
    }
  }

  lemma {:induction false} FirstSkipsBlocks(m: Map, p: Pos)
    requires m.Reachable(p) && p.k == 0
    ensures m.Goods(First(m, p)) == m.Goods(p)
    decreases |m.bad| - p.b
  {
    if m.bad[p.b] {
      SkipBlock(m, p);
      FirstSkipsBlocks(m, m.NextBlock(p));
    }
  }

  // In the middle of a bad block the first loop enters the next good block in the middle, too.
  lemma {:induction false} FirstLosesPages(m: Map, p: Pos)
    requires m.Reachable(p) && p.k != 0 && m.bad[p.b]
    ensures m.Goods(First(m, p)) != m.Goods(p)
  {
    var f := First(m, p);
    GoodsComplete(m, p, Pos(f.b, 0));
    GoodsOrdered(m, f);
  }

  /** The walk visits the good pages from the start offset on, none left out, if and only if the start offset is on a
      block boundary or in a good block. */
  lemma {:induction false} FirstIsExact(m: Map, p: Pos)
    requires m.Reachable(p)
    ensures m.Goods(First(m, p)) == m.Goods(p) <==> p.k == 0 || !m.bad[p.b]
  {
    if p.k == 0 {
      FirstSkipsBlocks(m, p);
    } else if m.bad[p.b] {
      FirstLosesPages(m, p);
    }
  }

  // ---------- the device ----------

  class Nand {
    const m: Map
    const size: nat
    const pages: array2<Page>

    constructor (m: Map, size: nat, pages: array2<Page>)
      requires pages.Length0 == |m.bad| && pages.Length1 == m.ppb
      requires forall b, k :: 0 <= b < |m.bad| && 0 <= k < m.ppb ==> |pages[b, k]| == size
      ensures this.m == m && this.size == size && this.pages == pages && Valid()
    {
      this.m, this.size, this.pages := m, size, pages;
    }

    ghost predicate Valid()
      reads pages
    {
      && pages.Length0 == |m.bad| && pages.Length1 == m.ppb
      && forall b, k :: 0 <= b < |m.bad| && 0 <= k < m.ppb ==> |pages[b, k]| == size
    }

    predicate OnDevice(p: Pos) { p.b < pages.Length0 && p.k < pages.Length1 }

    function At(p: Pos): Page
      requires OnDevice(p)
      reads pages
    {
      pages[p.b, p.k]
    }

    // The pages that a walk of n pages from `start` visits.
    ghost function Visited(start: Pos, n: nat): (r: seq<Pos>)
      requires m.Reachable(start) && n <= |m.Goods(First(m, start))|
      ensures |r| == n && forall i :: 0 <= i < n ==> m.Good(r[i])
      ensures forall i, j :: 0 <= i < j < n ==> Before(r[i], r[j])
    {
      GoodsOrdered(m, First(m, start));
      m.Goods(First(m, start))[..n]
    }

    // The first loop: skips bad blocks from the given offset.
    method FirstGoodBlock(start: Pos) returns (off: Pos)
      requires m.Reachable(start)
      ensures off == First(m, start)
    {
      off := start;
      while m.bad[off.b]
        invariant m.Reachable(off) && First(m, off) == First(m, start)
        decreases |m.bad| - off.b
      {
        off := m.NextBlock(off);
      }
    }

    // Skips bad blocks in front of the next page operation.
    method SkipBad(off0: Pos) returns (off: Pos)
      requires m.Valid(off0) && (off0.k == 0 || m.Good(off0)) && m.Goods(off0) != []
      ensures m.Good(off) && m.Goods(off) == m.Goods(off0)
    {
      off := off0;
      while off.k == 0 && m.bad[off.b]
        invariant m.Valid(off) && off.b < |m.bad| && (off.k == 0 || m.Good(off)) && m.Goods(off) == m.Goods(off0)
        decreases |m.bad| - off.b
      {
        SkipBlock(m, off);
        off := m.NextBlock(off);
      }
    }

    /** mtd read: page i of the result is the i-th visited page. */
    method Read(start: Pos, n: nat) returns (out: seq<Page>)
      requires Valid() && m.Reachable(start) && n <= |m.Goods(First(m, start))|
      ensures |out| == n && forall i :: 0 <= i < n ==> out[i] == At(Visited(start, n)[i])
    {
      var off := FirstGoodBlock(start);
      ghost var g := m.Goods(off);
      out := [];
      for i := 0 to n
        invariant m.Valid(off) && g[i..] == m.Goods(off) && (off.k == 0 || m.Good(off))
        invariant |out| == i && forall j :: 0 <= j < i ==> out[j] == At(Visited(start, n)[j])
      {
        off := SkipBad(off);
        assert g[i] == m.Goods(off)[0] == off && Visited(start, n)[i] == g[i];
        out := out + [pages[off.b, off.k]];
        off := m.NextPage(off);
      }
    }

    // mtd_oob_write_is_empty.
    method IsBlank(d: Page) returns (blank: bool)
      ensures blank == Blank(d)
    {
      for i := 0 to |d|
        invariant forall j :: 0 <= j < i ==> d[j] == 0xff
      {
        if d[i] != 0xff { return false; }
      }
      return true;
    }

    // mtd_special_write_oob: leaving out an all-0xFF page changes nothing, whatever the page held before.
    method WritePage(off: Pos, d: Page, writeEmpty: bool)
      requires Valid() && m.Good(off) && |d| == size
      modifies pages
      ensures Valid()
      ensures forall p: Pos :: OnDevice(p) ==> At(p) == if p == off then Program(old(At(p)), d) else old(At(p))
    {
      ProgramBlank(At(off), d);
      var blank := IsBlank(d);
      if writeEmpty || !blank {
        pages[off.b, off.k] := Program(pages[off.b, off.k], d);
      }
    }

    /** mtd write: the i-th visited page is programmed with page i, and no other page changes. */
    method Write(start: Pos, data: seq<Page>, writeEmpty: bool)
      requires Valid() && m.Reachable(start) && |data| <= |m.Goods(First(m, start))|
      requires forall i :: 0 <= i < |data| ==> |data[i]| == size
      modifies pages
      ensures Valid()
      ensures forall i :: 0 <= i < |data| ==>
                var q := Visited(start, |data|)[i]; At(q) == Program(old(At(q)), data[i])
      ensures forall p: Pos :: OnDevice(p) && p !in Visited(start, |data|) ==> At(p) == old(At(p))
    {
      var off := FirstGoodBlock(start);
      ghost var g, v := m.Goods(off), Visited(start, |data|);
      for i := 0 to |data|
        invariant Valid() && m.Valid(off) && g[i..] == m.Goods(off) && (off.k == 0 || m.Good(off))
        invariant forall j :: 0 <= j < i ==> At(v[j]) == Program(old(At(v[j])), data[j])
        invariant forall p: Pos :: OnDevice(p) && p !in v[..i] ==> At(p) == old(At(p))
      {
        off := SkipBad(off);
        assert g[i] == m.Goods(off)[0] == off && v[i] == g[i];
        assert v[..i + 1] == v[..i] + [off];
        assert off !in v[..i];
        WritePage(off, data[i], writeEmpty);
        off := m.NextPage(off);
      }
      assert v[..|data|] == v;
    }

    // ---------- erase ----------

    static const EIO := 5

    ghost predicate Erased(b: nat)
      reads pages
    {
      forall p: Pos :: OnDevice(p) && p.b == b ==> Blank(At(p))
    }

    method EraseBlock(b: nat)
      requires Valid() && b < |m.bad| && !m.bad[b]
      modifies pages
      ensures Valid() && Erased(b)
      ensures forall p: Pos :: OnDevice(p) && p.b != b ==> At(p) == old(At(p))
    {
      for k := 0 to m.ppb
        invariant Valid() && forall p: Pos :: OnDevice(p) && p.b == b && p.k < k ==> Blank(At(p))
        invariant forall p: Pos :: OnDevice(p) && p.b != b ==> At(p) == old(At(p))
      {
        pages[b, k] := seq(size, _ => 0xff);
      }
    }

    // What the MTD layer does with an erase request: block by block, stopping in front of the first bad one.
    method MtdErase(addr: nat, len: nat) returns (ret: int, fail: nat)
      requires Valid() && addr + len <= |m.bad|
      modifies pages
      ensures Valid() && ret in {0, -EIO}
      ensures ret == 0 ==> fail == addr + len
      ensures ret != 0 ==> addr <= fail < addr + len && m.bad[fail]
      ensures forall b :: addr <= b < fail ==> !m.bad[b] && Erased(b)
      ensures forall p: Pos :: OnDevice(p) && !(addr <= p.b < fail) ==> At(p) == old(At(p))
    {
      fail := addr;
      while fail < addr + len
        invariant Valid() && addr <= fail <= addr + len
        invariant forall b :: addr <= b < fail ==> !m.bad[b] && Erased(b)
        invariant forall p: Pos :: OnDevice(p) && !(addr <= p.b < fail) ==> At(p) == old(At(p))
      {
        if m.bad[fail] { return -EIO, fail; }
        EraseBlock(fail);
        fail := fail + 1;
      }
      ret := 0;
    }

    /** mtd erase: every good block of the range ends up erased, and nothing else is touched. */
    method Erase(off: nat, len: nat)
      requires Valid() && off + len <= |m.bad|
      modifies pages
      ensures Valid()
      ensures forall b :: off <= b < off + len && !m.bad[b] ==> Erased(b)
      ensures forall p: Pos :: OnDevice(p) && !(off <= p.b < off + len && !m.bad[p.b]) ==> At(p) == old(At(p))
    {
      var addr, left := off, len;
      while left > 0
        invariant Valid() && off <= addr && addr + left == off + len
        invariant forall b :: off <= b < addr && !m.bad[b] ==> Erased(b)
        invariant forall p: Pos :: OnDevice(p) && !(off <= p.b < addr && !m.bad[p.b]) ==> At(p) == old(At(p))
        decreases left
      {
        var ret, fail := MtdErase(addr, left);
        if ret != -EIO { break; }
        left := left - (fail - addr);
        left := left - 1;
        addr := fail + 1;
      }
    }

    /** Erase, write, read back: whatever the bad blocks and whether or not empty pages are skipped, the data come
        back, as long as the visited pages lie in the erased range. */
    method FlashAndReadBack(start: Pos, end: nat, data: seq<Page>, writeEmpty: bool) returns (out: seq<Page>)
      requires Valid() && m.Reachable(start) && start.b <= end <= |m.bad|
      requires |data| <= |m.Goods(First(m, start))| && forall i :: 0 <= i < |data| ==> |data[i]| == size
      requires forall i :: 0 <= i < |data| ==> m.Goods(First(m, start))[i].b < end
      modifies pages
      ensures Valid() && out == data
    {
      Erase(start.b, end - start.b);
      ghost var v := Visited(start, |data|);
      GoodsOrdered(m, First(m, start));
      assert forall i :: 0 <= i < |data| ==> Blank(At(v[i]));
      label erased:
      Write(start, data, writeEmpty);
      forall i | 0 <= i < |data|
        ensures At(v[i]) == data[i]
      {
        ProgramBlank(old@erased(At(v[i])), data[i]);
      }
      out := Read(start, |data|);
    }
  }
}
