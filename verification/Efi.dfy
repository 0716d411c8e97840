/**
 The EFI memory table: sorting the firmware's memory map and merging it in place.  Addresses and page counts do not
 wrap.
 */
module Efi {
  const LOADER_CODE := 1
  const LOADER_DATA := 2
  const BOOT_SERVICES_CODE := 3
  const BOOT_SERVICES_DATA := 4
  const CONVENTIONAL := 7
  const TABLE_END := 15
  const PAGE := 4096

  /** A memory descriptor: type, physical start, virtual start, number of pages, attributes. */
  datatype Desc = Desc(typ: nat, start: nat, virt: nat, pages: nat, attr: nat) {
    function End(): nat { start + pages * PAGE }

    predicate Covers(a: int) { start <= a < End() }

    predicate Conventional() { typ == CONVENTIONAL }
  }

  predicate IsBootServices(t: nat) {
    t == LOADER_CODE || t == LOADER_DATA || t == BOOT_SERVICES_CODE || t == BOOT_SERVICES_DATA
  }

  // The type that the table shows for a descriptor.
  function Shown(d: Desc, skipBs: bool): Desc {
    if skipBs && IsBootServices(d.typ) then d.(typ := CONVENTIONAL) else d
  }

  /** With boot services skipped, types 1 to 4 count as conventional memory, type 7, and all others as themselves. */
  lemma {:induction false} ShownTypes(d: Desc)
    ensures Shown(d, true) == d.(typ := if 1 <= d.typ <= 4 then 7 else d.typ) && Shown(d, false) == d
  {
  }

  // ---------- order ----------

  const TWO_63 := 0x8000_0000_0000_0000
  const TWO_64 := 0x1_0000_0000_0000_0000

  // The difference of two 64-bit words, read as a signed word.
  function Signed(x: int): int { if x >= TWO_63 then x - TWO_64 else if x < -TWO_63 then x + TWO_64 else x }

  // h_cmp_entry.
  function Compare(a: nat, b: nat): int {
    var diff := Signed(a - b);
    if diff < 0 then -1 else if diff > 0 then 1 else 0
  }

  /** The comparison orders two 64-bit start addresses correctly if and only if their difference fits a signed word. */
  lemma {:induction false} CompareIsOrderIff(a: nat, b: nat)
    requires a < TWO_64 && b < TWO_64
    ensures (Compare(a, b) == if a < b then -1 else if a > b then 1 else 0) <==> -TWO_63 <= a - b < TWO_63
  {
  }

  predicate Sorted(s: seq<Desc>) { forall i, j :: 0 <= i < j < |s| ==> s[i].start <= s[j].start }

  /** What the sort leaves: no two neighbours that the comparison would exchange. */
  ghost predicate Ordered(s: seq<Desc>) {
    forall i, j :: 0 <= i && j == i + 1 && j < |s| ==> Compare(s[i].start, s[j].start) <= 0
  }

  /** The map in an order in which the sort may leave it. */
  ghost predicate Outcome(map_: seq<Desc>, s: seq<Desc>) { multiset(s) == multiset(map_) && Ordered(s) }

  // Start addresses are 64-bit words.
  predicate Words(s: seq<Desc>) { forall i :: 0 <= i < |s| ==> s[i].start < TWO_64 }

  /** All start addresses are less than 2^63 apart. */
  ghost predicate Near(s: seq<Desc>) { forall i, j :: 0 <= i < |s| && 0 <= j < |s| ==> s[i].start - s[j].start < TWO_63 }

  lemma {:induction false} CompareFlips(a: nat, b: nat)
    requires Compare(a, b) > 0
    ensures Compare(b, a) < 0
  {
  }

  lemma {:induction false} SameMember(s: seq<Desc>, r: seq<Desc>, i: nat) returns (j: nat)
    requires multiset(s) == multiset(r) && i < |s|
    ensures j < |r| && r[j] == s[i]
  {
    assert s[i] in multiset(r);
    j :| 0 <= j < |r| && r[j] == s[i];
  }

  lemma {:induction false} NearPermuted(map_: seq<Desc>, s: seq<Desc>)
    requires multiset(s) == multiset(map_) && Words(map_) && Near(map_)
    ensures Words(s) && Near(s)
  {
    forall i | 0 <= i < |s| ensures s[i].start < TWO_64 { var k := SameMember(s, map_, i); }
    forall i, j | 0 <= i < |s| && 0 <= j < |s| ensures s[i].start - s[j].start < TWO_63 {
      var k := SameMember(s, map_, i);
      var l := SameMember(s, map_, j);
    }
  }

  lemma {:induction false} NeighboursSorted(s: seq<Desc>, i: nat, j: nat)
    requires i < j < |s| && Words(s) && Near(s) && Ordered(s)
    ensures s[i].start <= s[j].start
    decreases j - i
  {
    CompareIsOrderIff(s[j - 1].start, s[j].start);
    if i < j - 1 { NeighboursSorted(s, i, j - 1); }
  }

  lemma {:induction false} NearIsSorted(map_: seq<Desc>, s: seq<Desc>)
    requires Outcome(map_, s) && Words(map_) && Near(map_)
    ensures Sorted(s)
  {
    NearPermuted(map_, s);
    forall i, j | 0 <= i < j < |s| ensures s[i].start <= s[j].start { NeighboursSorted(s, i, j); }
  }

  // The map in ascending order.
  function Insert(d: Desc, s: seq<Desc>): (r: seq<Desc>)
    requires Sorted(s)
    ensures multiset(r) == multiset([d]) + multiset(s)
    ensures Sorted(r) && |r| == |s| + 1
    ensures r[0].start == if s == [] || d.start <= s[0].start then d.start else s[0].start
  {
    if s == [] || d.start <= s[0].start then [d] + s
    else
      assert s == [s[0]] + s[1..];
      [s[0]] + Insert(d, s[1..])
  }

  function Ascending(s: seq<Desc>): (r: seq<Desc>)
    ensures Sorted(r) && multiset(r) == multiset(s) && |r| == |s|
  {
    if s == [] then []
    else
      assert s == [s[0]] + s[1..];
      Insert(s[0], Ascending(s[1..]))
  }

  function Rotated(v: seq<Desc>, k: nat): (r: seq<Desc>)
    requires k <= |v|
    ensures multiset(r) == multiset(v)
  {
    assert v == v[..k] + v[k..];
    v[k..] + v[..k]
  }

  // Where to cut an ascending list so that no step upwards is more than 2^63.
  ghost predicate CutAt(v: seq<Desc>, k: nat) {
    0 < k < |v| && forall i, j :: 0 <= i && j == i + 1 && j < |v| && j != k ==> v[j].start - v[i].start <= TWO_63
  }

  lemma {:induction false} CutExists(v: seq<Desc>) returns (k: nat)
    requires |v| >= 2 && Sorted(v) && Words(v)
    ensures CutAt(v, k)
  {
    if i :| 0 <= i < |v| - 1 && v[i + 1].start - v[i].start > TWO_63 {
      k := i + 1;
      forall x, y | 0 <= x && y == x + 1 && y < |v| && y != k ensures v[y].start - v[x].start <= TWO_63 {
        assert y <= i || x >= i + 1;
      }
    } else {
      k := 1;
    }
  }

  // Neighbours at most 2^63 apart upwards, or at least 2^63 apart downwards, stay as they are.
  lemma {:induction false} Stays(a: nat, b: nat)
    requires a < TWO_64 && b < TWO_64 && (0 <= b - a <= TWO_63 || a - b >= TWO_63)
    ensures Compare(a, b) <= 0
  {
  }

  lemma {:induction false} RotationOrdered(v: seq<Desc>, k: nat)
    requires Sorted(v) && Words(v) && CutAt(v, k) && v[|v| - 1].start - v[0].start >= TWO_63
    ensures Ordered(Rotated(v, k)) && !Sorted(Rotated(v, k))
  {
    var r, m := Rotated(v, k), |v| - k;
    forall i, j | 0 <= i && j == i + 1 && j < |r| ensures Compare(r[i].start, r[j].start) <= 0 {
      if i == m - 1 {
        assert r[i] == v[|v| - 1] && r[j] == v[0];
      } else if i < m - 1 {
        assert r[i] == v[i + k] && r[j] == v[j + k];
      } else {
        assert r[i] == v[i - m] && r[j] == v[j - m];
      }
      Stays(r[i].start, r[j].start);
    }
    assert r[m - 1] == v[|v| - 1] && r[m] == v[0];
  }

  /** The sort is sure to leave a map in ascending order if and only if its start addresses are less than 2^63 apart. */
  lemma {:induction false} SortedIff(map_: seq<Desc>)
    requires Words(map_)
    ensures (forall s :: Outcome(map_, s) ==> Sorted(s)) <==> Near(map_)
  {
    if Near(map_) {
      forall s | Outcome(map_, s) ensures Sorted(s) { NearIsSorted(map_, s); }
    } else {
      var s := FarOutcome(map_);
    }
  }

  // A far map, in an order that the sort leaves alone and that is not ascending.
  lemma {:induction false} FarOutcome(map_: seq<Desc>) returns (s: seq<Desc>)
    requires Words(map_) && !Near(map_)
    ensures Outcome(map_, s) && !Sorted(s)
  {
    var i, j :| 0 <= i < |map_| && 0 <= j < |map_| && map_[i].start - map_[j].start >= TWO_63;
    var v := Ascending(map_);
    var x := SameMember(map_, v, i);
    var y := SameMember(map_, v, j);
    assert v[x].start <= v[|v| - 1].start && v[0].start <= v[y].start;
    forall n | 0 <= n < |v| ensures v[n].start < TWO_64 { var k := SameMember(v, map_, n); }
    var k := CutExists(v);
    RotationOrdered(v, k);
    s := Rotated(v, k);
  }

  // ---------- merging ----------

  predicate Merges(out: seq<Desc>, d: Desc, skipBs: bool) {
    skipBs && out != [] && d.Conventional() && out[|out| - 1].Conventional() && out[|out| - 1].End() == d.start
  }

  // The table after one more descriptor, whose type has already been replaced.
  function Add(out: seq<Desc>, d: Desc, skipBs: bool): (r: seq<Desc>)
    ensures r != [] && |r| <= |out| + 1 && r[|r| - 1].End() == d.End()
  {
    if Merges(out, d, skipBs) then
      var last := out[|out| - 1];
      assert (last.pages + d.pages) * PAGE == last.pages * PAGE + d.pages * PAGE;
      out[..|out| - 1] + [last.(pages := last.pages + d.pages)]
    else out + [d]
  }

  /** The merged table of a list of descriptors. */
  function Merge(s: seq<Desc>, skipBs: bool): (r: seq<Desc>)
    ensures |r| <= |s| && (s == [] <==> r == [])
    decreases |s|
  {
    if s == [] then [] else Add(Merge(s[..|s| - 1], skipBs), Shown(s[|s| - 1], skipBs), skipBs)
  }

  // ---------- what merging keeps ----------

  // Address a has type t in the table.
  ghost predicate TypeAt(s: seq<Desc>, a: int, t: nat) {
    exists i :: 0 <= i < |s| && s[i].Covers(a) && s[i].typ == t
  }

  function Pages(s: seq<Desc>): nat { if s == [] then 0 else Pages(s[..|s| - 1]) + s[|s| - 1].pages }

  // No entry ends where the next one starts, if both are conventional memory.
  ghost predicate Separated(s: seq<Desc>) {
    forall i, j :: 0 <= i && j == i + 1 && j < |s| && s[i].Conventional() && s[j].Conventional() ==>
      s[i].End() != s[j].start
  }

  function ShownAll(s: seq<Desc>, skipBs: bool): (r: seq<Desc>)
    ensures |r| == |s| && forall i :: 0 <= i < |s| ==> r[i] == Shown(s[i], skipBs)
  {
    seq(|s|, i requires 0 <= i < |s| => Shown(s[i], skipBs))
  }

  lemma {:induction false} AddKeepsType(out: seq<Desc>, d: Desc, skipBs: bool, a: int, t: nat)
    ensures TypeAt(Add(out, d, skipBs), a, t) <==> TypeAt(out, a, t) || (d.Covers(a) && d.typ == t)
  {
    var r := Add(out, d, skipBs);
    var n := |out| - 1;
    if Merges(out, d, skipBs) {
      assert (out[n].pages + d.pages) * PAGE == out[n].pages * PAGE + d.pages * PAGE;
      assert r[n].Covers(a) <==> out[n].Covers(a) || d.Covers(a);
      assert forall i :: 0 <= i < n ==> r[i] == out[i];
    } else {
      assert r[|out|] == d && forall i :: 0 <= i < |out| ==> r[i] == out[i];
    }
  }

  /** Merging changes no address's type, boot services counted as conventional memory when they are skipped. */
  lemma {:induction false} MergeKeepsTypes(s: seq<Desc>, skipBs: bool, a: int, t: nat)
    ensures TypeAt(Merge(s, skipBs), a, t) <==> TypeAt(ShownAll(s, skipBs), a, t)
    decreases |s|
  {
    if s != [] {
      var init, d := s[..|s| - 1], Shown(s[|s| - 1], skipBs);
      MergeKeepsTypes(init, skipBs, a, t);
      AddKeepsType(Merge(init, skipBs), d, skipBs, a, t);
      var all, ini := ShownAll(s, skipBs), ShownAll(init, skipBs);
      assert forall i :: 0 <= i < |init| ==> all[i] == ini[i];
      assert all[|init|] == d;
    }
  }

  lemma {:induction false} MergeKeepsPages(s: seq<Desc>, skipBs: bool)
    ensures Pages(Merge(s, skipBs)) == Pages(s)
    decreases |s|
  {
    if s != [] {
      MergeKeepsPages(s[..|s| - 1], skipBs);
    }
  }

  predicate StartsBy(s: seq<Desc>, a: nat) { forall i :: 0 <= i < |s| ==> s[i].start <= a }

  lemma {:induction false} AddSorted(out: seq<Desc>, d: Desc, skipBs: bool)
    requires Sorted(out) && StartsBy(out, d.start)
    ensures Sorted(Add(out, d, skipBs)) && StartsBy(Add(out, d, skipBs), d.start)
  {
  }

  lemma {:induction false} MergeSorted(s: seq<Desc>, skipBs: bool)
    requires Sorted(s)
    ensures Sorted(Merge(s, skipBs)) && (s != [] ==> StartsBy(Merge(s, skipBs), s[|s| - 1].start))
    decreases |s|
  {
    if s != [] {
      var init := s[..|s| - 1];
      MergeSorted(init, skipBs);
      assert init != [] ==> init[|init| - 1].start <= s[|s| - 1].start;
      AddSorted(Merge(init, skipBs), Shown(s[|s| - 1], skipBs), skipBs);
    }
  }

  lemma {:induction false} MergeSeparated(s: seq<Desc>)
    ensures Separated(Merge(s, true))
    decreases |s|
  {
    if s != [] {
      MergeSeparated(s[..|s| - 1]);
    }
  }

  lemma {:induction false} MergeAll(s: seq<Desc>)
    ensures Merge(s, false) == s
    decreases |s|
  {
    if s != [] {
      MergeAll(s[..|s| - 1]);
      assert s == s[..|s| - 1] + [s[|s| - 1]];
    }
  }

  lemma {:induction false} TypesArePermuted(s: seq<Desc>, r: seq<Desc>, skipBs: bool, a: int, t: nat)
    requires multiset(s) == multiset(r)
    ensures TypeAt(ShownAll(s, skipBs), a, t) ==> TypeAt(ShownAll(r, skipBs), a, t)
  {
    var x, y := ShownAll(s, skipBs), ShownAll(r, skipBs);
    if TypeAt(x, a, t) {
      var i :| 0 <= i < |x| && x[i].Covers(a) && x[i].typ == t;
      assert s[i] in multiset(r);
      var j :| 0 <= j < |r| && r[j] == s[i];
      assert y[j] == x[i];
    }
  }

  lemma {:induction false} PagesConcat(a: seq<Desc>, b: seq<Desc>)
    ensures Pages(a + b) == Pages(a) + Pages(b)
    decreases |b|
  {
    if b == [] {
      assert a + b == a;
    } else {
      assert (a + b)[..|a + b| - 1] == a + b[..|b| - 1];
      PagesConcat(a, b[..|b| - 1]);
    }
  }

  lemma {:induction false} PagesWithout(b: seq<Desc>, k: nat)
    requires k < |b|
    ensures Pages(b) == Pages(b[..k] + b[k + 1..]) + b[k].pages
    ensures multiset(b[..k] + b[k + 1..]) == multiset(b) - multiset{b[k]}
  {
    var x, y := b[..k], b[k + 1..];
    assert b == x + [b[k]] + y;
    PagesConcat(x + [b[k]], y);
    PagesConcat(x, [b[k]]);
    PagesConcat(x, y);
    assert Pages([b[k]]) == b[k].pages;
  }

  lemma {:induction false} PagesPermuted(a: seq<Desc>, b: seq<Desc>)
    requires multiset(a) == multiset(b)
    ensures Pages(a) == Pages(b)
    decreases |a|
  {
    assert |multiset(a)| == |a| && |multiset(b)| == |b|;
    if a != [] {
      var m := |a| - 1;
      assert a == a[..m] + [a[m]];
      var k := SameMember(a, b, m);
      PagesWithout(b, k);
      PagesPermuted(a[..m], b[..k] + b[k + 1..]);
    }
  }

  // ---------- disjoint regions ----------

  predicate Apart(d: Desc, e: Desc) { d.End() <= e.start || e.End() <= d.start }

  predicate Disjoint(s: seq<Desc>) { forall i, j :: 0 <= i < j < |s| ==> Apart(s[i], s[j]) }

  predicate NonEmpty(s: seq<Desc>) { forall i :: 0 <= i < |s| ==> s[i].pages > 0 }

  // Non-empty entries, each ending before the next one starts.
  predicate Chain(s: seq<Desc>) {
    NonEmpty(s) && forall i, j :: 0 <= i < j < |s| ==> s[i].End() <= s[j].start
  }

  lemma {:induction false} AddChain(out: seq<Desc>, d: Desc, skipBs: bool)
    requires Chain(out) && d.pages > 0 && forall i :: 0 <= i < |out| ==> out[i].End() <= d.start
    ensures Chain(Add(out, d, skipBs))
    ensures forall i :: 0 <= i < |Add(out, d, skipBs)| ==> Add(out, d, skipBs)[i].End() <= d.End()
  {
    var r := Add(out, d, skipBs);
    assert d.start <= d.End();
    assert forall i :: 0 <= i < |r| - 1 ==> r[i] == out[i];
  }

  lemma {:induction false} MergeChain(s: seq<Desc>, skipBs: bool)
    requires Chain(s)
    ensures Chain(Merge(s, skipBs))
    ensures s != [] ==> forall i :: 0 <= i < |Merge(s, skipBs)| ==> Merge(s, skipBs)[i].End() <= s[|s| - 1].End()
    decreases |s|
  {
    if s != [] {
      var init := s[..|s| - 1];
      MergeChain(init, skipBs);
      assert init != [] ==> init[|init| - 1].End() <= s[|s| - 1].start;
      AddChain(Merge(init, skipBs), Shown(s[|s| - 1], skipBs), skipBs);
    }
  }

  lemma {:induction false} ChainApart(out: seq<Desc>, i: nat, j: nat)
    requires Chain(out) && Separated(out) && i < |out| && j < |out|
    requires out[i].Conventional() && out[j].Conventional()
    ensures out[i].End() != out[j].start
  {
    if i < j && j > i + 1 {
      assert out[i].End() <= out[i + 1].start < out[i + 1].End() <= out[j].start;
    } else if i > j {
      assert out[j].start < out[j].End() <= out[i].start;
    }
  }

  // A value that occurs twice.
  lemma {:induction false} TwiceAt(s: seq<Desc>, i: nat, j: nat)
    requires i < j < |s| && s[i] == s[j]
    ensures multiset(s)[s[j]] >= 2
  {
    assert s == s[..j] + [s[j]] + s[j + 1..];
    assert s[i] in multiset(s[..j]);
  }

  lemma {:induction false} FindTwice(s: seq<Desc>, x: Desc) returns (i: nat, j: nat)
    requires multiset(s)[x] >= 2
    ensures i < j < |s| && s[i] == x == s[j]
    decreases |s|
  {
    var m := |s| - 1;
    assert s == s[..m] + [s[m]];
    if s[m] == x {
      assert x in multiset(s[..m]);
      i :| 0 <= i < m && s[..m][i] == x;
      j := m;
    } else {
      i, j := FindTwice(s[..m], x);
    }
  }

  lemma {:induction false} DisjointPermuted(map_: seq<Desc>, s: seq<Desc>)
    requires multiset(s) == multiset(map_) && Disjoint(map_) && NonEmpty(map_)
    ensures Disjoint(s) && NonEmpty(s)
  {
    forall i | 0 <= i < |s| ensures s[i].pages > 0 { var k := SameMember(s, map_, i); }
    forall i, j | 0 <= i < j < |s| ensures Apart(s[i], s[j]) {
      if s[i] == s[j] {
        TwiceAt(s, i, j);
        var k, l := FindTwice(map_, s[j]);
      } else {
        var k := SameMember(s, map_, i);
        var l := SameMember(s, map_, j);
        assert k != l;
      }
    }
  }

  /** On disjoint, non-empty regions less than 2^63 apart no two conventional entries of the table abut. */
  lemma {:induction false} NoAbutting(map_: seq<Desc>, s: seq<Desc>, i: nat, j: nat)
    requires Outcome(map_, s) && Words(map_) && Near(map_) && Disjoint(map_) && NonEmpty(map_)
    requires var out := Merge(s, true); i < |out| && j < |out| && out[i].Conventional() && out[j].Conventional()
    ensures var out := Merge(s, true); out[i].End() != out[j].start
  {
    NearIsSorted(map_, s);
    DisjointPermuted(map_, s);
    MergeChain(s, true);
    MergeSeparated(s);
    ChainApart(Merge(s, true), i, j);
  }

  /**
   What the table means, in whatever order the firmware lists its regions, wherever they lie and whatever their overlaps:
   the same type at every address and the same number of pages; it is ascending if the starts are less than 2^63 apart.
   */
  lemma {:induction false} TableKeepsMeaning(map_: seq<Desc>, s: seq<Desc>, skipBs: bool)
    requires Outcome(map_, s) && Words(map_)
    ensures var out := Merge(s, skipBs);
            && Pages(out) == Pages(map_) && (skipBs ==> Separated(out)) && (!skipBs ==> out == s)
            && (Near(map_) ==> Sorted(out))
            && forall a, t :: TypeAt(out, a, t) <==> TypeAt(ShownAll(map_, skipBs), a, t)
  {
    var out := Merge(s, skipBs);
    MergeKeepsPages(s, skipBs);
    PagesPermuted(s, map_);
    if skipBs { MergeSeparated(s); } else { MergeAll(s); }
    if Near(map_) {
      NearIsSorted(map_, s);
      MergeSorted(s, skipBs);
    }
    forall a, t ensures TypeAt(out, a, t) <==> TypeAt(ShownAll(map_, skipBs), a, t) {
      MergeKeepsTypes(s, skipBs, a, t);
      TypesArePermuted(s, map_, skipBs, a, t);
      TypesArePermuted(map_, s, skipBs, a, t);
    }
  }

  lemma {:induction false} TwoOf(s: seq<Desc>, d: Desc, e: Desc)
    requires multiset(s) == multiset{d, e} && d != e
    ensures s == [d, e] || s == [e, d]
  {
    assert |multiset(s)| == |s| == 2;
    assert s == [s[0]] + [s[1]];
    assert s[0] in multiset(s) && s[1] in multiset(s);
  }

  lemma {:induction false} MergeTwo(d: Desc, e: Desc, skipBs: bool)
    requires d.End() != e.start
    ensures Merge([d, e], skipBs) == [Shown(d, skipBs), Shown(e, skipBs)]
  {
    assert [d, e][..1] == [d] && [d][..0] == [];
    assert Merge([d], skipBs) == [Shown(d, skipBs)];
  }

  /** Two regions more than 2^63 apart: in either order of the map the table lists the higher one first. */
  lemma {:induction false} FarIsDescending(low: Desc, high: Desc, s: seq<Desc>, skipBs: bool)
    requires low.start + TWO_63 < high.start < TWO_64 && (Outcome([low, high], s) || Outcome([high, low], s))
    ensures Merge(s, skipBs) == [Shown(high, skipBs), Shown(low, skipBs)] && !Sorted(Merge(s, skipBs))
  {
    assert multiset([low, high]) == multiset{low, high} == multiset([high, low]);
    TwoOf(s, low, high);
    assert Compare(low.start, high.start) == 1;
    MergeTwo(high, low, skipBs);
    var out := Merge(s, skipBs);
    assert out[0].start > out[1].start;
  }

  // One page at 0 and one a page above 2^63, listed in ascending order.
  lemma {:induction false} FarExample(s: seq<Desc>, skipBs: bool)
    requires Outcome([Desc(CONVENTIONAL, 0, 0, 1, 0), Desc(CONVENTIONAL, TWO_63 + PAGE, 0, 1, 0)], s)
    ensures !Sorted(Merge(s, skipBs))
  {
    FarIsDescending(Desc(CONVENTIONAL, 0, 0, 1, 0), Desc(CONVENTIONAL, TWO_63 + PAGE, 0, 1, 0), s, skipBs);
  }

  /** A region of 2^63 bytes or more and one behind it, listed in descending order, abut in the table and are not merged. */
  lemma {:induction false} FarAbuts(low: Desc, high: Desc)
    requires low.Conventional() && high.Conventional() && high.pages > 0
    requires low.start + TWO_63 <= low.End() == high.start < TWO_64
    ensures Outcome([high, low], [high, low]) && Disjoint([high, low]) && NonEmpty([high, low])
    ensures Merge([high, low], true) == [high, low] && low.End() == high.start
  {
    Stays(high.start, low.start);
    assert high.End() > low.start;
    MergeTwo(high, low, true);
  }

  // ---------- the shell sort ----------

  // The first elements are the same up to their order, and the others the same.
  ghost predicate Permuted(was: seq<Desc>, now: seq<Desc>, count: nat) {
    && count <= |was| == |now| && multiset(now[..count]) == multiset(was[..count])
    && forall k :: count <= k < |was| ==> now[k] == was[k]
  }

  // The gaps are 1, 4, 13, ..., each three times the one before plus one.
  ghost predicate Gap(g: nat)
    decreases g
  {
    g == 1 || (g > 1 && g % 3 == 1 && Gap((g - 1) / 3))
  }

  lemma {:induction false} SwapPermutes(s: seq<Desc>, i: nat, j: nat)
    requires i < j < |s|
    ensures multiset(s[i := s[j]][j := s[i]]) == multiset(s)
  {
  }

  // Neighbours up to n are in order, except perhaps in front of j.
  ghost predicate OrderedExcept(s: seq<Desc>, n: nat, j: nat) {
    && n <= |s|
    && (forall k, l :: 0 <= k && l == k + 1 && l < n && l != j ==> Compare(s[k].start, s[l].start) <= 0)
    && (0 < j && j + 1 < n ==> Compare(s[j - 1].start, s[j + 1].start) <= 0)
  }

  lemma {:induction false} ExchangeOrders(s: seq<Desc>, n: nat, j: nat)
    requires 0 < j < n && OrderedExcept(s, n, j) && Compare(s[j - 1].start, s[j].start) > 0
    ensures OrderedExcept(s[j - 1 := s[j]][j := s[j - 1]], n, j - 1)
  {
    CompareFlips(s[j - 1].start, s[j].start);
  }

  lemma {:induction false} DoneOrders(s: seq<Desc>, n: nat, j: nat)
    requires j < n && OrderedExcept(s, n, j) && (j > 0 ==> Compare(s[j - 1].start, s[j].start) <= 0)
    ensures Ordered(s[..n])
  {
  }

  lemma {:induction false} StartOrders(s: seq<Desc>, i: nat)
    requires i < |s| && Ordered(s[..i])
    ensures OrderedExcept(s, i + 1, i)
  {
    forall k, l | 0 <= k && l == k + 1 && l < i + 1 && l != i ensures Compare(s[k].start, s[l].start) <= 0 {
      assert s[..i][k] == s[k] && s[..i][l] == s[l];
    }
  }

  lemma {:induction false} PermutedTwice(a: seq<Desc>, b: seq<Desc>, c: seq<Desc>, count: nat)
    requires Permuted(a, b, count) && Permuted(b, c, count)
    ensures Permuted(a, c, count)
  {
  }

  method Exchange(base: array<Desc>, count: nat, k: nat, j: nat)
    requires k < j < count <= base.Length
    modifies base
    ensures base[..count] == old(base[..count])[k := old(base[j])][j := old(base[k])]
    ensures Permuted(old(base[..]), base[..], count)
  {
    SwapPermutes(base[..count], k, j);
    base[k], base[j] := base[j], base[k];
    assert base[..count] == old(base[..count])[k := base[k]][j := base[j]];
    assert base[..][..count] == base[..count] && old(base[..])[..count] == old(base[..count]);
  }

  // One step back of the element at j: whether it has gone, and in order if the steps are of one.
  method StepBack(base: array<Desc>, count: nat, gap: nat, j: nat, ghost n: nat) returns (more: bool)
    requires 0 < gap <= j < n <= count <= base.Length
    modifies base
    ensures Permuted(old(base[..]), base[..], count)
    ensures gap == 1 && old(OrderedExcept(base[..count], n, j)) ==>
              if more then OrderedExcept(base[..count], n, j - 1)
              else OrderedExcept(base[..count], n, j) && Compare(base[j - 1].start, base[j].start) <= 0
  {
    var k := j - gap;
    more := Compare(base[k].start, base[j].start) > 0;
    if more {
      if gap == 1 && OrderedExcept(base[..count], n, j) { ExchangeOrders(base[..count], n, j); }
      Exchange(base, count, k, j);
    }
  }

  // Element i, moved back in steps of the gap.
  method MoveBack(base: array<Desc>, count: nat, gap: nat, i: nat)
    requires 0 < gap <= i < count <= base.Length
    modifies base
    ensures Permuted(old(base[..]), base[..], count)
    ensures gap == 1 && Ordered(old(base[..i])) ==> Ordered(base[..i + 1])
  {
    ghost var one := gap == 1 && Ordered(base[..i]);
    var j: nat, more := i, true;
    if one {
      assert base[..count][..i] == base[..i];
      StartOrders(base[..count], i);
    }
    while more && j >= gap
      invariant j <= i && Permuted(old(base[..]), base[..], count)
      invariant one ==> OrderedExcept(base[..count], i + 1, j)
      invariant one && !more ==> j > 0 && Compare(base[j - 1].start, base[j].start) <= 0
      decreases more, j
    {
      ghost var now := base[..];
      more := StepBack(base, count, gap, j, i + 1);
      PermutedTwice(old(base[..]), now, base[..], count);
      if more { j := j - gap; }
    }
    if one {
      DoneOrders(base[..count], i + 1, j);
      assert base[..count][..i + 1] == base[..i + 1];
    }
  }

  // One pass.
  method Pass(base: array<Desc>, count: nat, gap: nat)
    requires 0 < gap < count <= base.Length
    modifies base
    ensures Permuted(old(base[..]), base[..], count)
    ensures gap == 1 ==> Ordered(base[..count])
  {
    for i := gap to count
      invariant Permuted(old(base[..]), base[..], count)
      invariant gap == 1 ==> Ordered(base[..i])
    {
      MoveBack(base, count, gap, i);
    }
  }

  /** qsort with h_cmp_entry: a permutation in which no two neighbours would be exchanged, whatever the start addresses. */
  method ShellSort(base: array<Desc>, count: nat)
    requires count <= base.Length
    modifies base
    ensures Permuted(old(base[..]), base[..], count) && Ordered(base[..count])
  {
    if count <= 1 { return; }
    var gap: nat := 1;
    while gap < (count - 1) / 3
      invariant 0 < gap < count && Gap(gap)
      decreases count - gap
    {
      gap := 3 * gap + 1;
    }
    while gap > 0
      invariant gap < count && (if gap == 0 then Ordered(base[..count]) else Gap(gap))
      invariant Permuted(old(base[..]), base[..], count)
    {
      Pass(base, count, gap);
      gap := (gap - 1) / 3;
    }
  }

  // ---------- the in-place loop ----------

  // One descriptor: copied over the next free entry, then merged into the entry before it or kept.
  method Place(base: array<Desc>, i: nat, dest: nat, addr: nat, skipBs: bool) returns (dest': nat, addr': nat)
    requires dest <= i < base.Length && (dest > 0 ==> addr == base[dest - 1].End())
    modifies base
    ensures 0 < dest' <= i + 1 && addr' == base[dest' - 1].End()
    ensures base[..dest'] == Add(old(base[..dest]), Shown(old(base[i]), skipBs), skipBs)
    ensures forall j :: i < j < base.Length ==> base[j] == old(base[j])
  {
    var d := base[i];
    var t := if skipBs && IsBootServices(d.typ) then CONVENTIONAL else d.typ;
    base[dest] := d.(typ := t);
    if skipBs && dest > 0 && d.start == addr && t == CONVENTIONAL && base[dest - 1].typ == CONVENTIONAL {
      base[dest - 1] := base[dest - 1].(pages := base[dest - 1].pages + d.pages);
      dest' := dest;
    } else {
      dest' := dest + 1;
    }
    addr' := d.End();
  }

  lemma {:induction false} MergeNext(s: seq<Desc>, i: nat, skipBs: bool)
    requires i < |s|
    ensures Merge(s[..i + 1], skipBs) == Add(Merge(s[..i], skipBs), Shown(s[i], skipBs), skipBs)
  {
    assert s[..i + 1][..i] == s[..i];
  }

  // The loop over the sorted descriptors, in place.
  method Compact(base: array<Desc>, count: nat, skipBs: bool) returns (n: nat)
    requires count < base.Length
    modifies base
    ensures n <= count && base[..n] == Merge(old(base[..count]), skipBs)
  {
    ghost var s := base[..count];
    n := 0;
    var addr := 0;
    for i := 0 to count
      invariant n <= i && base[..n] == Merge(s[..i], skipBs)
      invariant forall j :: i <= j < count ==> base[j] == s[j]
      invariant n > 0 ==> addr == base[n - 1].End()
    {
      MergeNext(s, i, skipBs);
      n, addr := Place(base, i, n, addr, skipBs);
    }
    assert s[..count] == s;
  }

  /**
   efi_build_mem_table: the merged table of the sorted map in a fresh buffer, followed by the end mark.  It keeps types and
   pages, and is ascending if the start addresses are less than 2^63 apart.
   */
  method BuildMemTable(map_: seq<Desc>, skipBs: bool) returns (base: array<Desc>, n: nat)
    requires Words(map_)
    ensures fresh(base) && n < base.Length && base[n].typ == TABLE_END
    ensures exists s :: Outcome(map_, s) && base[..n] == Merge(s, skipBs)
    ensures Pages(base[..n]) == Pages(map_) && (Near(map_) ==> Sorted(base[..n]))
    ensures forall a, t :: TypeAt(base[..n], a, t) <==> TypeAt(ShownAll(map_, skipBs), a, t)
  {
    var count := |map_|;
    base := new Desc[count + 1](i => if 0 <= i < count then map_[i] else Desc(0, 0, 0, 0, 0));
    assert base[..count] == map_;
    ShellSort(base, count);
    ghost var s := base[..count];
    assert base[..][..count] == s;
    n := Compact(base, count, skipBs);
    base[n] := base[n].(typ := TABLE_END);
    assert Outcome(map_, s) && base[..n] == Merge(s, skipBs);
    TableKeepsMeaning(map_, s, skipBs);
  }
}
