/**
 The RSCE resource image: a header block, one table block an entry, and contents that start on blocks of their own.
 Names are the bytes of their UTF-8 form.
 */
module Rsce {
  import opened Options
  import opened Utf8

  datatype Item = Item(name: Bytes, data: Bytes)

  const BLOCK := 512
  const NAME_MAX := 219
  const ENTRY_SIZE := 268
  const TWO_32 := 0x1_0000_0000

  const RSCE: Bytes := [0x52, 0x53, 0x43, 0x45]
  const ENTR: Bytes := [0x45, 0x4E, 0x54, 0x52]

  function Zeros(n: nat): (z: Bytes)
    ensures |z| == n && forall i :: 0 <= i < n ==> z[i] == 0
  {
    seq(n, _ => 0)
  }

  // ljust, and the padding of a string field.
  function Pad(s: Bytes, n: nat): (r: Bytes)
    requires |s| <= n
    ensures |r| == n && r[..|s|] == s
  {
    s + Zeros(n - |s|)
  }

  // ---------- little-endian words ----------

  function Word(n: nat): (w: Bytes)
    requires n < TWO_32
    ensures |w| == 4
  {
    [n % 256, n / 0x100 % 256, n / 0x1_0000 % 256, n / 0x100_0000]
  }

  function WordValue(w: Bytes): nat
    requires |w| == 4
  {
    w[0] as int + 0x100 * w[1] as int + 0x1_0000 * w[2] as int + 0x100_0000 * w[3] as int
  }

  lemma {:induction false} WordRoundTrip(n: nat)
    requires n < TWO_32
    ensures WordValue(Word(n)) == n
  {
    assert n / 0x100 / 0x100 == n / 0x1_0000;
    assert n / 0x1_0000 / 0x100 == n / 0x100_0000;
  }

  // ---------- packing ----------

  function Blocks(n: nat): nat { (n + BLOCK - 1) / BLOCK }

  function Blob(data: Bytes): (b: Bytes)
    ensures |b| == BLOCK * Blocks(|data|) && |b| >= |data| && b[..|data|] == data
  {
    Pad(data, BLOCK * Blocks(|data|))
  }

  function Blobs(items: seq<Item>): (b: Bytes)
    ensures |b| == BLOCK * TotalBlocks(items)
    decreases |items|
  {
    if items == [] then [] else Blob(items[0].data) + Blobs(items[1..])
  }

  function TotalBlocks(items: seq<Item>): nat
    decreases |items|
  {
    if items == [] then 0 else Blocks(|items[0].data|) + TotalBlocks(items[1..])
  }

  // encode()[:219].
  function Cut(name: Bytes): (r: Bytes)
    ensures |r| <= NAME_MAX
  {
    if |name| <= NAME_MAX then name else name[..NAME_MAX]
  }

  function Entry(name: Bytes, off: nat, size: nat): (e: Bytes)
    requires off < TWO_32 && size < TWO_32
    ensures |e| == BLOCK
  {
    Pad(ENTR + Pad(Cut(name), NAME_MAX + 1) + Zeros(32) + Word(0) + Word(off) + Word(size), BLOCK)
  }

  // Every offset and size fits its field, with the first content at block off.
  predicate FieldsFit(items: seq<Item>, off: nat)
    decreases |items|
  {
    items == [] || (off < TWO_32 && |items[0].data| < TWO_32 && FieldsFit(items[1..], off + Blocks(|items[0].data|)))
  }

  type EntryWriter = (Item, nat) -> Bytes

  // A table with the entries that f writes.
  function Table(f: EntryWriter, items: seq<Item>, off: nat): Bytes
    decreases |items|
  {
    if items == [] then [] else f(items[0], off) + Table(f, items[1..], off + Blocks(|items[0].data|))
  }

  function EntryOf(item: Item, off: nat): Bytes {
    if off < TWO_32 && |item.data| < TWO_32 then Entry(item.name, off, |item.data|) else []
  }

  function Entries(items: seq<Item>, off: nat): Bytes { Table(EntryOf, items, off) }

  lemma {:induction false} EntriesCons(items: seq<Item>, off: nat)
    requires items != [] && FieldsFit(items, off)
    ensures Entries(items, off)
         == Entry(items[0].name, off, |items[0].data|) + Entries(items[1..], off + Blocks(|items[0].data|))
  {
  }

  lemma {:induction false} EntriesLength(items: seq<Item>, off: nat)
    requires FieldsFit(items, off)
    ensures |Entries(items, off)| == BLOCK * |items|
    decreases |items|
  {
    if items != [] {
      EntriesCons(items, off);
      EntriesLength(items[1..], off + Blocks(|items[0].data|));
    }
  }

  function Header(n: nat): (h: Bytes)
    requires n < TWO_32
    ensures |h| == BLOCK
  {
    Pad(RSCE + [0, 0, 0, 0, 1, 1, 1, 0] + Word(n), BLOCK)
  }

  predicate Packable(items: seq<Item>) { |items| < TWO_32 && FieldsFit(items, 1 + |items|) }

  function Image(items: seq<Item>): (img: Bytes)
    requires Packable(items)
    ensures |img| == BLOCK * (1 + |items| + TotalBlocks(items))
  {
    EntriesLength(items, 1 + |items|);
    Header(|items|) + Entries(items, 1 + |items|) + Blobs(items)
  }

  // ---------- unpacking ----------

  // data[a:b], which does not go past the end.
  function Slice(img: Bytes, a: nat, n: nat): Bytes {
    if a >= |img| then [] else if a + n <= |img| then img[a..a + n] else img[a..]
  }

  // split(b'\0')[0].
  function UptoNul(s: Bytes): Bytes { if s == [] || s[0] == 0 then [] else [s[0]] + UptoNul(s[1..]) }

  function ReadWord(img: Bytes, a: nat): nat
    requires a + 4 <= |img|
  {
    WordValue(img[a..a + 4])
  }

  // One entry: wrong tags and names that are not UTF-8 raise.
  function ReadEntry(img: Bytes, base: nat): Option<Item> {
    if base + ENTRY_SIZE > |img| || img[base..base + 4] != ENTR || !Valid(UptoNul(img[base + 4..base + 224])) then None
    else Some(Item(UptoNul(img[base + 4..base + 224]),
                   Slice(img, ReadWord(img, base + 260) * BLOCK, ReadWord(img, base + 264))))
  }

  type EntryReader = nat -> Option<Item>

  function ReaderOf(img: Bytes): EntryReader { (base: nat) => ReadEntry(img, base) }

  // n entries that are `step` bytes apart.
  function ReadEntries(r: EntryReader, base: nat, step: nat, n: nat): Option<seq<Item>>
    decreases n
  {
    if n == 0 then Some([]) else
      var e := r(base);
      if e.None? then None else
        var more := ReadEntries(r, base + step, step, n - 1);
        if more.None? then None else Some([e.value] + more.value)
  }

  /** unpack: nothing where Python raises. */
  function Unpack(img: Bytes): Option<seq<Item>> {
    if |img| < 16 || img[..4] != RSCE then None
    else ReadEntries(ReaderOf(img), img[8] as int * BLOCK, (img[10] as int + 0x100 * img[11] as int) * BLOCK, ReadWord(img, 12))
  }

  // ---------- slices ----------

  // The bytes b stand at position a.
  predicate At(img: Bytes, a: nat, b: Bytes) { a + |b| <= |img| && img[a..a + |b|] == b }

  lemma {:induction false} AtSplit(img: Bytes, a: nat, x: Bytes, y: Bytes)
    requires At(img, a, x + y)
    ensures At(img, a, x) && At(img, a + |x|, y)
  {
    var s := img[a..a + |x + y|];
    assert img[a..a + |x|] == s[..|x|] && s[..|x|] == x;
    assert img[a + |x|..a + |x| + |y|] == s[|x|..] && s[|x|..] == y;
  }

  lemma {:induction false} AtPrefix(img: Bytes, a: nat, x: Bytes, n: nat)
    requires At(img, a, x) && n <= |x|
    ensures At(img, a, x[..n])
  {
    assert x == x[..n] + x[n..];
    AtSplit(img, a, x[..n], x[n..]);
  }

  lemma {:induction false} AtWord(img: Bytes, a: nat, n: nat)
    requires n < TWO_32 && At(img, a, Word(n))
    ensures ReadWord(img, a) == n
  {
    WordRoundTrip(n);
  }

  lemma {:induction false} AtSlice(img: Bytes, a: nat, x: Bytes)
    requires At(img, a, x)
    ensures Slice(img, a, |x|) == x
  {
  }

  // ---------- one entry ----------

  lemma {:induction false} UptoNulPad(s: Bytes, z: Bytes)
    requires forall i :: 0 <= i < |z| ==> z[i] == 0
    ensures UptoNul(s + z) == UptoNul(s)
    decreases |s|
  {
    if s == [] {
      assert s + z == z;
    } else {
      assert (s + z)[1..] == s[1..] + z;
      UptoNulPad(s[1..], z);
    }
  }

  lemma {:induction false} EntryFields(img: Bytes, base: nat, name: Bytes, off: nat, size: nat)
    requires off < TWO_32 && size < TWO_32 && At(img, base, Entry(name, off, size))
    ensures At(img, base, ENTR) && At(img, base + 4, Pad(Cut(name), NAME_MAX + 1))
    ensures At(img, base + 260, Word(off)) && At(img, base + 264, Word(size))
  {
    var p := Pad(Cut(name), NAME_MAX + 1);
    var f := ENTR + p + Zeros(32) + Word(0) + Word(off) + Word(size);
    AtPrefix(img, base, Entry(name, off, size), |f|);
    AtSplit(img, base, ENTR + p + Zeros(32) + Word(0) + Word(off), Word(size));
    AtSplit(img, base, ENTR + p + Zeros(32) + Word(0), Word(off));
    AtPrefix(img, base, ENTR + p + Zeros(32) + Word(0), 224);
    assert (ENTR + p + Zeros(32) + Word(0))[..224] == ENTR + p;
    AtSplit(img, base, ENTR, p);
  }

  // What the table says about an item.
  function Shown(item: Item): Item { Item(UptoNul(Cut(item.name)), item.data) }

  // What reading its entry gives.
  function Read(item: Item): Option<Item> { if Valid(Shown(item).name) then Some(Shown(item)) else None }

  lemma {:induction false} EntryRoundTrip(img: Bytes, base: nat, item: Item, off: nat)
    requires off < TWO_32 && |item.data| < TWO_32 && At(img, base, Entry(item.name, off, |item.data|))
    requires At(img, BLOCK * off, item.data)
    ensures ReadEntry(img, base) == Read(item)
  {
    EntryFields(img, base, item.name, off, |item.data|);
    AtWord(img, base + 260, off);
    AtWord(img, base + 264, |item.data|);
    UptoNulPad(Cut(item.name), Zeros(NAME_MAX + 1 - |Cut(item.name)|));
    AtSlice(img, off * BLOCK, item.data);
  }

  // ---------- the image ----------

  function ShownAll(items: seq<Item>): (r: seq<Item>)
    ensures |r| == |items| && forall i :: 0 <= i < |r| ==> r[i] == Shown(items[i])
    decreases |items|
  {
    if items == [] then [] else [Shown(items[0])] + ShownAll(items[1..])
  }

  function ReadAll(items: seq<Item>): Option<seq<Item>>
    decreases |items|
  {
    if items == [] then Some([])
    else if Read(items[0]).None? || ReadAll(items[1..]).None? then None
    else Some([Shown(items[0])] + ReadAll(items[1..]).value)
  }

  // The table and the contents of the items, at their places in the image.
  ghost predicate Holds(img: Bytes, base: nat, items: seq<Item>, off: nat) {
    FieldsFit(items, off) && At(img, base, Entries(items, off)) && At(img, BLOCK * off, Blobs(items))
  }

  lemma {:induction false} TableFirst(img: Bytes, base: nat, items: seq<Item>, off: nat)
    requires items != [] && FieldsFit(items, off) && At(img, base, Entries(items, off))
    ensures At(img, base, Entry(items[0].name, off, |items[0].data|))
    ensures At(img, base + BLOCK, Entries(items[1..], off + Blocks(|items[0].data|)))
  {
    EntriesCons(items, off);
    AtSplit(img, base, Entry(items[0].name, off, |items[0].data|), Entries(items[1..], off + Blocks(|items[0].data|)));
  }

  lemma {:induction false} BlobsFirst(img: Bytes, off: nat, items: seq<Item>)
    requires items != [] && At(img, BLOCK * off, Blobs(items))
    ensures At(img, BLOCK * off, items[0].data)
    ensures At(img, BLOCK * (off + Blocks(|items[0].data|)), Blobs(items[1..]))
  {
    AtSplit(img, BLOCK * off, Blob(items[0].data), Blobs(items[1..]));
    AtPrefix(img, BLOCK * off, Blob(items[0].data), |items[0].data|);
  }

  lemma {:induction false} HoldsFirst(img: Bytes, base: nat, items: seq<Item>, off: nat)
    requires items != [] && Holds(img, base, items, off)
    ensures ReadEntry(img, base) == Read(items[0])
    ensures Holds(img, base + BLOCK, items[1..], off + Blocks(|items[0].data|))
  {
    TableFirst(img, base, items, off);
    BlobsFirst(img, off, items);
    EntryRoundTrip(img, base, items[0], off);
  }

  // What a reader finds.
  ghost predicate Finds(r: EntryReader, base: nat, items: seq<Item>)
    decreases |items|
  {
    items == [] || (r(base) == Read(items[0]) && Finds(r, base + BLOCK, items[1..]))
  }

  lemma {:induction false} HoldsFinds(img: Bytes, base: nat, items: seq<Item>, off: nat)
    requires Holds(img, base, items, off)
    ensures Finds(ReaderOf(img), base, items)
    decreases |items|
  {
    if items != [] {
      HoldsFirst(img, base, items, off);
      HoldsFinds(img, base + BLOCK, items[1..], off + Blocks(|items[0].data|));
    }
  }

  lemma {:induction false} FindsReads(r: EntryReader, base: nat, items: seq<Item>)
    requires Finds(r, base, items)
    ensures ReadEntries(r, base, BLOCK, |items|) == ReadAll(items)
    decreases |items|
  {
    if items != [] { FindsReads(r, base + BLOCK, items[1..]); }
  }

  lemma {:induction false} HeaderFields(img: Bytes, n: nat)
    requires n < TWO_32 && At(img, 0, Header(n))
    ensures |img| >= 16 && img[..4] == RSCE && img[8] == 1 && img[10] == 1 && img[11] == 0 && ReadWord(img, 12) == n
  {
    var f := RSCE + [0, 0, 0, 0, 1, 1, 1, 0] + Word(n);
    AtPrefix(img, 0, Header(n), |f|);
    AtSplit(img, 0, RSCE + [0, 0, 0, 0, 1, 1, 1, 0], Word(n));
    AtWord(img, 12, n);
    assert img[0..12] == RSCE + [0, 0, 0, 0, 1, 1, 1, 0];
    assert img[8] == img[0..12][8] && img[10] == img[0..12][10] && img[11] == img[0..12][11];
    assert img[..4] == img[0..12][..4];
  }

  lemma {:induction false} ImageParts(items: seq<Item>)
    requires Packable(items)
    ensures var img := Image(items);
            && At(img, 0, Header(|items|)) && At(img, BLOCK, Entries(items, 1 + |items|))
            && At(img, BLOCK * (1 + |items|), Blobs(items))
  {
    var img := Image(items);
    EntriesLength(items, 1 + |items|);
    assert At(img, 0, img);
    AtSplit(img, 0, Header(|items|) + Entries(items, 1 + |items|), Blobs(items));
    AtSplit(img, 0, Header(|items|), Entries(items, 1 + |items|));
  }

  lemma {:induction false} UnpackReads(items: seq<Item>)
    requires Packable(items)
    ensures Unpack(Image(items)) == ReadAll(items)
  {
    ImageParts(items);
    HeaderFields(Image(items), |items|);
    HoldsFinds(Image(items), BLOCK, items, 1 + |items|);
    FindsReads(ReaderOf(Image(items)), BLOCK, items);
  }

  // ---------- names ----------

  lemma {:induction false} UptoNulIs(s: Bytes) returns (j: nat)
    ensures j <= |s| && UptoNul(s) == s[..j] && (j < |s| ==> s[j] == 0) && 0 !in s[..j]
    decreases |s|
  {
    if s == [] || s[0] == 0 {
      j := 0;
    } else {
      var k := UptoNulIs(s[1..]);
      j := k + 1;
      assert s[..j] == [s[0]] + s[1..][..k];
    }
  }

  /** A name whose stored form decodes: it is not cut, or not inside a character, or ends in front of the cut. */
  predicate Decodes(name: Bytes) { |name| <= NAME_MAX || 0 in name[..NAME_MAX] || !Continues(name[NAME_MAX]) }

  lemma {:induction false} StoredNameIff(name: Bytes)
    requires Valid(name)
    ensures Valid(UptoNul(Cut(name))) <==> Decodes(name)
  {
    var j := UptoNulIs(Cut(name));
    assert Cut(name)[..j] == name[..j];
    PrefixIff(name, j);
    if j < |Cut(name)| {
      assert name[j] == 0 && Cut(name)[j] == 0;
      assert |name| > NAME_MAX ==> name[..NAME_MAX][j] == 0;
    } else {
      assert Cut(name)[..j] == Cut(name);
    }
  }

  // Names come from strings.
  ghost predicate NamesValid(items: seq<Item>) { forall i :: 0 <= i < |items| ==> Valid(items[i].name) }

  ghost predicate NamesDecode(items: seq<Item>) { forall i :: 0 <= i < |items| ==> Decodes(items[i].name) }

  lemma {:induction false} ReadAllIff(items: seq<Item>)
    requires NamesValid(items)
    ensures ReadAll(items) == if NamesDecode(items) then Some(ShownAll(items)) else None
    decreases |items|
  {
    if items != [] {
      StoredNameIff(items[0].name);
      ReadAllIff(items[1..]);
      assert NamesDecode(items) <==> Decodes(items[0].name) && NamesDecode(items[1..]) by {
        assert forall i :: 0 < i < |items| ==> items[i] == items[1..][i - 1];
      }
    }
  }

  /**
   Unpacking gives back every content in order, and every name up to its first NUL and 219 bytes; it raises if and only if
   the cut at 219 bytes goes through a character of some name.
   */
  lemma {:induction false} UnpackPack(items: seq<Item>)
    requires Packable(items) && NamesValid(items)
    ensures Unpack(Image(items)) == if NamesDecode(items) then Some(ShownAll(items)) else None
  {
    UnpackReads(items);
    ReadAllIff(items);
  }

  lemma {:induction false} UptoNulIff(s: Bytes)
    ensures |UptoNul(s)| <= |s| && (UptoNul(s) == s <==> 0 !in s)
    decreases |s|
  {
    if s != [] {
      UptoNulIff(s[1..]);
      assert s == [s[0]] + s[1..];
    }
  }

  predicate NameFits(item: Item) { 0 !in item.name && |item.name| <= NAME_MAX }

  lemma {:induction false} ShownIff(item: Item)
    ensures Shown(item) == item <==> NameFits(item)
  {
    UptoNulIff(Cut(item.name));
  }

  ghost predicate NamesFit(items: seq<Item>) { forall i :: 0 <= i < |items| ==> NameFits(items[i]) }

  lemma {:induction false} ShownAllIff(items: seq<Item>)
    ensures ShownAll(items) == items <==> NamesFit(items)
  {
    forall i | 0 <= i < |items| ensures ShownAll(items)[i] == items[i] <==> NameFits(items[i]) {
      ShownIff(items[i]);
    }
  }

  /** The round trip is exact exactly for names of at most 219 bytes without NUL. */
  lemma {:induction false} RoundTripIff(items: seq<Item>)
    requires Packable(items) && NamesValid(items)
    ensures Unpack(Image(items)) == Some(items) <==> NamesFit(items)
  {
    UnpackPack(items);
    ShownAllIff(items);
  }

  // ---------- fields ----------

  predicate AllZero(s: Bytes) { forall i :: 0 <= i < |s| ==> s[i] == 0 }

  /** The header block: magic, version 0.0, header and table at one block each, entries of one block, their number, zeros. */
  lemma {:induction false} HeaderLayout(n: nat)
    requires n < TWO_32
    ensures Header(n)[..12] == [0x52, 0x53, 0x43, 0x45, 0, 0, 0, 0, 1, 1, 1, 0]
    ensures Header(n)[12..16] == Word(n) && AllZero(Header(n)[16..])
  {
    var f := RSCE + [0, 0, 0, 0, 1, 1, 1, 0] + Word(n);
    assert Header(n) == f + Zeros(BLOCK - 16);
    assert f[..12] == [0x52, 0x53, 0x43, 0x45, 0, 0, 0, 0, 1, 1, 1, 0] && f[12..16] == Word(n);
    assert Header(n)[..12] == f[..12] && Header(n)[12..16] == f[12..16] && Header(n)[16..] == Zeros(BLOCK - 16);
  }

  /** A table block: tag, name in 220 bytes, a hash of 32 zeros with length 0, offset, size, zeros. */
  lemma {:induction false} EntryLayout(name: Bytes, off: nat, size: nat)
    requires off < TWO_32 && size < TWO_32
    ensures var e := Entry(name, off, size);
            && e[..4] == [0x45, 0x4E, 0x54, 0x52] && e[4..224] == Pad(Cut(name), 220) && AllZero(e[224..260])
            && e[260..264] == Word(off) && e[264..268] == Word(size) && AllZero(e[268..])
  {
    var e := Entry(name, off, size);
    assert At(e, 0, e);
    EntryFields(e, 0, name, off, size);
    EntryZeros(name, off, size);
  }

  lemma {:induction false} EntryZeros(name: Bytes, off: nat, size: nat)
    requires off < TWO_32 && size < TWO_32
    ensures AllZero(Entry(name, off, size)[224..260]) && AllZero(Entry(name, off, size)[268..])
  {
    var a, p := ENTR + Pad(Cut(name), 220), Word(off) + Word(size);
    var f := ENTR + Pad(Cut(name), NAME_MAX + 1) + Zeros(32) + Word(0) + Word(off) + Word(size);
    var e := Entry(name, off, size);
    assert f == a + (Zeros(32) + Word(0)) + p;
    assert e == f + Zeros(BLOCK - 268);
    assert e[224..260] == Zeros(32) + Word(0) && e[268..] == Zeros(BLOCK - 268);
  }

  /** A content is followed by fewer than 512 zeros. */
  lemma {:induction false} BlobLayout(data: Bytes)
    ensures Blob(data)[..|data|] == data && AllZero(Blob(data)[|data|..]) && |Blob(data)| - |data| < 512
  {
  }

  // ---------- layout ----------

  // The block where content k starts.
  function Offset(items: seq<Item>, k: nat): nat
    requires k <= |items|
  {
    1 + |items| + TotalBlocks(items[..k])
  }

  lemma {:induction false} TotalAppend(items: seq<Item>, item: Item)
    ensures TotalBlocks(items + [item]) == TotalBlocks(items) + Blocks(|item.data|)
    decreases |items|
  {
    if items == [] {
      assert (items + [item])[1..] == [];
    } else {
      assert (items + [item])[1..] == items[1..] + [item];
      TotalAppend(items[1..], item);
    }
  }

  lemma {:induction false} OffsetNext(items: seq<Item>, k: nat)
    requires k < |items|
    ensures Offset(items, k + 1) == Offset(items, k) + Blocks(|items[k].data|)
  {
    assert items[..k + 1] == items[..k] + [items[k]];
    TotalAppend(items[..k], items[k]);
  }

  lemma {:induction false} OffsetMonotone(items: seq<Item>, j: nat, k: nat)
    requires j <= k <= |items|
    ensures Offset(items, j) <= Offset(items, k)
    decreases k - j
  {
    if j < k {
      OffsetNext(items, j);
      OffsetMonotone(items, j + 1, k);
    }
  }

  /** Contents lie after the table, one after the other, on blocks that no two of them share. */
  lemma {:induction false} Disjoint(items: seq<Item>, j: nat, k: nat)
    requires j < k < |items|
    ensures 1 + |items| <= Offset(items, j)
    ensures BLOCK * Offset(items, j) + |items[j].data| <= BLOCK * Offset(items, k)
    ensures BLOCK * Offset(items, k) + |items[k].data| <= BLOCK * Offset(items, |items|)
  {
    OffsetNext(items, j);
    OffsetMonotone(items, j + 1, k);
    OffsetNext(items, k);
    OffsetMonotone(items, k + 1, |items|);
  }

  lemma {:induction false} BlobsConcat(a: seq<Item>, b: seq<Item>)
    ensures Blobs(a + b) == Blobs(a) + Blobs(b)
    decreases |a|
  {
    if a == [] {
      assert a + b == b;
    } else {
      assert (a + b)[1..] == a[1..] + b;
      BlobsConcat(a[1..], b);
    }
  }

  lemma {:induction false} BlobAt(img: Bytes, start: nat, items: seq<Item>, k: nat)
    requires k < |items| && At(img, BLOCK * start, Blobs(items))
    ensures At(img, BLOCK * (start + TotalBlocks(items[..k])), items[k].data)
  {
    var a, b := items[..k], items[k..];
    var pos := BLOCK * (start + TotalBlocks(a));
    assert items == a + b;
    BlobsConcat(a, b);
    AtSplit(img, BLOCK * start, Blobs(a), Blobs(b));
    AtSplit(img, pos, Blob(items[k].data), Blobs(b[1..]));
    AtPrefix(img, pos, Blob(items[k].data), |items[k].data|);
  }

  /** Every content stands at its offset in the image. */
  lemma {:induction false} ContentAt(items: seq<Item>, k: nat)
    requires Packable(items) && k < |items|
    ensures At(Image(items), BLOCK * Offset(items, k), items[k].data)
  {
    ImageParts(items);
    BlobAt(Image(items), 1 + |items|, items, k);
  }

  // ---------- the loops ----------

  lemma {:induction false} FitsAppend(items: seq<Item>, k: nat, off: nat)
    requires k < |items| && FieldsFit(items[..k], off)
    ensures FieldsFit(items[..k + 1], off) <==> off + TotalBlocks(items[..k]) < TWO_32 && |items[k].data| < TWO_32
    decreases k
  {
    var a, b := items[..k], items[..k + 1];
    if k > 0 {
      var rest := items[1..];
      assert a[1..] == rest[..k - 1] && b[1..] == rest[..k];
      FitsAppend(rest, k - 1, off + Blocks(|items[0].data|));
    }
  }

  lemma {:induction false} FitsPrefix(items: seq<Item>, k: nat, off: nat)
    requires k <= |items| && FieldsFit(items, off)
    ensures FieldsFit(items[..k], off)
    decreases k
  {
    if k > 0 {
      assert items[..k][1..] == items[1..][..k - 1];
      FitsPrefix(items[1..], k - 1, off + Blocks(|items[0].data|));
    }
  }

  lemma {:induction false} TableAppend(f: EntryWriter, items: seq<Item>, k: nat, off: nat)
    requires k < |items|
    ensures Table(f, items[..k + 1], off)
         == Table(f, items[..k], off) + f(items[k], off + TotalBlocks(items[..k]))
    decreases k
  {
    var a, b := items[..k], items[..k + 1];
    if k == 0 {
      assert b[1..] == [];
    } else {
      var rest := items[1..];
      assert a[1..] == rest[..k - 1] && b[1..] == rest[..k];
      TableAppend(f, rest, k - 1, off + Blocks(|items[0].data|));
    }
  }

  lemma {:induction false} BlobsAppend(items: seq<Item>, k: nat)
    requires k < |items|
    ensures Blobs(items[..k + 1]) == Blobs(items[..k]) + Blob(items[k].data)
  {
    assert items[..k + 1] == items[..k] + [items[k]];
    BlobsConcat(items[..k], [items[k]]);
    assert Blobs([items[k]]) == Blob(items[k].data) + [];
  }

  // The table and the contents of the first items.
  ghost predicate Packed(f: EntryWriter, items: seq<Item>, k: nat, off: nat, entries: Bytes, blobs: Bytes) {
    && k <= |items| && FieldsFit(items[..k], off) && entries == Table(f, items[..k], off)
    && blobs == Blobs(items[..k]) && |blobs| / BLOCK == TotalBlocks(items[..k])
  }

  lemma {:induction false} PackItem(f: EntryWriter, items: seq<Item>, k: nat, off: nat, entries: Bytes, blobs: Bytes, e: Bytes,
                                    b: Bytes)
    requires k < |items| && Packed(f, items, k, off, entries, blobs)
    requires off + |blobs| / BLOCK < TWO_32 && |items[k].data| < TWO_32
    requires e == f(items[k], off + |blobs| / BLOCK) && b == Blob(items[k].data)
    ensures Packed(f, items, k + 1, off, entries + e, blobs + b)
  {
    FitsAppend(items, k, off);
    TableAppend(f, items, k, off);
    BlobsAppend(items, k);
  }

  lemma {:induction false} PackStops(items: seq<Item>, k: nat, off: nat)
    requires k < |items| && FieldsFit(items[..k], off)
    requires off + TotalBlocks(items[..k]) >= TWO_32 || |items[k].data| >= TWO_32
    ensures !FieldsFit(items, off)
  {
    FitsAppend(items, k, off);
    if FieldsFit(items, off) { FitsPrefix(items, k + 1, off); }
  }

  /** pack: struct.pack raises where a number does not fit its field. */
  method Pack(items: seq<Item>) returns (img: Option<Bytes>)
    ensures img == if Packable(items) then Some(Image(items)) else None
  {
    if |items| >= TWO_32 { return None; }
    var off := 1 + |items|;
    var entries: Bytes, blobs: Bytes := [], [];
    for k := 0 to |items|
      invariant Packed(EntryOf, items, k, off, entries, blobs)
    {
      var data := items[k].data;
      var at := off + |blobs| / BLOCK;
      if at >= TWO_32 || |data| >= TWO_32 {
        PackStops(items, k, off);
        return None;
      }
      var entry, blob := Entry(items[k].name, at, |data|), Blob(data);
      PackItem(EntryOf, items, k, off, entries, blobs, entry, blob);
      entries, blobs := entries + entry, blobs + blob;
    }
    assert items[..|items|] == items;
    img := Some(Header(|items|) + entries + blobs);
  }

  // The loop of unpack.
  method UnpackTable(img: Bytes, base: nat, step: nat, num: nat) returns (items: Option<seq<Item>>)
    ensures items == ReadEntries(ReaderOf(img), base, step, num)
  {
    ghost var r := ReaderOf(img);
    var done: seq<Item>, at: nat, i: nat := [], base, 0;
    ContinueStart(ReadEntries(r, base, step, num));
    while i < num
      invariant i <= num
      invariant ReadEntries(r, base, step, num) == Continue(done, ReadEntries(r, at, step, num - i))
    {
      var e := ReadEntry(img, at);
      assert e == r(at);
      if e.None? { return None; }
      ContinueStep(done, e.value, ReadEntries(r, at + step, step, num - i - 1));
      done, at, i := done + [e.value], at + step, i + 1;
    }
    assert done + [] == done;
    items := Some(done);
  }

  /** unpack. */
  method UnpackImage(img: Bytes) returns (items: Option<seq<Item>>)
    ensures items == Unpack(img)
  {
    if |img| < 16 || img[..4] != RSCE { return None; }
    items := UnpackTable(img, img[8] as int * BLOCK, (img[10] as int + 0x100 * img[11] as int) * BLOCK, ReadWord(img, 12));
  }

  lemma {:induction false} ContinueStart(more: Option<seq<Item>>)
    ensures Continue([], more) == more
  {
    if more.Some? { assert [] + more.value == more.value; }
  }

  function Continue(done: seq<Item>, more: Option<seq<Item>>): Option<seq<Item>> {
    if more.None? then None else Some(done + more.value)
  }

  lemma {:induction false} ContinueStep(done: seq<Item>, e: Item, more: Option<seq<Item>>)
    ensures Continue(done + [e], more) == Continue(done, if more.None? then None else Some([e] + more.value))
  {
    if more.Some? { assert done + [e] + more.value == done + ([e] + more.value); }
  }

  /** Packing and unpacking any files: what comes back. */
  method PackThenUnpack(items: seq<Item>) returns (back: Option<seq<Item>>)
    requires NamesValid(items)
    ensures back.Some? <==> Packable(items) && NamesDecode(items)
    ensures back.Some? ==> back.value == ShownAll(items) && (back.value == items <==> NamesFit(items))
  {
    var img := Pack(items);
    if img.None? { return None; }
    UnpackPack(items);
    ShownAllIff(items);
    back := UnpackImage(img.value);
  }

  // A name of 218 letters and a two-byte character: packing it is no error, unpacking raises.
  lemma {:induction false} SplitCharacter(data: Bytes)
    requires |data| < TWO_32
    ensures var name := seq(218, _ => 0x61) + [0xC3, 0xA9];
            var items := [Item(name, data)];
            Valid(name) && Packable(items) && Unpack(Image(items)) == None
  {
    var name: Bytes := seq(218, _ => 0x61) + [0xC3, 0xA9];
    LettersValid(218, [0xC3, 0xA9]);
    var items := [Item(name, data)];
    assert FieldsFit(items[1..], 2 + Blocks(|data|));
    assert name[..219] == seq(218, _ => 0x61) + [0xC3];
    UnpackPack(items);
    assert !Decodes(items[0].name);
  }

  lemma {:induction false} LettersValid(n: nat, tail: Bytes)
    requires Valid(tail)
    ensures Valid(seq(n, _ => 0x61) + tail)
    decreases n
  {
    var s: Bytes := seq(n, _ => 0x61) + tail;
    if n == 0 {
      assert s == tail;
    } else {
      LettersValid(n - 1, tail);
      assert s[1..] == seq(n - 1, _ => 0x61) + tail;
    }
  }
}
