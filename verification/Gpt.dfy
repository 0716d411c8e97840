/**
 The GPT partition list: printing the partitions of a disk as the string that `gpt write` accepts, and parsing such a
 string.  Strings have no NUL.  `lba` is the range of lbaint_t, which is 2^32 or 2^64; unsigned long has 32 bits.
 Missing uuids are an error (no random uuids), and there are no type GUIDs.
 */
module Gpt {
  import opened Arith
  import opened Options

  datatype Result<T> = Ok(value: T) | Err(errno: int)

  const MIB := 0x10_0000
  const TWO_32 := 0x1_0000_0000
  const TWO_64 := 0x1_0000_0000_0000_0000
  const PART_NAME_LEN := 32
  const UUID_STR_LEN := 36
  const MAX_SEARCH_PARTITIONS := 64
  const EINVAL := 22

  datatype Part = Part(name: string, start: nat, size: nat, uuid: string, bootable: bool)

  // ---------- numbers ----------

  function Digit(d: nat): char
    requires d < 10
  {
    "0123456789"[d]
  }

  function Dec(n: nat): (s: string)
    ensures s != []
  {
    if n < 10 then [Digit(n)] else Dec(n / 10) + [Digit(n % 10)]
  }

  // The value of a hexadecimal digit.
  function DigitValue(c: char): Option<nat> {
    if '0' <= c <= '9' then Some((c - '0') as int)
    else if 'a' <= c <= 'f' then Some((c - 'a') as int + 10)
    else if 'A' <= c <= 'F' then Some((c - 'A') as int + 10)
    else None
  }

  predicate IsDigitIn(c: char, base: nat) { DigitValue(c).Some? && DigitValue(c).value < base }

  // The number at the start of a string, and what comes after it.
  function Number(s: string, base: nat, acc: nat): (nat, string)
    decreases |s|
  {
    if s == [] || !IsDigitIn(s[0], base) then (acc, s)
    else Number(s[1..], base, acc * base + DigitValue(s[0]).value)
  }

  // simple_strtoull with base 0.
  function Strtoull(s: string): (nat, string) {
    if s == [] || s[0] != '0' then Number(s, 10, 0)
    else if |s| >= 3 && (s[1] == 'x' || s[1] == 'X') && IsDigitIn(s[2], 16) then Number(s[2..], 16, 0)
    else Number(s, 8, 0)
  }

  function Multiplier(rest: string): nat {
    if rest == [] then 1
    else if rest[0] == 'G' then 1024 * 1024 * 1024
    else if rest[0] == 'M' then 1024 * 1024
    else if rest[0] == 'K' || rest[0] == 'k' then 1024
    else 1
  }

  // ustrtoull: a number with an optional G, M or K, as a 64-bit word.
  function Ustrtoull(s: string): nat {
    var (n, rest) := Strtoull(s);
    n * Multiplier(rest) % TWO_64
  }

  // Whole megabytes, cut to 15 characters by the buffer.
  function PrettyBytes(bytes: nat): string {
    var s := Dec(bytes / MIB) + "MiB";
    if |s| <= 15 then s else s[..15]
  }

  // prettyprint_part_size: the byte value is computed in lbaint_t.
  function PrettySize(size: nat, blksz: nat, lba: nat): string
    requires lba > 0
  {
    PrettyBytes(size * blksz % lba)
  }

  // lldiv.
  function Blocks(bytes: nat, blksz: nat): nat
    requires blksz > 0
  {
    bytes / blksz
  }

  // ---------- printing ----------

  function Upto(s: string, n: nat): string { if |s| <= n then s else s[..n] }

  // One partition, without the final semicolon.
  function Line(p: Part, blksz: nat, lba: nat): string
    requires lba > 0
  {
    "name=" + Upto(p.name, PART_NAME_LEN + 1) + ",start=" + PrettySize(p.start % TWO_32, blksz % TWO_32, lba)
    + ",size=" + PrettySize(p.size, blksz, lba) + ",uuid=" + Upto(p.uuid, UUID_STR_LEN + 1)
  }

  function Lines(parts: seq<Part>, blksz: nat, lba: nat): string
    requires lba > 0
    decreases |parts|
  {
    if parts == [] then "" else Line(parts[0], blksz, lba) + ";" + Lines(parts[1..], blksz, lba)
  }

  function PrintList(guid: string, parts: seq<Part>, blksz: nat, lba: nat): string
    requires lba > 0
  {
    "uuid_disk=" + Upto(guid, UUID_STR_LEN + 1) + ";" + Lines(parts, blksz, lba)
  }

  // ---------- parsing ----------

  // strsep with one delimiter: the token, and the rest if the delimiter was there.
  function Cut(s: string, c: char): (string, Option<string>)
    decreases |s|
  {
    if s == [] then ("", None)
    else if s[0] == c then ("", Some(s[1..]))
    else var (tok, rest) := Cut(s[1..], c); ([s[0]] + tok, rest)
  }

  lemma {:induction false} CutShorter(s: string, c: char)
    ensures Cut(s, c).1.Some? ==> |Cut(s, c).1.value| < |s|
    decreases |s|
  {
    if s != [] && s[0] != c { CutShorter(s[1..], c); }
  }

  /** extract_val: the value of a key in a comma separated list.  A key without '=' has no value. */
  function ExtractVal(s: string, key: string): Option<string>
    decreases |s|
  {
    var (tok, rest) := Cut(s, ',');
    var (k, v) := Cut(tok, '=');
    if k == key then v
    else if rest.None? then None
    else CutShorter(s, ','); ExtractVal(rest.value, key)
  }

  predicate FoundKey(s: string, key: string)
    decreases |s|
  {
    var (tok, rest) := Cut(s, ',');
    tok == key || (rest.Some? && (CutShorter(s, ','); FoundKey(rest.value, key)))
  }

  predicate IsEnvRef(s: string) { |s| >= 4 && s[0] == '$' && s[1] == '{' && s[|s| - 1] == '}' }

  // extract_env: the value of ${name} if the variable is set, else the string itself.
  function Expand(env: map<string, string>, s: string): string {
    if IsEnvRef(s) && s[2..|s| - 1] in env then env[s[2..|s| - 1]] else s
  }

  /** One partition token. */
  function ParsePart(env: map<string, string>, tok: string, rawblksz: nat): Result<Part>
    requires rawblksz > 0
  {
    var u := ExtractVal(tok, "uuid");
    if u.None? || |Expand(env, u.value)| >= UUID_STR_LEN + 1 then Err(-4) else
      var n := ExtractVal(tok, "name");
      if n.None? || |Expand(env, n.value)| >= PART_NAME_LEN then Err(-4) else
        var z := ExtractVal(tok, "size");
        if z.None? then Err(-4) else
          var a := ExtractVal(tok, "start");
          var size := if Expand(env, z.value) == "-" then 0 else Blocks(Ustrtoull(Expand(env, z.value)), rawblksz);
          var start := if a.None? then 0 else Blocks(Ustrtoull(Expand(env, a.value)), rawblksz);
          Ok(Part(Expand(env, n.value), start, size, Expand(env, u.value), FoundKey(tok, "bootable")))
  }

  type TokenParser = string -> Result<Part>

  function PartParser(env: map<string, string>, rawblksz: nat): TokenParser
    requires rawblksz > 0
  {
    tok => ParsePart(env, tok, rawblksz)
  }

  // The partition loop: at most n tokens.
  function ParseParts(f: TokenParser, s: string, n: nat): Result<seq<Part>>
    decreases n
  {
    if n == 0 then Ok([]) else
      var (tok, rest) := Cut(s, ';');
      var p := f(tok);
      if p.Err? then Err(p.errno)
      else if rest.None? then Ok([p.value])
      else
        var ps := ParseParts(f, rest.value, n - 1);
        if ps.Err? then ps else Ok([p.value] + ps.value)
  }

  function Semicolons(s: string): nat { if s == [] then 0 else (if s[0] == ';' then 1 else 0) + Semicolons(s[1..]) }

  // calc_parts_list_len for the largest number of partitions; lbaint_t has w bytes.
  function MaxStrPart(w: nat): nat { 48 + MAX_SEARCH_PARTITIONS * (39 + (11 + w) + (10 + w) + 43) + 1 }

  // The end of the list: a final semicolon is dropped if it is found at the length limit.
  function Trim(s: string, max: nat): string
    requires s != [] && max > 0
  {
    var i := (if |s| <= max then |s| else max) - 1;
    if s[i] == ';' then s[..i] else s
  }

  datatype Table = Table(guid: string, parts: seq<Part>, count: nat)

  // The partitions, after the disk's guid has been read.
  function ParseBody(f: TokenParser, guid: string, body: string, max: nat): Result<Table>
    requires max > 0 && body != []
  {
    var list := Trim(body, max);
    var count := Semicolons(list) + 1;
    var ps := ParseParts(f, list, count);
    if ps.Err? then Err(ps.errno) else Ok(Table(guid, ps.value, count % 256))
  }

  /** set_gpt_info. */
  function ParseList(env: map<string, string>, s: string, rawblksz: nat, max: nat): Result<Table>
    requires rawblksz > 0 && max > 0
  {
    var v := ExtractVal(s, "uuid_disk");
    if v.None? then Err(-2) else
      var rest := Cut(s, ';').1;
      if rest.None? then Err(-EINVAL)
      else if rest.value == "" then Err(-3)
      else ParseBody(PartParser(env, rawblksz), Expand(env, Cut(v.value, ';').0), rest.value, max)
  }

  // ---------- numbers round trip ----------

  lemma {:induction false} DigitRoundTrip(d: nat)
    requires d < 10
    ensures DigitValue(Digit(d)) == Some(d) && IsDigitIn(Digit(d), 10)
  {
    assert "0123456789"[d] == '0' + (d as char);
  }

  lemma {:induction false} DecRoundTrip(n: nat, rest: string)
    ensures Number(Dec(n) + rest, 10, 0) == Number(rest, 10, n)
    decreases n
  {
    if n < 10 {
      DigitRoundTrip(n);
      assert ([Digit(n)] + rest)[1..] == rest;
    } else {
      var d := Digit(n % 10);
      DigitRoundTrip(n % 10);
      assert Dec(n) + rest == Dec(n / 10) + ([d] + rest);
      DecRoundTrip(n / 10, [d] + rest);
      assert ([d] + rest)[1..] == rest;
    }
  }

  lemma {:induction false} DecFirst(n: nat)
    ensures Dec(n)[0] == '0' <==> n == 0
    ensures '0' <= Dec(n)[0] <= '9'
    decreases n
  {
    if n >= 10 { DecFirst(n / 10); }
  }

  // A decimal number is read up to what cannot continue it.
  lemma {:induction false} NumberRoundTrip(n: nat, rest: string)
    requires rest != [] ==> DigitValue(rest[0]).None? && rest[0] != 'x' && rest[0] != 'X'
    ensures Strtoull(Dec(n) + rest) == (n, rest)
  {
    var s := Dec(n) + rest;
    DecFirst(n);
    DecRoundTrip(n, rest);
    assert Number(rest, 10, n) == (n, rest);
    if n == 0 {
      assert s == ['0'] + rest && s[1..] == rest;
      assert Number(s, 8, 0) == Number(rest, 8, 0) == (0, rest);
    }
  }

  // A decimal number and an M give that many megabytes, whatever follows.
  lemma {:induction false} MegabytesRoundTrip(n: nat, rest: string)
    requires rest != [] && rest[0] == 'M'
    ensures Ustrtoull(Dec(n) + rest) == n * MIB % TWO_64
  {
    NumberRoundTrip(n, rest);
  }

  function Pow10(k: nat): nat { if k == 0 then 1 else 10 * Pow10(k - 1) }

  lemma {:induction false} DecLength(n: nat, k: nat)
    requires 0 < k && n < Pow10(k)
    ensures |Dec(n)| <= k
  {
    if n >= 10 {
      assert k > 1;
      DecLength(n / 10, k - 1);
    }
  }

  lemma {:induction false} FourteenDigits(n: nat)
    requires n < TWO_64 / MIB
    ensures |Dec(n)| <= 14
  {
    assert Pow10(4) == 10000 && Pow10(8) == 100000000;
    assert Pow10(11) == 100000000000;
    assert Pow10(14) == 100000000000000;
    DecLength(n, 14);
  }

  // A block count whose byte value is a whole number of megabytes, and fits.
  predicate Printable(x: nat, blksz: nat, lba: nat) { x * blksz < lba && x * blksz % MIB == 0 }

  // The byte value that the text stands for.
  function ShownBytes(bytes: nat): nat { bytes / MIB * MIB }

  /** The printed size, even when the buffer cuts off "iB" or "B", reads back as whole megabytes. */
  lemma {:induction false} BytesRoundTrip(bytes: nat)
    requires bytes < TWO_64
    ensures Ustrtoull(PrettyBytes(bytes)) == ShownBytes(bytes) && PrettyBytes(bytes) != "-"
  {
    var n := bytes / MIB;
    FourteenDigits(n);
    DecFirst(n);
    var s := PrettyBytes(bytes);
    assert s == Dec(n) + s[|Dec(n)|..] && s[|Dec(n)|] == 'M';
    MegabytesRoundTrip(n, s[|Dec(n)|..]);
    SmallMod(n * MIB, TWO_64);
  }

  // The block count that a printed block count reads back as.
  function ShownBlocks(x: nat, blksz: nat, lba: nat): nat
    requires blksz > 0 && lba > 0
  {
    Blocks(ShownBytes(x * blksz % lba), blksz)
  }

  lemma {:induction false} SizeReads(x: nat, blksz: nat, lba: nat)
    requires 0 < blksz && 0 < lba <= TWO_64
    ensures Blocks(Ustrtoull(PrettySize(x, blksz, lba)), blksz) == ShownBlocks(x, blksz, lba)
    ensures PrettySize(x, blksz, lba) != "-"
  {
    BytesRoundTrip(x * blksz % lba);
  }

  lemma {:induction false} QuotientBound(b: nat, d: nat, x: nat)
    requires d > 0
    ensures b / d >= x <==> b >= x * d
  {
    var q := b / d;
    assert b == q * d + b % d;
    if q >= x { MulMono(x, q, d); } else { MulMono(q + 1, x, d); assert (q + 1) * d == q * d + d; }
  }

  lemma {:induction false} ModAtMost(x: nat, m: nat)
    requires m > 0
    ensures x % m <= x && (x % m == x <==> x < m)
  {
    if x >= m { assert x % m < m; } else { SmallMod(x, m); }
  }

  /** A block count survives exactly when its byte value fits and is a whole number of megabytes. */
  lemma {:induction false} ShownIff(x: nat, blksz: nat, lba: nat)
    requires 0 < blksz && lba > 0
    ensures ShownBlocks(x, blksz, lba) <= x
    ensures ShownBlocks(x, blksz, lba) == x <==> Printable(x, blksz, lba)
  {
    var y := x * blksz;
    var b := y % lba;
    ModAtMost(y, lba);
    var f := ShownBytes(b);
    assert f <= b && (f == b <==> b % MIB == 0);
    QuotientBound(f, blksz, x);
    QuotientBound(f, blksz, x + 1);
    assert (x + 1) * blksz == y + blksz;
  }

  lemma {:induction false} SmallMod(x: nat, m: nat)
    requires x < m
    ensures x % m == x
  {
  }

  predicate Plain(s: string) { ',' !in s && ';' !in s && '=' !in s }

  lemma {:induction false} DecPlain(n: nat)
    ensures Plain(Dec(n))
    decreases n
  {
    if n >= 10 { DecPlain(n / 10); }
  }

  lemma {:induction false} SizePlain(x: nat, blksz: nat, lba: nat)
    requires lba > 0
    ensures Plain(PrettySize(x, blksz, lba)) && !IsEnvRef(PrettySize(x, blksz, lba))
  {
    BytesPlain(x * blksz % lba);
  }

  lemma {:induction false} BytesPlain(bytes: nat)
    ensures Plain(PrettyBytes(bytes)) && !IsEnvRef(PrettyBytes(bytes))
  {
    DecPlain(bytes / MIB);
    DecFirst(bytes / MIB);
    assert Plain(Dec(bytes / MIB) + "MiB");
  }

  // ---------- cutting ----------

  lemma {:induction false} CutAt(a: string, c: char, b: string)
    requires c !in a
    ensures Cut(a + [c] + b, c) == (a, Some(b))
    decreases |a|
  {
    if a == [] {
      assert a + [c] + b == [c] + b;
    } else {
      assert (a + [c] + b)[1..] == a[1..] + [c] + b;
      CutAt(a[1..], c, b);
      assert a == [a[0]] + a[1..];
    }
  }

  lemma {:induction false} CutNone(a: string, c: char)
    requires c !in a
    ensures Cut(a, c) == (a, None)
    decreases |a|
  {
    if a != [] {
      CutNone(a[1..], c);
      assert a == [a[0]] + a[1..];
    }
  }

  // One key=value field in front of more fields.
  lemma {:induction false} FieldFirst(k: string, v: string, rest: string, key: string)
    requires ',' !in k && '=' !in k && ',' !in v
    ensures ExtractVal(k + "=" + v + "," + rest, key) == if k == key then Some(v) else ExtractVal(rest, key)
    ensures FoundKey(k + "=" + v + "," + rest, key) <==> k + "=" + v == key || FoundKey(rest, key)
  {
    var tok := k + "=" + v;
    assert ',' !in tok;
    CutAt(tok, ',', rest);
    CutAt(k, '=', v);
  }

  lemma {:induction false} FieldLast(k: string, v: string, key: string)
    requires ',' !in k && '=' !in k && ',' !in v
    ensures ExtractVal(k + "=" + v, key) == if k == key then Some(v) else None
    ensures FoundKey(k + "=" + v, key) <==> k + "=" + v == key
  {
    var tok := k + "=" + v;
    assert ',' !in tok;
    CutNone(tok, ',');
    CutAt(k, '=', v);
  }

  // ---------- one partition ----------

  // Names and uuids that survive printing and parsing.
  predicate Clean(p: Part) {
    && Plain(p.name) && |p.name| < PART_NAME_LEN && !IsEnvRef(p.name)
    && Plain(p.uuid) && |p.uuid| <= UUID_STR_LEN && !IsEnvRef(p.uuid)
  }

  // The partition that the printed text stands for.
  function Shown(p: Part, blksz: nat, lba: nat): Part
    requires 0 < blksz && lba > 0
  {
    Part(p.name, ShownBlocks(p.start % TWO_32, blksz, lba), ShownBlocks(p.size, blksz, lba), p.uuid, false)
  }

  // What is kept: sizes in whole megabytes, a start in 32 bits, and no bootable flag.
  predicate Kept(p: Part, blksz: nat, lba: nat) {
    Printable(p.start, blksz, lba) && Printable(p.size, blksz, lba) && p.start < TWO_32 && !p.bootable
  }

  lemma {:induction false} ShownIsKept(p: Part, blksz: nat, lba: nat)
    requires 0 < blksz && lba > 0
    ensures Shown(p, blksz, lba) == p <==> Kept(p, blksz, lba)
  {
    ModAtMost(p.start, TWO_32);
    ShownIff(p.start % TWO_32, blksz, lba);
    ShownIff(p.size, blksz, lba);
  }

  function Fields(n: string, a: string, z: string, u: string): string {
    "name" + "=" + n + "," + ("start" + "=" + a + "," + ("size" + "=" + z + "," + ("uuid" + "=" + u)))
  }

  lemma {:induction false} LineFields(p: Part, blksz: nat, lba: nat)
    requires 0 < blksz < TWO_32 && lba > 0 && Clean(p)
    ensures Line(p, blksz, lba)
         == Fields(p.name, PrettySize(p.start % TWO_32, blksz, lba), PrettySize(p.size, blksz, lba), p.uuid)
  {
    SmallMod(blksz, TWO_32);
    assert "name=" == "name" + "=" && ",start=" == "," + ("start" + "=") && ",size=" == "," + ("size" + "=")
           && ",uuid=" == "," + ("uuid" + "=");
  }

  lemma {:induction false} FieldValues(n: string, a: string, z: string, u: string)
    requires ',' !in n && ',' !in a && ',' !in z && ',' !in u
    ensures ExtractVal(Fields(n, a, z, u), "name") == Some(n) && ExtractVal(Fields(n, a, z, u), "start") == Some(a)
    ensures ExtractVal(Fields(n, a, z, u), "size") == Some(z) && ExtractVal(Fields(n, a, z, u), "uuid") == Some(u)
  {
    var f4 := "uuid" + "=" + u;
    var f3 := "size" + "=" + z + "," + f4;
    var f2 := "start" + "=" + a + "," + f3;
    FieldFirst("name", n, f2, "name");
    FieldFirst("name", n, f2, "start");
    FieldFirst("name", n, f2, "size");
    FieldFirst("name", n, f2, "uuid");
    FieldFirst("start", a, f3, "start");
    FieldFirst("start", a, f3, "size");
    FieldFirst("start", a, f3, "uuid");
    FieldFirst("size", z, f4, "size");
    FieldFirst("size", z, f4, "uuid");
    FieldLast("uuid", u, "uuid");
  }

  lemma {:induction false} NotBootable(k: string, v: string)
    ensures k + "=" + v != "bootable"
  {
    assert (k + "=" + v)[|k|] == '=';
    assert '=' !in "bootable";
  }

  lemma {:induction false} FieldsNotBootable(n: string, a: string, z: string, u: string)
    requires ',' !in n && ',' !in a && ',' !in z && ',' !in u
    ensures !FoundKey(Fields(n, a, z, u), "bootable")
  {
    var f4 := "uuid" + "=" + u;
    var f3 := "size" + "=" + z + "," + f4;
    var f2 := "start" + "=" + a + "," + f3;
    FieldFirst("name", n, f2, "bootable");
    FieldFirst("start", a, f3, "bootable");
    FieldFirst("size", z, f4, "bootable");
    FieldLast("uuid", u, "bootable");
    NotBootable("name", n);
    NotBootable("start", a);
    NotBootable("size", z);
    NotBootable("uuid", u);
  }

  // The parser on a token whose values are known.
  lemma {:induction false} ParsePartOf(env: map<string, string>, tok: string, n: string, a: string, z: string, u: string, blksz: nat)
    requires blksz > 0 && ExtractVal(tok, "name") == Some(n) && ExtractVal(tok, "start") == Some(a)
    requires ExtractVal(tok, "size") == Some(z) && ExtractVal(tok, "uuid") == Some(u)
    requires !IsEnvRef(n) && !IsEnvRef(a) && !IsEnvRef(z) && !IsEnvRef(u)
    requires |n| < PART_NAME_LEN && |u| <= UUID_STR_LEN && z != "-"
    ensures ParsePart(env, tok, blksz)
         == Ok(Part(n, Blocks(Ustrtoull(a), blksz), Blocks(Ustrtoull(z), blksz), u, FoundKey(tok, "bootable")))
  {
  }

  /** The parser reads back what the text stands for. */
  lemma {:induction false} PartRoundTrip(env: map<string, string>, p: Part, blksz: nat, lba: nat)
    requires 0 < blksz < TWO_32 && 0 < lba <= TWO_64 && Clean(p)
    ensures ParsePart(env, Line(p, blksz, lba), blksz) == Ok(Shown(p, blksz, lba))
    ensures ';' !in Line(p, blksz, lba)
  {
    var a, z := PrettySize(p.start % TWO_32, blksz, lba), PrettySize(p.size, blksz, lba);
    SizePlain(p.start % TWO_32, blksz, lba);
    SizePlain(p.size, blksz, lba);
    SizeReads(p.start % TWO_32, blksz, lba);
    SizeReads(p.size, blksz, lba);
    LineFields(p, blksz, lba);
    FieldValues(p.name, a, z, p.uuid);
    FieldsNotBootable(p.name, a, z, p.uuid);
    ParsePartOf(env, Fields(p.name, a, z, p.uuid), p.name, a, z, p.uuid, blksz);
    FieldsNoSemicolon(p.name, a, z, p.uuid);
  }

  lemma {:induction false} FieldsNoSemicolon(n: string, a: string, z: string, u: string)
    requires ';' !in n && ';' !in a && ';' !in z && ';' !in u
    ensures ';' !in Fields(n, a, z, u)
  {
  }

  // ---------- the list ----------

  // Lines separated by semicolons.
  function Join(ls: seq<string>): string
    requires ls != []
    decreases |ls|
  {
    if |ls| == 1 then ls[0] else ls[0] + ";" + Join(ls[1..])
  }

  function LineSeq(parts: seq<Part>, blksz: nat, lba: nat): (ls: seq<string>)
    requires lba > 0
    ensures |ls| == |parts| && forall i :: 0 <= i < |ls| ==> ls[i] == Line(parts[i], blksz, lba)
    decreases |parts|
  {
    if parts == [] then [] else [Line(parts[0], blksz, lba)] + LineSeq(parts[1..], blksz, lba)
  }

  lemma {:induction false} LinesJoin(parts: seq<Part>, blksz: nat, lba: nat)
    requires lba > 0 && parts != []
    ensures Lines(parts, blksz, lba) == Join(LineSeq(parts, blksz, lba)) + ";"
    decreases |parts|
  {
    var ls := LineSeq(parts, blksz, lba);
    assert ls[1..] == LineSeq(parts[1..], blksz, lba);
    if |parts| == 1 {
      assert ls[0] + ";" + "" == ls[0] + ";";
    } else {
      LinesJoin(parts[1..], blksz, lba);
      assert ls[0] + ";" + (Join(ls[1..]) + ";") == ls[0] + ";" + Join(ls[1..]) + ";";
    }
  }

  lemma {:induction false} NoSemicolons(s: string)
    requires ';' !in s
    ensures Semicolons(s) == 0
    decreases |s|
  {
    if s != [] { NoSemicolons(s[1..]); }
  }

  lemma {:induction false} SemicolonsConcat(s: string, t: string)
    ensures Semicolons(s + t) == Semicolons(s) + Semicolons(t)
    decreases |s|
  {
    if s == [] {
      assert s + t == t;
    } else {
      assert (s + t)[1..] == s[1..] + t;
      SemicolonsConcat(s[1..], t);
    }
  }

  ghost predicate Tokens(ls: seq<string>) { forall i :: 0 <= i < |ls| ==> ';' !in ls[i] }

  lemma {:induction false} JoinSemicolons(ls: seq<string>)
    requires ls != [] && Tokens(ls)
    ensures Semicolons(Join(ls)) == |ls| - 1
    decreases |ls|
  {
    NoSemicolons(ls[0]);
    if |ls| > 1 {
      JoinSemicolons(ls[1..]);
      SemicolonsConcat(ls[0] + ";", Join(ls[1..]));
      SemicolonsConcat(ls[0], ";");
      assert Semicolons(";") == 1;
    }
  }

  // Each line parses to its partition.
  ghost predicate Reads(f: TokenParser, ls: seq<string>, ps: seq<Part>) {
    |ls| == |ps| && forall i :: 0 <= i < |ls| ==> f(ls[i]) == Ok(ps[i])
  }

  lemma {:induction false} JoinParses(f: TokenParser, ls: seq<string>, ps: seq<Part>)
    requires ls != [] && Tokens(ls) && Reads(f, ls, ps)
    ensures ParseParts(f, Join(ls), |ls|) == Ok(ps)
    decreases |ls|
  {
    if |ls| == 1 {
      CutNone(ls[0], ';');
      assert [ps[0]] == ps;
    } else {
      JoinParses(f, ls[1..], ps[1..]);
      CutAt(ls[0], ';', Join(ls[1..]));
      assert [ps[0]] + ps[1..] == ps;
    }
  }

  // The list starts with a key and a first field that hold no comma.
  lemma {:induction false} HeaderFields(guid: string, n: string, f: string, rest: string, s: string)
    requires Plain(guid) && Plain(n) && s == "uuid_disk=" + guid + ";" + ("name" + "=" + n + "," + f + ";" + rest)
    ensures ExtractVal(s, "uuid_disk").Some? && Cut(ExtractVal(s, "uuid_disk").value, ';').0 == guid
    ensures Cut(s, ';').1 == Some("name" + "=" + n + "," + f + ";" + rest)
  {
    var v := guid + ";" + ("name" + "=" + n);
    var more := f + ";" + rest;
    assert "uuid_disk=" == "uuid_disk" + "=";
    assert s == "uuid_disk" + "=" + v + "," + more;
    FieldFirst("uuid_disk", v, more, "uuid_disk");
    CutAt(guid, ';', "name" + "=" + n);
    CutAt("uuid_disk=" + guid, ';', "name" + "=" + n + "," + f + ";" + rest);
  }

  ghost predicate AllClean(parts: seq<Part>) { forall i :: 0 <= i < |parts| ==> Clean(parts[i]) }

  lemma {:induction false} HeaderRoundTrip(guid: string, parts: seq<Part>, blksz: nat, lba: nat)
    requires 0 < blksz < TWO_32 && lba > 0 && parts != [] && AllClean(parts)
    requires Plain(guid) && |guid| <= UUID_STR_LEN + 1
    ensures var s := PrintList(guid, parts, blksz, lba);
            && ExtractVal(s, "uuid_disk").Some? && Cut(ExtractVal(s, "uuid_disk").value, ';').0 == guid
            && Cut(s, ';').1 == Some(Lines(parts, blksz, lba))
  {
    var p := parts[0];
    var a, z := PrettySize(p.start % TWO_32, blksz, lba), PrettySize(p.size, blksz, lba);
    LineFields(p, blksz, lba);
    var f := "start" + "=" + a + "," + ("size" + "=" + z + "," + ("uuid" + "=" + p.uuid));
    HeaderFields(guid, p.name, f, Lines(parts[1..], blksz, lba), PrintList(guid, parts, blksz, lba));
  }

  ghost predicate Good(guid: string, parts: seq<Part>, blksz: nat, lba: nat) {
    && 0 < blksz < TWO_32 && 0 < lba <= TWO_64 && parts != [] && |parts| < 256 && AllClean(parts)
    && Plain(guid) && |guid| <= UUID_STR_LEN + 1 && !IsEnvRef(guid)
  }

  function ShownAll(parts: seq<Part>, blksz: nat, lba: nat): (ps: seq<Part>)
    requires 0 < blksz && lba > 0
    ensures |ps| == |parts| && forall i :: 0 <= i < |ps| ==> ps[i] == Shown(parts[i], blksz, lba)
    decreases |parts|
  {
    if parts == [] then [] else [Shown(parts[0], blksz, lba)] + ShownAll(parts[1..], blksz, lba)
  }

  lemma {:induction false} LinesRead(env: map<string, string>, parts: seq<Part>, blksz: nat, lba: nat)
    requires 0 < blksz < TWO_32 && 0 < lba <= TWO_64 && AllClean(parts)
    ensures Tokens(LineSeq(parts, blksz, lba))
    ensures Reads(PartParser(env, blksz), LineSeq(parts, blksz, lba), ShownAll(parts, blksz, lba))
  {
    var ls, ps := LineSeq(parts, blksz, lba), ShownAll(parts, blksz, lba);
    forall i | 0 <= i < |ls| ensures ';' !in ls[i] && PartParser(env, blksz)(ls[i]) == Ok(ps[i]) {
      PartRoundTrip(env, parts[i], blksz, lba);
    }
  }

  // A body that ends in a semicolon within the limit, and whose tokens parse.
  lemma {:induction false} BodyParses(f: TokenParser, guid: string, list: string, parts: seq<Part>, max: nat)
    requires |list| < max && Semicolons(list) + 1 == |parts| && ParseParts(f, list, |parts|) == Ok(parts)
    ensures ParseBody(f, guid, list + ";", max) == Ok(Table(guid, parts, |parts| % 256))
  {
    assert (list + ";")[..|list|] == list;
  }

  // Past the limit the final semicolon stays, or the list is cut short.
  lemma {:induction false} TrimTooLong(list: string, max: nat)
    requires 0 < max <= |list|
    ensures var m := Semicolons(Trim(list + ";", max)); m == Semicolons(list) + 1 || m < Semicolons(list)
  {
    SemicolonsConcat(list, ";");
    assert Semicolons(";") == 1;
    var i := max - 1;
    assert (list + ";")[i] == list[i] && (list + ";")[..i] == list[..i];
    assert list == list[..i] + list[i..];
    SemicolonsConcat(list[..i], list[i..]);
  }

  lemma {:induction false} CountDiffers(m: nat, n: nat)
    requires n < 256 && (m == n || m + 1 < n)
    ensures (m + 1) % 256 != n
  {
  }

  lemma {:induction false} CountIs(f: TokenParser, guid: string, body: string, max: nat, n: nat)
    requires max > 0 && body != [] && (Semicolons(Trim(body, max)) + 1) % 256 != n
    ensures var r := ParseBody(f, guid, body, max); r.Ok? ==> r.value.count != n
  {
  }

  lemma {:induction false} TooLong(f: TokenParser, guid: string, list: string, n: nat, max: nat)
    requires 0 < max <= |list| && Semicolons(list) + 1 == n < 256
    ensures var r := ParseBody(f, guid, list + ";", max); r.Ok? ==> r.value.count != n
  {
    TrimTooLong(list, max);
    CountDiffers(Semicolons(Trim(list + ";", max)), n);
    CountIs(f, guid, list + ";", max, n);
  }

  lemma {:induction false} BodyReads(f: TokenParser, guid: string, ls: seq<string>, ps: seq<Part>, max: nat)
    requires max > 0 && 0 < |ls| < 256 && Tokens(ls) && Reads(f, ls, ps)
    ensures var r := ParseBody(f, guid, Join(ls) + ";", max);
            if |Join(ls)| < max then r == Ok(Table(guid, ps, |ps|)) else r.Ok? ==> r.value.count != |ps|
  {
    JoinSemicolons(ls);
    JoinParses(f, ls, ps);
    if |Join(ls)| < max {
      BodyParses(f, guid, Join(ls), ps, max);
    } else {
      TooLong(f, guid, Join(ls), |ps|, max);
    }
  }

  lemma {:induction false} ParseListOf(env: map<string, string>, s: string, guid: string, body: string, blksz: nat, max: nat)
    requires blksz > 0 && max > 0 && !IsEnvRef(guid) && body != [] && Cut(s, ';').1 == Some(body)
    requires ExtractVal(s, "uuid_disk").Some? && Cut(ExtractVal(s, "uuid_disk").value, ';').0 == guid
    ensures ParseList(env, s, blksz, max) == ParseBody(PartParser(env, blksz), guid, body, max)
  {
  }

  /**
   A printed list parses to the same number of partitions exactly when it fits the parser's length limit, and then to
   what its text stands for, in order.
   */
  lemma {:induction false} ListReads(env: map<string, string>, guid: string, parts: seq<Part>, blksz: nat, lba: nat, max: nat)
    requires Good(guid, parts, blksz, lba) && max > 0
    ensures var r := ParseList(env, PrintList(guid, parts, blksz, lba), blksz, max);
            if |Lines(parts, blksz, lba)| <= max then r == Ok(Table(guid, ShownAll(parts, blksz, lba), |parts|))
            else r.Ok? ==> r.value.count != |parts|
  {
    HeaderRoundTrip(guid, parts, blksz, lba);
    LinesJoin(parts, blksz, lba);
    LinesRead(env, parts, blksz, lba);
    BodyReads(PartParser(env, blksz), guid, LineSeq(parts, blksz, lba), ShownAll(parts, blksz, lba), max);
    ParseListOf(env, PrintList(guid, parts, blksz, lba), guid, Lines(parts, blksz, lba), blksz, max);
  }

  ghost predicate AllKept(parts: seq<Part>, blksz: nat, lba: nat) {
    forall i :: 0 <= i < |parts| ==> Kept(parts[i], blksz, lba)
  }

  lemma {:induction false} ShownAllIsKept(parts: seq<Part>, blksz: nat, lba: nat)
    requires 0 < blksz && lba > 0
    ensures ShownAll(parts, blksz, lba) == parts <==> AllKept(parts, blksz, lba)
  {
    forall i | 0 <= i < |parts| ensures Shown(parts[i], blksz, lba) == parts[i] <==> Kept(parts[i], blksz, lba) {
      ShownIsKept(parts[i], blksz, lba);
    }
  }

  /** The round trip holds exactly when the list fits the limit and every partition is one that the text can say. */
  lemma {:induction false} ListRoundTrip(env: map<string, string>, guid: string, parts: seq<Part>, blksz: nat, lba: nat, max: nat)
    requires Good(guid, parts, blksz, lba) && max > 0
    ensures ParseList(env, PrintList(guid, parts, blksz, lba), blksz, max) == Ok(Table(guid, parts, |parts|))
       <==> |Lines(parts, blksz, lba)| <= max && AllKept(parts, blksz, lba)
  {
    ListReads(env, guid, parts, blksz, lba, max);
    ShownAllIsKept(parts, blksz, lba);
  }

  // ---------- the length limit ----------

  lemma {:induction false} PrettyLength(bytes: nat, k: nat)
    requires 0 < k && bytes / MIB < Pow10(k)
    ensures |PrettyBytes(bytes)| <= k + 3 && |PrettyBytes(bytes)| <= 15
  {
    DecLength(bytes / MIB, k);
  }

  // lbaint_t of w bytes.
  predicate Width(w: nat, lba: nat, blksz: nat) { (w == 4 && lba == TWO_32) || (w == 8 && lba == TWO_64 && blksz <= 65536) }

  lemma {:induction false} StartLength(a: nat, blksz: nat, lba: nat, w: nat)
    requires a < TWO_32 && 0 < blksz && Width(w, lba, blksz)
    ensures |PrettySize(a, blksz, lba)| <= if w == 4 then 7 else 12
  {
    assert Pow10(4) == 10000 && Pow10(9) == 1000000000;
    if w == 4 {
      PrettyLength(a * blksz % lba, 4);
    } else {
      MulMono(a, TWO_32, blksz);
      ModAtMost(a * blksz, lba);
      PrettyLength(a * blksz % lba, 9);
    }
  }

  lemma {:induction false} SizeLength(z: nat, blksz: nat, lba: nat, w: nat)
    requires 0 < blksz && Width(w, lba, blksz)
    ensures |PrettySize(z, blksz, lba)| <= if w == 4 then 7 else 15
  {
    assert Pow10(4) == 10000;
    if w == 4 { PrettyLength(z * blksz % lba, 4); }
  }

  lemma {:induction false} FieldsLength(n: string, a: string, z: string, u: string)
    ensures |Fields(n, a, z, u)| == 24 + |n| + |a| + |z| + |u|
  {
  }

  lemma {:induction false} LineLength(p: Part, blksz: nat, lba: nat, w: nat)
    requires 0 < blksz < TWO_32 && Width(w, lba, blksz) && Clean(p)
    ensures |Line(p, blksz, lba)| < 103 + 2 * w
  {
    var a, z := PrettySize(p.start % TWO_32, blksz, lba), PrettySize(p.size, blksz, lba);
    LineFields(p, blksz, lba);
    StartLength(p.start % TWO_32, blksz, lba, w);
    SizeLength(p.size, blksz, lba, w);
    FieldsLength(p.name, a, z, p.uuid);
  }

  lemma {:induction false} LinesLength(parts: seq<Part>, blksz: nat, lba: nat, w: nat)
    requires 0 < blksz < TWO_32 && Width(w, lba, blksz) && AllClean(parts)
    ensures |Lines(parts, blksz, lba)| <= |parts| * (103 + 2 * w)
    decreases |parts|
  {
    if parts != [] {
      LineLength(parts[0], blksz, lba, w);
      LinesLength(parts[1..], blksz, lba, w);
      assert |parts| * (103 + 2 * w) == (|parts| - 1) * (103 + 2 * w) + (103 + 2 * w);
    }
  }

  /** The limit computed from MAX_SEARCH_PARTITIONS is enough for that many partitions. */
  lemma {:induction false} DiskRoundTrip(env: map<string, string>, guid: string, parts: seq<Part>, blksz: nat, lba: nat, w: nat)
    requires Good(guid, parts, blksz, lba) && Width(w, lba, blksz) && |parts| <= MAX_SEARCH_PARTITIONS
    ensures ParseList(env, PrintList(guid, parts, blksz, lba), blksz, MaxStrPart(w)) == Ok(Table(guid, parts, |parts|))
       <==> AllKept(parts, blksz, lba)
  {
    LinesLength(parts, blksz, lba, w);
    MulMono(|parts|, MAX_SEARCH_PARTITIONS, 103 + 2 * w);
    ListRoundTrip(env, guid, parts, blksz, lba, MaxStrPart(w));
  }

  /** With a 32-bit unsigned long, a start of 2^32 blocks is printed as 0: the cast loses what lbaint_t holds. */
  lemma {:induction false} StartIsCut(blksz: nat)
    requires 0 < blksz <= 65536
    ensures var p := Part("a", TWO_32, 0, "b", false);
            && Printable(p.start, blksz, TWO_64) && Printable(p.size, blksz, TWO_64)
            && Shown(p, blksz, TWO_64).start == 0
  {
    MulMono(blksz, 65536, TWO_32);
    assert TWO_32 * blksz == MIB * (4096 * blksz);
    assert (MIB * (4096 * blksz)) % MIB == 0;
  }

  // ---------- the loops ----------

  // Lines ended by semicolons.
  function Ended(ls: seq<string>): string
    decreases |ls|
  {
    if ls == [] then "" else ls[0] + ";" + Ended(ls[1..])
  }

  lemma {:induction false} EndedAppend(ls: seq<string>, l: string)
    ensures Ended(ls + [l]) == Ended(ls) + l + ";"
    decreases |ls|
  {
    if ls == [] {
      assert (ls + [l])[1..] == [];
      assert l + ";" + "" == "" + l + ";";
    } else {
      assert (ls + [l])[1..] == ls[1..] + [l];
      EndedAppend(ls[1..], l);
      assert ls[0] + ";" + (Ended(ls[1..]) + l + ";") == ls[0] + ";" + Ended(ls[1..]) + l + ";";
    }
  }

  lemma {:induction false} LinesEnded(parts: seq<Part>, blksz: nat, lba: nat)
    requires lba > 0
    ensures Lines(parts, blksz, lba) == Ended(LineSeq(parts, blksz, lba))
    decreases |parts|
  {
    if parts != [] {
      LinesEnded(parts[1..], blksz, lba);
      assert LineSeq(parts, blksz, lba)[1..] == LineSeq(parts[1..], blksz, lba);
    }
  }

  lemma {:induction false} ListAppend(header: string, ls: seq<string>, i: nat)
    requires i < |ls|
    ensures header + Ended(ls[..i]) + ls[i] + ";" == header + Ended(ls[..i + 1])
  {
    assert ls[..i + 1] == ls[..i] + [ls[i]];
    EndedAppend(ls[..i], ls[i]);
    assert header + Ended(ls[..i]) + ls[i] + ";" == header + (Ended(ls[..i]) + ls[i] + ";");
  }

  /** create_gpt_partitions_list: strcat in a loop over the partitions. */
  method CreateList(guid: string, parts: seq<Part>, blksz: nat, lba: nat) returns (list: string)
    requires lba > 0
    ensures list == PrintList(guid, parts, blksz, lba)
  {
    var header := "uuid_disk=" + Upto(guid, UUID_STR_LEN + 1) + ";";
    ghost var ls := LineSeq(parts, blksz, lba);
    list := header;
    for i := 0 to |parts|
      invariant list == header + Ended(ls[..i])
    {
      ListAppend(header, ls, i);
      list := list + Line(parts[i], blksz, lba) + ";";
    }
    assert ls[..|parts|] == ls;
    LinesEnded(parts, blksz, lba);
  }

  method ExtractValue(str: string, key: string) returns (v: Option<string>)
    ensures v == ExtractVal(str, key)
  {
    var s := Some(str);
    while s.Some?
      invariant ExtractVal(str, key) == if s.Some? then ExtractVal(s.value, key) else None
      decreases if s.Some? then |s.value| + 1 else 0
    {
      var (tok, rest) := Cut(s.value, ',');
      var (k, val) := Cut(tok, '=');
      if k == key { return val; }
      CutShorter(s.value, ',');
      s := rest;
    }
    v := None;
  }

  method HasKey(str: string, key: string) returns (found: bool)
    ensures found == FoundKey(str, key)
  {
    var s := Some(str);
    while s.Some?
      invariant FoundKey(str, key) == (s.Some? && FoundKey(s.value, key))
      decreases if s.Some? then |s.value| + 1 else 0
    {
      var (k, rest) := Cut(s.value, ',');
      if k == key { return true; }
      CutShorter(s.value, ',');
      s := rest;
    }
    found := false;
  }

  method CountSemicolons(s: string) returns (n: nat)
    ensures n == Semicolons(s)
  {
    n := 0;
    for i := 0 to |s|
      invariant n + Semicolons(s[i..]) == Semicolons(s)
    {
      assert s[i..][1..] == s[i + 1..];
      if s[i] == ';' { n := n + 1; }
    }
  }

  method ReadPart(env: map<string, string>, tok: string, rawblksz: nat) returns (r: Result<Part>)
    requires rawblksz > 0
    ensures r == PartParser(env, rawblksz)(tok)
  {
    var u := ExtractValue(tok, "uuid");
    if u.None? || |Expand(env, u.value)| >= UUID_STR_LEN + 1 { return Err(-4); }
    var n := ExtractValue(tok, "name");
    if n.None? || |Expand(env, n.value)| >= PART_NAME_LEN { return Err(-4); }
    var z := ExtractValue(tok, "size");
    if z.None? { return Err(-4); }
    var size, start := 0, 0;
    if Expand(env, z.value) != "-" { size := Blocks(Ustrtoull(Expand(env, z.value)), rawblksz); }
    var a := ExtractValue(tok, "start");
    if a.Some? { start := Blocks(Ustrtoull(Expand(env, a.value)), rawblksz); }
    var bootable := HasKey(tok, "bootable");
    r := Ok(Part(Expand(env, n.value), start, size, Expand(env, u.value), bootable));
  }

  // What the partition loop still has to do, on top of what it has.
  function After(done: seq<Part>, f: TokenParser, s: Option<string>, n: nat): Result<seq<Part>> {
    if s.None? then Ok(done)
    else match ParseParts(f, s.value, n) case Ok(ps) => Ok(done + ps) case Err(e) => Err(e)
  }

  lemma {:induction false} AfterStep(done: seq<Part>, f: TokenParser, s: string, n: nat, p: Part)
    requires n > 0 && f(Cut(s, ';').0) == Ok(p)
    ensures After(done, f, Some(s), n) == After(done + [p], f, Cut(s, ';').1, n - 1)
  {
    var rest := Cut(s, ';').1;
    if rest.Some? && ParseParts(f, rest.value, n - 1).Ok? {
      var ps := ParseParts(f, rest.value, n - 1).value;
      assert done + ([p] + ps) == done + [p] + ps;
    }
  }

  lemma {:induction false} AfterError(done: seq<Part>, f: TokenParser, s: string, n: nat, e: int)
    requires n > 0 && f(Cut(s, ';').0) == Err(e)
    ensures After(done, f, Some(s), n) == Err(e)
  {
  }

  lemma {:induction false} AfterEnds(done: seq<Part>, f: TokenParser, s: Option<string>)
    ensures After(done, f, s, 0) == Ok(done)
  {
    assert done + [] == done;
  }

  lemma {:induction false} AfterStarts(f: TokenParser, s: string, n: nat)
    ensures After([], f, Some(s), n) == ParseParts(f, s, n)
  {
    if ParseParts(f, s, n).Ok? { assert [] + ParseParts(f, s, n).value == ParseParts(f, s, n).value; }
  }

  // One round of the partition loop.
  method ReadNext(env: map<string, string>, s: string, rawblksz: nat, ghost done: seq<Part>, ghost n: nat)
    returns (p: Result<Part>, rest: Option<string>)
    requires rawblksz > 0 && n > 0
    ensures rest.Some? ==> |rest.value| < |s|
    ensures After(done, PartParser(env, rawblksz), Some(s), n)
         == if p.Err? then Err(p.errno) else After(done + [p.value], PartParser(env, rawblksz), rest, n - 1)
  {
    ghost var f := PartParser(env, rawblksz);
    var (tok, more) := Cut(s, ';');
    rest := more;
    CutShorter(s, ';');
    p := ReadPart(env, tok, rawblksz);
    if p.Err? { AfterError(done, f, s, n, p.errno); } else { AfterStep(done, f, s, n, p.value); }
  }

  // The partition loop on top of what it has.
  method ReadRest(env: map<string, string>, list: string, count: nat, rawblksz: nat, ghost f: TokenParser)
    returns (r: Result<seq<Part>>)
    requires rawblksz > 0 && f == PartParser(env, rawblksz)
    ensures r == After([], f, Some(list), count)
  {
    var parts: seq<Part>, s, i := [], Some(list), 0;
    while i < count && s.Some?
      invariant i <= count && After([], f, Some(list), count) == After(parts, f, s, count - i)
    {
      var p, rest := ReadNext(env, s.value, rawblksz, parts, count - i);
      if p.Err? { return Err(p.errno); }
      parts, s, i := parts + [p.value], rest, i + 1;
    }
    AfterEnds(parts, f, s);
    r := Ok(parts);
  }

  method ReadParts(env: map<string, string>, list: string, count: nat, rawblksz: nat) returns (r: Result<seq<Part>>)
    requires rawblksz > 0
    ensures r == ParseParts(PartParser(env, rawblksz), list, count)
  {
    AfterStarts(PartParser(env, rawblksz), list, count);
    r := ReadRest(env, list, count, rawblksz, PartParser(env, rawblksz));
  }

  /** set_gpt_info. */
  method SetGptInfo(env: map<string, string>, str: string, rawblksz: nat, max: nat) returns (r: Result<Table>)
    requires rawblksz > 0 && max > 0
    ensures r == ParseList(env, str, rawblksz, max)
  {
    var val := ExtractValue(str, "uuid_disk");
    if val.None? { return Err(-2); }
    var guid := Expand(env, Cut(val.value, ';').0);
    var s := Cut(str, ';').1;
    if s.None? { return Err(-EINVAL); }
    if s.value == "" { return Err(-3); }
    var list := Trim(s.value, max);
    var count := CountSemicolons(list);
    var parts := ReadParts(env, list, count + 1, rawblksz);
    if parts.Err? { return Err(parts.errno); }
    r := Ok(Table(guid, parts.value, (count + 1) % 256));
  }
}
