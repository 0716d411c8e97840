/**
 Partition tokens as `gpt write` takes them, with any fields in any order: what the parser makes of every token that is
 a list of keys with or without values, and of sizes in any unit.
 */
module GptFields {
  import opened Options
  import opened Gpt

  // ---------- amounts ----------

  /** An amount as the command line gives it: a number, a unit, and whether the unit is written out. */
  datatype Unit = Single | Kilo | Mega | Giga

  datatype Amount = Amount(n: nat, unit: Unit, long: bool)

  function Suffix(a: Amount): string {
    match a.unit
    case Single => ""
    case Kilo => if a.long then "KiB" else "K"
    case Mega => if a.long then "MiB" else "M"
    case Giga => if a.long then "GiB" else "G"
  }

  function Text(a: Amount): string { Dec(a.n) + Suffix(a) }

  function UnitBytes(u: Unit): nat {
    match u
    case Single => 1
    case Kilo => 1024
    case Mega => 1048576
    case Giga => 1073741824
  }

  function Value(a: Amount): nat { a.n * UnitBytes(a.unit) }

  /** Every amount is read as its number of bytes, in 64 bits. */
  lemma {:induction false} AmountRoundTrip(a: Amount)
    ensures Ustrtoull(Text(a)) == Value(a) % TWO_64
  {
    NumberRoundTrip(a.n, Suffix(a));
  }

  lemma {:induction false} TextPlain(a: Amount)
    ensures Text(a) != "-" && !IsEnvRef(Text(a)) && Plain(Text(a))
  {
    DecPlain(a.n);
    DecFirst(a.n);
    assert Text(a)[0] == Dec(a.n)[0];
    assert Plain(Suffix(a));
  }

  // ---------- fields ----------

  /** A key, with or without a value. */
  datatype Field = Field(key: string, value: Option<string>)

  predicate FieldOk(f: Field) { ',' !in f.key && '=' !in f.key && (f.value.Some? ==> ',' !in f.value.value) }

  ghost predicate FieldsOk(fs: seq<Field>) { forall i :: 0 <= i < |fs| ==> FieldOk(fs[i]) }

  function FieldText(f: Field): string { if f.value.None? then f.key else f.key + "=" + f.value.value }

  // Fields separated by commas.
  function Token(fs: seq<Field>): string
    requires fs != []
    decreases |fs|
  {
    if |fs| == 1 then FieldText(fs[0]) else FieldText(fs[0]) + "," + Token(fs[1..])
  }

  // The value of the first field with the key.
  function Lookup(fs: seq<Field>, key: string): Option<string>
    decreases |fs|
  {
    if fs == [] then None else if fs[0].key == key then fs[0].value else Lookup(fs[1..], key)
  }

  // Some field is the key alone.
  ghost predicate Bare(fs: seq<Field>, key: string) { exists i :: 0 <= i < |fs| && fs[i] == Field(key, None) }

  lemma {:induction false} FieldCut(f: Field)
    requires FieldOk(f)
    ensures ',' !in FieldText(f) && Cut(FieldText(f), '=') == (f.key, f.value)
  {
    if f.value.None? {
      CutNone(f.key, '=');
    } else {
      CutAt(f.key, '=', f.value.value);
    }
  }

  lemma {:induction false} TokenCut(fs: seq<Field>)
    requires fs != [] && FieldsOk(fs)
    ensures Cut(Token(fs), ',') == (FieldText(fs[0]), if |fs| == 1 then None else Some(Token(fs[1..])))
  {
    FieldCut(fs[0]);
    if |fs| == 1 {
      CutNone(FieldText(fs[0]), ',');
    } else {
      CutAt(FieldText(fs[0]), ',', Token(fs[1..]));
    }
  }

  /** The value of a key is that of the first field with it. */
  lemma {:induction false} ExtractIsLookup(fs: seq<Field>, key: string)
    requires fs != [] && FieldsOk(fs)
    ensures ExtractVal(Token(fs), key) == Lookup(fs, key)
    decreases |fs|
  {
    TokenCut(fs);
    FieldCut(fs[0]);
    if |fs| > 1 { ExtractIsLookup(fs[1..], key); } else { assert fs[1..] == []; }
  }

  lemma {:induction false} BareText(f: Field, key: string)
    requires '=' !in key
    ensures FieldText(f) == key <==> f == Field(key, None)
  {
    if f.value.Some? { assert FieldText(f)[|f.key|] == '='; }
  }

  lemma {:induction false} BareCons(fs: seq<Field>, key: string)
    requires fs != []
    ensures Bare(fs, key) <==> fs[0] == Field(key, None) || Bare(fs[1..], key)
  {
    if Bare(fs, key) {
      var i :| 0 <= i < |fs| && fs[i] == Field(key, None);
      if i > 0 { assert fs[1..][i - 1] == Field(key, None); }
    }
    if Bare(fs[1..], key) {
      var i :| 0 <= i < |fs[1..]| && fs[1..][i] == Field(key, None);
      assert fs[i + 1] == Field(key, None);
    }
  }

  /** A key is found exactly if some field is that key alone. */
  lemma {:induction false} FoundIsBare(fs: seq<Field>, key: string)
    requires fs != [] && FieldsOk(fs) && '=' !in key
    ensures FoundKey(Token(fs), key) <==> Bare(fs, key)
    decreases |fs|
  {
    TokenCut(fs);
    BareText(fs[0], key);
    BareCons(fs, key);
    if |fs| > 1 { FoundIsBare(fs[1..], key); } else { assert fs[1..] == []; }
  }

  // ---------- partitions ----------

  // Values that are taken as they are.
  predicate Literal(v: Option<string>) { v.Some? ==> !IsEnvRef(v.value) }

  // What a token must have: a uuid and a name that fit, and a size.
  predicate Complete(fs: seq<Field>) {
    && Lookup(fs, "uuid").Some? && |Lookup(fs, "uuid").value| <= 36
    && Lookup(fs, "name").Some? && |Lookup(fs, "name").value| < 32
    && Lookup(fs, "size").Some?
  }

  /** A token without a uuid, name or size, or with one too long, is refused with -4; every other one is accepted. */
  lemma {:induction false} AcceptedIff(env: map<string, string>, fs: seq<Field>, rawblksz: nat)
    requires rawblksz > 0 && fs != [] && FieldsOk(fs) && Literal(Lookup(fs, "uuid")) && Literal(Lookup(fs, "name"))
    ensures if Complete(fs) then ParsePart(env, Token(fs), rawblksz).Ok? else ParsePart(env, Token(fs), rawblksz) == Err(-4)
  {
    ExtractIsLookup(fs, "uuid");
    ExtractIsLookup(fs, "name");
    ExtractIsLookup(fs, "size");
  }

  // A size: an amount, or a dash for the rest of the disk.
  function SizeText(z: Option<Amount>): string { if z.None? then "-" else Text(z.value) }

  function BlocksOf(z: Option<Amount>, rawblksz: nat): nat
    requires rawblksz > 0
  {
    if z.None? then 0 else Value(z.value) / rawblksz
  }

  // The fields say this partition, in any order and among any others.
  ghost predicate Says(fs: seq<Field>, name: string, start: Option<Amount>, size: Option<Amount>, uuid: string) {
    && Lookup(fs, "name") == Some(name) && Lookup(fs, "uuid") == Some(uuid) && Lookup(fs, "size") == Some(SizeText(size))
    && Lookup(fs, "start") == (if start.None? then None else Some(Text(start.value)))
  }

  predicate Fits64(a: Option<Amount>) { a.Some? ==> Value(a.value) < TWO_64 }

  lemma {:induction false} SizeReads64(z: Option<Amount>, env: map<string, string>, rawblksz: nat)
    requires Fits64(z) && rawblksz > 0
    ensures Expand(env, SizeText(z)) == SizeText(z) && (SizeText(z) == "-" <==> z.None?)
    ensures z.Some? ==> Blocks(Ustrtoull(SizeText(z)), rawblksz) == BlocksOf(z, rawblksz)
  {
    if z.Some? {
      AmountRoundTrip(z.value);
      TextPlain(z.value);
      SmallMod(Value(z.value), TWO_64);
    }
  }

  /**
   The parser gives back the name, the uuid, the size (0 for a dash) and the start (0 if there is none) of every such
   token, and sets the bootable flag exactly if the token has that key alone.
   */
  lemma {:induction false} TokenParses(env: map<string, string>, fs: seq<Field>, name: string, start: Option<Amount>,
                                       size: Option<Amount>, uuid: string, rawblksz: nat)
    requires rawblksz > 0 && fs != [] && FieldsOk(fs) && Says(fs, name, start, size, uuid)
    requires |name| < 32 && !IsEnvRef(name) && |uuid| <= 36 && !IsEnvRef(uuid) && Fits64(start) && Fits64(size)
    ensures ParsePart(env, Token(fs), rawblksz)
         == Ok(Part(name, BlocksOf(start, rawblksz), BlocksOf(size, rawblksz), uuid, Bare(fs, "bootable")))
  {
    ExtractIsLookup(fs, "uuid");
    ExtractIsLookup(fs, "name");
    ExtractIsLookup(fs, "size");
    ExtractIsLookup(fs, "start");
    FoundIsBare(fs, "bootable");
    SizeReads64(size, env, rawblksz);
    SizeReads64(start, env, rawblksz);
  }

  lemma {:induction false} LookupFour(a: Field, b: Field, c: Field, d: Field, key: string)
    ensures Lookup([a, b, c, d], key)
         == if a.key == key then a.value else if b.key == key then b.value else if c.key == key then c.value
            else if d.key == key then d.value else None
  {
    assert [a, b, c, d][1..] == [b, c, d] && [b, c, d][1..] == [c, d] && [c, d][1..] == [d] && [d][1..] == [];
    assert Lookup([d], key) == if d.key == key then d.value else None;
    assert Lookup([c, d], key) == if c.key == key then c.value else if d.key == key then d.value else None;
  }

  lemma {:induction false} KeysDiffer()
    ensures "name" != "size" && "name" != "uuid" && "size" != "uuid" && "start" != "name" && "start" != "size"
    ensures "start" != "uuid" && "start" != "bootable"
  {
    assert "name"[0] == 'n' && "size"[0] == 's' && "uuid"[0] == 'u' && |"start"| == 5 && |"bootable"| == 8;
  }

  // name=a,size=<n>MiB,uuid=u,bootable: the flag is set.
  lemma {:induction false} BootableExample(env: map<string, string>, size: Amount, rawblksz: nat)
    requires rawblksz > 0 && Value(size) < TWO_64
    ensures var fs := [Field("name", Some("a")), Field("size", Some(Text(size))), Field("uuid", Some("u")),
                       Field("bootable", None)];
            ParsePart(env, Token(fs), rawblksz) == Ok(Part("a", 0, Value(size) / rawblksz, "u", true))
  {
    var a, b, c, d := Field("name", Some("a")), Field("size", Some(Text(size))), Field("uuid", Some("u")), Field("bootable", None);
    var fs := [a, b, c, d];
    KeysDiffer();
    TextPlain(size);
    LookupFour(a, b, c, d, "name");
    LookupFour(a, b, c, d, "size");
    LookupFour(a, b, c, d, "uuid");
    LookupFour(a, b, c, d, "start");
    assert fs[3] == Field("bootable", None);
    TokenParses(env, fs, "a", None, Some(size), "u", rawblksz);
  }

  // ---------- variables and lists ----------

  /** ${name} stands for the variable's value if it is set, and for itself otherwise. */
  lemma {:induction false} VariableExpands(env: map<string, string>, n: string)
    requires n != []
    ensures var ref := "${" + n + "}"; Expand(env, ref) == if n in env then env[n] else ref
  {
    var ref := "${" + n + "}";
    assert ref[0] == '$' && ref[1] == '{' && ref[|ref| - 1] == '}' && ref[2..|ref| - 1] == n;
  }

  /** Any other string stands for itself. */
  lemma {:induction false} LiteralStays(env: map<string, string>, s: string)
    requires |s| < 4 || s[0] != '$' || s[1] != '{' || s[|s| - 1] != '}'
    ensures Expand(env, s) == s
  {
  }

  /** A list without a disk guid is refused with -2. */
  lemma {:induction false} NoDiskGuid(env: map<string, string>, fs: seq<Field>, rawblksz: nat, max: nat)
    requires rawblksz > 0 && max > 0 && fs != [] && FieldsOk(fs) && Lookup(fs, "uuid_disk").None?
    ensures ParseList(env, Token(fs), rawblksz, max) == Err(-2)
  {
    ExtractIsLookup(fs, "uuid_disk");
  }

  lemma {:induction false} GuidOnly(guid: string, tail: string)
    requires Plain(guid) && ',' !in tail
    ensures ExtractVal("uuid_disk=" + guid + tail, "uuid_disk") == Some(guid + tail)
  {
    assert "uuid_disk=" == "uuid_disk" + "=";
    assert "uuid_disk=" + guid + tail == "uuid_disk" + "=" + (guid + tail);
    FieldLast("uuid_disk", guid + tail, "uuid_disk");
  }

  /** A disk guid without a semicolon is refused with -EINVAL, and one with nothing behind the semicolon with -3. */
  lemma {:induction false} NoPartitions(env: map<string, string>, guid: string, rawblksz: nat, max: nat)
    requires rawblksz > 0 && max > 0 && Plain(guid)
    ensures ParseList(env, "uuid_disk=" + guid + "", rawblksz, max) == Err(-22)
    ensures ParseList(env, "uuid_disk=" + guid + ";", rawblksz, max) == Err(-3)
  {
    var h := "uuid_disk=" + guid;
    GuidOnly(guid, "");
    GuidOnly(guid, ";");
    assert h + "" == h && ';' !in h;
    CutNone(h, ';');
    CutAt(h, ';', "");
    assert h + [';'] + "" == h + ";";
  }
}
