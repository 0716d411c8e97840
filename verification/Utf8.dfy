/** Byte strings as UTF-8, as far as the question goes whether they decode; section 3 of RFC 3629. */
module Utf8 {
  type Byte = b: int | 0 <= b < 256

  type Bytes = seq<Byte>

  // A byte that continues a character.
  predicate Continues(b: Byte) { 0x80 <= b < 0xC0 }

  // The length of the first character, or 0 if there is none.
  function CharLength(s: Bytes): (n: nat)
    requires s != []
    ensures n <= |s| && n <= 4
    ensures n > 0 ==> !Continues(s[0]) && forall i :: 0 < i < n ==> Continues(s[i])
  {
    if s[0] < 0x80 then 1
    else if 0xC2 <= s[0] < 0xE0 then (if |s| >= 2 && Continues(s[1]) then 2 else 0)
    else if 0xE0 <= s[0] < 0xF0 then
      (if |s| >= 3 && Continues(s[1]) && Continues(s[2]) && (s[0] == 0xE0 ==> s[1] >= 0xA0) && (s[0] == 0xED ==> s[1] < 0xA0)
       then 3 else 0)
    else if 0xF0 <= s[0] < 0xF5 then
      (if |s| >= 4 && Continues(s[1]) && Continues(s[2]) && Continues(s[3])
          && (s[0] == 0xF0 ==> s[1] >= 0x90) && (s[0] == 0xF4 ==> s[1] < 0x90) then 4 else 0)
    else 0
  }

  predicate Valid(s: Bytes)
    decreases |s|
  {
    s == [] || (CharLength(s) > 0 && Valid(s[CharLength(s)..]))
  }

  // The first character does not depend on what follows it, and is gone when it is cut.
  lemma {:induction false} CharOfPrefix(s: Bytes, n: nat)
    requires s != [] && CharLength(s) > 0 && 0 < n <= |s|
    ensures CharLength(s[..n]) == if CharLength(s) <= n then CharLength(s) else 0
  {
  }

  /** A prefix decodes if and only if the cut is not inside a character. */
  lemma {:induction false} PrefixIff(s: Bytes, n: nat)
    requires Valid(s) && n <= |s|
    ensures Valid(s[..n]) <==> n == |s| || !Continues(s[n])
    decreases |s|
  {
    if s != [] && n > 0 {
      var k := CharLength(s);
      CharOfPrefix(s, n);
      if k <= n {
        PrefixIff(s[k..], n - k);
        assert s[..n][k..] == s[k..][..n - k];
      }
    }
  }
}
