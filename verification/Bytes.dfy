/** Fixed-width unsigned integers, network byte order and C strings. */
module Bytes {

  type uint8 = x: int | 0 <= x < 0x100
  type uint32 = x: int | 0 <= x < TWO_TO_THE_32
  type uint64 = x: int | 0 <= x < 0x1_0000_0000_0000_0000

  const TWO_TO_THE_32 := 0x1_0000_0000

  datatype Option<+T> = None | Some(value: T)

  function Pow256(n: nat): (p: nat)
    ensures p > 0
  {
    if n == 0 then 1 else 256 * Pow256(n - 1)
  }

  /** The `n` low-order bytes of `x`, most significant first. */
  function BE(x: nat, n: nat): (s: seq<uint8>)
    ensures |s| == n
  {
    if n == 0 then [] else BE(x / 256, n - 1) + [x % 256]
  }

  /** The number whose bytes, most significant first, are `s`. */
  function UnBE(s: seq<uint8>): nat {
    if s == [] then 0 else UnBE(s[..|s| - 1]) * 256 + s[|s| - 1]
  }

  lemma {:induction false} UnBEOfBE(x: nat, n: nat)
    requires x < Pow256(n)
    ensures UnBE(BE(x, n)) == x
  {
    if n == 0 {
    } else {
      UnBEOfBE(x / 256, n - 1);
      assert BE(x, n)[..n - 1] == BE(x / 256, n - 1);
    }
  }

  lemma {:induction false} BEOfUnBE(s: seq<uint8>)
    ensures UnBE(s) < Pow256(|s|)
    ensures BE(UnBE(s), |s|) == s
  {
    if s == [] {
    } else {
      var front := s[..|s| - 1];
      BEOfUnBE(front);
      assert UnBE(s) / 256 == UnBE(front) && UnBE(s) % 256 == s[|s| - 1];
      assert s == front + [s[|s| - 1]];
    }
  }

  function BE32(x: uint32): (s: seq<uint8>)
    ensures |s| == 4
  {
    BE(x, 4)
  }

  function BE64(x: uint64): (s: seq<uint8>)
    ensures |s| == 8
  {
    BE(x, 8)
  }

  function UnBE32(s: seq<uint8>): (x: uint32)
    requires |s| == 4
    ensures BE32(x) == s
  {
    BEOfUnBE(s);
    Pow256Values();
    UnBE(s)
  }

  function UnBE64(s: seq<uint8>): (x: uint64)
    requires |s| == 8
    ensures BE64(x) == s
  {
    BEOfUnBE(s);
    Pow256Values();
    UnBE(s)
  }

  lemma Pow256Values()
    ensures Pow256(4) == TWO_TO_THE_32
    ensures Pow256(8) == 0x1_0000_0000_0000_0000
  {
    assert Pow256(2) == 0x1_0000;
    assert Pow256(4) == TWO_TO_THE_32;
    assert Pow256(6) == 0x1_0000_0000_0000;
  }

  lemma UnBE32OfBE32(x: uint32)
    ensures UnBE32(BE32(x)) == x
  {
    Pow256Values();
    UnBEOfBE(x, 4);
  }

  lemma UnBE64OfBE64(x: uint64)
    ensures UnBE64(BE64(x)) == x
  {
    Pow256Values();
    UnBEOfBE(x, 8);
  }

  // ----- C strings -----

  /** The bytes of a string without its terminator. */
  type CString = s: seq<uint8> | 0 !in s

  /** The string held by a char array: everything before the first NUL (all of it when there is none). */
  function CStr(field: seq<uint8>): (s: CString)
    ensures |s| <= |field| && s == field[..|s|]
    ensures |s| < |field| ==> field[|s|] == 0
  {
    if field == [] || field[0] == 0 then [] else [field[0]] + CStr(field[1..])
  }

  /** strcpy into a char array that holds `dest`: the bytes after the terminator keep their old values. */
  function StrCpy(dest: seq<uint8>, src: CString): (r: seq<uint8>)
    requires |src| < |dest|
    ensures |r| == |dest|
    ensures CStr(r) == src
  {
    var r := src + [0] + dest[|src| + 1..];
    CStrUnique(r, src);
    r
  }

  /** strncpy with the size of the array: truncates, and pads with NULs. */
  function StrNCpy(dest: seq<uint8>, src: CString): (r: seq<uint8>)
    ensures |r| == |dest|
    ensures CStr(r) == if |src| < |dest| then src else src[..|dest|]
  {
    if |src| >= |dest| then src[..|dest|]
    else
      var r := src + seq(|dest| - |src|, _ => 0);
      CStrUnique(r, src);
      r
  }

  lemma CStrUnique(field: seq<uint8>, s: CString)
    requires |s| < |field| && s == field[..|s|] && field[|s|] == 0
    ensures CStr(field) == s
  {
  }

  lemma CStrOfTerminated(s: CString)
    ensures CStr(s + [0]) == s
  {
    CStrUnique(s + [0], s);
  }
}
