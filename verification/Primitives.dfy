/** Big endian integers in byte strings (the little endian host's variants; the others mirror them). */
module Primitives {

  function Byte(v: nat): (c: char) {
    (v % 256) as char
  }

  /** The n low bytes of v, most significant first: what setu16, setu32 and setu64 store. */
  function SetU(v: nat, n: nat): (s: string)
    ensures |s| == n
    decreases n
  {
    if n == 0 then [] else SetU(v / 256, n - 1) + [Byte(v)]
  }

  /** What getu16, getu32 and getu64 load. */
  function GetU(s: string): (v: nat) {
    if s == [] then 0 else GetU(s[..|s| - 1]) * 256 + s[|s| - 1] as int % 256
  }

  function Pow256(n: nat): (p: nat)
    ensures 1 <= p
  {
    if n == 0 then 1 else 256 * Pow256(n - 1)
  }

  lemma {:induction false} GetSet(v: nat, n: nat)
    ensures v < Pow256(n) ==> GetU(SetU(v, n)) == v
    decreases n
  {
    if n != 0 {
      assert SetU(v, n)[..n - 1] == SetU(v / 256, n - 1);
      GetSet(v / 256, n - 1);
    }
  }

  /** Most significant first: the first of n bytes counts 256^(n-1). */
  lemma {:induction false} FirstByteIsHighest(c: char, s: string)
    ensures GetU([c] + s) == c as int % 256 * Pow256(|s|) + GetU(s)
  {
    if s == [] {
      assert [c] + s == [c] && [c][..0] == [];
    } else {
      var t, b := s[..|s| - 1], s[|s| - 1];
      assert ([c] + s)[..|s|] == [c] + t;
      FirstByteIsHighest(c, t);
      Distribute(c as int % 256, Pow256(|t|), GetU(t));
    }
  }

  lemma Distribute(x: nat, p: nat, y: nat)
    ensures (x * p + y) * 256 == x * (256 * p) + y * 256
  {
  }

  /** Every string of bytes is what storing its number gives. */
  lemma {:induction false} SetGet(s: string)
    requires forall i :: 0 <= i < |s| ==> s[i] as int < 256
    ensures SetU(GetU(s), |s|) == s
  {
    if s != [] {
      var t, b := s[..|s| - 1], s[|s| - 1];
      SetGet(t);
      assert GetU(s) == GetU(t) * 256 + b as int;
      assert GetU(s) / 256 == GetU(t) && Byte(GetU(s)) == b;
    }
  }
}
