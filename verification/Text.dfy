/** Byte strings and byte buffers. A byte is a `char`; no proof needs it to be below 256. */
module Text {

  lemma Assoc(a: string, b: string, c: string)
    ensures a + b + c == a + (b + c)
  {
  }

  /** pat occurs in s at position p. */
  predicate Occurs(s: string, pat: string, p: nat) {
    p + |pat| <= |s| && s[p..p + |pat|] == pat
  }

  /** Position of the first c at or after i, or |s|. */
  function IndexFrom(c: char, s: string, i: nat): (k: nat)
    requires i <= |s|
    ensures i <= k <= |s| && (k < |s| ==> s[k] == c)
    ensures forall j :: i <= j < k ==> s[j] != c
    decreases |s| - i
  {
    if i == |s| || s[i] == c then i else IndexFrom(c, s, i + 1)
  }

  /** It is the only position with these properties. */
  lemma IndexFromIs(c: char, s: string, i: nat, k: nat)
    requires i <= k <= |s| && (k < |s| ==> s[k] == c)
    requires forall j :: i <= j < k ==> s[j] != c
    ensures IndexFrom(c, s, i) == k
  {
  }

  /** s with t written over it at position pos. */
  function Splice(s: string, pos: nat, t: string): (r: string)
    requires pos + |t| <= |s|
    ensures |r| == |s|
  {
    s[..pos] + t + s[pos + |t|..]
  }

  /** Writing two neighbouring strings is writing their concatenation. */
  lemma SpliceTwice(s: string, pos: nat, t: string, u: string)
    requires pos + |t| + |u| <= |s|
    ensures Splice(Splice(s, pos, t), pos + |t|, u) == Splice(s, pos, t + u)
  {
  }

  /** A stretch beside the written one is untouched, the written one reads back. */
  lemma SpliceRead(s: string, pos: nat, t: string, i: nat, j: nat)
    requires pos + |t| <= |s| && i <= j <= |s|
    ensures Splice(s, pos, t)[pos..pos + |t|] == t
    ensures j <= pos || pos + |t| <= i ==> Splice(s, pos, t)[i..j] == s[i..j]
  {
  }

  /** The first k written bytes. */
  lemma SplicePart(s: string, pos: nat, t: string, k: nat)
    requires pos + |t| <= |s| && k <= |t|
    ensures Splice(s, pos, t)[pos..pos + k] == t[..k]
  {
  }

  /** Writing on what is already there changes nothing. */
  lemma SpliceMore(s: string, pos: nat, t: string, u: string)
    requires pos + |t| + |u| <= |s| && s[pos + |t|..pos + |t| + |u|] == u
    ensures Splice(s, pos, t + u) == Splice(s, pos, t)
  {
    assert s[pos + |t|..] == u + s[pos + |t| + |u|..];
  }

  /** A byte just written, overwritten. */
  lemma SpliceLast(s: string, pos: nat, t: string, b: char, c: char)
    requires pos + |t| < |s|
    ensures Splice(s, pos, t + [b])[pos + |t| := c] == Splice(s, pos, t + [c])
  {
  }

  /** memcpy, sprintf and the like: write t into the buffer at position pos. */
  method Write(a: array<char>, pos: nat, t: string)
    requires pos + |t| <= a.Length
    modifies a
    ensures a[..] == Splice(old(a[..]), pos, t)
  {
    ghost var s := a[..];
    for i := 0 to |t|
      invariant a[..pos] == s[..pos] && a[pos..pos + i] == t[..i] && a[pos + i..] == s[pos + i..]
    {
      a[pos + i] := t[i];
    }
    assert a[..] == a[..pos] + a[pos..pos + |t|] + a[pos + |t|..];
  }

  /** Sum of the bytes. */
  function Sum(s: string): (n: nat) {
    if s == [] then 0 else Sum(s[..|s| - 1]) + s[|s| - 1] as int
  }

  lemma {:induction false} SumConcat(s: string, t: string)
    ensures Sum(s + t) == Sum(s) + Sum(t)
  {
    if t == [] {
      assert s + t == s;
    } else {
      assert (s + t)[..|s + t| - 1] == s + t[..|t| - 1];
      SumConcat(s, t[..|t| - 1]);
    }
  }

  /** From the front: with the empty sum this leaves only one function. */
  lemma {:induction false} SumFromFront(s: string)
    ensures Sum([]) == 0
    ensures s != [] ==> Sum(s) == s[0] as int + Sum(s[1..])
  {
    if s != [] {
      assert s == [s[0]] + s[1..];
      SumConcat([s[0]], s[1..]);
      SumOfOne(s[0]);
    }
  }

  lemma SumOfOne(c: char)
    ensures Sum([c]) == c as int
  {
    assert [c][..0] == [];
    assert Sum([c][..0]) == 0;
  }

  lemma SumOfFour(a: char, b: char, c: char, d: char)
    ensures Sum([a, b, c, d]) == a as int + b as int + c as int + d as int
  {
    SumConcat([a], [b]);
    SumConcat([a, b], [c]);
    SumConcat([a, b, c], [d]);
    assert [a] + [b] == [a, b] && [a, b] + [c] == [a, b, c] && [a, b, c] + [d] == [a, b, c, d];
    SumOfOne(a);
    SumOfOne(b);
    SumOfOne(c);
    SumOfOne(d);
  }

  /** The strings one after the other. */
  function Concat(parts: seq<string>): (s: string) {
    if parts == [] then [] else parts[0] + Concat(parts[1..])
  }

  lemma {:induction false} ConcatAppend(parts: seq<string>, last: string)
    ensures Concat(parts + [last]) == Concat(parts) + last
  {
    if parts == [] {
      assert parts + [last] == [last];
      assert Concat([last][1..]) == [];
    } else {
      assert (parts + [last])[1..] == parts[1..] + [last];
      ConcatAppend(parts[1..], last);
    }
  }
}
