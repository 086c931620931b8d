/** Byte strings and the two sequence operations every stream property here is stated with. */
module Bytes {

  newtype byte = x: int | 0 <= x < 256

  const BACKSLASH: byte := 0x5c

  /** The longest suffix of s that has at most n elements. */
  function LastN<T>(s: seq<T>, n: nat): (r: seq<T>)
    ensures |r| <= n && |r| <= |s|
    ensures |r| == n || r == s
  {
    if |s| <= n then s else s[|s| - n..]
  }

  lemma LastNOfLonger<T>(a: seq<T>, b: seq<T>, n: nat)
    requires |b| >= n
    ensures LastN(a + b, n) == LastN(b, n)
  {
    assert (a + b)[|a + b| - n..] == b[|b| - n..];
  }

  /** Keeping the last n after every append is keeping the last n once. */
  lemma LastNAbsorbs<T>(a: seq<T>, b: seq<T>, n: nat)
    ensures LastN(LastN(a, n) + b, n) == LastN(a + b, n)
  {
    if |a| > n {
      var old_a, r := a[..|a| - n], LastN(a, n);
      assert a + b == old_a + (r + b);
      hide LastN;
      LastNOfLonger(old_a, r + b, n);
    }
  }

  /** What the last n elements hold of the part of s after a mark. */
  lemma LastNAfter<T>(s: seq<T>, mark: nat, n: nat)
    requires mark <= |s|
    ensures LastN(s[mark..], n) == LastN(LastN(s, n), |s| - mark)
  {
  }

  function Flatten<T>(chunks: seq<seq<T>>): seq<T> {
    if chunks == [] then [] else chunks[0] + Flatten(chunks[1..])
  }

  lemma {:induction false} FlattenConcat<T>(a: seq<seq<T>>, b: seq<seq<T>>)
    ensures Flatten(a + b) == Flatten(a) + Flatten(b)
  {
    if a == [] {
      assert a + b == b;
    } else {
      assert (a + b)[1..] == a[1..] + b;
      FlattenConcat(a[1..], b);
    }
  }

  lemma FlattenSnoc<T>(a: seq<seq<T>>, c: seq<T>)
    ensures Flatten(a + [c]) == Flatten(a) + c
  {
    FlattenConcat(a, [c]);
    assert Flatten([c]) == c;
  }
}
