/**
 * Facts about slicing and concatenating sequences, stated for any element
 * type. The string and token lemmas of the other modules use them for the
 * regrouping steps of their proofs.
 */
module Seqs {

  lemma AppendNil<T>(a: seq<T>)
    ensures a + [] == a
  {
  }

  lemma DropNone<T>(a: seq<T>)
    ensures a[0..] == a
  {
  }

  lemma DropCons<T>(w: T, a: seq<T>, k: nat)
    requires 1 <= k <= |a| + 1
    ensures ([w] + a)[k..] == a[k - 1..]
  {
  }

  lemma TakeSnoc<T>(a: seq<T>, e: T)
    ensures (a + [e])[..|a|] == a
  {
  }

  lemma TakeOneLess<T>(a: seq<T>, n: nat)
    requires 0 < n <= |a|
    ensures a[..n] == a[..n - 1] + [a[n - 1]]
  {
  }

  lemma AppendPair<T>(a: seq<T>, x: T, y: T)
    ensures a + [x, y] == (a + [x]) + [y]
  {
  }

  lemma ConsIndex<T>(w: T, a: seq<T>, k: nat)
    requires k < |a|
    ensures |[w] + a| == |a| + 1 && ([w] + a)[k + 1] == a[k]
  {
  }

  lemma ConsTwo<T>(a: T, b: T, r: seq<T>)
    ensures [a] + ([b] + r) == [a, b] + r
  {
  }

  lemma ConsFour<T>(a: T, b: T, c: T, d: T)
    ensures [a] + ([b] + ([c] + [d])) == [a, b, c, d]
  {
  }

  /** The parts of `w + [x] + rest` on either side of the separator. */
  lemma AroundSeparator<T>(w: seq<T>, x: T, rest: seq<T>)
    ensures (w + [x] + rest)[..|w|] == w
    ensures (w + [x] + rest)[|w|] == x
    ensures (w + [x] + rest)[|w| + 1..] == rest
  {
  }

  /** Dropping the first element of `w + [x] + rest` when `w` is not empty. */
  lemma DropFirstBeforeSeparator<T>(w: seq<T>, x: T, rest: seq<T>)
    requires |w| > 0
    ensures (w + [x] + rest)[1..] == w[1..] + [x] + rest
  {
  }

  /** A sequence is the part before position `i`, the element at `i`, and the part after. */
  lemma AroundElement<T>(s: seq<T>, i: nat)
    requires i < |s|
    ensures s == s[..i] + [s[i]] + s[i + 1..]
  {
  }

  /** Taking one more element of a sequence from the front. */
  lemma TakeOneMore<T>(s: seq<T>, j: nat)
    requires j < |s|
    ensures s[..j + 1] == [s[0]] + s[1..][..j]
  {
  }

  /** Regrouping three separated parts and a tail to the right. */
  lemma RegroupThree<T>(a: seq<T>, b: seq<T>, c: seq<T>, tail: seq<T>, x: T)
    ensures a + [x] + b + [x] + c + tail == a + [x] + (b + [x] + c + tail)
  {
  }

  /** Regrouping two separated parts and a tail that starts with the separator. */
  lemma RegroupSeparatorTail<T>(a: seq<T>, x: T, b: seq<T>, tail: seq<T>)
    requires |tail| > 0 && tail[0] == x
    ensures a + [x] + b + tail == a + [x] + (b + [x] + tail[1..])
  {
  }

  /** Two separators in a row: the part between them is empty. */
  lemma RegroupDoubleSeparator<T>(a: seq<T>, x: T, rest: seq<T>)
    ensures a + [x, x] + rest == a + [x] + ([] + [x] + rest)
  {
  }

  /** Regrouping four separated parts to the right. */
  lemma RegroupFour<T>(a: seq<T>, b: seq<T>, c: seq<T>, d: seq<T>, x: T)
    ensures a + [x] + b + [x] + c + [x] + d == a + [x] + (b + [x] + (c + [x] + d))
  {
  }

  /** `t` is the end of `s`. */
  ghost predicate IsSuffix<T>(t: seq<T>, s: seq<T>) {
    |t| <= |s| && s[|s| - |t|..] == t
  }

  /** The end of a part that runs to the end of `s` is the end of `s`. */
  lemma SuffixOfDrop<T>(t: seq<T>, s: seq<T>, i: nat)
    requires i <= |s| && IsSuffix(t, s[i..])
    ensures IsSuffix(t, s)
  {
    assert s[i..][|s[i..]| - |t|..] == s[|s| - |t|..];
  }

  /** All elements of `r` but its last are the elements of `a` at the same positions. */
  ghost predicate SamePrefix<T>(r: seq<T>, a: seq<T>) {
    1 <= |r| <= |a| && r[..|r| - 1] == a[..|r| - 1]
  }

  lemma SamePrefixCons<T>(w: T, r: seq<T>, a: seq<T>)
    requires SamePrefix(r, a)
    ensures SamePrefix([w] + r, [w] + a)
  {
    assert ([w] + r)[..|r|] == [w] + r[..|r| - 1];
    assert ([w] + a)[..|r|] == [w] + a[..|r| - 1];
  }

  lemma SamePrefixAt<T>(r: seq<T>, a: seq<T>, k: nat)
    requires SamePrefix(r, a) && k < |r| - 1
    ensures r[k] == a[k]
  {
    assert r[..|r| - 1][k] == r[k];
    assert a[..|r| - 1][k] == a[k];
  }
}
