/** Small facts about sequences, proved once in an empty context so that the
    proofs that use them need not rediscover them. */
module Sequences {

  lemma AppendAssoc<T>(x: seq<T>, y: seq<T>, z: seq<T>)
    ensures x + (y + z) == (x + y) + z
  {
  }

  lemma AppendEmpty<T>(x: seq<T>)
    ensures x + [] == x && [] + x == x
  {
  }

  /** Dropping the last element of a sequence that has a head in front. */
  lemma DropLastOfCons<T>(x: T, ys: seq<T>)
    requires |ys| >= 1
    ensures ([x] + ys)[..|ys|] == [x] + ys[..|ys| - 1]
  {
  }

  /** A sequence is its first `k` elements, then the element at `k`, then the rest. */
  lemma SplitAt<T>(s: seq<T>, k: nat)
    requires k < |s|
    ensures s == s[..k] + [s[k]] + s[k + 1..]
  {
  }

  /** A sequence is the sequence without its last element, then that element. */
  lemma SplitLast<T>(s: seq<T>)
    requires |s| >= 1
    ensures s == s[..|s| - 1] + [s[|s| - 1]]
  {
  }

  lemma MultisetOfAppend<T>(x: seq<T>, y: seq<T>)
    ensures multiset(x + y) == multiset(x) + multiset(y)
  {
  }

  /** A sequence is its first `k` elements followed by the others. */
  lemma TakeDrop<T>(s: seq<T>, k: nat)
    requires k <= |s|
    ensures s[..k] + s[k..] == s
  {
  }

  /** Taking the first `j` elements of the first `k` takes the first `j`. */
  lemma TakeTake<T>(s: seq<T>, j: nat, k: nat)
    requires j <= k <= |s|
    ensures s[..k][..j] == s[..j]
  {
  }

  lemma TakeAll<T>(s: seq<T>)
    ensures s[..|s|] == s
  {
  }

  // Sequence displays built piece by piece, for callers whose element type
  // makes the solver's own proof of these equalities expensive.

  lemma FourPieces<T>(a: T, b: T, c: T, d: T)
    ensures [a] + ([b] + ([c] + [d])) == [a, b, c, d]
  {
  }

  lemma TwoPieces<T>(a: T, b: T)
    ensures [a] + [b] == [a, b]
  {
  }

  lemma ThreePieces<T>(a: T, b: T, c: T)
    ensures [a, b] + [c] == [a, b, c]
  {
  }
}
