/**
 * Facts about concatenating and slicing sequences, proved once over plain
 * sequences so that the framing proofs need not re-derive them among many
 * other facts.
 */
module SeqFacts {
  /** a + (b + c + d) is a + b + c + d. */
  lemma FlattenRight3<T>(a: seq<T>, b: seq<T>, c: seq<T>, d: seq<T>)
    ensures a + (b + c + d) == a + b + c + d
  {
  }

  /** a + b + (c + d) is a + b + c + d. */
  lemma FlattenRight4<T>(a: seq<T>, b: seq<T>, c: seq<T>, d: seq<T>)
    ensures a + b + (c + d) == a + b + c + d
  {
  }

  /** The right-nested seven pieces of a set frame body, flattened. */
  lemma FlattenRight7<T>(a: seq<T>, b: seq<T>, c: seq<T>, d: seq<T>,
               e: seq<T>, f: seq<T>, g: seq<T>)
    ensures a + b + (c + d + (e + f + g)) == a + b + c + d + e + f + g
  {
  }

  /** s is its part before k - 1, the element at k - 1, and its part from k. */
  lemma SplitAroundIndex<T>(s: seq<T>, k: nat)
    requires 0 < k <= |s|
    ensures s == s[..k - 1] + [s[k - 1]] + s[k..]
  {
  }

  /** u is its part before a and its part from a. */
  lemma SplitInTwo<T>(u: seq<T>, a: nat)
    requires a <= |u|
    ensures u == u[..a] + u[a..]
  {
  }

  /** u is its parts before a, between a and b, and from b. */
  lemma SplitInThree<T>(u: seq<T>, a: nat, b: nat)
    requires a <= b <= |u|
    ensures u == u[..a] + u[a..b] + u[b..]
  {
  }

  /** The pieces of a + [x] + b. */
  lemma PiecesAroundByte<T>(a: seq<T>, x: T, b: seq<T>)
    ensures (a + [x] + b)[..|a|] == a && (a + [x] + b)[|a|] == x
    ensures (a + [x] + b)[|a| + 1..] == b
    ensures forall j | 0 <= j < |a| :: (a + [x] + b)[j] == a[j]
  {
  }

  /** The pieces of a + b + c. */
  lemma PiecesOfThree<T>(a: seq<T>, b: seq<T>, c: seq<T>)
    ensures (a + b + c)[..|a|] == a
    ensures (a + b + c)[|a|..|a| + |b|] == b
    ensures (a + b + c)[|a| + |b|..] == c
  {
  }

  /** A piece b + [x] + d in the middle of a concatenation, flattened. */
  lemma FlattenMiddle<T>(a: seq<T>, b: seq<T>, x: T, d: seq<T>, e: seq<T>)
    ensures a + (b + [x] + d) + e == a + b + [x] + d + e
  {
  }

  /** Where the middle piece of head + mid + tail lies. */
  lemma MiddlePiece<T>(s: seq<T>, head: seq<T>, mid: seq<T>, tail: seq<T>)
    requires s == head + mid + tail
    ensures |head| + |mid| <= |s| && s[|head|..|head| + |mid|] == mid
  {
    PiecesOfThree(head, mid, tail);
  }

  /** a + (b + [x] + d) + e, regrouped so that d + e follows x. */
  lemma RegroupAfterByte<T>(a: seq<T>, b: seq<T>, x: T, d: seq<T>, e: seq<T>)
    ensures a + (b + [x] + d) + e == a + b + [x] + (d + e)
  {
  }

  /** A nonempty s is its first element followed by the rest. */
  lemma HeadAndTail<T>(s: seq<T>)
    requires |s| > 0
    ensures s == [s[0]] + s[1..]
  {
  }

  /** [x] followed by four grouped pieces, flattened. */
  lemma FlattenAfterHead4<T>(x: T, a: seq<T>, b: seq<T>, c: seq<T>, d: seq<T>)
    ensures [x] + (a + b + c + d) == [x] + a + b + c + d
  {
  }

  /** [x] followed by seven grouped pieces, flattened. */
  lemma FlattenAfterHead7<T>(x: T, a: seq<T>, b: seq<T>, c: seq<T>, d: seq<T>,
              e: seq<T>, f: seq<T>, g: seq<T>)
    ensures [x] + (a + b + c + d + e + f + g) == [x] + a + b + c + d + e + f + g
  {
  }

  /** Dropping the leading element of x + a + b + c + d + e + f + g. */
  lemma DropHead8<T>(x: T, a: seq<T>, b: seq<T>, c: seq<T>, d: seq<T>,
              e: seq<T>, f: seq<T>, g: seq<T>)
    ensures ([x] + a + b + c + d + e + f + g)[1..] == a + b + (c + d + (e + f + g))
  {
  }

  /** Dropping the leading element of x + a + b + c + d. */
  lemma DropHead5<T>(x: T, a: seq<T>, b: seq<T>, c: seq<T>, d: seq<T>)
    ensures ([x] + a + b + c + d)[1..] == a + b + (c + d)
  {
  }
}
