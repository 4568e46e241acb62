/** Small facts about sequence concatenation and slicing, stated once so that
    the proofs which need them do not have to rediscover them in a larger
    context. */
module Seqs {

  lemma DropAppend<T>(a: seq<T>, b: seq<T>, n: nat)
    requires n <= |a|
    ensures (a + b)[n..] == a[n..] + b
  {
  }

  lemma ConsTail<T>(s: seq<T>)
    requires s != []
    ensures s == [s[0]] + s[1..]
  {
  }

  lemma InitLast<T>(s: seq<T>)
    requires s != []
    ensures s == s[..|s| - 1] + [s[|s| - 1]]
  {
  }

  /** Taking off the last element of `a + b`, for a non-empty `b`. */
  lemma AppendInit<T>(a: seq<T>, b: seq<T>)
    requires b != []
    ensures (a + b)[..|a + b| - 1] == a + b[..|b| - 1]
    ensures (a + b)[|a + b| - 1] == b[|b| - 1]
  {
  }

  /** Slicing a suffix of `s` is slicing `s` itself. */
  lemma SliceOfSuffix<T>(s: seq<T>, i: nat, n: nat)
    requires i + n <= |s|
    ensures s[i..][..n] == s[i..i + n] && s[i..][n..] == s[i + n..]
  {
  }

  lemma ConcatIndex<T>(a: seq<T>, b: seq<T>, c: seq<T>)
    ensures forall i :: 0 <= i < |a| ==> (a + b + c)[i] == a[i]
    ensures forall i :: 0 <= i < |b| ==> (a + b + c)[|a| + i] == b[i]
    ensures forall i :: 0 <= i < |c| ==> (a + b + c)[|a| + |b| + i] == c[i]
  {
  }

  /** Removing position `p` commutes with taking off the last element, when
      `p` is not the last position. */
  lemma RemoveAtInit<T>(s: seq<T>, p: nat)
    requires p < |s| - 1
    ensures s[..p] + s[p + 1..] == s[..|s| - 1][..p] + s[..|s| - 1][p + 1..] + [s[|s| - 1]]
  {
  }

  lemma RemoveLast<T>(s: seq<T>)
    requires s != []
    ensures s[..|s| - 1] + s[|s|..] == s[..|s| - 1]
  {
  }
}
