/** Shared vocabulary: optional values and suffixes of sequences. */
module Basics {
  datatype Option<+T> = None | Some(value: T)

  /** `a` is what is left of `b` after dropping some prefix. */
  predicate IsSuffix<T(==)>(a: seq<T>, b: seq<T>) {
    |a| <= |b| && a == b[|b| - |a|..]
  }

  lemma SuffixSplit<T>(a: seq<T>, b: seq<T>)
    requires IsSuffix(a, b)
    ensures b == b[..|b| - |a|] + a
  {
  }

  /** Two suffixes of the same sequence are comparable. */
  lemma SuffixesNest<T>(a: seq<T>, b: seq<T>, c: seq<T>)
    requires IsSuffix(a, c) && IsSuffix(b, c)
    ensures IsSuffix(a, b) || IsSuffix(b, a)
  {
    if |a| <= |b| {
      assert b[|b| - |a|..] == c[|c| - |a|..];
    } else {
      assert a[|a| - |b|..] == c[|c| - |b|..];
    }
  }
}
