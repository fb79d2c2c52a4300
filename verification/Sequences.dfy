/** Sequences in general. */
module Sequences {

  /** `String.contains`. */
  predicate Contains<T(==)>(s: seq<T>, part: seq<T>) {
    exists i | 0 <= i <= |s| :: part <= s[i..]
  }

  lemma Regroup<T>(a: seq<T>, b: seq<T>, c: seq<T>)
    ensures a + b + c == a + (b + c)
  {
  }
}
