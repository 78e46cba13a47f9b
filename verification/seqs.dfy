/** Small facts about sequence prefixes (`a <= b`), used for Python's `xs[:n]` slices
    and for loops that stop once a cap is reached. */
module Seqs {

  function Min(a: int, b: int): int
  {
    if a <= b then a else b
  }

  /** The first n elements of s: all of them when n >= |s|, none when n <= 0.
      For n >= 0 this is Python's `s[:n]`. */
  function Take<T>(s: seq<T>, n: int): (r: seq<T>)
    ensures |r| == if n <= 0 then 0 else Min(n, |s|)
    ensures r == s[..|r|]
  {
    if n <= 0 then [] else if n < |s| then s[..n] else s
  }

  /** Once a prefix already holds n elements, extending the sequence does not
      change its first n elements. */
  lemma TakeOfLongPrefix<T>(a: seq<T>, b: seq<T>, n: int)
    requires a <= b
    requires n <= |a|
    ensures Take(b, n) == Take(a, n)
  {
  }
}
