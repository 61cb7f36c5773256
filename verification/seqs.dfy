/** Facts about sequences that proofs state once and use by name. */
module Seqs {

  lemma Assoc<T>(a: seq<T>, b: seq<T>, c: seq<T>)
    ensures a + b + c == a + (b + c)
  {}

  lemma Empty<T>(a: seq<T>)
    ensures a + [] == a && [] + a == a
  {}

  lemma FirstOf<T>(x: T, s: seq<T>)
    ensures ([x] + s)[0] == x && ([x] + s)[1..] == s
  {}

  lemma LastOf<T>(s: seq<T>, x: T)
    ensures (s + [x])[|s|] == x && (s + [x])[..|s|] == s
  {}

  lemma Uncons<T>(s: seq<T>)
    requires s != []
    ensures [s[0]] + s[1..] == s
  {}

  lemma Unsnoc<T>(s: seq<T>)
    requires s != []
    ensures s[..|s| - 1] + [s[|s| - 1]] == s
  {}

  lemma TailOfBoth<T>(a: seq<T>, b: seq<T>)
    requires a != []
    ensures (a + b)[0] == a[0] && (a + b)[1..] == a[1..] + b
  {}

  lemma FrontOfTail<T>(s: seq<T>, n: nat)
    requires 0 < n <= |s|
    ensures [s[0]] + s[1..][..n - 1] == s[..n] && s[1..][n - 1..] == s[n..]
  {}

  lemma WholeSlice<T>(s: seq<T>)
    ensures s[..0] == [] && s[0..] == s && s[..|s|] == s && s[|s|..] == []
  {}

  /** The part of `s` before the first `end`: a C string, say, when `end` is NUL. */
  function Until<T(==)>(s: seq<T>, end: T): (r: seq<T>) {
    if s == [] || s[0] == end then [] else [s[0]] + Until(s[1..], end)
  }

  lemma {:induction false} UntilNone<T>(s: seq<T>, end: T)
    requires end !in s
    ensures Until(s, end) == s
  {
    if s != [] {
      UntilNone(s[1..], end);
    }
  }
}
