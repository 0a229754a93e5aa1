/** Equalities of sequences, kept apart so that proofs can name the one they need. */
module Sequences {

  lemma HeadTail<T>(s: seq<T>)
    requires s != []
    ensures s == [s[0]] + s[1..]
  {
  }

  lemma TakeDrop<T>(s: seq<T>, n: nat)
    requires n <= |s|
    ensures s == s[..n] + s[n..]
  {
  }

  lemma Enclosed<T>(mark: T, body: seq<T>, rest: seq<T>)
    ensures ([mark] + body + [mark] + rest)[1..] == body + ([mark] + rest)
  {
  }

  lemma TwoThen<T>(s: seq<T>, t: seq<T>)
    requires |s| == 2
    ensures s + t == [s[0]] + ([s[1]] + t)
    ensures ([s[1]] + t)[1..] == t && (s + t)[1..] == [s[1]] + t
  {
  }
}
