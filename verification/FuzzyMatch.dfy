/**
  The command palette's fuzzy match: a greedy walk over UTF-16 code units that decides subsequence, with a
  bounded score.
 */
module FuzzyMatch {
  import opened Utf16

  /** q can be read off t from left to right. */
  predicate IsSubsequence(q: Text, t: Text) {
    if q == [] then true
    else if t == [] then false
    else if q[0] == t[0] && IsSubsequence(q[1..], t[1..]) then true
    else IsSubsequence(q, t[1..])
  }

  /** The same, said by positions: an increasing choice of places in t spells q. */
  ghost predicate SpelledAt(q: Text, t: Text, at: seq<nat>) {
    && |at| == |q|
    && (forall i :: 0 <= i < |at| ==> at[i] < |t| && t[at[i]] == q[i])
    && forall i, j :: 0 <= i < j < |at| ==> at[i] < at[j]
  }

  /** Dropping a letter from the front of the query only helps. */
  lemma {:induction false} TailIsSubsequence(q: Text, t: Text)
    requires q != [] && IsSubsequence(q, t)
    ensures IsSubsequence(q[1..], t)
  {
    if !(q[0] == t[0] && IsSubsequence(q[1..], t[1..])) {
      TailIsSubsequence(q, t[1..]);
    }
    Widen(q[1..], t);
  }

  /** A subsequence of a tail is one of the whole. */
  lemma {:induction false} Widen(q: Text, t: Text)
    requires t != [] && IsSubsequence(q, t[1..])
    ensures IsSubsequence(q, t)
  {
  }

  /** Greed is safe: matching the first letter at its first place loses no match. */
  lemma GreedySafe(q: Text, t: Text)
    requires q != [] && t != [] && q[0] == t[0]
    ensures IsSubsequence(q, t) <==> IsSubsequence(q[1..], t[1..])
  {
    if IsSubsequence(q, t[1..]) {
      TailIsSubsequence(q, t[1..]);
    }
  }

  function Shift(at: seq<nat>, d: nat): (r: seq<nat>)
    ensures |r| == |at| && forall i :: 0 <= i < |r| ==> r[i] == at[i] + d
  {
    seq(|at|, i requires 0 <= i < |at| => at[i] + d)
  }

  lemma SpelledLater(q: Text, t: Text, at: seq<nat>)
    requires t != [] && SpelledAt(q, t[1..], at)
    ensures SpelledAt(q, t, Shift(at, 1))
  {
  }

  lemma SpelledNow(q: Text, t: Text, at: seq<nat>)
    requires q != [] && t != [] && q[0] == t[0] && SpelledAt(q[1..], t, at)
    requires forall i :: 0 <= i < |at| ==> at[i] > 0
    ensures SpelledAt(q, t, [0] + at)
  {
  }

  lemma {:induction false} SubsequenceSpelled(q: Text, t: Text) returns (at: seq<nat>)
    requires IsSubsequence(q, t)
    ensures SpelledAt(q, t, at)
  {
    if q == [] {
      at := [];
    } else if q[0] == t[0] && IsSubsequence(q[1..], t[1..]) {
      var rest := SubsequenceSpelled(q[1..], t[1..]);
      SpelledLater(q[1..], t, rest);
      SpelledNow(q, t, Shift(rest, 1));
      at := [0] + Shift(rest, 1);
    } else {
      var rest := SubsequenceSpelled(q, t[1..]);
      SpelledLater(q, t, rest);
      at := Shift(rest, 1);
    }
  }

  lemma {:induction false} SpelledSubsequence(q: Text, t: Text, at: seq<nat>)
    requires SpelledAt(q, t, at)
    ensures IsSubsequence(q, t)
    decreases |t|
  {
    if q != [] {
      assert at[0] < |t|;
      if at[0] == 0 {
        var rest := seq(|at| - 1, i requires 0 <= i < |at| - 1 => at[i + 1] - 1);
        assert forall i :: 1 <= i < |at| ==> at[0] < at[i];
        SpelledSubsequence(q[1..], t[1..], rest);
      } else {
        assert forall i :: 0 < i < |at| ==> at[0] < at[i];
        var rest := seq(|at|, i requires 0 <= i < |at| => at[i] - 1);
        SpelledSubsequence(q, t[1..], rest);
      }
    }
  }

  predicate OccursAt(q: Text, t: Text, k: nat) { k + |q| <= |t| && t[k..k + |q|] == q }

  /** The first place where q stands in t without a gap, or -1. */
  function IndexOf(q: Text, t: Text, i: nat := 0): (k: int)
    requires i <= |t|
    ensures k == -1 || (i <= k && OccursAt(q, t, k))
    ensures k == -1 ==> forall j :: i <= j ==> !OccursAt(q, t, j)
    ensures k >= 0 ==> forall j :: i <= j < k ==> !OccursAt(q, t, j)
    decreases |t| - i
  {
    if OccursAt(q, t, i) then i else if i == |t| then -1 else IndexOf(q, t, i + 1)
  }

  /** Where the place after the i-th is looked for. */
  function After(at: seq<nat>, i: nat): nat
    requires i <= |at|
  {
    if i == 0 then 0 else at[i - 1] + 1
  }

  /** The letters of q, as far as there are places, each at its first place after the one before. */
  ghost predicate Leftmost(q: Text, t: Text, at: seq<nat>) {
    && |at| <= |q| && SpelledAt(q[..|at|], t, at)
    && forall i, j :: 0 <= i < |at| && After(at, i) <= j < at[i] ==> t[j] != q[i]
  }

  /** The matched letters that stand next to the one matched before, or at the very start. */
  function Runs(at: seq<nat>): set<nat> { set i | 0 <= i < |at| && at[i] == After(at, i) }

  lemma RunsStep(at: seq<nat>, p: nat)
    ensures Runs(at + [p]) == Runs(at) + if p == After(at, |at|) then {|at|} else {}
    ensures |Runs(at + [p])| == |Runs(at)| + if p == After(at, |at|) then 1 else 0
  {
    var more := at + [p];
    assert forall i :: 0 <= i <= |at| ==> After(more, i) == After(at, i);
    assert Runs(more) == Runs(at) + if p == After(at, |at|) then {|at|} else {};
  }

  datatype Match = Match(found: bool, score: int)

  predicate FromStart(at: seq<nat>) { forall i :: 0 <= i < |at| ==> at[i] == i }

  predicate RunsAtMost(at: seq<nat>) { |Runs(at)| <= |at| && (|Runs(at)| == |at| <==> FromStart(at)) }

  lemma FromStartStep(at: seq<nat>, p: nat)
    ensures FromStart(at + [p]) <==> FromStart(at) && p == After(at, |at|)
  {
    if FromStart(at + [p]) {
      assert forall i :: 0 <= i < |at| ==> at[i] == (at + [p])[i];
      assert (at + [p])[|at|] == |at|;
    }
  }

  lemma {:induction false} RunsBound(at: seq<nat>)
    ensures RunsAtMost(at)
  {
    if at != [] {
      var n := |at| - 1;
      RunsBound(at[..n]);
      RunsStep(at[..n], at[n]);
      FromStartStep(at[..n], at[n]);
      assert at == at[..n] + [at[n]];
    }
  }

  /** Where the text begins with the query, greed takes exactly that beginning. */
  lemma {:induction false} PrefixTaken(q: Text, t: Text, at: seq<nat>, n: nat)
    requires OccursAt(q, t, 0) && Leftmost(q, t, at) && n <= |at|
    ensures forall i :: 0 <= i < n ==> at[i] == i
  {
    if n > 0 {
      PrefixTaken(q, t, at, n - 1);
      assert t[..|q|][n - 1] == q[n - 1];
      assert After(at, n - 1) == n - 1;
    }
  }

  /** The leftmost places among the first n letters of the text: the next letter of q is not there any more. */
  ghost predicate Walked(q: Text, t: Text, at: seq<nat>, n: nat) {
    && Leftmost(q, t, at) && After(at, |at|) <= n <= |t|
    && (|at| < |q| ==> forall j :: After(at, |at|) <= j < n ==> t[j] != q[|at|])
  }

  /** The leftmost places as far as they go. */
  ghost predicate Stuck(q: Text, t: Text, at: seq<nat>) { Walked(q, t, at, |t|) }

  lemma WalkedMatch(q: Text, t: Text, at: seq<nat>, p: nat)
    requires Walked(q, t, at, p) && |at| < |q| && p < |t| && t[p] == q[|at|]
    ensures Walked(q, t, at + [p], p + 1)
    ensures |Runs(at + [p])| == |Runs(at)| + if p == After(at, |at|) then 1 else 0
  {
    RunsStep(at, p);
    LeftmostStep(q, t, at, p);
    assert After(at + [p], |at| + 1) == p + 1;
  }

  lemma SpelledMore(q: Text, t: Text, at: seq<nat>, p: nat)
    requires |at| < |q| && SpelledAt(q[..|at|], t, at) && After(at, |at|) <= p < |t| && t[p] == q[|at|]
    ensures SpelledAt(q[..|at| + 1], t, at + [p])
  {
    forall i | 0 <= i < |at| ensures t[at[i]] == q[i] && at[i] < p {
      assert q[..|at|][i] == q[i];
      assert i < |at| - 1 ==> at[i] < at[|at| - 1];
    }
  }

  lemma LeftmostStep(q: Text, t: Text, at: seq<nat>, p: nat)
    requires Walked(q, t, at, p) && |at| < |q| && p < |t| && t[p] == q[|at|]
    ensures Leftmost(q, t, at + [p])
  {
    var more := at + [p];
    SpelledMore(q, t, at, p);
    forall i, j | 0 <= i < |more| && After(more, i) <= j < more[i] ensures t[j] != q[i] {
      assert After(more, i) == After(at, i);
    }
  }

  lemma WalkedSkip(q: Text, t: Text, at: seq<nat>, p: nat)
    requires Walked(q, t, at, p) && |at| < |q| && p < |t| && t[p] != q[|at|]
    ensures Walked(q, t, at, p + 1)
  {
  }

  lemma PrefixNext(q: Text, t: Text, at: seq<nat>)
    requires OccursAt(q, t, 0) && Leftmost(q, t, at) && |at| < |q|
    ensures After(at, |at|) == |at| < |t| && t[|at|] == q[|at|]
  {
    PrefixTaken(q, t, at, |at|);
    assert t[..|q|][|at|] == q[|at|];
  }

  lemma PrefixFull(q: Text, t: Text, at: seq<nat>)
    requires Stuck(q, t, at) && OccursAt(q, t, 0)
    ensures |at| == |q| == |Runs(at)|
  {
    if |at| < |q| {
      PrefixNext(q, t, at);
    }
    PrefixTaken(q, t, at, |at|);
    RunsBound(at);
  }

  lemma FullPrefix(q: Text, t: Text, at: seq<nat>)
    requires Stuck(q, t, at) && |at| == |q| == |Runs(at)|
    ensures OccursAt(q, t, 0)
  {
    RunsBound(at);
    assert q[..|at|] == q;
    assert q != [] ==> at[|q| - 1] == |q| - 1;
    assert t[..|q|] == q;
  }

  /** No other spelling is ahead of the leftmost places. */
  lemma {:induction false} GreedyAhead(q: Text, t: Text, at: seq<nat>, other: seq<nat>, i: nat)
    requires Leftmost(q, t, at) && SpelledAt(q, t, other) && i < |at|
    ensures at[i] <= other[i]
  {
    if i > 0 {
      GreedyAhead(q, t, at, other, i - 1);
      assert other[i - 1] < other[i];
    }
    assert t[other[i]] == q[i];
  }

  /** Where some choice of places spells the query, greed gets through it too. */
  lemma GreedyFinds(q: Text, t: Text, at: seq<nat>, other: seq<nat>)
    requires Stuck(q, t, at) && SpelledAt(q, t, other)
    ensures |at| == |q|
  {
    forall i | 0 <= i <= |at| && i < |q| ensures After(at, i) <= other[i] {
      if i > 0 {
        GreedyAhead(q, t, at, other, i - 1);
        assert other[i - 1] < other[i];
      }
    }
    assert forall i :: 0 <= i < |q| ==> t[other[i]] == q[i];
  }

  lemma StuckDecides(q: Text, t: Text, at: seq<nat>)
    requires Stuck(q, t, at)
    ensures |at| == |q| <==> IsSubsequence(q, t)
  {
    if |at| == |q| {
      assert q[..|at|] == q;
      SpelledSubsequence(q, t, at);
    }
    if IsSubsequence(q, t) {
      var other := SubsequenceSpelled(q, t);
      GreedyFinds(q, t, at, other);
    }
  }

  /** What the score says, for as many leftmost places as there are. */
  lemma ScoreBounds(q: Text, t: Text, at: seq<nat>)
    requires Stuck(q, t, at)
    ensures |at| == |q| == |Runs(at)| <==> OccursAt(q, t, 0)
    ensures |Runs(at)| <= |at|
  {
    RunsBound(at);
    if OccursAt(q, t, 0) {
      PrefixFull(q, t, at);
    }
    if |at| == |q| == |Runs(at)| {
      FullPrefix(q, t, at);
    }
  }

  /** The loop: one point for each letter matched, and nine more next to the last one or at the start. */
  method Walk(q: Text, t: Text) returns (m: Match, ghost at: seq<nat>)
    ensures m.found <==> IsSubsequence(q, t)
    ensures Stuck(q, t, at) && m == Match(|at| == |q|, |at| + 9 * |Runs(at)|)
    ensures m == Match(true, 10 * |q|) <==> OccursAt(q, t, 0)
    ensures m.found ==> |q| <= m.score && (m.score <= 10 * |q| - 9 || OccursAt(q, t, 0))
    ensures !m.found ==> 0 <= m.score <= 10 * (|q| - 1)
  {
    var qi, score, lastMatch := 0, 0, -1;
    var ti := 0;
    at := [];
    while ti < |t| && qi < |q|
      invariant 0 <= ti <= |t| && 0 <= qi <= |q|
      invariant Walked(q, t, at, ti) && |at| == qi && lastMatch + 1 == After(at, qi)
      invariant score == qi + 9 * |Runs(at)|
    {
      if t[ti] == q[qi] {
        WalkedMatch(q, t, at, ti);
        at := at + [ti];
        score := score + if ti == lastMatch + 1 then 10 else 1;
        lastMatch := ti;
        qi := qi + 1;
      } else {
        WalkedSkip(q, t, at, ti);
      }
      ti := ti + 1;
    }
    assert Stuck(q, t, at);
    StuckDecides(q, t, at);
    ScoreBounds(q, t, at);
    m := Match(qi == |q|, score);
  }

  /** The walk over the text; lowering the case of both Texts is a parameter. */
  method Fuzzy(query: Text, text: Text, lower: Text -> Text) returns (m: Match)
    ensures m.found <==> exists at :: SpelledAt(lower(query), lower(text), at)
    ensures lower(query) == [] ==> m == Match(true, 0)
    ensures lower(query) != [] && IndexOf(lower(query), lower(text)) >= 0 ==>
              m == Match(true, 100 - IndexOf(lower(query), lower(text)))
    ensures lower(query) != [] && IndexOf(lower(query), lower(text)) < 0 && m.found ==>
              |lower(query)| <= m.score <= 10 * |lower(query)| - 9
    ensures !m.found ==> 0 <= m.score <= 10 * (|lower(query)| - 1)
  {
    var q, t := lower(query), lower(text);
    if q == [] {
      assert SpelledAt(q, t, []);
      return Match(true, 0);
    }
    var at := IndexOf(q, t);
    if at >= 0 {
      assert OccursAt(q, t, at);
      assert SpelledAt(q, t, Consecutive(at, |q|));
      return Match(true, 100 - at);
    }
    ghost var matched;
    m, matched := Walk(q, t);
    assert !OccursAt(q, t, 0);
    if m.found {
      var places := SubsequenceSpelled(q, t);
    } else {
      forall places | SpelledAt(q, t, places) ensures false {
        SpelledSubsequence(q, t, places);
      }
    }
  }

  function Consecutive(from: nat, n: nat): (r: seq<nat>)
    ensures |r| == n && forall i :: 0 <= i < n ==> r[i] == from + i
  {
    seq(n, i => from + i)
  }
}
