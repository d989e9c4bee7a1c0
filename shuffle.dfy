/** The shuffle engine (server.js, shuffleArray and shuffleAnswers).
    `Math.random` is replaced by a caller-supplied sequence of draws: the
    backward Fisher–Yates pass over a list of length n takes n - 1 steps, and
    step k, which handles position i = n - 1 - k, uses `draws[k]` as
    `Math.floor(Math.random() * (i + 1))`. */
module Shuffle {
  import opened QuestionsLoader
  import opened Js

  /** The draws can come from `Math.floor(Math.random() * (i + 1))`: one per
      step, the one for position i in 0..i. */
  predicate DrawsFit(draws: seq<nat>, n: nat) {
    && |draws| >= n - 1
    && forall k :: 0 <= k < |draws| && k < n - 1 ==> draws[k] <= n - 1 - k
  }

  /** Exchange the elements at positions i and j. */
  function Swap<T>(s: seq<T>, i: nat, j: nat): (r: seq<T>)
    requires i < |s| && j < |s|
    ensures |r| == |s|
  {
    s[i := s[j]][j := s[i]]
  }

  lemma SwapPermutes<T>(s: seq<T>, i: nat, j: nat)
    requires i < |s| && j < |s|
    ensures multiset(Swap(s, i, j)) == multiset(s)
  {
  }

  /** What is left of the pass once positions above i are done. */
  function PassFrom<T>(s: seq<T>, draws: seq<nat>, i: nat): (r: seq<T>)
    requires i < |s| && DrawsFit(draws, |s|)
    ensures |r| == |s|
    decreases i
  {
    if i == 0 then s else PassFrom(Swap(s, i, draws[|s| - 1 - i]), draws, i - 1)
  }

  lemma {:induction false} PassFromPermutes<T>(s: seq<T>, draws: seq<nat>, i: nat)
    requires i < |s| && DrawsFit(draws, |s|)
    ensures multiset(PassFrom(s, draws, i)) == multiset(s)
    decreases i
  {
    if i > 0 {
      SwapPermutes(s, i, draws[|s| - 1 - i]);
      PassFromPermutes(Swap(s, i, draws[|s| - 1 - i]), draws, i - 1);
    }
  }

  /** The result of the whole pass. */
  function Shuffled<T>(s: seq<T>, draws: seq<nat>): (r: seq<T>)
    requires DrawsFit(draws, |s|)
  {
    if |s| == 0 then s else PassFrom(s, draws, |s| - 1)
  }

  /** A shuffle is a permutation of its input. */
  lemma ShuffledIsPermutation<T>(s: seq<T>, draws: seq<nat>)
    requires DrawsFit(draws, |s|)
    ensures |Shuffled(s, draws)| == |s|
    ensures multiset(Shuffled(s, draws)) == multiset(s)
  {
    if |s| > 0 {
      PassFromPermutes(s, draws, |s| - 1);
    }
  }

  /** The pass from i down never touches the positions above i. */
  lemma {:induction false} PassFromKeepsTop<T>(s: seq<T>, draws: seq<nat>, i: nat)
    requires i < |s| && DrawsFit(draws, |s|)
    ensures forall k :: i < k < |s| ==> PassFrom(s, draws, i)[k] == s[k]
    decreases i
  {
    if i > 0 {
      var j := draws[|s| - 1 - i];
      PassFromKeepsTop(Swap(s, i, j), draws, i - 1);
    }
  }

  /** The last position receives the element chosen by the first draw, and
      keeps it to the end of the pass. */
  lemma ShuffledLast<T>(s: seq<T>, draws: seq<nat>)
    requires |s| >= 2 && DrawsFit(draws, |s|)
    ensures Shuffled(s, draws)[|s| - 1] == s[draws[0]]
  {
    var n := |s|;
    var t := Swap(s, n - 1, draws[0]);
    assert t[n - 1] == s[draws[0]];
    PassFromKeepsTop(t, draws, n - 2);
  }

  /** `shuffleArray`: a backward Fisher–Yates pass over a copy of the input. */
  method ShuffleArray<T>(input: seq<T>, draws: seq<nat>) returns (shuffled: seq<T>)
    requires DrawsFit(draws, |input|)
    ensures shuffled == Shuffled(input, draws)
    ensures |shuffled| == |input| && multiset(shuffled) == multiset(input)
  {
    var a := new T[|input|](k requires 0 <= k < |input| => input[k]);
    assert a[..] == input;
    var i := |input| - 1;
    while i > 0
      invariant |input| == 0 ==> i == -1
      invariant |input| > 0 ==> 0 <= i < |input|
      invariant |input| > 0 ==> PassFrom(a[..], draws, i) == Shuffled(input, draws)
    {
      var j := DrawAt(draws, |input|, i);
      ghost var before := a[..];
      a[i], a[j] := a[j], a[i];
      SwapStep(input, before, a[..], draws, i, j);
      i := i - 1;
    }
    shuffled := a[..];
    ShuffledIsPermutation(input, draws);
  }

  /** The draw used for position i, which is at most i. */
  function DrawAt(draws: seq<nat>, n: nat, i: nat): (j: nat)
    requires 0 < i < n && DrawsFit(draws, n)
    ensures j <= i && j == draws[n - 1 - i]
  {
    draws[n - 1 - i]
  }

  /** One step of the loop in `ShuffleArray` keeps the pass on track. */
  lemma SwapStep<T>(input: seq<T>, before: seq<T>, after: seq<T>, draws: seq<nat>, i: nat, j: nat)
    requires 0 < i < |before| == |input| && DrawsFit(draws, |before|)
    requires j == draws[|before| - 1 - i] && j <= i
    requires PassFrom(before, draws, i) == Shuffled(input, draws)
    requires |after| == |before| && after[i] == before[j] && after[j] == before[i]
    requires forall k :: 0 <= k < |before| && k != i && k != j ==> after[k] == before[k]
    ensures PassFrom(after, draws, i - 1) == Shuffled(input, draws)
  {
    SwappedArray(before, after, i, j);
  }

  lemma PassFromStep<T>(s: seq<T>, draws: seq<nat>, i: nat)
    requires 0 < i < |s| && DrawsFit(draws, |s|)
    ensures draws[|s| - 1 - i] <= i
    ensures PassFrom(s, draws, i) == PassFrom(Swap(s, i, draws[|s| - 1 - i]), draws, i - 1)
  {
  }

  lemma SwappedArray<T>(before: seq<T>, after: seq<T>, i: nat, j: nat)
    requires i < |before| && j < |before| && |after| == |before|
    requires after[i] == before[j] && after[j] == before[i]
    requires forall k :: 0 <= k < |before| && k != i && k != j ==> after[k] == before[k]
    ensures after == Swap(before, i, j)
  {
  }

  // ---------------------------------------------------------------------------
  // Shuffling a question's answers

  /** A question as shuffled for one serving: the answers in their new order,
      the new position of the correct answer, and the original one. */
  datatype ShuffledQuestion = ShuffledQuestion(
    id: int,
    text: string,
    answers: seq<string>,
    correct: int,
    originalCorrect: int)

  /** 0, 1, ..., n - 1 (`Array.from({ length: n }, (_, i) => i)`). */
  function Range(n: nat): (r: seq<nat>)
    ensures |r| == n && forall k :: 0 <= k < n ==> r[k] == k
  {
    seq(n, k => k)
  }

  /** `indices.map(i => xs[i])`; an index out of range would read
      `undefined`, which never happens for the shuffled index list (see
      `ShuffledAnswersAreShuffle`), and is written "" here. */
  function Pick(xs: seq<string>, indices: seq<nat>): (r: seq<string>)
    ensures |r| == |indices|
    ensures forall k :: 0 <= k < |indices| ==> r[k] == if indices[k] < |xs| then xs[indices[k]] else ""
  {
    MapSeq(AnswerAt(xs), indices)
  }

  /** The answer an index reads. */
  function AnswerAt(xs: seq<string>): nat -> string {
    (k: nat) => if k < |xs| then xs[k] else ""
  }

  /** `f` applied to each element. */
  function MapSeq<A, B>(f: A -> B, s: seq<A>): (r: seq<B>)
    ensures |r| == |s| && forall k :: 0 <= k < |s| ==> r[k] == f(s[k])
  {
    seq(|s|, k requires 0 <= k < |s| => f(s[k]))
  }

  lemma MapSwap<A, B>(f: A -> B, s: seq<A>, i: nat, j: nat)
    requires i < |s| && j < |s|
    ensures MapSeq(f, Swap(s, i, j)) == Swap(MapSeq(f, s), i, j)
  {
    var l := MapSeq(f, Swap(s, i, j));
    var r := Swap(MapSeq(f, s), i, j);
    forall k | 0 <= k < |l| ensures l[k] == r[k] {
      if k != i && k != j {
        assert Swap(s, i, j)[k] == s[k];
      }
    }
  }

  /** Mapping commutes with the pass: the pass moves elements without
      looking at them. */
  lemma {:induction false} MapPassFrom<A, B>(f: A -> B, s: seq<A>, draws: seq<nat>, i: nat)
    requires i < |s| && DrawsFit(draws, |s|)
    ensures MapSeq(f, PassFrom(s, draws, i)) == PassFrom(MapSeq(f, s), draws, i)
    decreases i
  {
    if i > 0 {
      var j := DrawAt(draws, |s|, i);
      var swapped := Swap(s, i, j);
      PassFromStep(s, draws, i);
      PassFromStep(MapSeq(f, s), draws, i);
      MapSwap(f, s, i, j);
      MapPassFrom(f, swapped, draws, i - 1);
    }
  }

  /** The answers of the shuffled question are the answer list shuffled with
      the same draws. */
  lemma ShuffledAnswersAreShuffle(answers: seq<string>, draws: seq<nat>)
    requires DrawsFit(draws, |answers|)
    ensures Pick(answers, Shuffled(Range(|answers|), draws)) == Shuffled(answers, draws)
  {
    var idx := Range(|answers|);
    assert Pick(answers, idx) == answers;
    if |answers| > 0 {
      MapPassFrom(AnswerAt(answers), idx, draws, |answers| - 1);
      assert Shuffled(idx, draws) == PassFrom(idx, draws, |answers| - 1);
      assert Shuffled(answers, draws) == PassFrom(answers, draws, |answers| - 1);
    }
  }

  /** `shuffleAnswers`: shuffle the answer indices, lay the answers out in that
      order, and find the correct answer again by its text (`indexOf`). When
      the stored index is out of range the correct text is `undefined` and the
      new index is -1. */
  function ShuffleAnswers(q: Question, draws: seq<nat>): (r: ShuffledQuestion)
    requires DrawsFit(draws, |q.answers|)
    ensures r.id == q.id && r.text == q.text && r.originalCorrect == q.correct
    ensures r.answers == Shuffled(q.answers, draws)
    ensures multiset(r.answers) == multiset(q.answers)
    ensures 0 <= q.correct < |q.answers| ==>
      && 0 <= r.correct < |r.answers|
      && r.answers[r.correct] == q.answers[q.correct]
      && forall k :: 0 <= k < r.correct ==> r.answers[k] != q.answers[q.correct]
    ensures !(0 <= q.correct < |q.answers|) ==> r.correct == -1
  {
    var indices := Shuffled(Range(|q.answers|), draws);
    ShuffledAnswersAreShuffle(q.answers, draws);
    ShuffledIsPermutation(q.answers, draws);
    var answers := Pick(q.answers, indices);
    var correct :=
      if 0 <= q.correct < |q.answers| then
        assert q.answers[q.correct] in multiset(q.answers);
        assert q.answers[q.correct] in answers;
        IndexOf(answers, q.answers[q.correct])
      else -1;
    ShuffledQuestion(q.id, q.text, answers, correct, q.correct)
  }

  /** With two answers of the same text, the correct index goes to the first
      of them, wherever the original correct one was moved: here the second
      answer is correct, the shuffle leaves the order alone, and the stored
      index is 0. */
  lemma DuplicateAnswerResolvesToFirst()
    ensures ShuffleAnswers(Question(1, "?", ["A", "A"], 1), [1]).correct == 0
  {
    var q := Question(1, "?", ["A", "A"], 1);
    var r := ShuffleAnswers(q, [1]);
    assert r.answers[0] == "A";
  }
}
