/**
  The decision half of `faq_response`: given the cosine similarity of the query to each
  stored question (computed outside this model) and an index of a highest score, answer
  with that question's answer unless the best score falls below the threshold.
 */
module FaqMatcher {
  import opened Wrappers
  import opened FaqStore

  /**
    The default `threshold` of `faq_response`: the literal 0.35 read as an IEEE-754 double,
    which is this exact value, a little below the decimal 0.35.
   */
  const DefaultThreshold: real := 0.34999999999999997779553950749686919152736663818359375

  /** The highest score: it bounds every score and is one of them. */
  function MaxScore(sims: seq<real>): (m: real)
    requires |sims| > 0
    ensures forall i :: 0 <= i < |sims| ==> sims[i] <= m
    ensures exists i :: 0 <= i < |sims| && sims[i] == m
  {
    if |sims| == 1 then sims[0]
    else
      var rest := MaxScore(sims[1..]);
      assert forall i :: 1 <= i < |sims| ==> sims[i] == sims[1..][i - 1];
      if sims[0] >= rest then sims[0] else rest
  }

  /** `i` is a position of a highest score. */
  predicate IsArgMax(sims: seq<real>, i: int)
  {
    0 <= i < |sims| && forall j :: 0 <= j < |sims| ==> sims[j] <= sims[i]
  }

  /** Every non-empty score row has a highest position, and its score is the maximum. */
  lemma ArgMaxExists(sims: seq<real>)
    requires |sims| > 0
    ensures exists i :: IsArgMax(sims, i)
    ensures forall i :: IsArgMax(sims, i) ==> sims[i] == MaxScore(sims)
  {
    var m := MaxScore(sims);
    var i :| 0 <= i < |sims| && sims[i] == m;
    assert IsArgMax(sims, i);
  }

  /**
    `faq_response` after the similarity computation: no stored question gives no answer;
    otherwise `idx` (what `sims.argsort()[0][-1]` yields, which for tied scores may be any
    of them) is a highest position, and its answer is returned unless its score is below
    `threshold`.
   */
  function Respond(corpus: seq<FaqPair>, sims: seq<real>, idx: nat, threshold: real): (r: Option<string>)
    requires |sims| == |corpus|
    requires corpus != [] ==> IsArgMax(sims, idx)
    ensures corpus == [] ==> r == None
    ensures corpus != [] ==> (r == None <==> MaxScore(sims) < threshold)
    ensures r.Some? ==> idx < |corpus| && r.value == corpus[idx].answer
    ensures r.Some? ==> sims[idx] == MaxScore(sims) && threshold <= sims[idx]
  {
    var questions := Questions(corpus);
    var answers := Answers(corpus);
    if questions == [] then None
    else
      ArgMaxExists(sims);
      var score := sims[idx];
      if score < threshold then None else Some(answers[idx])
  }

  /**
    Which of several tied highest positions is chosen never decides whether there is an
    answer, only which of the tied answers it is.
   */
  lemma TieBreakOnlyPicksAmongTies(corpus: seq<FaqPair>, sims: seq<real>, i: nat, j: nat, threshold: real)
    requires |sims| == |corpus| && corpus != []
    requires IsArgMax(sims, i) && IsArgMax(sims, j)
    ensures Respond(corpus, sims, i, threshold).None? == Respond(corpus, sims, j, threshold).None?
    ensures sims[i] == sims[j]
  {
  }

  /** A question that scores strictly higher than all others is the one answered, if it clears the threshold. */
  lemma UniqueBestIsAnswered(corpus: seq<FaqPair>, sims: seq<real>, k: nat, idx: nat, threshold: real)
    requires |sims| == |corpus| && k < |corpus|
    requires forall j :: 0 <= j < |sims| && j != k ==> sims[j] < sims[k]
    requires IsArgMax(sims, idx)
    ensures idx == k
    ensures Respond(corpus, sims, idx, threshold) ==
            if sims[k] < threshold then None else Some(corpus[k].answer)
  {
  }

  /**
    The threshold test is strict: a best score equal to the threshold, the double nearest
    0.35, is an answer.
   */
  lemma ScoreAtThresholdMatches(corpus: seq<FaqPair>, sims: seq<real>, idx: nat)
    requires |sims| == |corpus| && corpus != [] && IsArgMax(sims, idx)
    requires sims[idx] == DefaultThreshold
    ensures Respond(corpus, sims, idx, DefaultThreshold) == Some(corpus[idx].answer)
  {
  }

  /** The double threshold lies below the decimal 0.35, so a score of exactly 0.35 is answered too. */
  lemma DecimalThresholdIsAnswered(corpus: seq<FaqPair>, sims: seq<real>, idx: nat)
    requires |sims| == |corpus| && corpus != [] && IsArgMax(sims, idx)
    requires sims[idx] == 0.35
    ensures DefaultThreshold < 0.35
    ensures Respond(corpus, sims, idx, DefaultThreshold) == Some(corpus[idx].answer)
  {
  }
}
