/** The sparse response store: persons own contiguous ranges of the flat
    (item, response) arrays, CSR style. */
module Responses {

  /** Person `p` owns entries `pcni[p] .. pcni[p+1]` of `pi` (item index)
      and `px` (observed category). */
  datatype Responses = Responses(pcni: seq<int>, pi: seq<int>, px: seq<int>)
  {
    /** The number of persons `np`. */
    function Persons(): int
    {
      |pcni| - 1
    }

    /** Every person's range is a well-formed slice of the flat arrays. */
    ghost predicate Ranges()
    {
      |pcni| >= 1 && |pi| == |px|
      && (forall p :: 0 <= p < |pcni| ==> 0 <= pcni[p] <= |pi|)
      && (forall p :: 0 <= p < |pcni| - 1 ==> pcni[p] <= pcni[p + 1])
    }

    /** Well-formed ranges whose item indices lie in `0 .. nit`. */
    ghost predicate Valid(nit: int)
    {
      Ranges() && forall k :: 0 <= k < |pi| ==> 0 <= pi[k] < nit
    }

    /** How many responses person `p` gave. */
    function Answered(p: int): int
      requires 0 <= p < |pcni| - 1
    {
      pcni[p + 1] - pcni[p]
    }

    /** Responses given by the first `n` persons. */
    function NumResponses(n: int): int
      requires 0 <= n < |pcni|
    {
      if n == 0 then 0 else NumResponses(n - 1) + Answered(n - 1)
    }
  }

  /** A group label in `0 .. ng` for every person. */
  ghost predicate ValidGroups(pgroup: seq<int>, np: int, ng: int)
  {
    |pgroup| == np && forall p :: 0 <= p < np ==> 0 <= pgroup[p] < ng
  }

  /** Persons among the first `n` whose group is `g`. */
  function GroupCount(pgroup: seq<int>, n: int, g: int): int
    requires 0 <= n <= |pgroup|
  {
    if n == 0 then 0 else GroupCount(pgroup, n - 1, g) + (if pgroup[n - 1] == g then 1 else 0)
  }

  /** The response count telescopes to the span of the index array. */
  lemma {:induction false} NumResponsesSpan(r: Responses, n: int)
    requires 0 <= n < |r.pcni|
    ensures r.NumResponses(n) == r.pcni[n] - r.pcni[0]
    decreases n
  {
    if n > 0 {
      NumResponsesSpan(r, n - 1);
    }
  }
}
