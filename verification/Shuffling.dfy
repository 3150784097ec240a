/** The final permutation of the assembled password. The C# generator delegates
    to the platform's `RandomNumberGenerator.Shuffle`, a forward
    Fisher-Yates shuffle; here its random choices are an explicit input and
    the property kept is that the result is a permutation of the input. */
module Shuffling {
  import opened Wrappers

  /** Exchanges the elements at positions `i` and `j`. */
  function Swap<T>(s: seq<T>, i: nat, j: nat): (r: seq<T>)
    requires i < |s| && j < |s|
    ensures |r| == |s|
    ensures multiset(r) == multiset(s)
  {
    s[i := s[j]][j := s[i]]
  }

  /** Fisher-Yates from position `i` on: step `i` exchanges position `i`
      with a position in `i..|s|-1` chosen by the next choice value. Fails
      only when the choices run out before the last step. */
  function ShuffleFrom<T>(s: seq<T>, i: nat, choices: seq<nat>): (r: Option<seq<T>>)
    requires i <= |s|
    ensures r.Some? ==> multiset(r.value) == multiset(s) && |r.value| == |s|
    ensures r.Some? <==> i + 1 >= |s| || |choices| >= |s| - 1 - i
    decreases |s| - i
  {
    if i + 1 >= |s| then Some(s)
    else if |choices| == 0 then None
    else
      var j := i + choices[0] % (|s| - i);
      ShuffleFrom(Swap(s, i, j), i + 1, choices[1..])
  }

  /** Shuffles the whole sequence. */
  function Shuffle<T>(s: seq<T>, choices: seq<nat>): (r: Option<seq<T>>)
    ensures r.Some? ==> multiset(r.value) == multiset(s) && |r.value| == |s|
    ensures r.Some? <==> |s| <= 1 || |choices| >= |s| - 1
  {
    ShuffleFrom(s, 0, choices)
  }

  /** A permutation keeps exactly the same elements. */
  lemma PermutationKeepsMembers<T>(s: seq<T>, r: seq<T>)
    requires multiset(r) == multiset(s)
    ensures forall x :: x in r <==> x in s
  {
    forall x ensures x in r <==> x in s {
      assert x in r <==> x in multiset(r);
      assert x in s <==> x in multiset(s);
    }
  }
}
