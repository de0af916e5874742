/** `random.shuffle`, with the randomness handed in by the caller.

    The generator's randomness is a sequence of draws: at each step one draw
    picks which of the remaining elements comes next (`random.shuffle` draws an
    index below the number of elements left). A missing or out-of-range draw
    picks the first remaining element, so every sequence of draws is accepted. `ShuffleReachesEveryPermutation`
    shows that this is exactly "some permutation": every reordering of the input
    comes out for some sequence of draws, and nothing else does. */
module Shuffling {

  function Shuffle<T>(s: seq<T>, draws: seq<nat>): (r: seq<T>)
    ensures |r| == |s|
    ensures multiset(r) == multiset(s)
    decreases |s|
  {
    if s == [] then []
    else
      var j := if draws != [] && draws[0] < |s| then draws[0] else 0;
      assert s == s[..j] + [s[j]] + s[j + 1..];
      [s[j]] + Shuffle(s[..j] + s[j + 1..], if draws == [] then [] else draws[1..])
  }

  /** The position of a value that occurs in `s`. */
  function IndexOf<T(==)>(s: seq<T>, x: T): (i: nat)
    requires x in s
    ensures i < |s| && s[i] == x
  {
    if s[0] == x then 0 else 1 + IndexOf(s[1..], x)
  }

  /** One step of the shuffle: a draw `j` below the length picks `s[j]`. */
  lemma ShuffleStep<T>(s: seq<T>, j: nat, d: seq<nat>)
    requires j < |s|
    ensures Shuffle(s, [j] + d) == [s[j]] + Shuffle(s[..j] + s[j + 1..], d)
  {
    assert ([j] + d)[1..] == d;
  }

  /** Without draws, the shuffle keeps the order. */
  lemma {:induction false} ShuffleWithoutDraws<T>(s: seq<T>)
    ensures Shuffle(s, []) == s
  {
    if s != [] {
      assert s[..0] + s[1..] == s[1..];
      ShuffleWithoutDraws(s[1..]);
    }
  }

  /** Removing the element at `j` removes one occurrence of it. */
  lemma RemoveAt<T>(s: seq<T>, j: nat)
    requires j < |s|
    ensures multiset(s[..j] + s[j + 1..]) == multiset(s) - multiset{s[j]}
  {
    assert s == s[..j] + [s[j]] + s[j + 1..];
  }

  /** The draws that make the shuffle produce `r`, a reordering of `s`. */
  function DrawsFor<T(==)>(s: seq<T>, r: seq<T>): seq<nat>
    requires multiset(r) == multiset(s)
    decreases |s|
  {
    if s == [] then []
    else
      assert r == [r[0]] + r[1..];
      assert r[0] in multiset(s);
      var j := IndexOf(s, r[0]);
      RemoveAt(s, j);
      [j] + DrawsFor(s[..j] + s[j + 1..], r[1..])
  }

  /** Taking the head of a permutation `r` of `s` out of both leaves a
      permutation. */
  lemma PermutationTail<T>(s: seq<T>, r: seq<T>)
    requires multiset(r) == multiset(s) && s != []
    ensures r[0] in s
    ensures var j := IndexOf(s, r[0]); multiset(r[1..]) == multiset(s[..j] + s[j + 1..])
  {
    assert r == [r[0]] + r[1..];
    assert r[0] in multiset(s);
    RemoveAt(s, IndexOf(s, r[0]));
  }

  /** `DrawsFor` unfolded once. */
  lemma DrawsForUnfold<T>(s: seq<T>, r: seq<T>)
    requires multiset(r) == multiset(s) && s != []
    requires r[0] in s
    requires var j := IndexOf(s, r[0]); multiset(r[1..]) == multiset(s[..j] + s[j + 1..])
    ensures var j := IndexOf(s, r[0]); DrawsFor(s, r) == [j] + DrawsFor(s[..j] + s[j + 1..], r[1..])
  {
  }

  /** Every permutation of `s` is the outcome of some draws. */
  lemma {:induction false} ShuffleReachesEveryPermutation<T>(s: seq<T>, r: seq<T>)
    requires multiset(r) == multiset(s)
    ensures Shuffle(s, DrawsFor(s, r)) == r
  {
    if s != [] {
      PermutationTail(s, r);
      var j := IndexOf(s, r[0]);
      var rest := s[..j] + s[j + 1..];
      DrawsForUnfold(s, r);
      ShuffleReachesEveryPermutation(rest, r[1..]);
      ShuffleStep(s, j, DrawsFor(rest, r[1..]));
      assert r == [r[0]] + r[1..];
    } else {
      assert |r| == |multiset(r)|;
    }
  }
}
