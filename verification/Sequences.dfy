/** Positions in sequences. */
module Sequences {

  /** The last position of x in s, or -1. */
  function LastIndex<T(==)>(s: seq<T>, x: T): (i: int)
    ensures -1 <= i < |s|
    ensures i >= 0 ==> s[i] == x
    ensures forall j | i < j < |s| :: s[j] != x
  {
    if s == [] then -1
    else if s[|s| - 1] == x then |s| - 1
    else LastIndex(s[..|s| - 1], x)
  }

  lemma LastIndexAppend<T>(s: seq<T>, x: T, last: T)
    ensures LastIndex(s + [last], x) == if x == last then |s| else LastIndex(s, x)
  {
    assert (s + [last])[..|s|] == s;
  }

  lemma LastIndexAt<T>(s: seq<T>, x: T, i: nat)
    requires i < |s| && s[i] == x && x !in s[i + 1..]
    ensures LastIndex(s, x) == i
  {
    hide LastIndex;
    var k := LastIndex(s, x);
  }
}
