/** Helpers on sequences. */
module Sequences {

  /** `s` with every element after its first occurrence dropped: the
      distinct elements of `s` in the order they first appear. */
  function Dedup(s: seq<string>): (r: seq<string>)
    ensures forall x :: x in r <==> x in s
    ensures forall i, j :: 0 <= i < j < |r| ==> r[i] != r[j]
    ensures |r| <= |s|
  {
    if s == [] then []
    else
      var d := Dedup(s[..|s| - 1]);
      assert forall x :: x in s <==> x in s[..|s| - 1] || x == s[|s| - 1] by {
        assert s == s[..|s| - 1] + [s[|s| - 1]];
      }
      if s[|s| - 1] in d then d else d + [s[|s| - 1]]
  }

  /** An index past `a` in `a + b` reads `b`. */
  lemma {:induction false} ConcatRight<T>(a: seq<T>, b: seq<T>, k: nat)
    requires |a| <= k < |a| + |b|
    ensures (a + b)[k] == b[k - |a|]
  {
  }

  /** An index inside `a` in `a + b` reads `a`. */
  lemma {:induction false} ConcatLeft<T>(a: seq<T>, b: seq<T>, k: nat)
    requires k < |a|
    ensures (a + b)[k] == a[k]
  {
  }

  /** Two appended pieces commute when one of them is empty. */
  lemma {:induction false} SwapEmpty<T>(a: seq<T>, x: seq<T>, y: seq<T>)
    requires x == [] || y == []
    ensures (a + x) + y == (a + y) + x
  {
    if x == [] {
      assert a + x == a && (a + y) + x == a + y;
    } else {
      assert a + y == a && (a + x) + y == a + x;
    }
  }
}
