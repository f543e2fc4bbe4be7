/** Sorting by a caller-supplied total preorder, used for the ordered outputs of the
    interval consolidation and of the contest standings. */
module Sorting {

  /** Any two values are comparable under `le`. */
  ghost predicate IsTotal<T(!new)>(le: (T, T) -> bool)
  {
    forall x, y :: le(x, y) || le(y, x)
  }

  /** `le` is total and transitive: a comparison a sort can rely on. */
  ghost predicate IsTotalPreorder<T(!new)>(le: (T, T) -> bool)
  {
    && IsTotal(le)
    && (forall x, y, z :: le(x, y) && le(y, z) ==> le(x, z))
  }

  predicate SortedBy<T>(s: seq<T>, le: (T, T) -> bool)
  {
    forall i, j :: 0 <= i < j < |s| ==> le(s[i], s[j])
  }

  /** Every element of the multiset `m` follows `x`. */
  ghost predicate Bounds<T>(x: T, m: multiset<T>, le: (T, T) -> bool)
  {
    forall y :: y in m ==> le(x, y)
  }

  /** `x` put into the sorted sequence `s` in front of the first element it does not follow. */
  function Insert<T(!new)>(x: T, s: seq<T>, le: (T, T) -> bool): (r: seq<T>)
    requires IsTotalPreorder(le) && SortedBy(s, le)
    ensures SortedBy(r, le)
    ensures multiset(r) == multiset(s) + multiset{x}
  {
    if |s| == 0 then [x]
    else if le(x, s[0]) then
      assert forall j :: 0 <= j < |s| ==> le(x, s[j]) by {
        forall j | 0 <= j < |s| ensures le(x, s[j]) {
          if j > 0 {
            assert le(s[0], s[j]);
          }
        }
      }
      [x] + s
    else
      var t := Insert(x, s[1..], le);
      assert s == [s[0]] + s[1..];
      assert Bounds(s[0], multiset(t), le) by {
        forall y | y in multiset(t) ensures le(s[0], y) {
          if y != x {
            assert y in s[1..];
          }
        }
      }
      assert forall k :: 0 <= k < |t| ==> t[k] in multiset(t);
      [s[0]] + t
  }

  /** Insertion sort: the result is ordered by `le` and is a permutation of `s`. */
  method InsertionSort<T(!new)>(s: seq<T>, le: (T, T) -> bool) returns (r: seq<T>)
    requires IsTotalPreorder(le)
    ensures SortedBy(r, le)
    ensures multiset(r) == multiset(s)
  {
    r := [];
    for i := 0 to |s|
      invariant SortedBy(r, le)
      invariant multiset(r) == multiset(s[..i])
    {
      assert s[..i + 1] == s[..i] + [s[i]];
      r := Insert(s[i], r, le);
    }
    assert s[..|s|] == s;
  }
}
