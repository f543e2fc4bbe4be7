/** Sequence utilities shared by the models: counting, first occurrences and
    duplicate removal that keeps the first occurrence of every value. */
module Seqs {

  /** No value occurs twice in `s`. */
  predicate Distinct<T(==)>(s: seq<T>)
  {
    forall i, j :: 0 <= i < j < |s| ==> s[i] != s[j]
  }

  /** Number of occurrences of `x` in `s`. */
  function Count<T(==)>(s: seq<T>, x: T): (n: nat)
    ensures n <= |s|
    ensures n == 0 <==> x !in s
  {
    if |s| == 0 then 0
    else Count(s[..|s| - 1], x) + (if s[|s| - 1] == x then 1 else 0)
  }

  lemma {:induction false} CountAppend<T>(s: seq<T>, t: seq<T>, x: T)
    ensures Count(s + t, x) == Count(s, x) + Count(t, x)
    decreases |t|
  {
    if |t| == 0 {
      assert s + t == s;
    } else {
      assert (s + t)[..|s + t| - 1] == s + t[..|t| - 1];
      CountAppend(s, t[..|t| - 1], x);
    }
  }

  /** Index of the first occurrence of `x` in `s`. */
  function FirstIndex<T(==)>(s: seq<T>, x: T): (i: nat)
    requires x in s
    ensures i < |s| && s[i] == x
    ensures forall j :: 0 <= j < i ==> s[j] != x
  {
    if s[0] == x then 0 else 1 + FirstIndex(s[1..], x)
  }

  /** `s` with every repeated value dropped, keeping each value's first occurrence
      (what a group-by followed by "take the first of each group" yields). */
  function Dedup<T(==, !new)>(s: seq<T>): (r: seq<T>)
    ensures |r| <= |s|
    ensures forall x :: x in r <==> x in s
    ensures Distinct(r)
  {
    if |s| == 0 then []
    else
      var d := Dedup(s[..|s| - 1]);
      if s[|s| - 1] in s[..|s| - 1] then d else d + [s[|s| - 1]]
  }

  lemma FirstIndexOfPrefix<T>(s: seq<T>, k: nat, x: T)
    requires k <= |s| && x in s[..k]
    ensures FirstIndex(s, x) == FirstIndex(s[..k], x)
  {
    var i := FirstIndex(s[..k], x);
    assert s[i] == x;
    var j := FirstIndex(s, x);
    assert j <= i;
    assert s[..k][j] == x;
  }

  /** Dedup lists the values in the order of their first occurrence in `s`. */
  lemma {:induction false} DedupFirstOccurrenceOrder<T(!new)>(s: seq<T>)
    ensures forall i, j :: 0 <= i < j < |Dedup(s)| ==> FirstIndex(s, Dedup(s)[i]) < FirstIndex(s, Dedup(s)[j])
  {
    if |s| > 0 {
      var p := s[..|s| - 1];
      var d := Dedup(p);
      DedupFirstOccurrenceOrder(p);
      forall x | x in d ensures FirstIndex(s, x) == FirstIndex(p, x) {
        assert s[..|s| - 1] == p;
        FirstIndexOfPrefix(s, |s| - 1, x);
      }
    }
  }

  /** The first element of `s` is the first element of Dedup(s). */
  lemma {:induction false} DedupHead<T(!new)>(s: seq<T>)
    requires |s| > 0
    ensures |Dedup(s)| > 0 && Dedup(s)[0] == s[0]
  {
    if |s| > 1 {
      DedupHead(s[..|s| - 1]);
      assert s[..|s| - 1][0] == s[0];
    }
  }

  /** Three distinct elements are kept as they are. */
  lemma DedupOfDistinctThree<T(!new)>(x: T, y: T, z: T)
    requires x != y && y != z && x != z
    ensures Dedup([x, y, z]) == [x, y, z]
  {
    var s := [x, y, z];
    assert s[..2] == [x, y] && s[..2][..1] == [x] && [x][..0] == [];
    assert Dedup([x]) == [x];
    assert Dedup([x, y]) == [x, y];
  }

  lemma ThreeElements<T>(s: seq<T>, x: T, y: T, z: T)
    requires |s| == 3 && s[0] == x && s[1] == y && s[2] == z
    ensures s == [x, y, z]
  {
  }

  /** The positions of `s` whose element satisfies `f`. */
  ghost function IndicesWhere<T>(s: seq<T>, f: T -> bool): set<int>
  {
    set i | 0 <= i < |s| && f(s[i])
  }

  /** How many elements of `s` satisfy `f`: the number of positions where `f` holds. */
  function CountWhere<T>(s: seq<T>, f: T -> bool): (n: nat)
    ensures n == |IndicesWhere(s, f)|
    ensures n <= |s|
  {
    if |s| == 0 then 0
    else
      var init := s[..|s| - 1];
      var n := CountWhere(init, f);
      assert IndicesWhere(s, f) == IndicesWhere(init, f) + (if f(s[|s| - 1]) then {|s| - 1} else {});
      n + (if f(s[|s| - 1]) then 1 else 0)
  }
}
