/**
 * Recovering four hidden values from three answers of a server that returns the values of
 * the variables it is asked about in an unknown order: the values of the second and third
 * variables, of the second and fourth, and of the first, third and fourth.
 */
module Deduction {
  import opened Wrappers
  import opened Seqs

  // ---------------------------------------------------------------------------
  // Sequence operations of the deduction

  /** The values of `a` that also occur in `b`, each once, in the order they first occur in `a`. */
  function Intersect(a: seq<string>, b: seq<string>): (r: seq<string>)
    ensures Distinct(r)
    ensures forall x :: x in r <==> x in a && x in b
  {
    Dedup(Common(a, b))
  }

  function Common(a: seq<string>, b: seq<string>): (r: seq<string>)
    ensures forall x :: x in r <==> x in a && x in b
  {
    if |a| == 0 then []
    else
      var init := Common(a[..|a| - 1], b);
      if a[|a| - 1] in b then init + [a[|a| - 1]] else init
  }

  /** Position of the first element of `s` other than `x`, or `|s|` when there is none. */
  function FirstOtherIndex(s: seq<string>, x: string): (i: nat)
    ensures i <= |s|
    ensures i < |s| ==> s[i] != x
    ensures forall j :: 0 <= j < i ==> s[j] == x
  {
    if |s| == 0 then 0
    else if s[0] != x then 0
    else 1 + FirstOtherIndex(s[1..], x)
  }

  /** The first element of `s` other than `x`, or `otherwise` when every element is `x`. */
  function FirstOther(s: seq<string>, x: string, otherwise: string): (r: string)
    ensures (forall j :: 0 <= j < |s| ==> s[j] == x) ==> r == otherwise
    ensures (exists j :: 0 <= j < |s| && s[j] != x) ==>
      exists i :: 0 <= i < |s| && r == s[i] && r != x && forall j :: 0 <= j < i ==> s[j] == x
  {
    var i := FirstOtherIndex(s, x);
    if i < |s| then s[i] else otherwise
  }

  /** The first of `d` that occurs more than once in `s`. */
  function FirstRepeatedIn(d: seq<string>, s: seq<string>): (r: Option<string>)
    ensures r.None? <==> forall j :: 0 <= j < |d| ==> Count(s, d[j]) <= 1
    ensures r.Some? ==> exists i :: (0 <= i < |d| && d[i] == r.value && Count(s, r.value) > 1
      && forall j :: 0 <= j < i ==> Count(s, d[j]) <= 1)
  {
    if |d| == 0 then None
    else if Count(s, d[0]) > 1 then Some(d[0])
    else
      var r := FirstRepeatedIn(d[1..], s);
      assert forall j :: 1 <= j < |d| ==> d[j] == d[1..][j - 1];
      r
  }

  /** The value whose group is the first, in order of first occurrence, with more than one member. */
  function FirstRepeated(s: seq<string>): (r: Option<string>)
    ensures r.None? <==> forall x :: x in s ==> Count(s, x) <= 1
    ensures r.Some? ==> r.value in s && Count(s, r.value) > 1
    ensures r.Some? ==> forall w :: w in s && FirstIndex(s, w) < FirstIndex(s, r.value) ==> Count(s, w) <= 1
  {
    var d := Dedup(s);
    var r := FirstRepeatedIn(d, s);
    if r.Some? then
      FirstInGroupOrder(s, r.value, (w: string) => Count(s, w) <= 1);
      r
    else
      r
  }

  /** In the group order of `s` (first occurrences), a value found by scanning for the first
      that fails `ok` comes after every value with an earlier first occurrence, all of which pass. */
  lemma FirstInGroupOrder(s: seq<string>, v: string, ok: string -> bool)
    requires exists i :: 0 <= i < |Dedup(s)| && Dedup(s)[i] == v && forall j :: 0 <= j < i ==> ok(Dedup(s)[j])
    ensures v in s
    ensures forall w :: w in s && FirstIndex(s, w) < FirstIndex(s, v) ==> ok(w)
  {
    var d := Dedup(s);
    var i :| 0 <= i < |d| && d[i] == v && forall j :: 0 <= j < i ==> ok(d[j]);
    assert d[i] in d;
    DedupFirstOccurrenceOrder(s);
    forall w | w in s && FirstIndex(s, w) < FirstIndex(s, v) ensures ok(w) {
      assert w in d;
      var j :| 0 <= j < |d| && d[j] == w;
    }
  }

  /** How many times each value occurs. */
  function Counts(s: seq<string>): (m: map<string, int>)
    ensures forall x :: x in m <==> x in s
    ensures forall x :: x in m ==> m[x] == Count(s, x)
  {
    map x | x in s :: Count(s, x)
  }

  /** The first of `d` whose count in `m` is positive. */
  function FirstPositiveIn(d: seq<string>, m: map<string, int>): (r: Option<string>)
    requires forall j :: 0 <= j < |d| ==> d[j] in m
    ensures r.None? <==> forall j :: 0 <= j < |d| ==> m[d[j]] <= 0
    ensures r.Some? ==> exists i :: (0 <= i < |d| && d[i] == r.value && m[r.value] > 0
      && forall j :: 0 <= j < i ==> m[d[j]] <= 0)
  {
    if |d| == 0 then None
    else if m[d[0]] > 0 then Some(d[0])
    else
      var r := FirstPositiveIn(d[1..], m);
      assert forall j :: 1 <= j < |d| ==> d[j] == d[1..][j - 1];
      r
  }

  /** Occurrences of `v` in `s` left after taking away one `third` and one `fourth`. */
  function Remaining(s: seq<string>, third: string, fourth: string, v: string): int
  {
    Count(s, v) - (if v == third then 1 else 0) - (if v == fourth then 1 else 0)
  }

  // ---------------------------------------------------------------------------
  // The deduction

  datatype DeductionError =
    | NoRepeatedValue   // no value occurs twice among the first, third and fourth
    | ValueNotCounted   // the third or fourth value is not an answer about the first, third and fourth
    | NoValueLeft       // nothing is left for the first value

  /** The count table with one `third` and one `fourth` taken away. */
  function TakeAway(counts: map<string, int>, third: string, fourth: string): map<string, int>
    requires third in counts && fourth in counts
  {
    var afterThird := counts[third := counts[third] - 1];
    afterThird[fourth := afterThird[fourth] - 1]
  }

  lemma TakeAwayIsRemaining(s: seq<string>, third: string, fourth: string)
    requires third in s && fourth in s
    ensures forall v :: v in TakeAway(Counts(s), third, fourth) <==> v in s
    ensures forall v :: v in s ==> TakeAway(Counts(s), third, fourth)[v] == Remaining(s, third, fourth, v)
  {
  }

  /** Reads the first value from the counts of `firstThirdFourth`, once the third and the
      fourth have been taken away. */
  function FirstFromCounts(firstThirdFourth: seq<string>, third: string, fourth: string): (r: Result<string, DeductionError>)
    ensures r.Failure? && (third !in firstThirdFourth || fourth !in firstThirdFourth) ==> r.error == ValueNotCounted
    ensures r.Failure? && third in firstThirdFourth && fourth in firstThirdFourth ==> r.error == NoValueLeft
    ensures third in firstThirdFourth && fourth in firstThirdFourth ==>
      (r.Failure? <==> forall v :: v in firstThirdFourth ==> Remaining(firstThirdFourth, third, fourth, v) <= 0)
    ensures r.Success? ==>
      && third in firstThirdFourth && fourth in firstThirdFourth
      && r.value in firstThirdFourth
      && Remaining(firstThirdFourth, third, fourth, r.value) > 0
      && forall w :: w in firstThirdFourth && FirstIndex(firstThirdFourth, w) < FirstIndex(firstThirdFourth, r.value) ==>
           Remaining(firstThirdFourth, third, fourth, w) <= 0
  {
    var counts := Counts(firstThirdFourth);
    if third !in counts then Failure(ValueNotCounted)
    else if fourth !in counts then Failure(ValueNotCounted)
    else
      var left := TakeAway(counts, third, fourth);
      TakeAwayIsRemaining(firstThirdFourth, third, fourth);
      var order := Dedup(firstThirdFourth);
      match FirstPositiveIn(order, left)
      case None =>
        assert forall v :: v in firstThirdFourth ==> v in order;
        Failure(NoValueLeft)
      case Some(first) =>
        FirstInGroupOrder(firstThirdFourth, first, (w: string) => Remaining(firstThirdFourth, third, fourth, w) <= 0);
        Success(first)
  }

  /** The four values, in the order first, second, third, fourth. When exactly one value is
      common to the first two answers it is the second value; otherwise the third and the
      fourth are taken to be equal, the value repeated in the last answer. */
  function GetVariablesValues(secondThirdValues: seq<string>, secondFourthValues: seq<string>, firstThirdFourth: seq<string>):
    (r: Result<seq<string>, DeductionError>)
    ensures r.Success? ==> |r.value| == 4
    ensures |Intersect(secondThirdValues, secondFourthValues)| == 1 ==>
      var second := Intersect(secondThirdValues, secondFourthValues)[0];
      var third := FirstOther(secondThirdValues, second, second);
      var fourth := FirstOther(secondFourthValues, second, second);
      && second in secondThirdValues && second in secondFourthValues
      && (r.Success? ==> r.value[1] == second && r.value[2] == third && r.value[3] == fourth)
      && (r.Success? ==> r.value[0] in firstThirdFourth && Remaining(firstThirdFourth, third, fourth, r.value[0]) > 0)
      && (r.Success? ==> forall w :: w in firstThirdFourth && FirstIndex(firstThirdFourth, w) < FirstIndex(firstThirdFourth, r.value[0]) ==>
            Remaining(firstThirdFourth, third, fourth, w) <= 0)
      && (r.Failure? <==>
           third !in firstThirdFourth || fourth !in firstThirdFourth
           || forall v :: v in firstThirdFourth ==> Remaining(firstThirdFourth, third, fourth, v) <= 0)
      && (r.Failure? ==> r.error == (if third !in firstThirdFourth || fourth !in firstThirdFourth then ValueNotCounted else NoValueLeft))
    ensures |Intersect(secondThirdValues, secondFourthValues)| != 1 ==>
      && (r.Failure? <==> forall x :: x in firstThirdFourth ==> Count(firstThirdFourth, x) <= 1)
      && (r.Failure? ==> r.error == NoRepeatedValue)
      && (r.Success? ==>
           var third := r.value[2];
           && r.value[3] == third
           && FirstRepeated(firstThirdFourth) == Some(third)
           && Count(firstThirdFourth, third) > 1
           && r.value[0] == FirstOther(firstThirdFourth, third, third)
           && r.value[1] == FirstOther(secondThirdValues, third, third))
  {
    var common := Intersect(secondThirdValues, secondFourthValues);
    if |common| != 1 then
      match FirstRepeated(firstThirdFourth)
      case None => Failure(NoRepeatedValue)
      case Some(third) =>
        var fourth := third;
        var first := FirstOther(firstThirdFourth, third, third);
        var second := FirstOther(secondThirdValues, third, third);
        Success([first, second, third, fourth])
    else
      var second := common[0];
      assert second in common;
      var third := FirstOther(secondThirdValues, second, second);
      var fourth := FirstOther(secondFourthValues, second, second);
      match FirstFromCounts(firstThirdFourth, third, fourth)
      case Failure(e) => Failure(e)
      case Success(first) => Success([first, second, third, fourth])
  }
}
