/**
 * Contest standings: submissions with a verdict, a per-participant count of accepted
 * submissions and a time penalty, and the winners, who have the most accepted submissions
 * and, among those, the smallest penalty.
 */
module Standings {
  import opened Wrappers
  import opened Seqs
  import opened Text
  import Sorting

  // ---------------------------------------------------------------------------
  // Submissions

  datatype Verdict = OK | CE | WA | TL | RE

  function VerdictName(v: Verdict): string
  {
    match v
    case OK => "OK"
    case CE => "CE"
    case WA => "WA"
    case TL => "TL"
    case RE => "RE"
  }

  lemma UpperVerdictNames()
    ensures forall v :: ToUpperAscii(VerdictName(v)) == VerdictName(v)
  {
    forall v ensures ToUpperAscii(VerdictName(v)) == VerdictName(v) {
      var n := VerdictName(v);
      assert forall i :: 0 <= i < |n| ==> 'A' <= n[i] <= 'Z';
    }
  }

  /** Case-insensitive parsing of a verdict name, with the white space around it ignored. */
  function ParseVerdict(s: string): (r: Option<Verdict>)
    ensures forall v :: r == Some(v) <==> EqualsIgnoreCase(Trim(s), VerdictName(v))
  {
    VerdictNamed(Trim(s))
  }

  /** The verdict whose name equals `name` ignoring case, if any. */
  function VerdictNamed(name: string): (r: Option<Verdict>)
    ensures forall v :: r == Some(v) <==> EqualsIgnoreCase(name, VerdictName(v))
  {
    var up := ToUpperAscii(name);
    UpperVerdictNames();
    if up == "OK" then Some(OK)
    else if up == "CE" then Some(CE)
    else if up == "WA" then Some(WA)
    else if up == "TL" then Some(TL)
    else if up == "RE" then Some(RE)
    else None
  }

  /** White space around a verdict name does not change the verdict it names. */
  lemma ParseVerdictPadded(v: Verdict, pre: string, post: string)
    requires AllWhiteSpace(pre) && AllWhiteSpace(post)
    ensures ParseVerdict(pre + VerdictName(v) + post) == Some(v)
  {
    UpperVerdictNames();
    TrimPadded(pre, VerdictName(v), post);
  }

  datatype Submission = Submission(timestamp: int, problem: char, verdict: Verdict)

  datatype SubmissionError = MalformedTimestamp | NoProblemLetter | UnknownVerdict

  predicate IsProblemLetter(c: char)
  {
    'A' <= c <= 'Z'
  }

  /** Position of the first capital Latin letter of `s`, or `|s|` when there is none. */
  function FirstLetterIndex(s: string): (i: nat)
    ensures i <= |s|
    ensures i < |s| ==> IsProblemLetter(s[i])
    ensures forall j :: 0 <= j < i ==> !IsProblemLetter(s[j])
  {
    if |s| == 0 then 0
    else if IsProblemLetter(s[0]) then 0
    else 1 + FirstLetterIndex(s[1..])
  }

  /** A submission from its three attribute texts: the timestamp as a 32-bit integer, the
      problem as the first capital letter of its text, the verdict by case-insensitive name.
      The first field that does not parse gives the error. */
  function FromFields(timestamp: string, problem: string, verdict: string): (r: Result<Submission, SubmissionError>)
    ensures ParseInt32(timestamp).None? ==> r == Failure(MalformedTimestamp)
    ensures ParseInt32(timestamp).Some? && (forall i :: 0 <= i < |problem| ==> !IsProblemLetter(problem[i])) ==>
      r == Failure(NoProblemLetter)
    ensures r.Success? <==>
      && ParseInt32(timestamp).Some?
      && (exists i :: 0 <= i < |problem| && IsProblemLetter(problem[i]))
      && (exists v :: EqualsIgnoreCase(Trim(verdict), VerdictName(v)))
    ensures r.Success? ==>
      && Some(r.value.timestamp) == ParseInt32(timestamp)
      && EqualsIgnoreCase(Trim(verdict), VerdictName(r.value.verdict))
      && (exists i :: 0 <= i < |problem| && problem[i] == r.value.problem && IsProblemLetter(problem[i])
           && forall j :: 0 <= j < i ==> !IsProblemLetter(problem[j]))
  {
    match ParseInt32(timestamp)
    case None => Failure(MalformedTimestamp)
    case Some(t) =>
      var i := FirstLetterIndex(problem);
      if i == |problem| then Failure(NoProblemLetter)
      else
        match ParseVerdict(verdict)
        case None => Failure(UnknownVerdict)
        case Some(v) => Success(Submission(t, problem[i], v))
  }

  // ---------------------------------------------------------------------------
  // One participant

  datatype Participant = Participant(login: string, logs: seq<Submission>)

  /** Some submission for `problem` was accepted. */
  predicate IsSolved(logs: seq<Submission>, problem: char)
  {
    exists i :: 0 <= i < |logs| && logs[i].problem == problem && logs[i].verdict == OK
  }

  /** The earliest timestamp of an accepted submission for `problem`, if there is one. */
  function FirstOk(logs: seq<Submission>, problem: char): (r: Option<int>)
    ensures r.Some? <==> IsSolved(logs, problem)
    ensures r.Some? ==>
      && (exists i :: 0 <= i < |logs| && logs[i].problem == problem && logs[i].verdict == OK && logs[i].timestamp == r.value)
      && (forall i :: 0 <= i < |logs| && logs[i].problem == problem && logs[i].verdict == OK ==> r.value <= logs[i].timestamp)
  {
    if |logs| == 0 then None
    else
      var init := FirstOk(logs[..|logs| - 1], problem);
      var last := logs[|logs| - 1];
      if last.problem != problem || last.verdict != OK then init
      else if init.Some? && init.value <= last.timestamp then init
      else Some(last.timestamp)
  }

  /** Rejected attempts at `problem` no later than `time`; compile errors are not counted. */
  ghost function PenalizedAttempts(logs: seq<Submission>, problem: char, time: int): set<int>
  {
    set i | 0 <= i < |logs| && logs[i].problem == problem && logs[i].verdict in {WA, TL, RE} && logs[i].timestamp <= time
  }

  /** The fine for a solved problem: its earliest accepted timestamp plus 20 for every wrong
      answer, time limit or runtime error submitted no later than that. */
  function ProblemFine(logs: seq<Submission>, problem: char): (fine: int)
    requires IsSolved(logs, problem)
    ensures fine == FirstOk(logs, problem).value + 20 * |PenalizedAttempts(logs, problem, FirstOk(logs, problem).value)|
  {
    var firstOkTimestamp := FirstOk(logs, problem).value;
    var errorsCount := CountWhere(logs, (s: Submission) =>
      s.problem == problem && s.verdict != CE && s.timestamp <= firstOkTimestamp && s.verdict != OK);
    assert IndicesWhere(logs, (s: Submission) =>
      s.problem == problem && s.verdict != CE && s.timestamp <= firstOkTimestamp && s.verdict != OK)
      == PenalizedAttempts(logs, problem, firstOkTimestamp);
    firstOkTimestamp + errorsCount * 20
  }

  /** The problems of the submissions, in order. */
  function Problems(logs: seq<Submission>): (r: seq<char>)
    ensures |r| == |logs| && forall i :: 0 <= i < |logs| ==> r[i] == logs[i].problem
  {
    if |logs| == 0 then [] else Problems(logs[..|logs| - 1]) + [logs[|logs| - 1].problem]
  }

  /** The submissions for solved problems. */
  function OfSolved(logs: seq<Submission>, all: seq<Submission>): (r: seq<Submission>)
    ensures forall x :: x in r <==> x in logs && IsSolved(all, x.problem)
  {
    if |logs| == 0 then []
    else
      var init := OfSolved(logs[..|logs| - 1], all);
      var last := logs[|logs| - 1];
      if IsSolved(all, last.problem) then init + [last] else init
  }

  /** The solved problems, each once, in the order their groups are formed. */
  function SolvedProblems(logs: seq<Submission>): (r: seq<char>)
    ensures Distinct(r)
    ensures forall c :: c in r <==> IsSolved(logs, c)
  {
    var r := Dedup(Problems(OfSolved(logs, logs)));
    assert forall c :: IsSolved(logs, c) ==> c in Problems(OfSolved(logs, logs)) by {
      forall c | IsSolved(logs, c) ensures c in Problems(OfSolved(logs, logs)) {
        var i :| 0 <= i < |logs| && logs[i].problem == c && logs[i].verdict == OK;
        var s := OfSolved(logs, logs);
        assert logs[i] in s;
        var k := FirstIndex(s, logs[i]);
        assert Problems(s)[k] == c;
      }
    }
    r
  }

  /** What a problem adds to the total fine: its fine when it is solved, nothing otherwise. */
  function FineIfSolved(logs: seq<Submission>, problem: char): int
  {
    if FirstOk(logs, problem).Some? then ProblemFine(logs, problem) else 0
  }

  /** The sum of the fines of the given problems. */
  function SumFines(logs: seq<Submission>, problems: seq<char>): int
  {
    if |problems| == 0 then 0
    else SumFines(logs, problems[..|problems| - 1]) + FineIfSolved(logs, problems[|problems| - 1])
  }

  /** The total fine: the sum over the solved problems of their fines. */
  function ComputeFine(logs: seq<Submission>): (fine: int)
    ensures (forall i :: 0 <= i < |logs| ==> logs[i].verdict != OK) ==> fine == 0
  {
    var problems := SolvedProblems(logs);
    assert |problems| > 0 ==> problems[0] in problems;
    SumFines(logs, problems)
  }

  /** The sum does not depend on the order of the problems: the fine is the same for any
      listing of the solved problems without repeats. */
  lemma {:induction false} ComputeFineAnyOrder(logs: seq<Submission>, problems: seq<char>)
    requires Distinct(problems)
    requires forall c :: c in problems <==> IsSolved(logs, c)
    ensures ComputeFine(logs) == SumFines(logs, problems)
  {
    SumFinesPermutation(logs, SolvedProblems(logs), problems);
  }

  lemma {:induction false} SumFinesPermutation(logs: seq<Submission>, ps: seq<char>, qs: seq<char>)
    requires Distinct(ps) && Distinct(qs)
    requires forall c :: c in ps <==> c in qs
    ensures SumFines(logs, ps) == SumFines(logs, qs)
    decreases |ps|
  {
    if |ps| == 0 {
      assert forall i :: 0 <= i < |qs| ==> qs[i] in qs;
    } else {
      var x := ps[|ps| - 1];
      var init := ps[..|ps| - 1];
      assert x in qs;
      var k := FirstIndex(qs, x);
      var rest := qs[..k] + qs[k + 1..];
      assert qs == qs[..k] + [x] + qs[k + 1..];
      forall c ensures c in init <==> c in rest {
        if c in init {
          var a :| 0 <= a < |init| && init[a] == c;
          assert ps[a] == c && c != x;
          assert c in qs;
          var b :| 0 <= b < |qs| && qs[b] == c;
          assert b != k;
          if b < k {
            assert qs[..k][b] == c;
          } else {
            assert qs[k + 1..][b - k - 1] == c;
          }
        }
        if c in rest {
          assert c in qs && c != x by {
            if c in qs[..k] {
              var a :| 0 <= a < k && qs[a] == c;
            } else {
              var a :| k + 1 <= a < |qs| && qs[a] == c;
            }
          }
        }
      }
      assert Distinct(rest) by {
        forall i, j | 0 <= i < j < |rest| ensures rest[i] != rest[j] {
          var i' := if i < k then i else i + 1;
          var j' := if j < k then j else j + 1;
          assert rest[i] == qs[i'] && rest[j] == qs[j'];
        }
      }
      SumFinesPermutation(logs, init, rest);
      SumFinesRemove(logs, qs, k);
    }
  }

  /** Taking one problem out of a listing takes its fine out of the sum. */
  lemma {:induction false} SumFinesRemove(logs: seq<Submission>, qs: seq<char>, k: int)
    requires 0 <= k < |qs|
    ensures SumFines(logs, qs) == SumFines(logs, qs[..k] + qs[k + 1..]) + FineIfSolved(logs, qs[k])
    decreases |qs|
  {
    if k < |qs| - 1 {
      var init := qs[..|qs| - 1];
      SumFinesRemove(logs, init, k);
      var rest := qs[..k] + qs[k + 1..];
      assert rest[..|rest| - 1] == init[..k] + init[k + 1..];
      assert rest[|rest| - 1] == qs[|qs| - 1];
    } else {
      assert qs[..k] + qs[k + 1..] == qs[..|qs| - 1];
    }
  }

  /** A participant's standing: total fine and number of accepted submissions. */
  datatype Standing = Standing(fine: int, completedTasksCount: nat, participant: Participant)

  /** The standing of a participant. Every accepted submission counts, also a repeated
      acceptance of the same problem. */
  function ComputeResult(participant: Participant): (r: Standing)
    ensures r.participant == participant
    ensures r.fine == ComputeFine(participant.logs)
    ensures r.completedTasksCount == |set i | 0 <= i < |participant.logs| && participant.logs[i].verdict == OK|
  {
    var logs := participant.logs;
    var completedTasksCount := CountWhere(logs, (s: Submission) => s.verdict == OK);
    assert IndicesWhere(logs, (s: Submission) => s.verdict == OK) == set i | 0 <= i < |logs| && logs[i].verdict == OK;
    Standing(ComputeFine(logs), completedTasksCount, participant)
  }

  // ---------------------------------------------------------------------------
  // Winners

  function MaxCompleted(results: seq<Standing>): (m: nat)
    requires |results| > 0
    ensures forall i :: 0 <= i < |results| ==> results[i].completedTasksCount <= m
    ensures exists i :: 0 <= i < |results| && results[i].completedTasksCount == m
  {
    if |results| == 1 then results[0].completedTasksCount
    else
      var m := MaxCompleted(results[..|results| - 1]);
      var last := results[|results| - 1].completedTasksCount;
      if last > m then last else m
  }

  function MinFine(results: seq<Standing>): (m: int)
    requires |results| > 0
    ensures forall i :: 0 <= i < |results| ==> m <= results[i].fine
    ensures exists i :: 0 <= i < |results| && results[i].fine == m
  {
    if |results| == 1 then results[0].fine
    else
      var m := MinFine(results[..|results| - 1]);
      var last := results[|results| - 1].fine;
      if last < m then last else m
  }

  function WithCompleted(results: seq<Standing>, count: int): (r: seq<Standing>)
    ensures forall x :: x in r <==> x in results && x.completedTasksCount == count
  {
    if |results| == 0 then []
    else
      var init := WithCompleted(results[..|results| - 1], count);
      var last := results[|results| - 1];
      if last.completedTasksCount == count then init + [last] else init
  }

  function WithFineAtMost(results: seq<Standing>, fine: int): (r: seq<Standing>)
    ensures forall x :: x in r <==> x in results && x.fine <= fine
  {
    if |results| == 0 then []
    else
      var init := WithFineAtMost(results[..|results| - 1], fine);
      var last := results[|results| - 1];
      if last.fine <= fine then init + [last] else init
  }

  /** `r` has the most accepted submissions of all, and the smallest fine among those with as many. */
  predicate IsWinner(results: seq<Standing>, r: Standing)
  {
    forall i :: 0 <= i < |results| ==>
      && results[i].completedTasksCount <= r.completedTasksCount
      && (results[i].completedTasksCount == r.completedTasksCount ==> r.fine <= results[i].fine)
  }

  /** The members of `s` that are winners among `all`, in their order. */
  function WinnersIn(all: seq<Standing>, s: seq<Standing>): seq<Standing>
  {
    if |s| == 0 then []
    else
      var init := WinnersIn(all, s[..|s| - 1]);
      var last := s[|s| - 1];
      if IsWinner(all, last) then init + [last] else init
  }

  function Logins(results: seq<Standing>): (r: seq<string>)
    ensures |r| == |results| && forall i :: 0 <= i < |results| ==> r[i] == results[i].participant.login
  {
    if |results| == 0 then [] else Logins(results[..|results| - 1]) + [results[|results| - 1].participant.login]
  }

  lemma {:induction false} TwoFiltersSelectWinners(all: seq<Standing>, s: seq<Standing>, count: int, fine: int)
    requires forall x :: x in s ==> (IsWinner(all, x) <==> x.completedTasksCount == count && x.fine <= fine)
    ensures WithFineAtMost(WithCompleted(s, count), fine) == WinnersIn(all, s)
  {
    if |s| > 0 {
      var init := s[..|s| - 1];
      assert forall x :: x in init ==> x in s;
      TwoFiltersSelectWinners(all, init, count, fine);
      var last := s[|s| - 1];
      if last.completedTasksCount == count {
        assert WithCompleted(s, count) == WithCompleted(init, count) + [last];
        assert (WithCompleted(init, count) + [last])[..|WithCompleted(init, count)|] == WithCompleted(init, count);
      }
    }
  }

  /** The two filters of the winner selection keep exactly the winners. */
  lemma WinnerFilters(results: seq<Standing>)
    requires |results| > 0
    ensures var best := WithCompleted(results, MaxCompleted(results));
      && |best| > 0
      && forall x :: x in results ==>
        (IsWinner(results, x) <==> x.completedTasksCount == MaxCompleted(results) && x.fine <= MinFine(best))
  {
    var maxCompletedTasksCount := MaxCompleted(results);
    var best := WithCompleted(results, maxCompletedTasksCount);
    var j :| 0 <= j < |results| && results[j].completedTasksCount == maxCompletedTasksCount;
    assert results[j] in best;
    var minFine := MinFine(best);
    forall x | x in results
      ensures IsWinner(results, x) <==> x.completedTasksCount == maxCompletedTasksCount && x.fine <= minFine
    {
      if x.completedTasksCount == maxCompletedTasksCount && x.fine <= minFine {
        forall i | 0 <= i < |results| && results[i].completedTasksCount == x.completedTasksCount
          ensures x.fine <= results[i].fine
        {
          assert results[i] in best;
        }
      }
      if IsWinner(results, x) {
        var k :| 0 <= k < |best| && best[k].fine == minFine;
        assert best[k] in results;
        assert x in best;
      }
    }
  }

  /** The standings of the participants, in their order. */
  function Results(participants: seq<Participant>): (r: seq<Standing>)
    ensures |r| == |participants|
    ensures forall i :: 0 <= i < |participants| ==> r[i] == ComputeResult(participants[i])
  {
    seq(|participants|, i requires 0 <= i < |participants| => ComputeResult(participants[i]))
  }

  /** Some standing has the smallest fine: the second filter keeps at least one. */
  lemma FineFilterKeepsOne(best: seq<Standing>)
    requires |best| > 0
    ensures |WithFineAtMost(best, MinFine(best))| > 0
  {
    var k :| 0 <= k < |best| && best[k].fine == MinFine(best);
    assert best[k] in WithFineAtMost(best, MinFine(best));
  }

  /** The winners among the participants' standings: most accepted submissions, then the
      smallest fine among those; all that tie are winners, in their original order. */
  function GetWinners(participants: seq<Participant>): (winners: seq<string>)
    requires |participants| > 0
    ensures |winners| >= 1
    ensures winners == Logins(WinnersIn(Results(participants), Results(participants)))
  {
    var results := Results(participants);
    var maxCompletedTasksCount := MaxCompleted(results);
    var best := WithCompleted(results, maxCompletedTasksCount);
    WinnerFilters(results);
    var minFine := MinFine(best);
    TwoFiltersSelectWinners(results, results, maxCompletedTasksCount, minFine);
    FineFilterKeepsOne(best);
    Logins(WithFineAtMost(best, minFine))
  }

  // ---------------------------------------------------------------------------
  // Output order

  /** Ordinal comparison of texts: character by character by code, a prefix first. */
  predicate OrdinalLe(a: string, b: string)
  {
    if |a| == 0 then true
    else if |b| == 0 then false
    else if a[0] != b[0] then a[0] < b[0]
    else OrdinalLe(a[1..], b[1..])
  }

  lemma {:induction false} OrdinalLeTotal(a: string, b: string)
    ensures OrdinalLe(a, b) || OrdinalLe(b, a)
  {
    if |a| > 0 && |b| > 0 && a[0] == b[0] {
      OrdinalLeTotal(a[1..], b[1..]);
    }
  }

  lemma {:induction false} OrdinalLeTransitive(a: string, b: string, c: string)
    requires OrdinalLe(a, b) && OrdinalLe(b, c)
    ensures OrdinalLe(a, c)
  {
    if |a| > 0 && |b| > 0 && |c| > 0 && a[0] == b[0] == c[0] {
      OrdinalLeTransitive(a[1..], b[1..], c[1..]);
    }
  }

  /** Ordinal order is a total preorder. */
  lemma OrdinalLeIsTotalPreorder()
    ensures Sorting.IsTotalPreorder(OrdinalLe)
  {
    forall a, b ensures OrdinalLe(a, b) || OrdinalLe(b, a) {
      OrdinalLeTotal(a, b);
    }
    forall a, b, c | OrdinalLe(a, b) && OrdinalLe(b, c) ensures OrdinalLe(a, c) {
      OrdinalLeTransitive(a, b, c);
    }
  }

  /** The winners as printed: the same logins, in ordinal order. */
  method SortedWinners(participants: seq<Participant>) returns (winners: seq<string>)
    requires |participants| > 0
    ensures Sorting.SortedBy(winners, OrdinalLe)
    ensures multiset(winners) == multiset(GetWinners(participants))
  {
    OrdinalLeIsTotalPreorder();
    winners := Sorting.InsertionSort(GetWinners(participants), OrdinalLe);
  }
}
