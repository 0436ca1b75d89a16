/** Counting test cases and assertions, and the bar that summarises them. */
module Totals {

  datatype Counts = Counts(passed: nat, failed: nat, failedButOk: nat) {
    function Total(): nat { passed + failed + failedButOk }

    predicate AtLeast(other: Counts) {
      passed >= other.passed && failed >= other.failed && failedButOk >= other.failedButOk
    }

    function Minus(other: Counts): (r: Counts)
      requires AtLeast(other)
    {
      Counts(passed - other.passed, failed - other.failed, failedButOk - other.failedButOk)
    }

    function Plus(other: Counts): Counts {
      Counts(passed + other.passed, failed + other.failed, failedButOk + other.failedButOk)
    }
  }

  function Zero(): Counts { Counts(0, 0, 0) }

  lemma PlusZero(a: Counts)
    ensures a.Plus(Zero()) == a
  {
  }

  lemma PlusIsAssociative(a: Counts, b: Counts, c: Counts)
    ensures a.Plus(b).Plus(c) == a.Plus(b.Plus(c))
  {
  }

  datatype Totals = Totals(assertions: Counts, testCases: Counts) {
    /** What has been counted since `prev`, as one finished test case. */
    function Delta(prev: Totals): Totals
      requires assertions.AtLeast(prev.assertions) && testCases.AtLeast(prev.testCases)
    {
      var a, t := assertions.Minus(prev.assertions), testCases.Minus(prev.testCases);
      if a.failed > 0 then Totals(a, t.(failed := t.failed + 1))
      else if a.failedButOk > 0 then Totals(a, t.(failedButOk := t.failedButOk + 1))
      else Totals(a, t.(passed := t.passed + 1))
    }
  }

  /** Results of assertions: passed, failed, or failed in a way that does not count. */
  datatype Result = Ok | Failure | SuppressedFailure

  /** How a test case is tagged: should fail, or may fail. */
  datatype TestInfo = TestInfo(shouldFail: bool, mayFail: bool) {
    predicate ExpectedToFail() { shouldFail }

    predicate OkToFail() { shouldFail || mayFail }
  }

  /** A test: its tags, and the results of the assertions of each of its cycles. */
  datatype Test = Test(info: TestInfo, cycles: seq<seq<Result>>)

  // ----- counting, as functions -----

  function Passes(results: seq<Result>): nat {
    if results == [] then 0 else (if results[0].Ok? then 1 else 0) + Passes(results[1..])
  }

  function Failures(results: seq<Result>): nat {
    if results == [] then 0 else (if results[0].Failure? then 1 else 0) + Failures(results[1..])
  }

  function AllPasses(cycles: seq<seq<Result>>): nat {
    if cycles == [] then 0 else Passes(cycles[0]) + AllPasses(cycles[1..])
  }

  function AllFailures(cycles: seq<seq<Result>>): nat {
    if cycles == [] then 0 else Failures(cycles[0]) + AllFailures(cycles[1..])
  }

  lemma OfOneCycle(results: seq<Result>)
    ensures AllPasses([results]) == Passes(results) && AllFailures([results]) == Failures(results)
  {
    assert [results][1..] == [];
  }

  /** The results that count: all but the suppressed failures. */
  function Counted(cycles: seq<seq<Result>>): nat {
    if cycles == [] then 0 else |Counting(cycles[0])| + Counted(cycles[1..])
  }

  function Counting(results: seq<Result>): seq<Result> {
    if results == [] then []
    else (if results[0].SuppressedFailure? then [] else [results[0]]) + Counting(results[1..])
  }

  lemma {:induction false} AllCounting(results: seq<Result>)
    ensures |Counting(results)| == Passes(results) + Failures(results)
  {
    if results == [] {
    } else {
      AllCounting(results[1..]);
    }
  }

  lemma {:induction false} AllCounted(cycles: seq<seq<Result>>)
    ensures Counted(cycles) == AllPasses(cycles) + AllFailures(cycles)
  {
    if cycles == [] {
    } else {
      AllCounting(cycles[0]);
      AllCounted(cycles[1..]);
    }
  }

  lemma {:induction false} NoFailure(results: seq<Result>)
    ensures Failures(results) == 0 <==> Failure !in results
  {
    if results == [] {
    } else {
      NoFailure(results[1..]);
    }
  }

  lemma {:induction false} NoFailures(cycles: seq<seq<Result>>)
    ensures AllFailures(cycles) == 0 <==> forall cycle <- cycles :: Failure !in cycle
  {
    if cycles == [] {
    } else {
      NoFailure(cycles[0]);
      NoFailures(cycles[1..]);
      assert forall cycle :: cycle in cycles <==> cycle == cycles[0] || cycle in cycles[1..];
    }
  }

  predicate NeverFails(test: Test) { forall cycle <- test.cycles :: Failure !in cycle }

  /** The assertions of a test, as they are booked: failures count as such unless tolerated. */
  function Booked(test: Test): Counts {
    var f := AllFailures(test.cycles);
    if test.info.OkToFail() then Counts(AllPasses(test.cycles), 0, f) else Counts(AllPasses(test.cycles), f, 0)
  }

  /** The verdict on a test, as one test case. */
  function Verdict(test: Test): Counts {
    if AllFailures(test.cycles) == 0 then (if test.info.shouldFail then Counts(0, 1, 0) else Counts(1, 0, 0))
    else if test.info.OkToFail() then Counts(0, 0, 1)
    else Counts(0, 1, 0)
  }

  /** A test that should have failed and did not. */
  predicate PassedUnduly(test: Test) {
    test.info.shouldFail && AllFailures(test.cycles) == 0
  }

  lemma {:induction false} PassesAppend(a: seq<Result>, r: Result)
    ensures Passes(a + [r]) == Passes(a) + (if r.Ok? then 1 else 0)
    ensures Failures(a + [r]) == Failures(a) + (if r.Failure? then 1 else 0)
  {
    if a == [] {
    } else {
      PassesAppend(a[1..], r);
      assert (a + [r])[1..] == a[1..] + [r];
    }
  }

  lemma {:induction false} AllAppend(a: seq<seq<Result>>, c: seq<Result>)
    ensures AllPasses(a + [c]) == AllPasses(a) + Passes(c)
    ensures AllFailures(a + [c]) == AllFailures(a) + Failures(c)
  {
    if a == [] {
    } else {
      AllAppend(a[1..], c);
      assert (a + [c])[1..] == a[1..] + [c];
    }
  }

  lemma BookedNothing(test: Test)
    ensures Booked(test.(cycles := test.cycles[..0])) == Zero()
  {
  }

  /** One more cycle books its own assertions. */
  lemma BookedAppend(test: Test, i: nat)
    requires i < |test.cycles|
    ensures Booked(test.(cycles := test.cycles[..i + 1])) ==
            Booked(test.(cycles := test.cycles[..i])).Plus(Booked(Test(test.info, [test.cycles[i]])))
  {
    var c := test.cycles[i];
    AllAppend(test.cycles[..i], c);
    assert test.cycles[..i + 1] == test.cycles[..i] + [c];
    assert AllPasses([c]) == Passes(c) && AllFailures([c]) == Failures(c);
  }

  // ----- counting, as the run context does it -----

  class RunTotals {
    var totals: Totals

    constructor ()
      ensures totals == Totals(Zero(), Zero())
    {
      totals := Totals(Zero(), Zero());
    }

    method AssertionEnded(result: Result)
      modifies this
      ensures totals == old(totals).(assertions := old(totals.assertions).Plus(
                Counts(if result.Ok? then 1 else 0, if result.Failure? then 1 else 0, 0)))
    {
      if result.Ok? {
        totals := totals.(assertions := totals.assertions.(passed := totals.assertions.passed + 1));
      } else if result.Failure? {
        totals := totals.(assertions := totals.assertions.(failed := totals.assertions.failed + 1));
      }
    }

    /** One cycle: its assertions, then the failures moved over if they are tolerated. */
    method RunCurrentTest(info: TestInfo, results: seq<Result>)
      modifies this
      ensures totals.testCases == old(totals.testCases)
      ensures totals.assertions == old(totals.assertions).Plus(Booked(Test(info, [results])))
    {
      var prevAssertions := totals.assertions;
      var i := 0;
      while i < |results|
        invariant 0 <= i <= |results|
        invariant totals.testCases == old(totals.testCases)
        invariant totals.assertions == prevAssertions.Plus(Counts(Passes(results[..i]), Failures(results[..i]), 0))
      {
        PassesAppend(results[..i], results[i]);
        assert results[..i + 1] == results[..i] + [results[i]];
        AssertionEnded(results[i]);
        i := i + 1;
      }
      assert results[..i] == results;
      var assertions := totals.assertions.Minus(prevAssertions);
      if info.OkToFail() {
        assertions := assertions.(failedButOk := assertions.failed, failed := assertions.failedButOk);
        totals := totals.(assertions := totals.assertions.(
          failed := totals.assertions.failed - assertions.failedButOk,
          failedButOk := totals.assertions.failedButOk + assertions.failedButOk));
      }
      OfOneCycle(results);
    }

    /** A whole test; the result is the delta that is reported. */
    method RunTest(test: Test) returns (delta: Totals)
      modifies this
      ensures totals == Totals(old(totals.assertions).Plus(Booked(test)), old(totals.testCases).Plus(Verdict(test)))
      ensures delta.testCases == Verdict(test)
      ensures delta.assertions == Booked(test).Plus(if PassedUnduly(test) then Counts(0, 1, 0) else Zero())
      // What the delta says for itself: the test case is classified by its assertions, ...
      ensures delta.testCases.Total() == 1
      ensures delta.testCases.failed == 1 <==> delta.assertions.failed > 0
      ensures delta.testCases.failedButOk == 1 <==> delta.assertions.failed == 0 && delta.assertions.failedButOk > 0
      // ... which are all there, failures being tolerated exactly in tests that may or should fail.
      // A test that should fail and does not is one more failure.
      ensures var undue := if test.info.shouldFail && NeverFails(test) then 1 else 0;
              && delta.assertions.Total() == Counted(test.cycles) + undue
              && delta.assertions.passed == AllPasses(test.cycles)
              && if test.info.shouldFail || test.info.mayFail then delta.assertions.failed == undue
                 else delta.assertions.failedButOk == 0
    {
      AllCounted(test.cycles);
      NoFailures(test.cycles);
      hide AllPasses, AllFailures;
      var prevTotals := totals;
      var i := 0;
      BookedNothing(test);
      while i < |test.cycles|
        invariant 0 <= i <= |test.cycles|
        invariant totals.testCases == prevTotals.testCases
        invariant totals.assertions == prevTotals.assertions.Plus(Booked(test.(cycles := test.cycles[..i])))
      {
        BookedAppend(test, i);
        RunCurrentTest(test.info, test.cycles[i]);
        i := i + 1;
      }
      assert test.cycles[..i] == test.cycles;
      delta := totals.Delta(prevTotals);
      if test.info.ExpectedToFail() && delta.testCases.passed > 0 {
        delta := Totals(
          delta.assertions.(failed := delta.assertions.failed + 1),
          delta.testCases.(passed := delta.testCases.passed - 1, failed := delta.testCases.failed + 1));
      }
      totals := totals.(testCases := totals.testCases.Plus(delta.testCases));
    }

    /** A sequence of tests; the results are the sums of what the deltas report. */
    method RunTests(tests: seq<Test>) returns (assertions: Counts, testCases: Counts)
      modifies this
      ensures testCases.Total() == |tests|
      ensures testCases.failed == 0 <==> assertions.failed == 0
      ensures totals.testCases == old(totals.testCases).Plus(testCases)
      ensures totals.assertions.Plus(Counts(0, UndueCount(tests), 0)) == old(totals.assertions).Plus(assertions)
    {
      hide *;
      assertions, testCases := Zero(), Zero();
      ghost var booked := Zero();
      PlusZero(totals.testCases);
      PlusZero(totals.assertions);
      NothingYet(tests);
      var i := 0;
      while i < |tests|
        invariant 0 <= i <= |tests|
        invariant testCases.Total() == i
        invariant testCases.failed == 0 <==> assertions.failed == 0
        invariant totals.testCases == old(totals.testCases).Plus(testCases)
        invariant totals.assertions == old(totals.assertions).Plus(booked)
        invariant assertions == booked.Plus(Counts(0, UndueCount(tests[..i]), 0))
      {
        UndueAppend(tests, i);
        var delta := RunTest(tests[i]);
        PlusIsAssociative(old(totals.testCases), testCases, delta.testCases);
        PlusIsAssociative(old(totals.assertions), booked, Booked(tests[i]));
        OneMoreDelta(assertions, testCases, delta);
        OneMoreBooked(booked, Booked(tests[i]), UndueCount(tests[..i]), if PassedUnduly(tests[i]) then 1 else 0);
        assertions, testCases := assertions.Plus(delta.assertions), testCases.Plus(delta.testCases);
        booked := booked.Plus(Booked(tests[i]));
        i := i + 1;
      }
      assert tests[..i] == tests;
      PlusIsAssociative(old(totals.assertions), booked, Counts(0, UndueCount(tests), 0));
    }
  }

  lemma NothingYet(tests: seq<Test>)
    ensures Zero().Total() == 0 && Zero().failed == 0
    ensures Zero() == Zero().Plus(Counts(0, UndueCount(tests[..0]), 0))
  {
    hide UndueCount;
    NoneUndue();
    assert tests[..0] == [];
  }

  lemma NoneUndue()
    ensures UndueCount([]) == 0
  {
  }

  lemma OneMoreDelta(assertions: Counts, testCases: Counts, delta: Totals)
    requires testCases.failed == 0 <==> assertions.failed == 0
    requires delta.testCases.Total() == 1 && (delta.testCases.failed == 1 <==> delta.assertions.failed > 0)
    ensures testCases.Plus(delta.testCases).Total() == testCases.Total() + 1
    ensures testCases.Plus(delta.testCases).failed == 0 <==> assertions.Plus(delta.assertions).failed == 0
  {
  }

  lemma OneMoreBooked(booked: Counts, more: Counts, undue: nat, one: nat)
    ensures booked.Plus(Counts(0, undue, 0)).Plus(more.Plus(Counts(0, one, 0))) ==
              booked.Plus(more).Plus(Counts(0, undue + one, 0))
    ensures Counts(0, 0, 0) == Zero()
  {
  }

  /** How many tests should have failed and did not. */
  function UndueCount(tests: seq<Test>): nat {
    if tests == [] then 0
    else UndueCount(tests[..|tests| - 1]) + (if PassedUnduly(tests[|tests| - 1]) then 1 else 0)
  }

  lemma UndueAppend(tests: seq<Test>, i: nat)
    requires i < |tests|
    ensures UndueCount(tests[..i + 1]) == UndueCount(tests[..i]) + (if PassedUnduly(tests[i]) then 1 else 0)
  {
    assert tests[..i + 1][..i] == tests[..i];
  }

  // ----- the bar -----

  const CONSOLE_WIDTH: nat := 80

  function MakeRatio(number: nat, total: nat): nat {
    var ratio := if total > 0 then CONSOLE_WIDTH * number / total else 0;
    if ratio == 0 && number > 0 then 1 else ratio
  }

  /** Which of three segments is adjusted. */
  datatype Segment = First | Second | Third

  function FindMax(i: nat, j: nat, k: nat): (s: Segment)
    ensures match s
            case First => i >= j && i >= k
            case Second => j >= i && j >= k
            case Third => k >= i && k >= j
  {
    if i > j && i > k then First else if j > k then Second else Third
  }

  lemma RatioBounds(n: nat, total: nat)
    requires n <= total && total > 0
    ensures var q := CONSOLE_WIDTH * n / total;
            q * total <= CONSOLE_WIDTH * n < (q + 1) * total
  {
    var q := CONSOLE_WIDTH * n / total;
    assert CONSOLE_WIDTH * n == q * total + CONSOLE_WIDTH * n % total;
    assert (q + 1) * total == q * total + total;
  }

  /** The exact shares, rounded down, miss the full width by at most two. */
  lemma SharesNearlyFill(a: nat, b: nat, c: nat, total: nat, x: nat, y: nat, z: nat)
    requires total > 0 && a + b + c == total
    requires x * total <= CONSOLE_WIDTH * a < (x + 1) * total
    requires y * total <= CONSOLE_WIDTH * b < (y + 1) * total
    requires z * total <= CONSOLE_WIDTH * c < (z + 1) * total
    ensures CONSOLE_WIDTH - 2 <= x + y + z <= CONSOLE_WIDTH
  {
    var s := x + y + z;
    assert s * total == x * total + y * total + z * total;
    assert (s + 3) * total == (x + 1) * total + (y + 1) * total + (z + 1) * total;
    assert CONSOLE_WIDTH * total == CONSOLE_WIDTH * a + CONSOLE_WIDTH * b + CONSOLE_WIDTH * c;
    MulCancels(s, CONSOLE_WIDTH, total);
    MulCancels(CONSOLE_WIDTH + 1, s + 3, total);
  }

  lemma MulCancels(x: nat, y: nat, t: nat)
    requires t > 0
    ensures x * t <= y * t ==> x <= y
    ensures (x - 1) * t < y * t ==> x <= y
  {
    if x > y {
      MulGrows(y, x - 1, t);
      assert x * t == (x - 1) * t + t;
    }
  }

  lemma {:induction false} MulGrows(x: nat, y: nat, t: nat)
    requires x <= y
    ensures x * t <= y * t
    decreases y
  {
    if x < y {
      MulGrows(x, y - 1, t);
      assert y * t == (y - 1) * t + t;
    }
  }

  predicate Near(x: nat, y: nat) { y <= x + 3 && x <= y + 3 }

  /** The lengths of the three segments, and of the warning drawn when there are no test cases:
      together they fill the line exactly, a segment is missing exactly if its count is zero, and
      each is within three of its share. */
  method TotalsDivider(counts: Counts) returns (failed: nat, failedButOk: nat, passed: nat, warning: nat)
    ensures failed + failedButOk + passed + warning == CONSOLE_WIDTH - 1
    ensures warning == 0 <==> counts.Total() > 0
    ensures failed == 0 <==> counts.failed == 0
    ensures failedButOk == 0 <==> counts.failedButOk == 0
    ensures passed == 0 <==> counts.passed == 0
    ensures Near(failed, MakeRatio(counts.failed, counts.Total()))
    ensures Near(failedButOk, MakeRatio(counts.failedButOk, counts.Total()))
    ensures Near(passed, MakeRatio(counts.passed, counts.Total()))
  {
    hide *;
    NothingToDraw();
    var total := counts.Total();
    if total == 0 {
      return 0, 0, 0, CONSOLE_WIDTH - 1;
    }
    warning := 0;
    failed := MakeRatio(counts.failed, total);
    failedButOk := MakeRatio(counts.failedButOk, total);
    passed := MakeRatio(counts.passed, total);
    RatiosNearlyFill(counts);
    failed, failedButOk, passed := FitToLine(failed, failedButOk, passed);
  }

  /** What the divider needs to know of its constants. */
  lemma NothingToDraw()
    ensures MakeRatio(0, 0) == 0 && Near(0, 0) && CONSOLE_WIDTH == 80
    ensures forall c: Counts :: c.Total() == c.passed + c.failed + c.failedButOk
  {
  }

  /** The two adjustment loops. */
  method FitToLine(f: nat, o: nat, p: nat) returns (failed: nat, failedButOk: nat, passed: nat)
    requires CONSOLE_WIDTH - 2 <= f + o + p <= CONSOLE_WIDTH + 2
    ensures failed + failedButOk + passed == CONSOLE_WIDTH - 1
    ensures (failed == 0 <==> f == 0) && (failedButOk == 0 <==> o == 0) && (passed == 0 <==> p == 0)
    ensures Near(failed, f) && Near(failedButOk, o) && Near(passed, p)
  {
    failed, failedButOk, passed := f, o, p;
    while failed + failedButOk + passed < CONSOLE_WIDTH - 1
      invariant f <= failed <= f + 1 && o <= failedButOk <= o + 1 && p <= passed <= p + 1
      invariant (f == 0 ==> failed == 0) && (o == 0 ==> failedButOk == 0) && (p == 0 ==> passed == 0)
      invariant failed + failedButOk + passed < CONSOLE_WIDTH ==> failed + failedButOk + passed <= f + o + p + 1
      invariant failed + failedButOk + passed == f + o + p || failed + failedButOk + passed == CONSOLE_WIDTH - 1
    {
      match FindMax(failed, failedButOk, passed) {
        case First => failed := failed + 1;
        case Second => failedButOk := failedButOk + 1;
        case Third => passed := passed + 1;
      }
    }
    while failed + failedButOk + passed > CONSOLE_WIDTH - 1
      invariant failed <= f + 1 && failedButOk <= o + 1 && passed <= p + 1
      invariant f + o + p - (failed + failedButOk + passed) <= 3
      invariant (failed == 0 <==> f == 0) && (failedButOk == 0 <==> o == 0) && (passed == 0 <==> p == 0)
      invariant failed + failedButOk + passed >= CONSOLE_WIDTH - 1
      invariant f + o + p > CONSOLE_WIDTH - 1 ==> failed <= f && failedButOk <= o && passed <= p
    {
      match FindMax(failed, failedButOk, passed) {
        case First => failed := failed - 1;
        case Second => failedButOk := failedButOk - 1;
        case Third => passed := passed - 1;
      }
    }
  }

  lemma RatioParts(n: nat, total: nat) returns (q: nat)
    requires n <= total && total > 0
    ensures q * total <= CONSOLE_WIDTH * n < (q + 1) * total
    ensures MakeRatio(n, total) == if q == 0 && n > 0 then 1 else q
    ensures n == 0 ==> q == 0
  {
    q := CONSOLE_WIDTH * n / total;
    RatioBounds(n, total);
  }

  lemma RatiosNearlyFill(counts: Counts)
    requires counts.Total() > 0
    ensures var t := counts.Total();
            var f, o, p := MakeRatio(counts.failed, t), MakeRatio(counts.failedButOk, t), MakeRatio(counts.passed, t);
            && CONSOLE_WIDTH - 2 <= f + o + p <= CONSOLE_WIDTH + 2
            && (f == 0 <==> counts.failed == 0) && (o == 0 <==> counts.failedButOk == 0) && (p == 0 <==> counts.passed == 0)
  {
    var t := counts.Total();
    var x := RatioParts(counts.failed, t);
    var y := RatioParts(counts.failedButOk, t);
    var z := RatioParts(counts.passed, t);
    SharesNearlyFill(counts.failed, counts.failedButOk, counts.passed, t, x, y, z);
  }
}
