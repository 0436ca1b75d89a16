/** Which leaves the cycles of a test case enter, and in which order. */
module SectionLeaves {
  import opened SectionSpec
  import opened SectionTheorems

  /** The leaves below a body that its trackers still owe. */
  function Remaining(b: Body, f: Forest): seq<seq<string>>
    decreases b, 1
  {
    if b.End? then []
    else if f.Nil? then LeavesBelow(b)
    else Owed(b, f) + Remaining(b.rest, f.rest)
  }

  /** The part of it owed by the first section. */
  function Owed(b: Body, node: Forest): seq<seq<string>>
    requires b.Section? && node.Tree?
    decreases b, 0
  {
    if node.state.IsComplete() then []
    else if node.state.NotStarted? then Under(b.name, Leaves(b.inner))
    else Under(b.name, Remaining(b.inner, node.kids))
  }

  lemma RemainingOfAcquired(b: Body, f: Forest)
    requires b.Section?
    ensures var node := Acquired(b.name, f);
            Remaining(b, f) == Owed(b, node) + Remaining(b.rest, node.rest)
  {
    assert Remaining(b.rest, Nil) == LeavesBelow(b.rest);
  }

  lemma FirstUnder(name: string, p: seq<seq<string>>, q: seq<seq<string>>)
    requires p != []
    ensures Under(name, p) + q != []
    ensures (Under(name, p) + q)[0] == [name] + p[0]
    ensures (Under(name, p) + q)[1..] == Under(name, p[1..]) + q
  {
  }

  function TestCaseRemaining(b: Body, t: TestCase): seq<seq<string>> {
    if t.state.IsComplete() then []
    else if t.state.NotStarted? then Leaves(b)
    else Remaining(b, t.kids)
  }

  /** A leaf, seen as an element of the list of leaves. */
  lemma {:induction false} LeafIffListed(b: Body, p: seq<string>)
    requires DistinctNames(b)
    ensures IsLeaf(b, p) <==> p in Leaves(b)
    decreases b, 1
  {
    if p == [] {
      if b.Section? {
        NoEmptyPathBelow(b);
      }
    } else {
      LeafBelowIffListed(b, p);
    }
  }

  lemma {:induction false} NoEmptyPathBelow(b: Body)
    ensures [] !in LeavesBelow(b)
  {
    if b.End? {
    } else {
      NoEmptyPathBelow(b.rest);
    }
  }

  lemma {:induction false} FirstNameBelow(b: Body, p: seq<string>)
    requires p in LeavesBelow(b)
    ensures p != [] && p[0] in SiblingNames(b)
  {
    if b.Section? && p !in Under(b.name, Leaves(b.inner)) {
      FirstNameBelow(b.rest, p);
    }
  }

  lemma {:induction false} LeafBelowIffListed(b: Body, p: seq<string>)
    requires DistinctNames(b) && p != []
    ensures IsLeafBelow(b, p) <==> p in LeavesBelow(b)
    decreases b, 0
  {
    if b.End? {
    } else {
      var here := Under(b.name, Leaves(b.inner));
      LeafIffListed(b.inner, p[1..]);
      LeafBelowIffListed(b.rest, p);
      if p[0] == b.name {
        if p in LeavesBelow(b.rest) {
          FirstNameBelow(b.rest, p);
        }
        if p[1..] in Leaves(b.inner) {
          var i :| 0 <= i < |Leaves(b.inner)| && Leaves(b.inner)[i] == p[1..];
          assert here[i] == p;
        }
      }
    }
  }

  lemma {:induction false} NothingRemains(b: Body, f: Forest)
    requires Covers(b, f) && AllComplete(f)
    ensures Remaining(b, f) == []
    decreases b
  {
    if b.End? {
    } else {
      NothingRemains(b.rest, f.rest);
    }
  }

  lemma {:induction false} DonePassKeepsRemaining(b: Body, f: Forest, own: CycleState, fuse: int)
    requires Entry(b, f, own, true)
    ensures Remaining(b, RunBody(b, f, own, true, fuse).forest) == Remaining(b, f)
    decreases b
  {
    if fuse == 0 || b.End? {
    } else {
      var node := Acquired(b.name, f);
      SkippedSection(b, f, own, true, fuse);
      RemainingOfAcquired(b, f);
      DonePassKeepsRemaining(b.rest, node.rest, own, Burn(fuse));
      RemainingOfAcquired(b, RunBody(b, f, own, true, fuse).forest);
    }
  }

  /** How a pass with outcome `r` must have changed what remains. */
  ghost predicate Visits(b: Body, f: Forest, r: Outcome) {
    if r.log != [] && IsLeafBelow(b, r.log) then
      Remaining(b, f) != [] && r.log == Remaining(b, f)[0] && Remaining(b, r.forest) == Remaining(b, f)[1..]
    else
      Remaining(b, r.forest) == Remaining(b, f)
  }

  /** A pass whose only exception comes from inside the leaf it entered takes exactly the first
      leaf still owed, or none. */
  lemma {:induction false} PassVisitsNextLeaf(b: Body, f: Forest, own: CycleState, fuse: int)
    requires Entry(b, f, own, false) && DistinctNames(b)
    requires var r := RunBody(b, f, own, false, fuse);
             r.exit.Unwinding? ==> r.log != [] && r.exit.unfinished == |r.log| && IsLeafBelow(b, r.log)
    ensures Visits(b, f, RunBody(b, f, own, false, fuse))
    decreases b
  {
    if b.End? || fuse == 0 {
    } else {
      var node := Acquired(b.name, f);
      if node.state.IsComplete() {
        SkippedSection(b, f, own, false, fuse);
        LogStartsWithSibling(b.rest, node.rest, own, false, Burn(fuse));
        PassVisitsNextLeaf(b.rest, node.rest, own, Burn(fuse));
      } else {
        OpenedSectionVisitsNextLeaf(b, f, own, fuse);
      }
    }
  }

  lemma {:induction false} OpenedSectionVisitsNextLeaf(b: Body, f: Forest, own: CycleState, fuse: int)
    requires Entry(b, f, own, false) && DistinctNames(b) && b.Section? && fuse != 0
    requires !Acquired(b.name, f).state.IsComplete()
    requires var r := RunBody(b, f, own, false, fuse);
             r.exit.Unwinding? ==> r.log != [] && r.exit.unfinished == |r.log| && IsLeafBelow(b, r.log)
    ensures Visits(b, f, RunBody(b, f, own, false, fuse))
    decreases b, 0
  {
    var node := Acquired(b.name, f);
    var r := RunBody(b, f, own, false, fuse);
    var s := RunBody(b.inner, node.kids, Executing, false, Burn(fuse));
    LogOfOpenedSection(b, f, own, fuse);
    RunBodyShape(b.inner, node.kids, Executing, false, Burn(fuse));
    RemainingOfAcquired(b, f);
    assert r.log[1..] == s.log && IsLeafBelow(b, r.log) == IsLeaf(b.inner, s.log);
    OpenedSectionLeavesTheRest(b, f, own, fuse);
    var q := Remaining(b.rest, node.rest);
    if b.inner.End? {
      FirstUnder(b.name, [[]], q);
      assert Under(b.name, []) + q == q;
    } else {
      PassVisitsNextLeaf(b.inner, node.kids, Executing, Burn(fuse));
      OwedAfterOpening(b, node, s, r.forest);
      if IsLeaf(b.inner, s.log) {
        FirstUnder(b.name, Remaining(b.inner, node.kids), q);
      }
    }
  }

  /** What an opened section's siblings owe does not change, and the pass entered no other one. */
  lemma OpenedSectionLeavesTheRest(b: Body, f: Forest, own: CycleState, fuse: int)
    requires Entry(b, f, own, false) && b.Section? && fuse != 0
    requires !Acquired(b.name, f).state.IsComplete()
    ensures var node := Acquired(b.name, f);
            var r := RunBody(b, f, own, false, fuse);
            var s := RunBody(b.inner, node.kids, Executing, false, Burn(fuse));
            && r.forest.Tree?
            && r.forest.kids == s.forest
            && r.forest.state == (if s.exit == Unwinding(0) then Failed else CloseState(s.own, s.forest))
            && (s.exit.Unwinding? ==> r.exit == Unwinding(s.exit.unfinished + 1))
            && (s.exit.Normal? && r.exit.Unwinding? ==> r.exit.unfinished == 0)
            && Remaining(b, r.forest) == Owed(b, r.forest) + Remaining(b.rest, node.rest)
  {
    var node := Acquired(b.name, f);
    var s := RunBody(b.inner, node.kids, Executing, false, Burn(fuse));
    if s.exit.Normal? {
      RunBodyShape(b.rest, node.rest, ExecutingChildren, true, s.fuse);
      DonePassKeepsRemaining(b.rest, node.rest, ExecutingChildren, s.fuse);
    }
  }

  lemma OwedAfterOpening(b: Body, node: Forest, s: Outcome, after: Forest)
    requires b.Section? && b.inner.Section? && node.Tree? && Shape(b, node) && !node.state.IsComplete()
    requires Exits(b.inner, node.kids, Executing, false, s) && s.exit != Unwinding(0)
    requires after.Tree? && after.kids == s.forest && after.state == CloseState(s.own, s.forest)
    ensures Owed(b, node) == Under(b.name, Remaining(b.inner, node.kids))
    ensures Owed(b, after) == Under(b.name, Remaining(b.inner, s.forest))
  {
    ClosingLosesNothing(b, node, s, after.state);
  }

  /** A section completes, unless its body threw, only when none of its leaves remains. */
  lemma ClosingLosesNothing(b: Body, node: Forest, s: Outcome, state: CycleState)
    requires b.Section? && b.inner.Section? && node.Tree? && Shape(b.inner, node.kids)
    requires Exits(b.inner, node.kids, Executing, false, s) && s.exit != Unwinding(0)
    requires state == CloseState(s.own, s.forest)
    ensures state.IsComplete() ==> Remaining(b.inner, s.forest) == []
    ensures !state.NotStarted?
  {
    if s.own.ExecutingChildren? {
      LastMeansAll(b.inner, s.forest);
    }
    if state.IsComplete() {
      NothingRemains(b.inner, s.forest);
    }
  }

  // ----- cycles of a test case -----

  /** One cycle takes exactly the first leaf still owed, or no leaf at all. */
  lemma {:induction false} CycleVisitsNextLeaf(b: Body, t: TestCase, fuse: int)
    requires TestCaseShape(b, t) && !t.state.IsComplete() && DistinctNames(b)
    requires ThrowsOnlyInLeaf(b, RunCycle(b, t, fuse).1)
    ensures var (t1, report) := RunCycle(b, t, fuse);
            if IsLeaf(b, report.path) then
              TestCaseRemaining(b, t) != [] && report.path == TestCaseRemaining(b, t)[0]
              && TestCaseRemaining(b, t1) == TestCaseRemaining(b, t)[1..]
            else
              TestCaseRemaining(b, t1) == TestCaseRemaining(b, t)
  {
    var s := RunBody(b, t.kids, Executing, false, fuse);
    RunBodyShape(b, t.kids, Executing, false, fuse);
    if b.End? {
    } else {
      PassVisitsNextLeaf(b, t.kids, Executing, fuse);
      assert TestCaseRemaining(b, t) == Remaining(b, t.kids);
      if s.own.ExecutingChildren? {
        LastMeansAll(b, s.forest);
      }
      if CloseState(s.own, s.forest).IsComplete() {
        NothingRemains(b, s.forest);
      }
    }
  }

  /** When exceptions come only from inside leaves, the cycle loop enters the leaves in source
      order, each exactly once, whichever of them throw; what it has not entered when it stops
      is still owed, so nothing is missing once the test case is complete. */
  lemma {:induction false} EveryLeafOnceInOrder(b: Body, t: TestCase, inputs: nat -> CycleInput, k: nat)
    requires TestCaseShape(b, t) && !t.state.IsComplete() && DistinctNames(b)
    requires forall i :: 0 <= i < |Run(b, t, inputs, k).1| ==> ThrowsOnlyInLeaf(b, Run(b, t, inputs, k).1[i])
    ensures var (end, reports) := Run(b, t, inputs, k);
            LeafVisits(b, reports) + TestCaseRemaining(b, end) == TestCaseRemaining(b, t)
    decreases TestCasePending(b, t)
  {
    var fuse := inputs(k).fuse;
    CycleKeepsShape(b, t, fuse);
    CycleMakesProgress(b, t, fuse);
    var (t1, report) := RunCycle(b, t, fuse);
    var reports := Run(b, t, inputs, k).1;
    assert reports[0] == report;
    CycleVisitsNextLeaf(b, t, fuse);
    hide RunCycle, TestCaseShape, DistinctNames, TestCaseRemaining, TestCasePending, ThrowsOnlyInLeaf;
    if t1.state.IsComplete() || inputs(k).abort {
      assert reports[1..] == [];
    } else {
      var later := Run(b, t1, inputs, k + 1).1;
      assert reports[1..] == later;
      hide Run;
      forall i | 0 <= i < |later| ensures ThrowsOnlyInLeaf(b, later[i]) {
        assert later[i] == reports[i + 1];
      }
      EveryLeafOnceInOrder(b, t1, inputs, k + 1);
    }
  }

  // ----- runs without exceptions -----

  /** No tracker waits for a run without sections. */
  predicate NoRetry(f: Forest) {
    f.Tree? ==> !f.state.NeedsAnotherRun? && NoRetry(f.kids) && NoRetry(f.rest)
  }

  lemma {:induction false} QuietPass(b: Body, f: Forest, own: CycleState, done: bool, fuse: int)
    requires Entry(b, f, own, done) && DistinctNames(b) && NoRetry(f) && fuse < 0 && !own.NeedsAnotherRun?
    ensures var r := RunBody(b, f, own, done, fuse);
            && NoRetry(r.forest) && !r.own.NeedsAnotherRun? && r.exit.Normal? && r.fuse == fuse
            && (r.log != [] ==> IsLeafBelow(b, r.log))
            && (!done && r.log == [] ==> Covers(b, f) && AllComplete(f))
    decreases b
  {
    if b.End? {
    } else {
      var node := Acquired(b.name, f);
      if done || node.state.IsComplete() {
        SkippedSection(b, f, own, done, fuse);
        QuietPass(b.rest, node.rest, own, done, fuse);
        LogStartsWithSibling(b.rest, node.rest, own, done, fuse);
      } else {
        var s := RunBody(b.inner, node.kids, Executing, false, fuse);
        QuietPass(b.inner, node.kids, Executing, false, fuse);
        LogOfOpenedSection(b, f, own, fuse);
        QuietPass(b.rest, node.rest, ExecutingChildren, true, fuse);
        assert RunBody(b, f, own, done, fuse).log[1..] == s.log;
      }
    }
  }

  predicate QuietTestCase(t: TestCase) {
    !t.state.NeedsAnotherRun? && NoRetry(t.kids)
  }

  lemma {:induction false} QuietCycle(b: Body, t: TestCase, fuse: int)
    requires TestCaseShape(b, t) && !t.state.IsComplete() && DistinctNames(b) && QuietTestCase(t) && fuse < 0
    ensures var (t1, report) := RunCycle(b, t, fuse);
            QuietTestCase(t1) && report.exit.Normal? && IsLeaf(b, report.path)
  {
    QuietPass(b, t.kids, Executing, false, fuse);
    RunBodyShape(b, t.kids, Executing, false, fuse);
  }

  function Paths(reports: seq<Report>): seq<seq<string>> {
    seq(|reports|, i requires 0 <= i < |reports| => reports[i].path)
  }

  /** Without exceptions every cycle enters one leaf, the next one in source order. */
  lemma {:induction false} OneLeafPerCycle(b: Body, t: TestCase, inputs: nat -> CycleInput, k: nat)
    requires TestCaseShape(b, t) && !t.state.IsComplete() && DistinctNames(b) && QuietTestCase(t)
    requires forall n :: inputs(n).fuse < 0
    ensures var (end, reports) := Run(b, t, inputs, k);
            Paths(reports) + TestCaseRemaining(b, end) == TestCaseRemaining(b, t)
    decreases TestCasePending(b, t)
  {
    var fuse := inputs(k).fuse;
    CycleKeepsShape(b, t, fuse);
    CycleMakesProgress(b, t, fuse);
    QuietCycle(b, t, fuse);
    CycleVisitsNextLeaf(b, t, fuse);
    var (t1, report) := RunCycle(b, t, fuse);
    if t1.state.IsComplete() || inputs(k).abort {
      assert Paths([report]) == [report.path];
    } else {
      OneLeafPerCycle(b, t1, inputs, k + 1);
      var later := Run(b, t1, inputs, k + 1).1;
      assert Paths([report] + later) == [report.path] + Paths(later);
    }
  }

  /** The main promise: the cycles of a test case in which nothing throws and nothing aborts are
      exactly its leaves in source order, one root-to-leaf path each. */
  lemma CyclesAreTheLeaves(b: Body, inputs: nat -> CycleInput)
    requires DistinctNames(b)
    requires forall n :: inputs(n).fuse < 0 && !inputs(n).abort
    ensures Paths(Run(b, FRESH_TEST_CASE, inputs, 0).1) == Leaves(b)
  {
    OneLeafPerCycle(b, FRESH_TEST_CASE, inputs, 0);
    RunCompletes(b, FRESH_TEST_CASE, inputs, 0);
  }

  lemma {:induction false} LeavesAreDistinct(b: Body, i: nat, j: nat)
    requires DistinctNames(b) && i < j < |Leaves(b)|
    ensures Leaves(b)[i] != Leaves(b)[j]
    decreases b
  {
    LeavesBelowAreDistinct(b, i, j);
  }

  lemma {:induction false} LeavesBelowAreDistinct(b: Body, i: nat, j: nat)
    requires DistinctNames(b) && i < j < |LeavesBelow(b)|
    ensures LeavesBelow(b)[i] != LeavesBelow(b)[j]
    decreases b, 0
  {
    var n := |Leaves(b.inner)|;
    if j < n {
      LeavesAreDistinct(b.inner, i, j);
      assert LeavesBelow(b)[i][1..] == Leaves(b.inner)[i] && LeavesBelow(b)[j][1..] == Leaves(b.inner)[j];
    } else if i < n {
      FirstNameBelow(b.rest, LeavesBelow(b.rest)[j - n]);
      assert LeavesBelow(b)[i][0] == b.name;
    } else {
      LeavesBelowAreDistinct(b.rest, i - n, j - n);
    }
  }

  // ----- exceptions beside sections -----

  /** Two sections; the exception comes between them, from the body of the test case. */
  function TwoSections(): Body { Section("a", End, Section("b", End, End)) }

  lemma UnderEmpty(name: string)
    ensures Under(name, [[]]) == [[name]]
  {
    assert [name] + [] == [name];
  }

  /** Such an exception can lose leaves: the test case completes without ever entering "b",
      because only "a" had been discovered when it was closed. */
  lemma ExceptionBesideSectionsLosesLeaves(inputs: nat -> CycleInput)
    requires inputs(0).fuse == 2
    ensures DistinctNames(TwoSections()) && Leaves(TwoSections()) == [["a"], ["b"]]
    ensures var (end, reports) := Run(TwoSections(), FRESH_TEST_CASE, inputs, 0);
            && end.state == CompletedSuccessfully
            && reports == [Report(["a"], Unwinding(0))]
            && !ThrowsOnlyInLeaf(TwoSections(), reports[0])
  {
    var second := Section("b", End, End);
    var b := TwoSections();
    assert Leaves(b) == [["a"], ["b"]] by {
      assert LeavesBelow(second) == Under("b", [[]]) + [];
      UnderEmpty("a");
      UnderEmpty("b");
    }
    var a := Tree("a", NotStarted, Nil, Nil);
    assert RunBody(End, Nil, Executing, false, 1) == Outcome(Nil, Executing, false, 0, Normal, []);
    assert SectionSpec.RunSection(b, a, Executing, false, 1) ==
           Outcome(a.(state := CompletedSuccessfully), ExecutingChildren, true, 0, Normal, ["a"] + []);
    assert RunBody(second, Nil, ExecutingChildren, true, 0) == Outcome(Nil, ExecutingChildren, true, 0, Unwinding(0), []);
    assert RunBody(b, Nil, Executing, false, 2) ==
           Outcome(a.(state := CompletedSuccessfully), ExecutingChildren, true, 0, Unwinding(0), ["a"]);
  }
}
