/** What the cycles of `SectionSpec` guarantee, for every test body and every placement of
    exceptions. */
module SectionTheorems {
  import opened SectionSpec

  // ----- the shape of the trackers -----

  /** Testing only the last discovered child, as closing does, tests all of them. */
  lemma {:induction false} LastMeansAll(b: Body, f: Forest)
    requires Shape(b, f) && f.Tree?
    ensures LastIsComplete(f) <==> AllComplete(f)
    decreases b
  {
    if f.rest.Tree? {
      LastMeansAll(b.rest, f.rest);
      if !f.state.IsComplete() {
        FreshIsIncomplete(f.rest);
      }
    }
  }

  lemma {:induction false} FreshIsIncomplete(f: Forest)
    requires AllFresh(f) && f.Tree?
    ensures !LastIsComplete(f)
  {
    if f.rest.Tree? {
      FreshIsIncomplete(f.rest);
    }
  }

  /** All sections of the body have been discovered. */
  ghost predicate Covers(b: Body, f: Forest) {
    b.Section? ==> f.Tree? && Covers(b.rest, f.rest)
  }

  /** What may be assumed on entry to a pass: a completed cycle has only fresh sections ahead. */
  ghost predicate Entry(b: Body, f: Forest, own: CycleState, done: bool) {
    && Shape(b, f)
    && (done ==> AllFresh(f))
    && (!done ==> own.Executing?)
  }

  /** What every pass keeps. */
  ghost predicate Exits(b: Body, f: Forest, own: CycleState, done: bool, r: Outcome) {
    && Shape(b, r.forest)
    && (done ==> AllFresh(r.forest))
    && (r.log == [] ==> r.own == own && r.done == done && (r.exit.Unwinding? ==> r.exit.unfinished == 0))
    && (r.log != [] ==> !done && r.done && r.forest.Tree? && (r.own.ExecutingChildren? || r.own.NeedsAnotherRun?))
    && (r.exit.Normal? ==> Covers(b, r.forest))
    && (r.exit.Normal? && !r.done ==> AllComplete(r.forest))
    && (r.own.NeedsAnotherRun? && !done ==> r.exit == Unwinding(1))
    && (r.exit.Unwinding? && r.exit.unfinished > 0 && r.own.ExecutingChildren? ==> !AllComplete(r.forest))
  }

  /** A section that does not open adds nothing to the log. */
  lemma SkippedSection(b: Body, f: Forest, own: CycleState, done: bool, fuse: int)
    requires b.Section? && fuse != 0 && (done || Acquired(b.name, f).state.IsComplete())
    ensures var node := Acquired(b.name, f);
            var r := RunBody(b.rest, node.rest, own, done, Burn(fuse));
            RunBody(b, f, own, done, fuse) == r.(forest := node.(rest := r.forest))
  {
    var r := RunBody(b.rest, Acquired(b.name, f).rest, own, done, Burn(fuse));
    assert [] + r.log == r.log;
  }

  lemma {:induction false} RunBodyShape(b: Body, f: Forest, own: CycleState, done: bool, fuse: int)
    requires Entry(b, f, own, done)
    ensures Exits(b, f, own, done, RunBody(b, f, own, done, fuse))
    decreases b
  {
    if fuse == 0 || b.End? {
    } else {
      var node := Acquired(b.name, f);
      if done || node.state.IsComplete() {
        RunBodyShape(b.rest, node.rest, own, done, Burn(fuse));
      } else {
        var s := RunBody(b.inner, node.kids, Executing, false, Burn(fuse));
        RunBodyShape(b.inner, node.kids, Executing, false, Burn(fuse));
        if s.own.ExecutingChildren? {
          LastMeansAll(b.inner, s.forest);
        }
        if s.exit.Normal? {
          RunBodyShape(b.rest, node.rest, ExecutingChildren, true, s.fuse);
        }
      }
    }
  }

  /** One cycle keeps the shape of the whole tracker tree. */
  lemma {:induction false} CycleKeepsShape(b: Body, t: TestCase, fuse: int)
    requires TestCaseShape(b, t) && !t.state.IsComplete()
    ensures TestCaseShape(b, RunCycle(b, t, fuse).0)
  {
    var s := RunBody(b, t.kids, Executing, false, fuse);
    RunBodyShape(b, t.kids, Executing, false, fuse);
    if s.own.ExecutingChildren? {
      LastMeansAll(b, s.forest);
    }
  }

  // ----- termination -----

  lemma {:induction false} RunBodyPending(b: Body, f: Forest, own: CycleState, done: bool, fuse: int)
    requires Entry(b, f, own, done)
    ensures var r := RunBody(b, f, own, done, fuse);
            Pending(b, r.forest) + (if r.log == [] then 0 else 1) <= Pending(b, f)
    decreases b
  {
    if fuse == 0 || b.End? {
    } else {
      var node := Acquired(b.name, f);
      assert Pending(b, node) == Pending(b, f);
      if done || node.state.IsComplete() {
        RunBodyPending(b.rest, node.rest, own, done, Burn(fuse));
      } else {
        var s := RunBody(b.inner, node.kids, Executing, false, Burn(fuse));
        RunBodyShape(b.inner, node.kids, Executing, false, Burn(fuse));
        RunBodyPending(b.inner, node.kids, Executing, false, Burn(fuse));
        if s.exit.Normal? {
          RunBodyPending(b.rest, node.rest, ExecutingChildren, true, s.fuse);
        }
      }
    }
  }

  /** Every cycle, wherever it throws, completes at least one more tracker. */
  lemma {:induction false} CycleMakesProgress(b: Body, t: TestCase, fuse: int)
    requires TestCaseShape(b, t) && !t.state.IsComplete()
    ensures TestCasePending(b, RunCycle(b, t, fuse).0) < TestCasePending(b, t)
  {
    RunBodyShape(b, t.kids, Executing, false, fuse);
    RunBodyPending(b, t.kids, Executing, false, fuse);
  }

  /** The cycles of one test case, from state `t`; `inputs(k)` governs cycle k. */
  ghost function Run(b: Body, t: TestCase, inputs: nat -> CycleInput, k: nat): (r: (TestCase, seq<Report>))
    requires TestCaseShape(b, t) && !t.state.IsComplete()
    ensures TestCaseShape(b, r.0) && |r.1| > 0
    decreases TestCasePending(b, t)
  {
    CycleKeepsShape(b, t, inputs(k).fuse);
    CycleMakesProgress(b, t, inputs(k).fuse);
    var (t1, report) := RunCycle(b, t, inputs(k).fuse);
    if t1.state.IsComplete() || inputs(k).abort then (t1, [report])
    else
      var (t2, reports) := Run(b, t1, inputs, k + 1);
      (t2, [report] + reports)
  }

  /** The loop, one cycle at a time. */
  lemma RunUnfolds(b: Body, t: TestCase, inputs: nat -> CycleInput, k: nat, before: seq<Report>)
    requires TestCaseShape(b, t) && !t.state.IsComplete()
    ensures var (t1, report) := RunCycle(b, t, inputs(k).fuse);
            && TestCaseShape(b, t1) && TestCasePending(b, t1) < TestCasePending(b, t)
            && before + Run(b, t, inputs, k).1 ==
                 if t1.state.IsComplete() || inputs(k).abort then before + [report]
                 else before + [report] + Run(b, t1, inputs, k + 1).1
  {
    CycleKeepsShape(b, t, inputs(k).fuse);
    CycleMakesProgress(b, t, inputs(k).fuse);
  }

  /** A test case is done within one cycle per section plus one, whatever is thrown. */
  lemma {:induction false} CyclesAreBounded(b: Body, t: TestCase, inputs: nat -> CycleInput, k: nat)
    requires TestCaseShape(b, t) && !t.state.IsComplete()
    ensures |Run(b, t, inputs, k).1| + TestCasePending(b, Run(b, t, inputs, k).0) <= TestCasePending(b, t)
    decreases TestCasePending(b, t)
  {
    CycleKeepsShape(b, t, inputs(k).fuse);
    CycleMakesProgress(b, t, inputs(k).fuse);
    var t1 := RunCycle(b, t, inputs(k).fuse).0;
    if !t1.state.IsComplete() && !inputs(k).abort {
      CyclesAreBounded(b, t1, inputs, k + 1);
    }
  }

  /** Without an abort the loop ends only when the test case has completed successfully. */
  lemma {:induction false} RunCompletes(b: Body, t: TestCase, inputs: nat -> CycleInput, k: nat)
    requires TestCaseShape(b, t) && !t.state.IsComplete()
    requires forall n :: !inputs(n).abort
    ensures Run(b, t, inputs, k).0.state == CompletedSuccessfully
    decreases TestCasePending(b, t)
  {
    CycleKeepsShape(b, t, inputs(k).fuse);
    CycleMakesProgress(b, t, inputs(k).fuse);
    var t1 := RunCycle(b, t, inputs(k).fuse).0;
    if !t1.state.IsComplete() {
      RunCompletes(b, t1, inputs, k + 1);
    }
  }

  // ----- no section in which a cycle ended is entered again -----

  /** The section at path `p` has a completed tracker. */
  ghost predicate CompleteAt(b: Body, f: Forest, p: seq<string>)
    decreases b
  {
    && p != [] && b.Section? && f.Tree?
    && (if b.name == p[0]
        then (if |p| == 1 then f.state.IsComplete() else CompleteAt(b.inner, f.kids, p[1..]))
        else CompleteAt(b.rest, f.rest, p))
  }

  lemma {:induction false} LogStartsWithSibling(b: Body, f: Forest, own: CycleState, done: bool, fuse: int)
    requires Entry(b, f, own, done)
    ensures var r := RunBody(b, f, own, done, fuse);
            r.log != [] ==> r.log[0] in SiblingNames(b)
    decreases b
  {
    if fuse == 0 || b.End? {
    } else {
      var node := Acquired(b.name, f);
      if done || node.state.IsComplete() {
        LogStartsWithSibling(b.rest, node.rest, own, done, Burn(fuse));
      }
    }
  }

  /** Once a section has opened, the pass enters nothing beside it. */
  lemma {:induction false} LogOfOpenedSection(b: Body, f: Forest, own: CycleState, fuse: int)
    requires Entry(b, f, own, false) && fuse != 0 && b.Section?
    requires !Acquired(b.name, f).state.IsComplete()
    ensures var s := RunBody(b.inner, Acquired(b.name, f).kids, Executing, false, Burn(fuse));
            RunBody(b, f, own, false, fuse).log == [b.name] + s.log
  {
    var node := Acquired(b.name, f);
    var s := RunBody(b.inner, node.kids, Executing, false, Burn(fuse));
    if s.exit.Normal? {
      RunBodyShape(b.rest, node.rest, ExecutingChildren, true, s.fuse);
    }
  }

  lemma TailDecidesPrefix(name: string, p: seq<string>, log: seq<string>)
    requires p != [] && !(p[1..] <= log)
    ensures !(p <= [name] + log)
  {
    var q := [name] + log;
    if |p| <= |q| {
      assert q[..|p|][1..] == log[..|p| - 1];
    }
  }

  /** Completed sections stay complete and are not entered. */
  lemma {:induction false} CompleteStaysComplete(
    b: Body, f: Forest, own: CycleState, done: bool, fuse: int, p: seq<string>)
    requires Entry(b, f, own, done) && DistinctNames(b) && CompleteAt(b, f, p)
    ensures var r := RunBody(b, f, own, done, fuse);
            CompleteAt(b, r.forest, p) && !(p <= r.log)
    decreases b
  {
    if fuse == 0 {
    } else {
      var r := RunBody(b, f, own, done, fuse);
      if done || f.state.IsComplete() {
        LogStartsWithSibling(b.rest, f.rest, own, done, Burn(fuse));
        if p[0] != b.name {
          CompleteStaysComplete(b.rest, f.rest, own, done, Burn(fuse), p);
        }
      } else {
        LogOfOpenedSection(b, f, own, fuse);
        var s := RunBody(b.inner, f.kids, Executing, false, Burn(fuse));
        RunBodyShape(b.inner, f.kids, Executing, false, Burn(fuse));
        if p[0] == b.name {
          CompleteStaysComplete(b.inner, f.kids, Executing, false, Burn(fuse), p[1..]);
          TailDecidesPrefix(b.name, p, s.log);
        } else if s.exit.Normal? {
          CompleteStaysComplete(b.rest, f.rest, ExecutingChildren, true, s.fuse, p);
        }
      }
    }
  }

  /** The innermost section a cycle enters is complete when the cycle has ended. */
  lemma {:induction false} InnermostCompletes(b: Body, f: Forest, own: CycleState, done: bool, fuse: int)
    requires Entry(b, f, own, done) && DistinctNames(b)
    ensures var r := RunBody(b, f, own, done, fuse);
            r.log != [] ==> CompleteAt(b, r.forest, r.log)
    decreases b
  {
    if fuse == 0 || b.End? {
    } else {
      var node := Acquired(b.name, f);
      var r := RunBody(b, f, own, done, fuse);
      if done || node.state.IsComplete() {
        SkippedSection(b, f, own, done, fuse);
        InnermostCompletes(b.rest, node.rest, own, done, Burn(fuse));
        LogStartsWithSibling(b.rest, node.rest, own, done, Burn(fuse));
      } else {
        LogOfOpenedSection(b, f, own, fuse);
        var s := RunBody(b.inner, node.kids, Executing, false, Burn(fuse));
        RunBodyShape(b.inner, node.kids, Executing, false, Burn(fuse));
        InnermostCompletes(b.inner, node.kids, Executing, false, Burn(fuse));
        assert r.log[1..] == s.log;
      }
    }
  }

  lemma {:induction false} CompleteStaysCompleteInRun(
    b: Body, t: TestCase, inputs: nat -> CycleInput, k: nat, p: seq<string>, i: nat)
    requires TestCaseShape(b, t) && !t.state.IsComplete() && DistinctNames(b)
    requires CompleteAt(b, t.kids, p)
    requires i < |Run(b, t, inputs, k).1|
    ensures !(p <= Run(b, t, inputs, k).1[i].path)
    decreases i
  {
    CycleKeepsShape(b, t, inputs(k).fuse);
    CompleteStaysComplete(b, t.kids, Executing, false, inputs(k).fuse, p);
    if i > 0 {
      CompleteStaysCompleteInRun(b, RunCycle(b, t, inputs(k).fuse).0, inputs, k + 1, p, i - 1);
    }
  }

  /** Whatever is thrown, the section in which one cycle ends, and so every leaf it enters, is
      never entered by a later cycle. */
  lemma {:induction false} NoSectionRunsTwice(b: Body, t: TestCase, inputs: nat -> CycleInput, k: nat, i: nat, j: nat)
    requires TestCaseShape(b, t) && !t.state.IsComplete() && DistinctNames(b)
    requires i < j < |Run(b, t, inputs, k).1|
    ensures !(Run(b, t, inputs, k).1[i].path <= Run(b, t, inputs, k).1[j].path)
    decreases i
  {
    var fuse := inputs(k).fuse;
    CycleKeepsShape(b, t, fuse);
    var (t1, report) := RunCycle(b, t, fuse);
    if i > 0 {
      NoSectionRunsTwice(b, t1, inputs, k + 1, i - 1, j - 1);
    } else {
      RunBodyShape(b, t.kids, Executing, false, fuse);
      InnermostCompletes(b, t.kids, Executing, false, fuse);
      CompleteStaysCompleteInRun(b, t1, inputs, k + 1, report.path, j - 1);
    }
  }
}
