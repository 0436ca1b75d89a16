/** The run loop: what a test body calls when it enters and leaves sections, and the cycles. */
module RunContext {
  import opened Options
  import opened SectionSpec
  import opened SectionTheorems
  import opened TestCaseTracking
  import opened TrackerPasses
  import opened A = TrackerArena

  ghost function Ids(trackers: seq<SectionTracker>): seq<nat> {
    seq(|trackers|, i requires 0 <= i < |trackers| => trackers[i].id)
  }

  lemma IdsPushed(trackers: seq<SectionTracker>, t: SectionTracker)
    ensures Ids(trackers + [t]) == Ids(trackers) + [t.id]
  {
  }

  lemma IdsPopped(trackers: seq<SectionTracker>)
    requires trackers != []
    ensures Ids(trackers[..|trackers| - 1]) == Ids(trackers)[..|trackers| - 1]
  {
  }

  /** Acquiring a tracker keeps the path to the current one, and opens it or not. */
  lemma AcquireOnPath(a: A.Arena, p: nat, name: string, done: bool, base: nat, path: seq<nat>)
    requires A.WellFormed(a) && p < |a| && A.IsPath(a, base, path, p)
    requires done ==> var (a1, c) := A.FindOrAdd(a, p, name); !a1[c].state.IsOpen()
    ensures var (a1, c) := A.FindOrAdd(a, p, name);
            var (a2, _) := A.Acquire(a, p, name, done);
            && |a| <= |a2|
            && A.IsPath(a2, base, path, p)
            && (a2[c].state.IsOpen() <==> !done && !a1[c].state.IsComplete())
            && A.IsPath(a2, base, path + [c], c)
            && (base < |a| ==> a2[base].parent == a[base].parent)
  {
    var (a1, c) := A.FindOrAdd(a, p, name);
    var (a2, _) := A.Acquire(a, p, name, done);
    A.IsPathKept(a, a2, base, path, p);
    assert (path + [c])[..|path|] == path;
    assert a2[c].parent == p;
  }

  class RunContext {
    const ctx: TrackerContext
    var testCaseTracker: SectionTracker?
    var activeSections: seq<SectionTracker>

    /** Sections left by an exception, kept to be reported once unwinding is over. */
    var unfinishedSections: seq<string>

    /** The active sections are the tracker path from the test case to the current tracker. */
    ghost predicate Valid()
      reads this, ctx, ctx.nodes
    {
      && ctx.Valid() && ctx.currentTracker != null && ctx.Has(testCaseTracker)
      && ctx.arena[testCaseTracker.id].parent >= 0
      && (forall t <- activeSections :: ctx.Has(t))
      && A.IsPath(ctx.arena, testCaseTracker.id, Ids(activeSections), ctx.currentTracker.id)
    }

    constructor ()
      ensures fresh(ctx) && ctx.Valid() && ctx.nodes == []
      ensures activeSections == [] && unfinishedSections == [] && testCaseTracker == null
    {
      ctx := new TrackerContext();
      testCaseTracker, activeSections, unfinishedSections := null, [], [];
    }

    /** Called as a section is reached; says whether its body is to be run. A completed cycle
        must have no open section ahead, for the answer is read off the tracker's state. */
    method SectionStarted(name: string) returns (started: bool)
      requires Valid()
      requires ctx.HasCompletedCycle() ==>
                 var (a, c) := A.FindOrAdd(ctx.arena, ctx.currentTracker.id, name); !a[c].state.IsOpen()
      modifies ctx`nodes, ctx`arena, ctx`trackers, ctx`currentTracker, ctx.trackers, this`activeSections
      ensures Valid() && fresh(ctx.trackers - old(ctx.trackers))
      ensures ctx.runState == old(ctx.runState)
      ensures var (a, c) := A.Acquire(old(ctx.arena), old(ctx.currentTracker.id), name, ctx.HasCompletedCycle());
              ctx.arena == a && (started ==> ctx.currentTracker.id == c)
      ensures var (a, c) := A.FindOrAdd(old(ctx.arena), old(ctx.currentTracker.id), name);
              started == (!ctx.HasCompletedCycle() && !a[c].state.IsComplete())
      ensures started ==> activeSections == old(activeSections) + [ctx.currentTracker]
                          && ctx.currentTracker.parent == old(ctx.currentTracker)
      ensures !started ==> activeSections == old(activeSections) && ctx.currentTracker == old(ctx.currentTracker)
    {
      hide Open, IsPath;
      ghost var a0, p, base := ctx.arena, ctx.currentTracker.id, testCaseTracker.id;
      var tracker := SectionTracker.Acquire(ctx, name);
      AcquireOnPath(a0, p, name, ctx.HasCompletedCycle(), base, Ids(activeSections));
      assert forall t <- activeSections :: old(ctx.Has(t));
      started := IsOpenNow(tracker);
      if started {
        IdsPushed(activeSections, tracker);
        activeSections := activeSections + [tracker];
      }
    }

    method IsOpenNow(tracker: SectionTracker) returns (open: bool)
      requires ctx.Valid() && ctx.Has(tracker)
      ensures open == ctx.arena[tracker.id].state.IsOpen()
    {
      tracker.Links();
      return tracker.IsOpen();
    }

    /** The innermost active section is the current tracker. */
    lemma BackIsCurrent()
      requires Valid() && activeSections != []
      ensures var back := activeSections[|activeSections| - 1];
              && back == ctx.currentTracker && back.Live() && ctx.arena[back.id].parent >= 0
              && A.Above(ctx.arena, back.id, back.id)
              && A.IsPath(ctx.arena, testCaseTracker.id, Ids(activeSections[..|activeSections| - 1]), ctx.arena[back.id].parent)
              && (forall t <- activeSections[..|activeSections| - 1] :: ctx.Has(t))
    {
      var back := activeSections[|activeSections| - 1];
      assert back in activeSections;
      IdsPopped(activeSections);
    }

    /** Called as a section ends normally. With no active section, as after an unwinding, there
        is nothing to close. The result is false where closing finds an illogical state. */
    method SectionEnded() returns (ok: bool)
      requires ctx.Valid() && (activeSections != [] ==> Valid())
      modifies ctx.trackers`state, ctx`arena, ctx`currentTracker, ctx`runState, this`activeSections
      ensures old(activeSections) == [] ==>
                ok && ctx.Valid() && ctx.arena == old(ctx.arena) && activeSections == []
                && ctx.currentTracker == old(ctx.currentTracker) && ctx.runState == old(ctx.runState)
      ensures old(activeSections) != [] ==>
                var r := A.CloseCurrent(old(ctx.arena), old(ctx.currentTracker.id));
                && ok == r.Some?
                && (ok ==> Valid() && ctx.arena == r.value && ctx.HasCompletedCycle() && ctx.currentTracker == old(ctx.currentTracker).parent
                           && activeSections == old(activeSections[..|activeSections| - 1]))
    {
      ok := true;
      if activeSections != [] {
        ok := CloseBack();
      }
    }

    method CloseBack() returns (ok: bool)
      requires Valid() && activeSections != []
      modifies ctx.trackers`state, ctx`arena, ctx`currentTracker, ctx`runState, this`activeSections
      ensures var r := A.CloseCurrent(old(ctx.arena), old(ctx.currentTracker.id));
              && ok == r.Some?
              && (ok ==> Valid() && ctx.arena == r.value && ctx.HasCompletedCycle() && ctx.currentTracker == old(ctx.currentTracker).parent
                         && activeSections == old(activeSections[..|activeSections| - 1]))
    {
      BackIsCurrent();
      ghost var a, base, rest := ctx.arena, testCaseTracker.id, Ids(activeSections[..|activeSections| - 1]);
      var back := activeSections[|activeSections| - 1];
      back.Links();
      ok := back.Close();
      if ok {
        A.IsPathKept(a, ctx.arena, base, rest, a[back.id].parent);
        assert forall t <- activeSections[..|activeSections| - 1] :: old(ctx.Has(t));
        activeSections := activeSections[..|activeSections| - 1];
      }
    }

    /** Called as a section is left by an exception. */
    method SectionEndedEarly(name: string) returns (ok: bool)
      requires Valid() && activeSections != []
      modifies ctx.trackers`state, ctx`arena, ctx`currentTracker, ctx`runState, this`activeSections, this`unfinishedSections
      ensures var r := if old(unfinishedSections) == []
                       then Some(A.Fail(old(ctx.arena), old(ctx.currentTracker.id)))
                       else A.CloseCurrent(old(ctx.arena), old(ctx.currentTracker.id));
              && ok == r.Some?
              && (ok ==> Valid() && ctx.arena == r.value && ctx.HasCompletedCycle() && ctx.currentTracker == old(ctx.currentTracker).parent
                         && activeSections == old(activeSections[..|activeSections| - 1]))
      ensures ok ==> unfinishedSections == old(unfinishedSections) + [name]
    {
      if unfinishedSections == [] {
        FailBack();
        ok := true;
      } else {
        ok := CloseBack();
      }
      unfinishedSections := unfinishedSections + [name];
    }

    method FailBack()
      requires Valid() && activeSections != []
      modifies ctx.trackers`state, ctx`arena, ctx`currentTracker, ctx`runState, this`activeSections
      ensures old(ctx.arena[ctx.currentTracker.id].parent) >= 0
      ensures Valid() && ctx.arena == A.Fail(old(ctx.arena), old(ctx.currentTracker.id)) && ctx.HasCompletedCycle()
      ensures ctx.currentTracker == old(ctx.currentTracker).parent
      ensures activeSections == old(activeSections[..|activeSections| - 1])
    {
      BackIsCurrent();
      ghost var a, base, rest := ctx.arena, testCaseTracker.id, Ids(activeSections[..|activeSections| - 1]);
      var back := activeSections[|activeSections| - 1];
      back.Links();
      back.Fail();
      A.IsPathKept(a, ctx.arena, base, rest, a[back.id].parent);
      assert forall t <- activeSections[..|activeSections| - 1] :: old(ctx.Has(t));
      activeSections := activeSections[..|activeSections| - 1];
    }

    // ----- the test body -----

    /** The state of the pass agrees with outcome `o`. */
    ghost predicate Agrees(o: Outcome, threw: bool, fuse: int, log: seq<string>)
      reads this, ctx
    {
      && ctx.HasCompletedCycle() == o.done && fuse == o.fuse && log == o.log
      && threw == o.exit.Unwinding?
      && |unfinishedSections| == (if o.exit.Unwinding? then o.exit.unfinished else 0)
    }

    ghost predicate ReadyFor(b: Body, k: nat)
      reads this, ctx, ctx.nodes
    {
      Valid() && unfinishedSections == [] && Ready(ctx.arena, ctx.currentTracker.id, k, b, ctx.HasCompletedCycle())
    }

    /** One SECTION block: the `Section` object asks whether to run, the block runs, and the
        object's destructor reports how it was left. */
    method RunSection(b: Body, fuse: int, ghost k: nat) returns (threw: bool, fuse': int, log: seq<string>, ok: bool)
      requires ReadyFor(b, k) && b.Section?
      modifies this`activeSections, this`unfinishedSections, ctx`nodes, ctx`arena, ctx`trackers, ctx`currentTracker, ctx`runState, ctx.trackers
      ensures Valid() && ok && fresh(ctx.trackers - old(ctx.trackers))
      ensures ctx.currentTracker == old(ctx.currentTracker) && activeSections == old(activeSections)
      ensures var h := SectionOutcome(old(ctx.arena), old(ctx.currentTracker.id), k, b, old(ctx.HasCompletedCycle()), fuse);
              SectionPassed(old(ctx.arena), ctx.arena, ctx.currentTracker.id, k, b, h) && Agrees(h, threw, fuse', log)
      decreases b, 0, 1
    {
      hide Frame, Extends, View, Shape, AncestorsOpen, WellFormed, SectionPassed, FindOrAdd, Open;
      ghost var a, t := ctx.arena, ctx.currentTracker;
      var included := StartSection(b, k);
      if included {
        threw, fuse', log, ok := RunIncluded(b, fuse, k, a, t, old(activeSections));
      } else {
        SectionSkipped(a, t.id, k, b, ctx.HasCompletedCycle(), fuse);
        threw, fuse', log, ok := false, fuse, [], true;
      }
    }

    /** The constructor of a `Section`, at a position of the pass. */
    method StartSection(b: Body, ghost k: nat) returns (included: bool)
      requires ReadyFor(b, k) && b.Section?
      modifies ctx`nodes, ctx`arena, ctx`trackers, ctx`currentTracker, ctx.trackers, this`activeSections
      ensures Valid() && fresh(ctx.trackers - old(ctx.trackers))
      ensures ctx.HasCompletedCycle() == old(ctx.HasCompletedCycle())
      ensures included == Opens(old(ctx.arena), old(ctx.currentTracker.id), k, b, ctx.HasCompletedCycle())
      ensures var (a1, c) := FindOrAdd(old(ctx.arena), old(ctx.currentTracker.id), b.name);
              if included then
                ctx.arena == Open(a1, c) && ctx.currentTracker.id == c && ctx.currentTracker.parent == old(ctx.currentTracker)
                && activeSections == old(activeSections) + [ctx.currentTracker]
              else
                ctx.arena == a1 && ctx.currentTracker == old(ctx.currentTracker) && activeSections == old(activeSections)
    {
      SectionSkipped(ctx.arena, ctx.currentTracker.id, k, b, ctx.HasCompletedCycle(), 0);
      included := SectionStarted(b.name);
    }

    /** The block of a section that has just opened, below tracker `t` and with the sections
        `outer` active around it. */
    method RunIncluded(b: Body, fuse: int, ghost k: nat, ghost a: Arena, ghost t: SectionTracker, ghost outer: seq<SectionTracker>)
      returns (threw: bool, fuse': int, log: seq<string>, ok: bool)
      requires Valid() && unfinishedSections == [] && !ctx.HasCompletedCycle()
      requires Ready(a, t.id, k, b, false) && b.Section? && Opens(a, t.id, k, b, false)
      requires var (a1, c) := FindOrAdd(a, t.id, b.name); ctx.arena == Open(a1, c) && ctx.currentTracker.id == c
      requires ctx.currentTracker.parent == t && activeSections == outer + [ctx.currentTracker]
      modifies this`activeSections, this`unfinishedSections, ctx`nodes, ctx`arena, ctx`trackers, ctx`currentTracker, ctx`runState, ctx.trackers
      ensures Valid() && ok && fresh(ctx.trackers - old(ctx.trackers))
      ensures ctx.currentTracker == t && activeSections == outer
      ensures var h := SectionOutcome(a, t.id, k, b, false, fuse);
              SectionPassed(a, ctx.arena, t.id, k, b, h) && Agrees(h, threw, fuse', log)
      decreases b, 0, 0
    {
      hide Frame, Extends, View, Shape, AncestorsOpen, WellFormed, SectionPassed, FindOrAdd, Open;
      OpenedIsReady(a, t.id, k, b);
      threw, fuse', log, ok := RunBody(b.inner, fuse, 0);
      log := [b.name] + log;
      LeavingSection(a, t.id, k, b, fuse, ctx.arena);
      IncludedOutcome(a, t.id, k, b, fuse);
      ok := LeaveSection(b.name, threw);
      assert (outer + [old(ctx.currentTracker)])[..|outer|] == outer;
    }

    /** The destructor of a `Section` that was included. */
    method LeaveSection(name: string, threw: bool) returns (ok: bool)
      requires Valid() && activeSections != []
      modifies ctx.trackers`state, ctx`arena, ctx`currentTracker, ctx`runState, this`activeSections, this`unfinishedSections
      ensures var r := if threw && old(unfinishedSections) == []
                       then Some(A.Fail(old(ctx.arena), old(ctx.currentTracker.id)))
                       else A.CloseCurrent(old(ctx.arena), old(ctx.currentTracker.id));
              && ok == r.Some?
              && (ok ==> Valid() && ctx.arena == r.value && ctx.HasCompletedCycle() && ctx.currentTracker == old(ctx.currentTracker).parent
                         && activeSections == old(activeSections[..|activeSections| - 1]))
      ensures ok ==> unfinishedSections == old(unfinishedSections) + (if threw then [name] else [])
    {
      if threw {
        ok := SectionEndedEarly(name);
      } else {
        ok := SectionEnded();
      }
    }

    /** A test body, from some point on. Every program point may be the one that throws. */
    method RunBody(b: Body, fuse: int, ghost k: nat) returns (threw: bool, fuse': int, log: seq<string>, ok: bool)
      requires ReadyFor(b, k)
      modifies this`activeSections, this`unfinishedSections, ctx`nodes, ctx`arena, ctx`trackers, ctx`currentTracker, ctx`runState, ctx.trackers
      ensures Valid() && ok && fresh(ctx.trackers - old(ctx.trackers))
      ensures ctx.currentTracker == old(ctx.currentTracker) && activeSections == old(activeSections)
      ensures var r := SectionSpec.RunBody(b, View(old(ctx.arena), old(ctx.currentTracker.id), k),
                                           old(ctx.arena[ctx.currentTracker.id].state), old(ctx.HasCompletedCycle()), fuse);
              Passed(old(ctx.arena), ctx.arena, ctx.currentTracker.id, k, r) && Agrees(r, threw, fuse', log)
      decreases b, 1
    {
      if fuse == 0 || b.End? {
        TrivialPass(ctx.arena, ctx.currentTracker.id, k, b, ctx.HasCompletedCycle(), fuse);
        return fuse == 0, if fuse == 0 then fuse else Burn(fuse), [], true;
      }
      threw, fuse', log, ok := RunSections(b, fuse, k);
    }

    method RunSections(b: Body, fuse: int, ghost k: nat) returns (threw: bool, fuse': int, log: seq<string>, ok: bool)
      requires ReadyFor(b, k) && b.Section? && fuse != 0
      modifies this`activeSections, this`unfinishedSections, ctx`nodes, ctx`arena, ctx`trackers, ctx`currentTracker, ctx`runState, ctx.trackers
      ensures Valid() && ok && fresh(ctx.trackers - old(ctx.trackers))
      ensures ctx.currentTracker == old(ctx.currentTracker) && activeSections == old(activeSections)
      ensures var r := SectionSpec.RunBody(b, View(old(ctx.arena), old(ctx.currentTracker.id), k),
                                           old(ctx.arena[ctx.currentTracker.id].state), old(ctx.HasCompletedCycle()), fuse);
              Passed(old(ctx.arena), ctx.arena, ctx.currentTracker.id, k, r) && Agrees(r, threw, fuse', log)
      decreases b, 0, 2
    {
      hide SectionSpec.RunBody, View;
      ghost var a, t, done := ctx.arena, ctx.currentTracker.id, ctx.HasCompletedCycle();
      threw, fuse', log, ok := RunSection(b, Burn(fuse), k);
      ghost var a1 := ctx.arena;
      if !threw {
        RestIsReady(a, a1, t, k, b, done, Burn(fuse));
        var later;
        threw, fuse', later, ok := RunBody(b.rest, fuse', k + 1);
        log := log + later;
      }
      PassComposed(a, a1, ctx.arena, t, k, b, done, fuse);
      PassReports(a, t, k, b, done, fuse);
    }

    // ----- cycles -----

    /** Ends the sections kept back during unwinding. None is active any more, so this closes
        no tracker. */
    method HandleUnfinishedSections() returns (ok: bool)
      requires ctx.Valid() && activeSections == []
      modifies ctx.trackers`state, ctx`arena, ctx`currentTracker, ctx`runState, this`activeSections, this`unfinishedSections
      ensures ok && ctx.Valid() && activeSections == [] && unfinishedSections == []
      ensures ctx.arena == old(ctx.arena) && ctx.currentTracker == old(ctx.currentTracker)
    {
      ok := true;
      var i := |unfinishedSections|;
      while i > 0
        invariant 0 <= i && ok && ctx.Valid() && activeSections == []
        invariant ctx.arena == old(ctx.arena) && ctx.currentTracker == old(ctx.currentTracker)
      {
        i := i - 1;
        ok := SectionEnded();
      }
      unfinishedSections := [];
    }

    /** Runs the body once. `inner` is the arena when the body has been left and the tracker of
        the test case is about to be closed. */
    method RunCurrentTest(b: Body, fuse: int) returns (report: Report, ok: bool, ghost inner: Arena)
      requires ReadyFor(b, 0) && !ctx.HasCompletedCycle()
      requires activeSections == [] && ctx.currentTracker == testCaseTracker
      modifies this`activeSections, this`unfinishedSections, ctx`nodes, ctx`arena, ctx`trackers, ctx`currentTracker, ctx`runState, ctx.trackers
      ensures ctx.Valid() && ctx.Has(testCaseTracker) && fresh(ctx.trackers - old(ctx.trackers)) && activeSections == [] && (ok ==> unfinishedSections == [])
      ensures var r := SectionSpec.RunBody(b, View(old(ctx.arena), testCaseTracker.id, 0),
                                           old(ctx.arena[testCaseTracker.id].state), false, fuse);
              && Passed(old(ctx.arena), inner, testCaseTracker.id, 0, r)
              && report == Report(r.log, r.exit)
      ensures var r := A.CloseCurrent(inner, testCaseTracker.id);
              ok == r.Some? && (ok ==> ctx.arena == r.value)
    {
      var threw, fuse', log;
      threw, fuse', log, ok := RunBody(b, fuse, 0);
      report := Report(log, if threw then Unwinding(|unfinishedSections|) else Normal);
      inner := ctx.arena;
      ok := CloseTestCase();
    }

    method CloseTestCase() returns (ok: bool)
      requires Valid() && activeSections == []
      modifies ctx.trackers`state, ctx`arena, ctx`currentTracker, ctx`runState, this`activeSections, this`unfinishedSections
      ensures ctx.Valid() && ctx.Has(testCaseTracker) && activeSections == []
      ensures var r := A.CloseCurrent(old(ctx.arena), testCaseTracker.id);
              ok == r.Some? && (ok ==> ctx.arena == r.value && unfinishedSections == [])
    {
      ok := testCaseTracker.Close();
      if ok {
        ok := HandleUnfinishedSections();
      }
    }

    /** Acquires the tracker of the test case for a new cycle. */
    method StartCycle(name: string, ghost b: Body, ghost t: TestCase)
      requires ctx.Valid() && ctx.rootTracker != null && activeSections == []
      requires Holds(ctx.arena, name, t) && TestCaseShape(b, t) && !t.state.IsComplete() && DistinctNames(b)
      modifies this`testCaseTracker, ctx`nodes, ctx`arena, ctx`trackers, ctx`currentTracker, ctx`runState, ctx.trackers
      ensures Valid() && fresh(ctx.trackers - old(ctx.trackers)) && ctx.rootTracker != null && !ctx.HasCompletedCycle()
      ensures ctx.arena == A.Acquire(old(ctx.arena), 0, name, false).0
      ensures ctx.currentTracker == testCaseTracker && testCaseTracker.id == 1
    {
      hide Frame, View, Shape, AncestorsOpen, Entry, Open, AllFresh;
      ctx.StartCycle();
      CycleStarts(ctx.arena, name, b, t);
      hide Holds, Ready, TestCaseShape, DistinctNames;
      testCaseTracker := SectionTracker.Acquire(ctx, name);
    }

    /** Between two cycles of a test case in state `t`. */
    ghost predicate BetweenCycles(name: string, b: Body, t: TestCase)
      reads this, ctx, ctx.nodes
    {
      && ctx.Valid() && ctx.rootTracker != null && activeSections == [] && unfinishedSections == []
      && Holds(ctx.arena, name, t) && TestCaseShape(b, t) && DistinctNames(b)
    }

    method RunOneCycle(name: string, b: Body, fuse: int, ghost t: TestCase) returns (report: Report, complete: bool, ok: bool)
      requires BetweenCycles(name, b, t) && !t.state.IsComplete()
      modifies this`testCaseTracker, this`activeSections, this`unfinishedSections
      modifies ctx`nodes, ctx`arena, ctx`trackers, ctx`currentTracker, ctx`runState, ctx.trackers
      ensures ok && fresh(ctx.trackers - old(ctx.trackers))
      ensures var (t1, r) := SectionSpec.RunCycle(b, t, fuse);
              BetweenCycles(name, b, t1) && report == r && complete == t1.state.CompletedSuccessfully?
    {
      hide Frame, Extends, View, Shape, AncestorsOpen, WellFormed, Passed, Holds;
      CycleStarts(ctx.arena, name, b, t);
      StartCycle(name, b, t);
      ghost var a2 := ctx.arena;
      ghost var a3;
      report, ok, a3 := RunCurrentTest(b, fuse);
      CycleEnds(a2, a3, name, b, t, fuse);
      CycleKeepsShape(b, t, fuse);
      complete := IsSuccessfullyCompleted();
    }

    method IsSuccessfullyCompleted() returns (complete: bool)
      requires ctx.Valid() && ctx.Has(testCaseTracker)
      ensures complete == ctx.arena[testCaseTracker.id].state.CompletedSuccessfully?
    {
      testCaseTracker.Links();
      return testCaseTracker.state == CompletedSuccessfully;
    }

    /** The cycles of one run: until it has completed successfully, or the run aborts. */
    method RunCycles(name: string, b: Body, inputs: nat -> CycleInput) returns (reports: seq<Report>, ok: bool)
      requires DistinctNames(b) && activeSections == [] && unfinishedSections == []
      modifies this, ctx
      ensures ok && activeSections == [] && unfinishedSections == []
      ensures reports == Run(b, FRESH_TEST_CASE, inputs, 0).1
    {
      ctx.StartRun();
      reports, ok := [], true;
      var k, again := 0, true;
      ghost var t := FRESH_TEST_CASE;
      while again
        invariant ok && fresh(ctx.trackers) && BetweenCycles(name, b, t)
        invariant again ==> !t.state.IsComplete()
        invariant Run(b, FRESH_TEST_CASE, inputs, 0).1 == if again then reports + Run(b, t, inputs, k).1 else reports
        decreases if again then 1 + TestCasePending(b, t) else 0
      {
        RunUnfolds(b, t, inputs, k, reports);
        var report, complete;
        report, complete, ok := RunOneCycle(name, b, inputs(k).fuse, t);
        t := SectionSpec.RunCycle(b, t, inputs(k).fuse).0;
        again := !complete && !inputs(k).abort;
        reports := reports + [report];
        k := k + 1;
      }
    }
  }
}
