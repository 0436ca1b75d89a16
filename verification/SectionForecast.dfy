/** What a cycle will do, told before it runs from the body, the trackers discovered so far and
    the program point that throws. `SectionSpec` runs the cycle; here only points are counted. */
module SectionForecast {
  import opened Options
  import opened SectionSpec
  import opened SectionTheorems

  // ----- the forecast -----

  /** The program points of a body in which no section opens: one before each, one at the end. */
  function Statements(b: Body): nat {
    if b.End? then 1 else 1 + Statements(b.rest)
  }

  /** The program points of a pass in which the first incomplete section opens. */
  function PassLength(b: Body, f: Forest): nat
    decreases b
  {
    match b
    case End => 1
    case Section(name, inner, rest) =>
      var node := Acquired(name, f);
      1 + if node.state.IsComplete() then PassLength(rest, node.rest) else PassLength(inner, node.kids) + Statements(rest)
  }

  /** The sections entered by the time `fuse` points have passed, outermost first. */
  function EnteredBy(b: Body, f: Forest, fuse: int): seq<string>
    decreases b
  {
    if fuse == 0 || b.End? then []
    else
      var node := Acquired(b.name, f);
      if node.state.IsComplete() then EnteredBy(b.rest, node.rest, Burn(fuse))
      else [b.name] + EnteredBy(b.inner, node.kids, Burn(fuse))
  }

  /** The section whose own body throws after `fuse` points, as a path; the empty path is the
      body `b` itself, and None stands for a pass that does not get so far. */
  function ThrowsIn(b: Body, f: Forest, fuse: int): (q: Option<seq<string>>)
    ensures q.Some? <==> 0 <= fuse < PassLength(b, f)
    decreases b
  {
    if !(0 <= fuse < PassLength(b, f)) then None
    else if fuse == 0 || b.End? then Some([])
    else
      var node := Acquired(b.name, f);
      if node.state.IsComplete() then ThrowsIn(b.rest, node.rest, fuse - 1)
      else if fuse <= PassLength(b.inner, node.kids) then Some([b.name] + ThrowsIn(b.inner, node.kids, fuse - 1).value)
      else Some([])
  }

  /** A pass without an exception leaves no section incomplete: at most the first incomplete one
      is left to run, it is the last one, and the same holds inside it. */
  predicate Finishes(b: Body, f: Forest)
    decreases b
  {
    match b
    case End => true
    case Section(name, inner, rest) =>
      var node := Acquired(name, f);
      if node.state.IsComplete() then Finishes(rest, node.rest) else Finishes(inner, node.kids) && rest.End?
  }

  /** Of the sections discovered after `fuse` points, none stays incomplete: the one that opened
      is finished by this pass, and no other one had been reached behind it, now or before. */
  predicate FinishesDiscovered(b: Body, f: Forest, fuse: int)
    decreases b
  {
    if fuse == 0 || b.End? then AllComplete(f)
    else
      var node := Acquired(b.name, f);
      if node.state.IsComplete() then FinishesDiscovered(b.rest, node.rest, Burn(fuse))
      else Finishes(b.inner, node.kids) && node.rest.Nil? && fuse == 1 + PassLength(b.inner, node.kids)
  }

  /** The test case is complete after a cycle that throws in its own body. */
  predicate Abandons(b: Body, f: Forest, fuse: int) {
    ThrowsIn(b, f, fuse) == Some([]) && (EnteredBy(b, f, fuse) == [] || FinishesDiscovered(b, f, fuse))
  }

  /** The test case is complete after the cycle. */
  predicate CompletesIn(b: Body, f: Forest, fuse: int) {
    if ThrowsIn(b, f, fuse).None? then Finishes(b, f) else Abandons(b, f, fuse)
  }

  // ----- the forecast comes true -----

  /** Once a section has opened, the rest of a body only counts points. */
  lemma {:induction false} RestFollows(b: Body, f: Forest, own: CycleState, fuse: int)
    ensures var r := RunBody(b, f, own, true, fuse);
            && r.log == [] && r.own == own && r.done
            && if 0 <= fuse < Statements(b) then r.exit == Unwinding(0)
               else r.exit.Normal? && r.fuse == if fuse < 0 then fuse else fuse - Statements(b)
    decreases b
  {
    if fuse == 0 || b.End? {
    } else {
      SkippedSection(b, f, own, true, fuse);
      RestFollows(b.rest, Acquired(b.name, f).rest, own, Burn(fuse));
    }
  }

  /** How a pass agrees with its forecast. */
  ghost predicate Follows(b: Body, f: Forest, fuse: int, r: Outcome) {
    && r.log == EnteredBy(b, f, fuse)
    && match ThrowsIn(b, f, fuse)
       case None => r.exit.Normal? && r.fuse == if fuse < 0 then fuse else fuse - PassLength(b, f)
       case Some(q) => r.exit == Unwinding(|q|) && q <= r.log
  }

  lemma {:induction false} PassFollows(b: Body, f: Forest, own: CycleState, fuse: int)
    requires Entry(b, f, own, false)
    ensures Follows(b, f, fuse, RunBody(b, f, own, false, fuse))
    decreases b
  {
    if fuse == 0 || b.End? {
    } else {
      var node := Acquired(b.name, f);
      if node.state.IsComplete() {
        SkippedSection(b, f, own, false, fuse);
        PassFollows(b.rest, node.rest, own, Burn(fuse));
      } else {
        var s := RunBody(b.inner, node.kids, Executing, false, Burn(fuse));
        LogOfOpenedSection(b, f, own, fuse);
        PassFollows(b.inner, node.kids, Executing, Burn(fuse));
        RestFollows(b.rest, node.rest, ExecutingChildren, s.fuse);
      }
    }
  }

  /** After a body that was not left by an exception, closing completes the tracker exactly if
      all sections of the body are complete. */
  lemma ClosedIffAllComplete(b: Body, f: Forest, fuse: int)
    requires Shape(b, f) && ThrowsIn(b, f, fuse).None?
    ensures var s := RunBody(b, f, Executing, false, fuse);
            CloseState(s.own, s.forest).IsComplete() <==> AllComplete(s.forest)
  {
    var s := RunBody(b, f, Executing, false, fuse);
    PassFollows(b, f, Executing, fuse);
    RunBodyShape(b, f, Executing, false, fuse);
    hide RunBody;
    if s.own.ExecutingChildren? {
      LastMeansAll(b, s.forest);
    }
  }

  /** What comes behind a section that opened is complete exactly if nothing is there. */
  lemma {:induction false} RestIsFresh(b: Body, f: Forest, own: CycleState, fuse: int)
    requires Entry(b, f, own, true)
    ensures AllComplete(RunBody(b, f, own, true, fuse).forest) <==> f.Nil? && (b.End? || fuse == 0)
  {
    RunBodyShape(b, f, own, true, fuse);
  }

  /** The sections left by a body whose first section opened and was not left by an exception. */
  lemma OpenedSectionFollows(b: Body, f: Forest, own: CycleState, fuse: int)
    requires Entry(b, f, own, false) && b.Section? && fuse != 0 && !Acquired(b.name, f).state.IsComplete()
    requires ThrowsIn(b.inner, Acquired(b.name, f).kids, Burn(fuse)).None?
    ensures var node := Acquired(b.name, f);
            var s, r := RunBody(b.inner, node.kids, Executing, false, Burn(fuse)), RunBody(b, f, own, false, fuse);
            && r.own == ExecutingChildren
            && s.fuse == (if fuse < 0 then fuse else fuse - 1 - PassLength(b.inner, node.kids))
            && (AllComplete(r.forest) <==> AllComplete(s.forest) && node.rest.Nil? && (b.rest.End? || s.fuse == 0))
  {
    var node := Acquired(b.name, f);
    PassFollows(b.inner, node.kids, Executing, Burn(fuse));
    ClosedIffAllComplete(b.inner, node.kids, Burn(fuse));
    var s := RunBody(b.inner, node.kids, Executing, false, Burn(fuse));
    RestFollows(b.rest, node.rest, ExecutingChildren, s.fuse);
    RestIsFresh(b.rest, node.rest, ExecutingChildren, s.fuse);
  }

  /** A pass that is not left by an exception leaves every section complete exactly if it was to
      finish. */
  lemma {:induction false} FinishingPass(b: Body, f: Forest, own: CycleState, fuse: int)
    requires Entry(b, f, own, false) && ThrowsIn(b, f, fuse).None?
    ensures AllComplete(RunBody(b, f, own, false, fuse).forest) <==> Finishes(b, f)
    decreases b
  {
    if b.End? {
    } else {
      var node := Acquired(b.name, f);
      if node.state.IsComplete() {
        SkippedSection(b, f, own, false, fuse);
        FinishingPass(b.rest, node.rest, own, Burn(fuse));
      } else {
        OpenedSectionFollows(b, f, own, fuse);
        FinishingPass(b.inner, node.kids, Executing, Burn(fuse));
        assert b.rest.Section? ==> Statements(b.rest) > 0;
        assert Shape(b.rest, node.rest);
      }
    }
  }

  /** A pass left by an exception from the body itself, after a section has opened, leaves every
      section discovered complete exactly if it was to finish those. */
  lemma {:induction false} InterruptedPass(b: Body, f: Forest, own: CycleState, fuse: int)
    requires Entry(b, f, own, false) && ThrowsIn(b, f, fuse) == Some([]) && EnteredBy(b, f, fuse) != []
    ensures var r := RunBody(b, f, own, false, fuse);
            r.own == ExecutingChildren && (AllComplete(r.forest) <==> FinishesDiscovered(b, f, fuse))
    decreases b
  {
    var node := Acquired(b.name, f);
    if node.state.IsComplete() {
      SkippedSection(b, f, own, false, fuse);
      InterruptedPass(b.rest, node.rest, own, Burn(fuse));
    } else {
      OpenedSectionFollows(b, f, own, fuse);
      FinishingPass(b.inner, node.kids, Executing, Burn(fuse));
      assert b.rest.End? ==> Statements(b.rest) == 1;
    }
  }

  /** A cycle enters the sections and is left as forecast, and completes the test case exactly if
      that was to be: left normally, if it finishes; thrown out of the test case's own body, if no
      section has opened or none of those discovered stays incomplete; and never if a section's
      body threw. */
  lemma CycleFollows(b: Body, t: TestCase, fuse: int)
    requires TestCaseShape(b, t) && !t.state.IsComplete()
    ensures var (t1, report) := RunCycle(b, t, fuse);
            && report.path == EnteredBy(b, t.kids, fuse)
            && (match ThrowsIn(b, t.kids, fuse)
                case None => report.exit.Normal?
                case Some(q) => report.exit == Unwinding(|q|) && q <= report.path)
            && (t1.state.IsComplete() <==> CompletesIn(b, t.kids, fuse))
  {
    var s := RunBody(b, t.kids, Executing, false, fuse);
    PassFollows(b, t.kids, Executing, fuse);
    RunBodyShape(b, t.kids, Executing, false, fuse);
    if ThrowsIn(b, t.kids, fuse).None? {
      FinishingPass(b, t.kids, Executing, fuse);
      ClosedIffAllComplete(b, t.kids, fuse);
    } else if s.own.ExecutingChildren? {
      LastMeansAll(b, s.forest);
      if ThrowsIn(b, t.kids, fuse) == Some([]) {
        InterruptedPass(b, t.kids, Executing, fuse);
      }
    }
  }
}
