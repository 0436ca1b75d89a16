/** What re-running a test body until its test case completes is meant to do.

    The heap-based trackers of `TestCaseTracking.dfy` are proved to compute exactly these
    functions; `SectionTheorems.dfy` proves what the functions guarantee. */
module SectionSpec {

  /** Cycle state of one tracker. */
  datatype CycleState =
    | NotStarted
    | Executing
    | ExecutingChildren
    | NeedsAnotherRun
    | CompletedSuccessfully
    | Failed
  {
    predicate IsComplete() { CompletedSuccessfully? || Failed? }

    predicate IsOpen() { !NotStarted? && !IsComplete() }
  }

  /** A test body: nothing more to run, or a named section, its own body, and what follows it.
      Names stand for the "name@line" keys under which sections are tracked. */
  datatype Body = End | Section(name: string, inner: Body, rest: Body)

  /** The trackers discovered so far for a body, in source order. */
  datatype Forest = Nil | Tree(name: string, state: CycleState, kids: Forest, rest: Forest)

  /** How a body was left: by its last statement, or by an exception, in which case
      `unfinished` sections have been unwound so far. */
  datatype Exit = Normal | Unwinding(unfinished: nat)

  /** The result of running a body once inside an open tracker. `own` is that tracker's state,
      `done` says whether the cycle has completed, `log` names the sections entered. */
  datatype Outcome = Outcome(forest: Forest, own: CycleState, done: bool, fuse: int, exit: Exit, log: seq<string>)

  function SiblingNames(b: Body): set<string> {
    match b
    case End => {}
    case Section(name, _, rest) => {name} + SiblingNames(rest)
  }

  /** No two sibling sections share a key. */
  predicate DistinctNames(b: Body) {
    match b
    case End => true
    case Section(name, inner, rest) =>
      name !in SiblingNames(rest) && DistinctNames(inner) && DistinctNames(rest)
  }

  /** The number of sections in a body. */
  function SectionCount(b: Body): nat {
    match b
    case End => 0
    case Section(_, inner, rest) => 1 + SectionCount(inner) + SectionCount(rest)
  }

  predicate LastIsComplete(f: Forest)
    requires f.Tree?
  {
    if f.rest.Nil? then f.state.IsComplete() else LastIsComplete(f.rest)
  }

  /** The state in which closing leaves an open tracker. */
  function CloseState(own: CycleState, kids: Forest): CycleState {
    match own
    case Executing => CompletedSuccessfully
    case ExecutingChildren =>
      if kids.Nil? || LastIsComplete(kids) then CompletedSuccessfully else ExecutingChildren
    case _ => own
  }

  /** One program point consumed; a negative fuse never burns down. */
  function Burn(fuse: int): int {
    if fuse < 0 then fuse else fuse - 1
  }

  /** The tracker a section is acquired with: the discovered one, else a new one. */
  function Acquired(name: string, f: Forest): Forest {
    if f.Nil? then Tree(name, NotStarted, Nil, Nil) else f
  }

  /** One pass over the remaining body `b` of an open tracker whose discovered children, from
      the current position on, are `f`. The exception is raised at the program point where
      `fuse` is 0. */
  function RunBody(b: Body, f: Forest, own: CycleState, done: bool, fuse: int): Outcome
    decreases b, 1
  {
    if fuse == 0 then
      Outcome(f, own, done, fuse, Unwinding(0), [])
    else if b.End? then
      Outcome(f, own, done, Burn(fuse), Normal, [])
    else
      var h := RunSection(b, Acquired(b.name, f), own, done, Burn(fuse));
      if h.exit.Unwinding? then h
      else
        var r := RunBody(b.rest, h.forest.rest, h.own, h.done, h.fuse);
        r.(forest := h.forest.(rest := r.forest), log := h.log + r.log)
  }

  /** The first section of `b`, whose tracker is `node`. Only the first incomplete section of a
      cycle opens. An exception fails the innermost section and closes those around it. */
  function RunSection(b: Body, node: Forest, own: CycleState, done: bool, fuse: int): (h: Outcome)
    requires b.Section? && node.Tree?
    ensures h.forest.Tree?
    decreases b, 0
  {
    if done || node.state.IsComplete() then
      Outcome(node, own, done, fuse, Normal, [])
    else
      var s := RunBody(b.inner, node.kids, Executing, false, fuse);
      var log := [b.name] + s.log;
      match s.exit
      case Unwinding(0) =>
        Outcome(node.(state := Failed, kids := s.forest), NeedsAnotherRun, true, s.fuse, Unwinding(1), log)
      case Unwinding(n) =>
        Outcome(node.(state := CloseState(s.own, s.forest), kids := s.forest), ExecutingChildren, true, s.fuse, Unwinding(n + 1), log)
      case Normal =>
        Outcome(node.(state := CloseState(s.own, s.forest), kids := s.forest), ExecutingChildren, true, s.fuse, Normal, log)
  }

  /** The tracker of the whole test case. */
  datatype TestCase = TestCase(state: CycleState, kids: Forest)

  const FRESH_TEST_CASE := TestCase(NotStarted, Nil)

  /** The sections one cycle entered, outermost first, and how its body was left. */
  datatype Report = Report(path: seq<string>, exit: Exit)

  /** One cycle of a test case that is not complete. */
  function RunCycle(b: Body, t: TestCase, fuse: int): (TestCase, Report) {
    var s := RunBody(b, t.kids, Executing, false, fuse);
    (TestCase(CloseState(s.own, s.forest), s.forest), Report(s.log, s.exit))
  }

  /** What the environment decides in one cycle: where the body throws, and whether the run
      is aborting when the cycle has ended. */
  datatype CycleInput = CycleInput(fuse: int, abort: bool)

  predicate AllFresh(f: Forest) {
    f.Tree? ==> f.state.NotStarted? && f.kids.Nil? && AllFresh(f.rest)
  }

  predicate AllComplete(f: Forest) {
    f.Tree? ==> f.state.IsComplete() && AllComplete(f.rest)
  }

  /** What holds of the trackers between cycles. Siblings read: complete ones, then at most one
      partly run, then never-started ones; and they follow the body's own order. */
  ghost predicate Shape(b: Body, f: Forest)
    decreases b
  {
    f.Tree? ==>
      && b.Section? && f.name == b.name
      && Shape(b.inner, f.kids) && Shape(b.rest, f.rest)
      && !f.state.Executing?
      && (f.state.NotStarted? <==> !f.state.IsComplete() && f.kids.Nil?)
      && (f.state.ExecutingChildren? ==> !AllComplete(f.kids))
      && (!f.state.IsComplete() ==> AllFresh(f.rest))
  }

  /** The same, for the tracker of the test case: it never fails. */
  ghost predicate TestCaseShape(b: Body, t: TestCase) {
    && Shape(b, t.kids)
    && !t.state.Executing? && !t.state.Failed?
    && (t.state.NotStarted? <==> !t.state.IsComplete() && t.kids.Nil?)
    && (t.state.ExecutingChildren? ==> !AllComplete(t.kids))
  }

  /** Sections of the body whose tracker has not completed. */
  function Pending(b: Body, f: Forest): nat
    decreases b
  {
    match b
    case End => 0
    case Section(_, inner, rest) =>
      if f.Nil? then SectionCount(b)
      else (if f.state.IsComplete() then 0 else 1) + Pending(inner, f.kids) + Pending(rest, f.rest)
  }

  function TestCasePending(b: Body, t: TestCase): nat {
    (if t.state.IsComplete() then 0 else 1) + Pending(b, t.kids)
  }

  /** Every leaf of the body as its path of section names, in source order. A body without
      sections is itself the one leaf. */
  function Leaves(b: Body): seq<seq<string>>
    decreases b, 1
  {
    if b.End? then [[]] else LeavesBelow(b)
  }

  function LeavesBelow(b: Body): seq<seq<string>>
    decreases b, 0
  {
    match b
    case End => []
    case Section(name, inner, rest) => Under(name, Leaves(inner)) + LeavesBelow(rest)
  }

  function Under(name: string, paths: seq<seq<string>>): seq<seq<string>> {
    seq(|paths|, i requires 0 <= i < |paths| => [name] + paths[i])
  }

  /** The path leads from the body to a section without sections of its own. */
  predicate IsLeaf(b: Body, p: seq<string>)
    decreases b, 1
  {
    if p == [] then b.End? else IsLeafBelow(b, p)
  }

  predicate IsLeafBelow(b: Body, p: seq<string>)
    requires p != []
    decreases b, 0
  {
    b.Section? && if b.name == p[0] then IsLeaf(b.inner, p[1..]) else IsLeafBelow(b.rest, p)
  }

  /** The cycle was left normally, or by an exception thrown inside the leaf it entered. */
  predicate ThrowsOnlyInLeaf(b: Body, report: Report) {
    report.exit.Unwinding? ==> report.exit.unfinished == |report.path| && IsLeaf(b, report.path)
  }

  /** The leaves entered by a sequence of cycles, in order. */
  function LeafVisits(b: Body, reports: seq<Report>): seq<seq<string>> {
    if reports == [] then []
    else (if IsLeaf(b, reports[0].path) then [reports[0].path] else []) + LeafVisits(b, reports[1..])
  }
}
