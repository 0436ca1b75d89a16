/** What an exception costs: which leaves are never entered, whatever is thrown and wherever. */
module SectionLosses {
  import opened Options
  import opened SectionSpec
  import opened SectionTheorems
  import opened SectionLeaves
  import opened SectionForecast

  /** What a pass with outcome `r` settles: a leading block of the leaves still owed. Left
      normally, or by an exception raised beside the sections of `b` itself, it settles the leaf
      it entered, if any; otherwise everything below the section whose body threw. */
  ghost predicate Settles(b: Body, f: Forest, r: Outcome) {
    var before, after := Remaining(b, f), Remaining(b, r.forest);
    var leaf := r.log != [] && IsLeafBelow(b, r.log);
    && IsSuffix(after, before)
    && (leaf ==> |after| < |before| && r.log == before[0])
    && if r.exit.Unwinding? && r.exit.unfinished > 0
       then r.exit.unfinished <= |r.log| && IsBlock(before, |before| - |after|, r.log[..r.exit.unfinished])
       else |before| - |after| == if leaf then 1 else 0
  }

  predicate IsSuffix(a: seq<seq<string>>, b: seq<seq<string>>) {
    |a| <= |b| && a == b[|b| - |a|..]
  }

  /** The first n paths, and no others, lead through `q`. */
  predicate IsBlock(paths: seq<seq<string>>, n: nat, q: seq<string>) {
    forall i :: 0 <= i < |paths| ==> (q <= paths[i] <==> i < n)
  }

  lemma PrefixUnder(name: string, q: seq<string>, p: seq<string>)
    ensures [name] + q <= [name] + p <==> q <= p
  {
    if q <= p {
      assert p == q + p[|q|..];
      assert [name] + p == [name] + q + p[|q|..];
    }
    if [name] + q <= [name] + p {
      assert ([name] + p)[..|q| + 1][1..] == p[..|q|];
    }
  }

  /** Suffixes and blocks, seen one level further out. */
  lemma SuffixUnder(name: string, x: seq<seq<string>>, y: seq<seq<string>>, q: seq<seq<string>>)
    requires IsSuffix(y, x)
    ensures IsSuffix(Under(name, y) + q, Under(name, x) + q)
  {
  }

  lemma BlockUnder(name: string, x: seq<seq<string>>, n: nat, p: seq<string>, q: seq<seq<string>>)
    requires n <= |x| && IsBlock(x, n, p)
    requires forall other <- q :: other != [] && other[0] != name
    ensures IsBlock(Under(name, x) + q, n, [name] + p)
  {
    var all := Under(name, x) + q;
    forall i | 0 <= i < |all| ensures [name] + p <= all[i] <==> i < n {
      if i < |x| {
        PrefixUnder(name, p, x[i]);
      } else {
        assert all[i] in q;
      }
    }
  }

  lemma {:induction false} NamesOfRemaining(b: Body, f: Forest)
    ensures forall p <- Remaining(b, f) :: p != [] && p[0] in SiblingNames(b)
    decreases b
  {
    forall p | p in Remaining(b, f) ensures p != [] && p[0] in SiblingNames(b) {
      if f.Nil? {
        FirstNameBelow(b, p);
      } else {
        assert p in Owed(b, f) || p in Remaining(b.rest, f.rest);
        NamesOfRemaining(b.rest, f.rest);
        OwedStartsWithName(b, f, p);
      }
    }
  }

  lemma OwedStartsWithName(b: Body, node: Forest, p: seq<string>)
    requires b.Section? && node.Tree?
    ensures p in Owed(b, node) ==> p != [] && p[0] == b.name
  {
    hide Leaves, Remaining;
  }

  lemma OwedBeforeOpening(b: Body, node: Forest)
    requires b.Section? && node.Tree? && Shape(b, node) && !node.state.IsComplete()
    ensures b.inner.Section? ==> Owed(b, node) == Under(b.name, Remaining(b.inner, node.kids))
    ensures b.inner.End? ==> Owed(b, node) == Under(b.name, [[]])
  {
    assert b.inner.End? ==> node.kids.Nil?;
  }

  lemma {:induction false} PassSettles(b: Body, f: Forest, own: CycleState, fuse: int)
    requires Entry(b, f, own, false) && DistinctNames(b)
    ensures Settles(b, f, RunBody(b, f, own, false, fuse))
    decreases b, 1
  {
    hide Settles;
    if b.End? || fuse == 0 {
      NothingSettled(b, f, RunBody(b, f, own, false, fuse));
    } else {
      var node := Acquired(b.name, f);
      if node.state.IsComplete() {
        SkippedSection(b, f, own, false, fuse);
        LogStartsWithSibling(b.rest, node.rest, own, false, Burn(fuse));
        PassSettles(b.rest, node.rest, own, Burn(fuse));
        SettledBeside(b, f, RunBody(b, f, own, false, fuse), node, RunBody(b.rest, node.rest, own, false, Burn(fuse)));
      } else {
        OpenedSectionSettles(b, f, own, fuse);
      }
    }
  }

  lemma NothingSettled(b: Body, f: Forest, r: Outcome)
    requires r.forest == f && r.log == [] && (r.exit.Unwinding? ==> r.exit.unfinished == 0)
    ensures Settles(b, f, r)
  {
  }

  lemma SettledBeside(b: Body, f: Forest, r: Outcome, node: Forest, later: Outcome)
    requires b.Section? && node == Acquired(b.name, f) && node.state.IsComplete()
    requires r == later.(forest := node.(rest := later.forest)) && Settles(b.rest, node.rest, later)
    requires later.log != [] ==> later.log[0] != b.name
    ensures Settles(b, f, r)
  {
    hide IsSuffix, IsBlock, Leaves, LeavesBelow;
    RemainingOfAcquired(b, f);
    assert [] + Remaining(b.rest, node.rest) == Remaining(b.rest, node.rest);
    assert [] + Remaining(b.rest, later.forest) == Remaining(b.rest, later.forest);
    assert Remaining(b, f) == Remaining(b.rest, node.rest);
    assert Remaining(b, r.forest) == Remaining(b.rest, later.forest);
    assert r.log != [] ==> IsLeafBelow(b, r.log) == (b.rest.Section? && IsLeafBelow(b.rest, r.log));
  }

  lemma {:induction false} OpenedSectionSettles(b: Body, f: Forest, own: CycleState, fuse: int)
    requires Entry(b, f, own, false) && DistinctNames(b) && b.Section? && fuse != 0
    requires !Acquired(b.name, f).state.IsComplete()
    ensures Settles(b, f, RunBody(b, f, own, false, fuse))
    decreases b, 0
  {
    var node := Acquired(b.name, f);
    var s := RunBody(b.inner, node.kids, Executing, false, Burn(fuse));
    if b.inner.Section? {
      PassSettles(b.inner, node.kids, Executing, Burn(fuse));
    }
    RunBodyShape(b.inner, node.kids, Executing, false, Burn(fuse));
    OwedAroundSection(b, f, own, fuse);
    hide *;
    InnerSettles(b, node, s);
    SettledAround(b, f, RunBody(b, f, own, false, fuse), s, InnerBefore(b, node), InnerAfter(b, s), Remaining(b.rest, node.rest));
  }

  /** The leaves owed inside the first section before and after it ran; it is a leaf itself if
      it has no sections. */
  function InnerBefore(b: Body, node: Forest): seq<seq<string>>
    requires b.Section? && node.Tree?
  {
    if b.inner.End? then [[]] else Remaining(b.inner, node.kids)
  }

  function InnerAfter(b: Body, s: Outcome): seq<seq<string>>
    requires b.Section?
  {
    if b.inner.End? || s.exit == Unwinding(0) then [] else Remaining(b.inner, s.forest)
  }

  lemma OwedAroundSection(b: Body, f: Forest, own: CycleState, fuse: int)
    requires Entry(b, f, own, false) && DistinctNames(b) && b.Section? && fuse != 0
    requires !Acquired(b.name, f).state.IsComplete()
    ensures var node := Acquired(b.name, f);
            var s, r := RunBody(b.inner, node.kids, Executing, false, Burn(fuse)), RunBody(b, f, own, false, fuse);
            && r.log == [b.name] + s.log && IsLeafBelow(b, r.log) == IsLeaf(b.inner, s.log)
            && Remaining(b, f) == Under(b.name, InnerBefore(b, node)) + Remaining(b.rest, node.rest)
            && Remaining(b, r.forest) == Under(b.name, InnerAfter(b, s)) + Remaining(b.rest, node.rest)
            && (forall p <- Remaining(b.rest, node.rest) :: p != [] && p[0] != b.name)
            && (s.exit.Unwinding? ==> r.exit == Unwinding(s.exit.unfinished + 1))
            && (s.exit.Normal? && r.exit.Unwinding? ==> r.exit.unfinished == 0)
  {
    hide RunBody, RunSection;
    var node := Acquired(b.name, f);
    var r := RunBody(b, f, own, false, fuse);
    var s := RunBody(b.inner, node.kids, Executing, false, Burn(fuse));
    LogOfOpenedSection(b, f, own, fuse);
    RunBodyShape(b.inner, node.kids, Executing, false, Burn(fuse));
    RemainingOfAcquired(b, f);
    OpenedSectionLeavesTheRest(b, f, own, fuse);
    OwedBeforeOpening(b, node);
    NamesOfRemaining(b.rest, node.rest);
    assert r.log[1..] == s.log;
    if b.inner.Section? && s.exit != Unwinding(0) {
      OwedAfterOpening(b, node, s, r.forest);
    }
  }

  lemma InnerSettles(b: Body, node: Forest, s: Outcome)
    requires b.Section? && node.Tree?
    requires if b.inner.Section? then Settles(b.inner, node.kids, s) else s.log == [] && (s.exit.Unwinding? ==> s.exit.unfinished == 0)
    ensures SettledInside(InnerBefore(b, node), InnerAfter(b, s), s, IsLeaf(b.inner, s.log))
  {
    var x, y := InnerBefore(b, node), InnerAfter(b, s);
    EverythingIsBlock(x);
    hide IsSuffix, IsBlock, Remaining, IsLeafBelow;
    if s.exit == Unwinding(0) {
      assert y == [] && s.log[..0] == [];
    } else {
      assert s.exit.Unwinding? ==> b.inner.Section?;
    }
  }

  lemma EverythingIsBlock(paths: seq<seq<string>>)
    ensures IsSuffix([], paths) && IsBlock(paths, |paths|, [])
  {
  }

  /** What a section's own body settles of the leaves `x`, `y` being left of them. */
  ghost predicate SettledInside(x: seq<seq<string>>, y: seq<seq<string>>, s: Outcome, leaf: bool) {
    && IsSuffix(y, x) && (leaf ==> |y| < |x| && s.log == x[0])
    && if s.exit.Unwinding? then s.exit.unfinished <= |s.log| && IsBlock(x, |x| - |y|, s.log[..s.exit.unfinished])
       else |x| - |y| == if leaf then 1 else 0
  }

  /** What the inner body of the first section settles, seen from around it. */
  lemma SettledAround(b: Body, f: Forest, r: Outcome, s: Outcome, x: seq<seq<string>>, y: seq<seq<string>>, q: seq<seq<string>>)
    requires b.Section? && r.log == [b.name] + s.log && IsLeafBelow(b, r.log) == IsLeaf(b.inner, s.log)
    requires Remaining(b, f) == Under(b.name, x) + q && Remaining(b, r.forest) == Under(b.name, y) + q
    requires forall p <- q :: p != [] && p[0] != b.name
    requires SettledInside(x, y, s, IsLeaf(b.inner, s.log))
    requires if s.exit.Unwinding? then r.exit == Unwinding(s.exit.unfinished + 1) else r.exit.Unwinding? ==> r.exit.unfinished == 0
    ensures Settles(b, f, r)
  {
    SuffixUnder(b.name, x, y, q);
    if s.exit.Unwinding? {
      BlockUnder(b.name, x, |x| - |y|, s.log[..s.exit.unfinished], q);
      assert r.log[..s.exit.unfinished + 1] == [b.name] + s.log[..s.exit.unfinished];
    }
  }

  // ----- cycles -----

  /** What a cycle settles: a leading block of the leaves owed. If nothing is thrown it is the leaf
      entered, if any. If the body of a section throws it is all that was owed below that section,
      and if the body of the test case itself throws and the test case is abandoned, everything. */
  ghost predicate SettledByCycle(
    owed: seq<seq<string>>, after: seq<seq<string>>, entered: seq<string>, thrower: Option<seq<string>>, leaf: bool, abandoned: bool)
  {
    && IsSuffix(after, owed)
    && (leaf ==> |after| < |owed| && entered == owed[0])
    && match thrower
       case None => |owed| - |after| == if leaf then 1 else 0
       case Some(q) =>
         if q != [] then IsBlock(owed, |owed| - |after|, q)
         else if abandoned then after == []
         else |owed| - |after| == if leaf then 1 else 0
  }

  /** All of it is known beforehand; in particular a test case whose own body throws is abandoned
      exactly if no section has opened by then or none of those discovered stays incomplete. */
  lemma CycleSettles(b: Body, t: TestCase, fuse: int)
    requires TestCaseShape(b, t) && !t.state.IsComplete() && DistinctNames(b)
    ensures var (t1, report) := RunCycle(b, t, fuse);
            var entered, thrower := EnteredBy(b, t.kids, fuse), ThrowsIn(b, t.kids, fuse);
            && report.path == entered
            && (thrower == Some([]) ==>
                  (t1.state.IsComplete() <==> entered == [] || FinishesDiscovered(b, t.kids, fuse)))
            && SettledByCycle(TestCaseRemaining(b, t), TestCaseRemaining(b, t1), entered, thrower,
                              IsLeaf(b, entered), Abandons(b, t.kids, fuse))
  {
    EverythingIsBlock(TestCaseRemaining(b, t));
    CycleFollows(b, t, fuse);
    if b.Section? {
      PassSettles(b, t.kids, Executing, fuse);
      OwedAroundCycle(b, t, fuse);
      hide *;
      SettledByPass(b, t, fuse);
    } else {
      hide IsSuffix, IsBlock;
    }
  }

  lemma SettledByPass(b: Body, t: TestCase, fuse: int)
    requires b.Section? && !t.state.IsComplete() && IsSuffix([], TestCaseRemaining(b, t))
    requires var s, (t1, report) := RunBody(b, t.kids, Executing, false, fuse), RunCycle(b, t, fuse);
             && Settles(b, t.kids, s)
             && TestCaseRemaining(b, t) == Remaining(b, t.kids)
             && (!t1.state.IsComplete() ==> TestCaseRemaining(b, t1) == Remaining(b, s.forest))
             && (t1.state.IsComplete() && s.exit.Normal? ==> Remaining(b, s.forest) == [])
             && report.path == EnteredBy(b, t.kids, fuse)
             && (match ThrowsIn(b, t.kids, fuse)
                 case None => report.exit.Normal?
                 case Some(q) => report.exit == Unwinding(|q|) && q <= report.path)
             && (t1.state.IsComplete() <==> CompletesIn(b, t.kids, fuse))
    ensures var t1 := RunCycle(b, t, fuse).0;
            var entered, thrower := EnteredBy(b, t.kids, fuse), ThrowsIn(b, t.kids, fuse);
            && (thrower == Some([]) ==>
                  (t1.state.IsComplete() <==> entered == [] || FinishesDiscovered(b, t.kids, fuse)))
            && SettledByCycle(TestCaseRemaining(b, t), TestCaseRemaining(b, t1), entered, thrower,
                              IsLeaf(b, entered), Abandons(b, t.kids, fuse))
  {
    hide IsSuffix, IsBlock, RunBody, Remaining, IsLeafBelow, CloseState, EnteredBy, ThrowsIn, Finishes, FinishesDiscovered;
    var (t1, report) := RunCycle(b, t, fuse);
    assert t1.state.IsComplete() ==> TestCaseRemaining(b, t1) == [];
    if ThrowsIn(b, t.kids, fuse).Some? {
      var q := ThrowsIn(b, t.kids, fuse).value;
      assert report.path[..|q|] == q;
    }
  }

  /** What a test case with sections owes before and after a cycle is what its sections owe,
      unless the cycle completes it. */
  lemma OwedAroundCycle(b: Body, t: TestCase, fuse: int)
    requires TestCaseShape(b, t) && !t.state.IsComplete() && b.Section?
    ensures var s, t1 := RunBody(b, t.kids, Executing, false, fuse), RunCycle(b, t, fuse).0;
            && TestCaseRemaining(b, t) == Remaining(b, t.kids)
            && (!t1.state.IsComplete() ==> TestCaseRemaining(b, t1) == Remaining(b, s.forest))
            && (t1.state.IsComplete() && s.exit.Normal? ==> Remaining(b, s.forest) == [])
  {
    var s := RunBody(b, t.kids, Executing, false, fuse);
    RunBodyShape(b, t.kids, Executing, false, fuse);
    hide RunBody;
    if s.own.ExecutingChildren? {
      LastMeansAll(b, s.forest);
    }
    if CloseState(s.own, s.forest).IsComplete() && s.exit.Normal? {
      NothingRemains(b, s.forest);
    }
  }

  /** Nothing is thrown, or none of these leaves is owed below the section whose body throws, or
      in the whole test case if that is abandoned. */
  predicate NothingElse(others: seq<seq<string>>, thrower: Option<seq<string>>, abandoned: bool) {
    match thrower
    case None => true
    case Some(q) => if q != [] then forall p <- others :: !(q <= p) else abandoned ==> others == []
  }

  /** The condition, before the cycle has run: it depends on the trackers it finds and on the
      program point that throws. */
  predicate GivesNothingUp(b: Body, t: TestCase, fuse: int) {
    NothingElse(StillOwed(b, t, EnteredBy(b, t.kids, fuse)), ThrowsIn(b, t.kids, fuse), Abandons(b, t.kids, fuse))
  }

  /** The leaves owed before a cycle, without the one it enters. */
  function StillOwed(b: Body, t: TestCase, entered: seq<string>): seq<seq<string>> {
    var owed := TestCaseRemaining(b, t);
    if IsLeaf(b, entered) && owed != [] then owed[1..] else owed
  }

  lemma BlockIsLeafIff(owed: seq<seq<string>>, after: seq<seq<string>>, leaf: bool, q: seq<string>)
    requires IsSuffix(after, owed) && (leaf ==> |after| < |owed|) && IsBlock(owed, |owed| - |after|, q)
    ensures var others := if leaf then owed[1..] else owed;
            after == others <==> forall p <- others :: !(q <= p)
  {
    var others := if leaf then owed[1..] else owed;
    var from := if leaf then 1 else 0;
    assert forall i :: 0 <= i < |others| ==> others[i] == owed[i + from];
    if |after| < |others| {
      assert q <= others[0];
    }
  }

  lemma SuffixByLength(after: seq<seq<string>>, owed: seq<seq<string>>)
    requires IsSuffix(after, owed)
    ensures |after| <= |owed|
    ensures |after| == |owed| ==> after == owed
    ensures |after| < |owed| ==> IsSuffix(after, owed[1..]) && owed == [owed[0]] + owed[1..]
  {
  }

  /** A cycle leaves owed exactly what was owed before, but for the leaf it entered, if and only
      if it gives nothing up. */
  lemma LossIsExact(b: Body, t: TestCase, fuse: int)
    requires TestCaseShape(b, t) && !t.state.IsComplete() && DistinctNames(b)
    ensures var (t1, report) := RunCycle(b, t, fuse);
            var others := StillOwed(b, t, EnteredBy(b, t.kids, fuse));
            && report.path == EnteredBy(b, t.kids, fuse)
            && IsSuffix(TestCaseRemaining(b, t1), others)
            && TestCaseRemaining(b, t) == (if IsLeaf(b, report.path) then [report.path] else []) + others
            && (GivesNothingUp(b, t, fuse) <==> TestCaseRemaining(b, t1) == others)
  {
    CycleSettles(b, t, fuse);
    hide RunCycle, TestCaseRemaining, TestCaseShape, IsLeaf, IsBlock, IsSuffix, DistinctNames, SettledByCycle;
    hide EnteredBy, ThrowsIn, Abandons, NothingElse;
    var entered := EnteredBy(b, t.kids, fuse);
    ExactLoss(TestCaseRemaining(b, t), TestCaseRemaining(b, RunCycle(b, t, fuse).0), entered, ThrowsIn(b, t.kids, fuse),
              IsLeaf(b, entered), Abandons(b, t.kids, fuse));
  }

  lemma ExactLoss(
    owed: seq<seq<string>>, after: seq<seq<string>>, entered: seq<string>, thrower: Option<seq<string>>, leaf: bool, abandoned: bool)
    requires SettledByCycle(owed, after, entered, thrower, leaf, abandoned)
    ensures leaf ==> owed != []
    ensures var others := if leaf then owed[1..] else owed;
            && IsSuffix(after, others) && owed == (if leaf then [entered] else []) + others
            && (NothingElse(others, thrower, abandoned) <==> after == others)
  {
    hide IsBlock, IsSuffix;
    SuffixByLength(after, owed);
    if leaf {
      SuffixByLength(after, owed[1..]);
    } else {
      assert [] + owed == owed;
    }
    match thrower
    case None =>
    case Some(q) =>
      if q != [] {
        BlockIsLeafIff(owed, after, leaf, q);
      }
  }

  // ----- runs -----

  /** No cycle of the run gives anything up, each judged by the trackers it finds. */
  ghost predicate RunGivesNothingUp(b: Body, t: TestCase, inputs: nat -> CycleInput, k: nat)
    requires TestCaseShape(b, t) && !t.state.IsComplete()
    decreases TestCasePending(b, t)
  {
    var fuse := inputs(k).fuse;
    CycleKeepsShape(b, t, fuse);
    CycleMakesProgress(b, t, fuse);
    CycleFollows(b, t, fuse);
    && GivesNothingUp(b, t, fuse)
    && (CompletesIn(b, t.kids, fuse) || inputs(k).abort || RunGivesNothingUp(b, RunCycle(b, t, fuse).0, inputs, k + 1))
  }

  /** The run from state `t`: its first cycle, and what comes after it. */
  lemma VisitsUnfold(b: Body, t: TestCase, inputs: nat -> CycleInput, k: nat)
    requires TestCaseShape(b, t) && !t.state.IsComplete()
    ensures var (t1, report) := RunCycle(b, t, inputs(k).fuse);
            var (end, reports) := Run(b, t, inputs, k);
            var visit := if IsLeaf(b, report.path) then [report.path] else [];
            && TestCaseShape(b, t1) && TestCasePending(b, t1) < TestCasePending(b, t)
            && (if t1.state.IsComplete() || inputs(k).abort
                then end == t1 && LeafVisits(b, reports) == visit
                else end == Run(b, t1, inputs, k + 1).0 && LeafVisits(b, reports) == visit + LeafVisits(b, Run(b, t1, inputs, k + 1).1))
  {
    CycleKeepsShape(b, t, inputs(k).fuse);
    CycleMakesProgress(b, t, inputs(k).fuse);
    var (t1, report) := RunCycle(b, t, inputs(k).fuse);
    var reports := Run(b, t, inputs, k).1;
    hide RunCycle, IsLeaf;
    assert reports[0] == report;
    if t1.state.IsComplete() || inputs(k).abort {
      assert reports[1..] == [];
    } else {
      assert reports[1..] == Run(b, t1, inputs, k + 1).1;
    }
  }

  /** Whatever is thrown, no more leaves are entered than were owed; and the leaves entered,
      followed by those still owed at the end, are the leaves owed at the start in source order
      if and only if no cycle gives anything up. */
  lemma {:induction false} EveryLeafUnlessGivenUp(b: Body, t: TestCase, inputs: nat -> CycleInput, k: nat)
    requires TestCaseShape(b, t) && !t.state.IsComplete() && DistinctNames(b)
    ensures var (end, reports) := Run(b, t, inputs, k);
            var settled := LeafVisits(b, reports) + TestCaseRemaining(b, end);
            && |settled| <= |TestCaseRemaining(b, t)|
            && (settled == TestCaseRemaining(b, t) <==> RunGivesNothingUp(b, t, inputs, k))
            && (settled != TestCaseRemaining(b, t) ==> |settled| < |TestCaseRemaining(b, t)|)
    decreases TestCasePending(b, t)
  {
    hide Run, LeafVisits, TestCaseRemaining, IsLeaf, IsSuffix, RunCycle, TestCaseShape, DistinctNames, GivesNothingUp, TestCasePending;
    hide CompletesIn, EnteredBy, ThrowsIn;
    VisitsUnfold(b, t, inputs, k);
    CycleFollows(b, t, inputs(k).fuse);
    LossIsExact(b, t, inputs(k).fuse);
    var (t1, report) := RunCycle(b, t, inputs(k).fuse);
    var visit := if IsLeaf(b, report.path) then [report.path] else [];
    if t1.state.IsComplete() || inputs(k).abort {
      assert visit + [] == visit && [] + TestCaseRemaining(b, t1) == TestCaseRemaining(b, t1);
      FirstAndRest(visit, [], TestCaseRemaining(b, t1), TestCaseRemaining(b, t1), StillOwed(b, t, report.path));
    } else {
      EveryLeafUnlessGivenUp(b, t1, inputs, k + 1);
      var (end, later) := Run(b, t1, inputs, k + 1);
      FirstAndRest(visit, LeafVisits(b, later), TestCaseRemaining(b, end), TestCaseRemaining(b, t1), StillOwed(b, t, report.path));
    }
  }

  /** A cycle and the later ones lose nothing exactly if neither of them does. */
  lemma FirstAndRest(visit: seq<seq<string>>, later: seq<seq<string>>, end: seq<seq<string>>, after: seq<seq<string>>, others: seq<seq<string>>)
    requires IsSuffix(after, others) && |later + end| <= |after|
    requires later + end != after ==> |later + end| < |after|
    ensures var settled, owed := visit + later + end, visit + others;
            && |settled| <= |owed|
            && (settled == owed <==> after == others && later + end == after)
            && (settled != owed ==> |settled| < |owed|)
  {
    assert visit + later + end == visit + (later + end);
    if after == others && later + end == after {
      assert visit + (later + end) == visit + others;
    } else {
      assert |visit + (later + end)| < |visit + others|;
    }
  }

  /** One sequence results from another by leaving elements out. */
  predicate Subsequence(a: seq<seq<string>>, b: seq<seq<string>>)
    decreases |b|
  {
    a == [] || (b != [] && ((a[0] == b[0] && Subsequence(a[1..], b[1..])) || Subsequence(a, b[1..])))
  }

  lemma {:induction false} SubsequenceBehind(a: seq<seq<string>>, skipped: seq<seq<string>>, b: seq<seq<string>>)
    requires Subsequence(a, b)
    ensures Subsequence(a, skipped + b)
    decreases |skipped|
  {
    if skipped == [] {
      assert skipped + b == b;
    } else {
      SubsequenceBehind(a, skipped[1..], b);
      assert (skipped + b)[1..] == skipped[1..] + b;
    }
  }

  lemma SubsequenceExtended(visit: seq<seq<string>>, later: seq<seq<string>>, after: seq<seq<string>>, others: seq<seq<string>>)
    requires |visit| <= 1 && Subsequence(later, after) && IsSuffix(after, others)
    ensures Subsequence(visit + later, visit + others)
  {
    var n := |others| - |after|;
    assert others == others[..n] + after;
    SubsequenceBehind(later, others[..n], after);
    if visit == [] {
      assert visit + later == later && visit + others == others;
    } else {
      assert (visit + later)[1..] == later && (visit + others)[1..] == others;
    }
  }

  /** Whatever is thrown, and even if the run aborts, leaves are entered in source order. */
  lemma {:induction false} LeavesInSourceOrder(b: Body, t: TestCase, inputs: nat -> CycleInput, k: nat)
    requires TestCaseShape(b, t) && !t.state.IsComplete() && DistinctNames(b)
    ensures Subsequence(LeafVisits(b, Run(b, t, inputs, k).1), TestCaseRemaining(b, t))
    decreases TestCasePending(b, t)
  {
    hide Run, LeafVisits, TestCaseRemaining, IsLeaf, RunCycle, TestCaseShape, DistinctNames, TestCasePending;
    VisitsUnfold(b, t, inputs, k);
    LossIsExact(b, t, inputs(k).fuse);
    var (t1, report) := RunCycle(b, t, inputs(k).fuse);
    var visit := if IsLeaf(b, report.path) then [report.path] else [];
    if t1.state.IsComplete() || inputs(k).abort {
      SubsequenceExtended(visit, [], TestCaseRemaining(b, t1), StillOwed(b, t, report.path));
      assert visit + [] == visit;
    } else {
      LeavesInSourceOrder(b, t1, inputs, k + 1);
      var later := LeafVisits(b, Run(b, t1, inputs, k + 1).1);
      SubsequenceExtended(visit, later, TestCaseRemaining(b, t1), StillOwed(b, t, report.path));
    }
  }

  lemma {:induction false} SubsequenceMembers(a: seq<seq<string>>, b: seq<seq<string>>, p: seq<string>)
    requires Subsequence(a, b) && p in a
    ensures p in b
    decreases |b|
  {
    if a[0] == b[0] && Subsequence(a[1..], b[1..]) {
      if p != a[0] {
        SubsequenceMembers(a[1..], b[1..], p);
      }
    } else {
      SubsequenceMembers(a, b[1..], p);
    }
  }

  predicate Distinct(paths: seq<seq<string>>) {
    forall i, j :: 0 <= i < j < |paths| ==> paths[i] != paths[j]
  }

  lemma {:induction false} SubsequenceIsDistinct(a: seq<seq<string>>, b: seq<seq<string>>)
    requires Subsequence(a, b) && Distinct(b)
    ensures Distinct(a)
    decreases |b|
  {
    if a == [] {
    } else {
      assert Distinct(b[1..]);
      if a[0] == b[0] && Subsequence(a[1..], b[1..]) {
        SubsequenceIsDistinct(a[1..], b[1..]);
        forall i, j | 0 <= i < j < |a| ensures a[i] != a[j] {
          assert a[j] == a[1..][j - 1];
          if i == 0 {
            SubsequenceMembers(a[1..], b[1..], a[j]);
          } else {
            assert a[i] == a[1..][i - 1];
          }
        }
      } else {
        SubsequenceIsDistinct(a, b[1..]);
      }
    }
  }

  /** And no leaf of a test case is entered twice. */
  lemma NoLeafTwice(b: Body, inputs: nat -> CycleInput)
    requires DistinctNames(b)
    ensures var visits := LeafVisits(b, Run(b, FRESH_TEST_CASE, inputs, 0).1);
            Subsequence(visits, Leaves(b)) && Distinct(visits)
  {
    LeavesInSourceOrder(b, FRESH_TEST_CASE, inputs, 0);
    forall i, j | 0 <= i < j < |Leaves(b)| ensures Leaves(b)[i] != Leaves(b)[j] {
      LeavesAreDistinct(b, i, j);
    }
    SubsequenceIsDistinct(LeafVisits(b, Run(b, FRESH_TEST_CASE, inputs, 0).1), Leaves(b));
  }

  /** A test case run without an abort enters every leaf, in source order, if and only if no cycle
      gives anything up. */
  lemma AllLeavesIffNothingGivenUp(b: Body, inputs: nat -> CycleInput)
    requires DistinctNames(b) && forall n :: !inputs(n).abort
    ensures LeafVisits(b, Run(b, FRESH_TEST_CASE, inputs, 0).1) == Leaves(b) <==> RunGivesNothingUp(b, FRESH_TEST_CASE, inputs, 0)
  {
    EveryLeafUnlessGivenUp(b, FRESH_TEST_CASE, inputs, 0);
    RunCompletes(b, FRESH_TEST_CASE, inputs, 0);
    var visits := LeafVisits(b, Run(b, FRESH_TEST_CASE, inputs, 0).1);
    assert visits + [] == visits;
  }
}
