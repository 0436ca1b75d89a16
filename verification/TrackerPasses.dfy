/** One pass over a test body, seen on the arena: each step of it does to the trackers what
    `SectionSpec.RunBody` says, and touches nothing else. */
module TrackerPasses {
  import opened Options
  import opened SectionSpec
  import opened SectionTheorems
  import opened TrackerArena

  /** The position of a pass: body `b` remains, tracker `t` is current, and its children from
      the k-th on belong to `b`. */
  ghost predicate Ready(a: Arena, t: nat, k: nat, b: Body, done: bool) {
    && WellFormed(a) && t < |a| && k <= |a[t].children| && a[t].parent >= 0
    && DistinctNames(b) && Entry(b, View(a, t, k), a[t].state, done)
    && (forall m :: 0 <= m < k ==> a[a[t].children[m]].name !in SiblingNames(b))
    && AncestorsOpen(a, t)
  }

  /** Only `t` itself and what lies below its children from the k-th on has changed. */
  ghost predicate Frame(a: Arena, b: Arena, t: nat, k: nat)
    requires WellFormed(a) && t < |a| <= |b| && k <= |a[t].children|
  {
    && (forall j :: 0 <= j < |a| && !Above(a, t, j) ==> a[j] == b[j])
    && (forall m, j :: 0 <= m < k && 0 <= j < |a| && Above(a, a[t].children[m], j) ==> a[j] == b[j])
  }

  /** Arena `b` results from `a` by a pass with outcome `r`. */
  ghost predicate Passed(a: Arena, b: Arena, t: nat, k: nat, r: Outcome) {
    && Extends(a, b) && t < |a| && k <= |a[t].children|
    && Frame(a, b, t, k)
    && View(b, t, k) == r.forest
    && b[t].state == r.own
  }

  // ----- finding or adding the section's tracker -----

  lemma {:induction false} FindAligned(a: Arena, t: nat, k: nat, name: string, from: nat)
    requires WellFormed(a) && t < |a| && from <= k <= |a[t].children|
    requires forall m :: 0 <= m < k ==> a[a[t].children[m]].name != name
    requires k < |a[t].children| ==> a[a[t].children[k]].name == name
    ensures FindChild(a, t, name, from) == if k < |a[t].children| then a[t].children[k] else -1
    decreases k - from
  {
    if from < k {
      FindAligned(a, t, k, name, from + 1);
    }
  }

  /** The section's tracker is the k-th child afterwards, and the view shows it. */
  lemma FoundOrAdded(a: Arena, t: nat, k: nat, b: Body, done: bool)
    requires Ready(a, t, k, b, done) && b.Section?
    ensures var (a1, c) := FindOrAdd(a, t, b.name);
            && Extends(a, a1) && Frame(a, a1, t, k) && a1[t].state == a[t].state
            && k < |a1[t].children| && c == a1[t].children[k]
            && View(a1, t, k) == Acquired(b.name, View(a, t, k))
            && AncestorsOpen(a1, t)
  {
    FindAligned(a, t, k, b.name, 0);
    if k == |a[t].children| {
      var a1 := AddChild(a, t, b.name);
      assert View(a1, t, k + 1) == Nil;
      assert View(a1, |a|, 0) == Nil;
      forall m, j | 0 <= m < k && 0 <= j < |a| && Above(a, a[t].children[m], j) ensures a[j] == a1[j] {
        AboveIsSmaller(a, a[t].children[m], j);
      }
      assert Above(a, t, t);
      AncestorsOpenKept(a, a1, t);
    }
  }

  // ----- moving on to the next sibling -----

  lemma NextIsReady(a: Arena, t: nat, k: nat, b: Body, done: bool)
    requires WellFormed(a) && t < |a| && k < |a[t].children| && a[t].parent >= 0
    requires b.Section? && DistinctNames(b) && AncestorsOpen(a, t)
    requires a[a[t].children[k]].name == b.name
    requires forall m :: 0 <= m < k ==> a[a[t].children[m]].name !in SiblingNames(b)
    requires Entry(b.rest, View(a, t, k + 1), a[t].state, done)
    ensures Ready(a, t, k + 1, b.rest, done)
  {
  }

  lemma NamesKept(a: Arena, a1: Arena, t: nat, k: nat, names: set<string>)
    requires Extends(a, a1) && t < |a| && k <= |a[t].children|
    requires forall m :: 0 <= m < k ==> a[a[t].children[m]].name !in names
    ensures forall m :: 0 <= m < k ==> a1[a1[t].children[m]].name !in names
  {
    forall m | 0 <= m < k ensures a1[a1[t].children[m]].name !in names {
      assert a1[t].children[m] == a[t].children[m];
    }
  }

  lemma FramesCompose(a: Arena, a1: Arena, a2: Arena, t: nat, k: nat, k1: nat)
    requires Extends(a, a1) && Extends(a1, a2) && t < |a| && k <= |a[t].children|
    requires k <= k1 <= |a1[t].children|
    requires Frame(a, a1, t, k) && Frame(a1, a2, t, k1)
    ensures Extends(a, a2) && Frame(a, a2, t, k)
  {
    forall j | 0 <= j < |a| && !Above(a, t, j) ensures a[j] == a2[j] {
      AboveKept(a, a1, t, j);
    }
    forall m, j | 0 <= m < k && 0 <= j < |a| && Above(a, a[t].children[m], j) ensures a[j] == a2[j] {
      AboveKept(a, a1, a[t].children[m], j);
      assert a1[t].children[m] == a[t].children[m];
    }
    forall i | 0 <= i < |a| ensures a[i].children <= a2[i].children {
      assert a[i].children <= a1[i].children <= a2[i].children;
    }
  }

  /** What the rest of the pass does below later siblings leaves the k-th child as it was. */
  lemma RestOfPass(a: Arena, a1: Arena, a2: Arena, t: nat, k: nat, r: Outcome)
    requires Extends(a, a1) && t < |a| && k <= |a[t].children| && Frame(a, a1, t, k)
    requires k < |a1[t].children| && Passed(a1, a2, t, k + 1, r)
    ensures View(a1, t, k).Tree?
    ensures Extends(a, a2) && Frame(a, a2, t, k)
    ensures View(a2, t, k) == View(a1, t, k).(rest := r.forest)
  {
    FramesCompose(a, a1, a2, t, k, k + 1);
    var c := a1[t].children[k];
    assert a2[t].children[k] == c && Above(a1, c, c);
    forall m, j | 0 <= m < |a1[c].children| && 0 <= j < |a1| && Above(a1, a1[c].children[m], j)
      ensures a1[j] == a2[j]
    {
      AboveParent(a1, a1[c].children[m], j);
    }
    ViewKept(a1, a2, c, 0);
  }

  // ----- opening a section -----

  lemma OpenChildStops(a: Arena, t: nat)
    requires WellFormed(a) && t < |a| && a[t].parent >= 0
    requires a[t].state == Executing && a[a[t].parent].state == ExecutingChildren
    ensures OpenChild(a, t) == SetState(a, t, ExecutingChildren)
  {
    var a1 := SetState(a, t, ExecutingChildren);
    assert SameLinks(a, a1);
    assert a1[a[t].parent] == a[a[t].parent];
  }

  /** Opening the section's tracker: only it and the current tracker change. */
  lemma OpenEffect(a: Arena, t: nat, c: nat)
    requires WellFormed(a) && t < |a| && c < |a| && a[c].parent == t && a[t].parent >= 0
    requires a[t].state == Executing && AncestorsOpen(a, t)
    ensures Open(a, c) == SetState(SetState(a, c, Executing), t, ExecutingChildren)
    ensures SameLinks(a, Open(a, c))
  {
    var a1 := SetState(a, c, Executing);
    assert SameLinks(a, a1);
    assert a1[t] == a[t] && a1[a[t].parent] == a[a[t].parent];
    OpenChildStops(a1, t);
  }

  lemma OpenedIsReady(a: Arena, t: nat, k: nat, b: Body)
    requires Ready(a, t, k, b, false) && b.Section?
    requires !Acquired(b.name, View(a, t, k)).state.IsComplete()
    ensures var (a1, c) := FindOrAdd(a, t, b.name);
            var a2 := Open(a1, c);
            && a2 == SetState(SetState(a1, c, Executing), t, ExecutingChildren)
            && Extends(a1, a2) && k < |a1[t].children| && c == a1[t].children[k] && SameLinks(a1, a2)
            && Ready(a2, c, 0, b.inner, false)
            && View(a2, c, 0) == Acquired(b.name, View(a, t, k)).kids
            && View(a2, t, k + 1) == Acquired(b.name, View(a, t, k)).rest
  {
    FoundOrAdded(a, t, k, b, false);
    var (a1, c) := FindOrAdd(a, t, b.name);
    OpenEffect(a1, t, c);
    var a2 := Open(a1, c);
    forall m, j | 0 <= m < |a1[c].children| && 0 <= j < |a1| && Above(a1, a1[c].children[m], j)
      ensures a1[j] == a2[j]
    {
      AboveIsSmaller(a1, a1[c].children[m], j);
    }
    ViewKept(a1, a2, c, 0);
    SiblingsKept(a1, a2, t, k, c);
    AncestorsOpenKept(a1, a2, t);
  }

  /** Changes confined to `t` and to what lies below its k-th child spare the later siblings. */
  lemma SiblingsKept(a: Arena, a1: Arena, t: nat, k: nat, c: nat)
    requires Extends(a, a1) && t < |a| && k < |a[t].children| && c == a[t].children[k]
    requires a1[t].children == a[t].children
    requires forall j :: 0 <= j < |a| && j != t && !Above(a, c, j) ==> a[j] == a1[j]
    ensures View(a1, t, k + 1) == View(a, t, k + 1)
  {
    forall m, j | k + 1 <= m < |a[t].children| && 0 <= j < |a| && Above(a, a[t].children[m], j)
      ensures a[j] == a1[j]
    {
      SiblingsAreApart(a, a[t].children[m], c, j);
      AboveIsSmaller(a, a[t].children[m], j);
    }
    ViewKept(a, a1, t, k + 1);
  }

  // ----- closing a section -----

  lemma {:induction false} LastChildView(a: Arena, c: nat, k: nat)
    requires WellFormed(a) && c < |a| && k < |a[c].children|
    ensures LastIsComplete(View(a, c, k)) <==> a[a[c].children[|a[c].children| - 1]].state.IsComplete()
    decreases |a[c].children| - k
  {
    if k + 1 < |a[c].children| {
      LastChildView(a, c, k + 1);
    }
  }

  /** Closing an open tracker never meets an illogical state, and decides as `CloseState`. */
  lemma CloseEffect(a: Arena, c: nat)
    requires WellFormed(a) && c < |a| && a[c].state.IsOpen()
    ensures CloseCurrent(a, c) == Some(SetState(a, c, CloseState(a[c].state, View(a, c, 0))))
  {
    assert SetState(a, c, a[c].state) == a;
    if |a[c].children| > 0 {
      LastChildView(a, c, 0);
    }
  }

  /** What the whole section, from finding its tracker to leaving it, has changed. */
  lemma SectionConfined(a1: Arena, a2: Arena, a3: Arena, a4: Arena, t: nat, k: nat, c: nat, s: Outcome, st: CycleState, own: CycleState)
    requires WellFormed(a1) && t < |a1| && k < |a1[t].children| && c == a1[t].children[k]
    requires SameLinks(a1, a2) && a2 == SetState(SetState(a1, c, Executing), t, ExecutingChildren)
    requires Passed(a2, a3, c, 0, s)
    requires a4 == SetState(SetState(a3, c, st), t, own)
    ensures SameLinks(a3, a4) && Extends(a1, a4) && a4[t].children == a1[t].children
    ensures forall j :: 0 <= j < |a1| && j != t && !Above(a1, c, j) ==> a1[j] == a4[j]
    ensures a3[t] == a2[t]
  {
    if Above(a1, c, t) {
      AboveIsSmaller(a1, c, t);
      assert false;
    }
    TwoStatesSet(a3, c, st, t, own);
    forall j | 0 <= j < |a1| && !Above(a1, c, j) ensures a2[j] == a3[j] {
      AboveKept(a1, a2, c, j);
    }
    assert a4[t].children == a1[t].children;
    assert forall j :: 0 <= j < |a1| ==> a1[j].children <= a3[j].children && a3[j].children == a4[j].children;
  }

  lemma TwoStatesSet(a: Arena, i: nat, s: CycleState, j: nat, u: CycleState)
    requires WellFormed(a) && i < |a| && j < |a|
    ensures SameLinks(a, SetState(SetState(a, i, s), j, u))
  {
  }

  lemma SectionFrame(a1: Arena, a4: Arena, t: nat, k: nat, c: nat)
    requires Extends(a1, a4) && t < |a1| && k < |a1[t].children| && c == a1[t].children[k]
    requires forall j :: 0 <= j < |a1| && j != t && !Above(a1, c, j) ==> a1[j] == a4[j]
    ensures Frame(a1, a4, t, k)
  {
    assert Above(a1, t, t);
    forall j | 0 <= j < |a1| && !Above(a1, t, j) ensures a1[j] == a4[j] {
      if Above(a1, c, j) {
        AboveParent(a1, c, j);
      }
    }
    forall m, j | 0 <= m < k && 0 <= j < |a1| && Above(a1, a1[t].children[m], j) ensures a1[j] == a4[j] {
      AboveIsSmaller(a1, a1[t].children[m], j);
      SiblingsAreApart(a1, a1[t].children[m], c, j);
    }
  }

  /** A section that opened and was left in state `st`, its parent in state `own`. */
  lemma SectionLeft(a: Arena, t: nat, k: nat, b: Body, a3: Arena, s: Outcome, st: CycleState, own: CycleState)
    requires Ready(a, t, k, b, false) && b.Section?
    requires !Acquired(b.name, View(a, t, k)).state.IsComplete()
    requires var (a1, c) := FindOrAdd(a, t, b.name);
             Passed(Open(a1, c), a3, c, 0, s)
    ensures var (a1, c) := FindOrAdd(a, t, b.name);
            && c < |a3| && t < |a3|
            && var a4 := SetState(SetState(a3, c, st), t, own);
            && SameLinks(a3, a4) && Extends(a, a4) && Frame(a, a4, t, k)
            && k < |a4[t].children| && c == a4[t].children[k] && a4[c].name == b.name && a4[c].parent == t
            && View(a4, t, k) == Acquired(b.name, View(a, t, k)).(state := st, kids := s.forest)
            && AncestorsOpen(a4, t)
            && a3[t].state == ExecutingChildren && a3[c].state == s.own
  {
    FoundOrAdded(a, t, k, b, false);
    OpenedIsReady(a, t, k, b);
    var (a1, c) := FindOrAdd(a, t, b.name);
    var a2 := Open(a1, c);
    var a4 := SetState(SetState(a3, c, st), t, own);
    SectionConfined(a1, a2, a3, a4, t, k, c, s, st, own);
    SectionFrame(a1, a4, t, k, c);
    FramesCompose(a, a1, a4, t, k, k);
    SiblingsKept(a1, a4, t, k, c);
    ViewBelowSetStates(a3, c, st, t, own);
    AncestorsSpared(a1, a4, t, c);
  }

  lemma ViewBelowSetStates(a: Arena, c: nat, st: CycleState, t: nat, own: CycleState)
    requires WellFormed(a) && t < c < |a|
    ensures var a1 := SetState(SetState(a, c, st), t, own);
            SameLinks(a, a1) && View(a1, c, 0) == View(a, c, 0)
  {
    var a1 := SetState(SetState(a, c, st), t, own);
    TwoStatesSet(a, c, st, t, own);
    forall m, j | 0 <= m < |a[c].children| && 0 <= j < |a| && Above(a, a[c].children[m], j)
      ensures a[j] == a1[j]
    {
      AboveIsSmaller(a, a[c].children[m], j);
    }
    ViewKept(a, a1, c, 0);
  }

  lemma AncestorsSpared(a: Arena, a1: Arena, t: nat, c: nat)
    requires Extends(a, a1) && t < |a| && c < |a| && a[c].parent == t && AncestorsOpen(a, t)
    requires forall j :: 0 <= j < |a| && j != t && !Above(a, c, j) ==> a[j] == a1[j]
    ensures AncestorsOpen(a1, t)
  {
    forall j | 0 <= j < t && !Above(a, t, j) ensures a[j].state == a1[j].state {
      if Above(a, c, j) {
        AboveParent(a, c, j);
      }
    }
    AncestorsOpenKept(a, a1, t);
  }

  // ----- one section, as a whole -----

  /** Arena `a1` results from `a` by the first section of `b`, with outcome `h`. */
  ghost predicate SectionPassed(a: Arena, a1: Arena, t: nat, k: nat, b: Body, h: Outcome) {
    && b.Section? && h.forest.Tree?
    && Extends(a, a1) && t < |a| && k <= |a[t].children| && Frame(a, a1, t, k)
    && k < |a1[t].children| && a1[a1[t].children[k]].name == b.name
    && View(a1, t, k) == h.forest
    && a1[t].state == h.own
    && AncestorsOpen(a1, t)
  }

  /** What `SectionSpec` makes of the section at this position. */
  ghost function SectionOutcome(a: Arena, t: nat, k: nat, b: Body, done: bool, fuse: int): Outcome
    requires WellFormed(a) && t < |a| && k <= |a[t].children| && b.Section?
  {
    RunSection(b, Acquired(b.name, View(a, t, k)), a[t].state, done, fuse)
  }

  ghost predicate Opens(a: Arena, t: nat, k: nat, b: Body, done: bool)
    requires WellFormed(a) && t < |a| && k <= |a[t].children| && b.Section?
  {
    !done && !Acquired(b.name, View(a, t, k)).state.IsComplete()
  }

  lemma SectionSkipped(a: Arena, t: nat, k: nat, b: Body, done: bool, fuse: int)
    requires Ready(a, t, k, b, done) && b.Section?
    ensures var (a1, c) := FindOrAdd(a, t, b.name);
            && (Opens(a, t, k, b, done) <==> !done && !a1[c].state.IsComplete())
            && (done ==> !a1[c].state.IsOpen())
            && (!Opens(a, t, k, b, done) ==>
                  var h := SectionOutcome(a, t, k, b, done, fuse);
                  SectionPassed(a, a1, t, k, b, h) && h.done == done && h.fuse == fuse && h.log == [] && h.exit.Normal?)
  {
    FoundOrAdded(a, t, k, b, done);
  }

  /** The section's own body has run, with arena `a3` as the result. */
  ghost predicate InnerPassed(a: Arena, t: nat, k: nat, b: Body, fuse: int, a3: Arena) {
    && Ready(a, t, k, b, false) && b.Section? && Opens(a, t, k, b, false)
    && var (a1, c) := FindOrAdd(a, t, b.name);
       Passed(Open(a1, c), a3, c, 0, InnerOutcome(a, t, k, b, fuse))
  }

  ghost function InnerOutcome(a: Arena, t: nat, k: nat, b: Body, fuse: int): Outcome
    requires WellFormed(a) && t < |a| && k <= |a[t].children| && b.Section?
  {
    RunBody(b.inner, Acquired(b.name, View(a, t, k)).kids, Executing, false, fuse)
  }

  lemma InnerIsWellBehaved(a: Arena, t: nat, k: nat, b: Body, fuse: int)
    requires Ready(a, t, k, b, false) && b.Section? && Opens(a, t, k, b, false)
    ensures InnerOutcome(a, t, k, b, fuse).own.IsOpen()
  {
    RunBodyShape(b.inner, Acquired(b.name, View(a, t, k)).kids, Executing, false, fuse);
  }

  /** In particular, as the section's outcome `h` has it. */
  lemma SectionLeftAs(a: Arena, t: nat, k: nat, b: Body, a3: Arena, s: Outcome, a4: Arena, h: Outcome)
    requires Ready(a, t, k, b, false) && b.Section? && Opens(a, t, k, b, false)
    requires h.forest.Tree? && h.forest == Acquired(b.name, View(a, t, k)).(state := h.forest.state, kids := s.forest)
    requires var (a1, c) := FindOrAdd(a, t, b.name);
             && Passed(Open(a1, c), a3, c, 0, s)
             && c < |a3| && t < |a3| && a4 == SetState(SetState(a3, c, h.forest.state), t, h.own)
    ensures SectionPassed(a, a4, t, k, b, h)
  {
    SectionLeft(a, t, k, b, a3, s, h.forest.state, h.own);
  }

  lemma SectionClosed(a: Arena, t: nat, k: nat, b: Body, fuse: int, a3: Arena)
    requires InnerPassed(a, t, k, b, fuse, a3) && InnerOutcome(a, t, k, b, fuse).exit != Unwinding(0)
    ensures var c := FindOrAdd(a, t, b.name).1;
            c < |a3| && WellFormed(a3) &&
            var r := CloseCurrent(a3, c);
            r.Some? && SectionPassed(a, r.value, t, k, b, SectionOutcome(a, t, k, b, false, fuse))
  {
    var c := FindOrAdd(a, t, b.name).1;
    var h := SectionOutcome(a, t, k, b, false, fuse);
    ClosingDecides(a, t, k, b, fuse, a3);
    SectionLeftAs(a, t, k, b, a3, InnerOutcome(a, t, k, b, fuse), SetState(SetState(a3, c, h.forest.state), t, h.own), h);
  }

  lemma ClosingDecides(a: Arena, t: nat, k: nat, b: Body, fuse: int, a3: Arena)
    requires InnerPassed(a, t, k, b, fuse, a3) && InnerOutcome(a, t, k, b, fuse).exit != Unwinding(0)
    ensures var c := FindOrAdd(a, t, b.name).1;
            var h := SectionOutcome(a, t, k, b, false, fuse);
            && c < |a3| && t < |a3| && WellFormed(a3)
            && CloseCurrent(a3, c) == Some(SetState(SetState(a3, c, h.forest.state), t, h.own))
  {
    hide Frame, Extends, Shape, AncestorsOpen, FindOrAdd, Open;
    var c := FindOrAdd(a, t, b.name).1;
    var s := InnerOutcome(a, t, k, b, fuse);
    InnerIsWellBehaved(a, t, k, b, fuse);
    SectionLeft(a, t, k, b, a3, s, CloseState(s.own, s.forest), ExecutingChildren);
    CloseBelow(a3, c, t, s.own, s.forest);
  }

  /** The parent is already executing its children, so closing leaves it as it is. */
  lemma CloseBelow(a: Arena, c: nat, t: nat, own: CycleState, kids: Forest)
    requires WellFormed(a) && c < |a| && t < |a| && c != t
    requires a[c].state == own && own.IsOpen() && View(a, c, 0) == kids && a[t].state == ExecutingChildren
    ensures CloseCurrent(a, c) == Some(SetState(SetState(a, c, CloseState(own, kids)), t, ExecutingChildren))
  {
    CloseEffect(a, c);
    var a1 := SetState(a, c, CloseState(own, kids));
    assert a1[t := a1[t].(state := ExecutingChildren)] == a1;
  }

  lemma SectionFailed(a: Arena, t: nat, k: nat, b: Body, fuse: int, a3: Arena)
    requires InnerPassed(a, t, k, b, fuse, a3) && InnerOutcome(a, t, k, b, fuse).exit == Unwinding(0)
    ensures var (a1, c) := FindOrAdd(a, t, b.name);
            c < |a3| && WellFormed(a3) && a3[c].parent == t &&
            SectionPassed(a, Fail(a3, c), t, k, b, SectionOutcome(a, t, k, b, false, fuse))
  {
    var c := FindOrAdd(a, t, b.name).1;
    SectionLeft(a, t, k, b, a3, InnerOutcome(a, t, k, b, fuse), Failed, NeedsAnotherRun);
    SectionLeftAs(a, t, k, b, a3, InnerOutcome(a, t, k, b, fuse), Fail(a3, c), SectionOutcome(a, t, k, b, false, fuse));
  }

  /** How leaving a section shows in everything but the trackers. */
  lemma IncludedOutcome(a: Arena, t: nat, k: nat, b: Body, fuse: int)
    requires WellFormed(a) && t < |a| && k <= |a[t].children| && b.Section? && Opens(a, t, k, b, false)
    ensures var h, s := SectionOutcome(a, t, k, b, false, fuse), InnerOutcome(a, t, k, b, fuse);
            && h.done && h.fuse == s.fuse && h.log == [b.name] + s.log
            && h.exit == (if s.exit.Unwinding? then Unwinding(s.exit.unfinished + 1) else Normal)
  {
  }

  /** Either way, leaving the section does to the trackers what the specification says. */
  lemma LeavingSection(a: Arena, t: nat, k: nat, b: Body, fuse: int, a3: Arena)
    requires InnerPassed(a, t, k, b, fuse, a3)
    ensures var c := FindOrAdd(a, t, b.name).1;
            var failed := InnerOutcome(a, t, k, b, fuse).exit == Unwinding(0);
            && c < |a3| && WellFormed(a3) && a3[c].parent == t
            && var r := if failed then Some(Fail(a3, c)) else CloseCurrent(a3, c);
               r.Some? && SectionPassed(a, r.value, t, k, b, SectionOutcome(a, t, k, b, false, fuse))
  {
    OpenedIsReady(a, t, k, b);
    if InnerOutcome(a, t, k, b, fuse).exit == Unwinding(0) {
      SectionFailed(a, t, k, b, fuse, a3);
    } else {
      SectionClosed(a, t, k, b, fuse, a3);
    }
  }

  /** After the first section, the rest of the body can go on where it left off. */
  lemma RestIsReady(a: Arena, a1: Arena, t: nat, k: nat, b: Body, done: bool, fuse: int)
    requires Ready(a, t, k, b, done) && b.Section?
    requires var h := SectionOutcome(a, t, k, b, done, fuse);
             SectionPassed(a, a1, t, k, b, h) && h.exit.Normal?
    ensures var h := SectionOutcome(a, t, k, b, done, fuse);
            Ready(a1, t, k + 1, b.rest, h.done) && View(a1, t, k + 1) == h.forest.rest
  {
    NamesKept(a, a1, t, k, SiblingNames(b));
    NextIsReady(a1, t, k, b, SectionOutcome(a, t, k, b, done, fuse).done);
  }

  /** A pass is its first section and, unless that threw, the rest from arena `a1` on. */
  lemma PassComposed(a: Arena, a1: Arena, a2: Arena, t: nat, k: nat, b: Body, done: bool, fuse: int)
    requires WellFormed(a) && t < |a| && k <= |a[t].children| && b.Section? && fuse != 0
    requires var h := SectionOutcome(a, t, k, b, done, Burn(fuse));
             && SectionPassed(a, a1, t, k, b, h)
             && if h.exit.Unwinding? then a2 == a1
                else Passed(a1, a2, t, k + 1, RunBody(b.rest, h.forest.rest, h.own, h.done, h.fuse))
    ensures Passed(a, a2, t, k, RunBody(b, View(a, t, k), a[t].state, done, fuse))
  {
    var h := SectionOutcome(a, t, k, b, done, Burn(fuse));
    if h.exit.Normal? {
      RestOfPass(a, a1, a2, t, k, RunBody(b.rest, h.forest.rest, h.own, h.done, h.fuse));
    }
  }

  /** What such a pass reports. */
  lemma PassReports(a: Arena, t: nat, k: nat, b: Body, done: bool, fuse: int)
    requires WellFormed(a) && t < |a| && k <= |a[t].children| && b.Section? && fuse != 0
    ensures var r, h := RunBody(b, View(a, t, k), a[t].state, done, fuse), SectionOutcome(a, t, k, b, done, Burn(fuse));
            if h.exit.Unwinding? then r.done == h.done && r.fuse == h.fuse && r.log == h.log && r.exit == h.exit
            else
              var later := RunBody(b.rest, h.forest.rest, h.own, h.done, h.fuse);
              r.done == later.done && r.fuse == later.fuse && r.log == h.log + later.log && r.exit == later.exit
  {
  }

  lemma TrivialPass(a: Arena, t: nat, k: nat, b: Body, done: bool, fuse: int)
    requires Ready(a, t, k, b, done) && (fuse == 0 || b.End?)
    ensures Passed(a, a, t, k, RunBody(b, View(a, t, k), a[t].state, done, fuse))
  {
  }

  // ----- cycles of a test case -----

  /** The trackers are those of a test case in state `t`: the root, and below it, from the first
      cycle on, the tracker of the test case. */
  ghost predicate Holds(a: Arena, name: string, t: TestCase) {
    && WellFormed(a) && |a| > 0 && a[0].parent == -1
    && if t.state.NotStarted? then t.kids.Nil? && |a| == 1 && a[0].children == []
       else |a| > 1 && a[0].children == [1] && a[1].name == name && a[1].state == t.state && View(a, 1, 0) == t.kids
  }

  /** A cycle begins by opening the tracker of the test case, below the root. */
  lemma CycleStarts(a: Arena, name: string, b: Body, t: TestCase)
    requires Holds(a, name, t) && TestCaseShape(b, t) && !t.state.IsComplete() && DistinctNames(b)
    ensures var (a1, c) := FindOrAdd(a, 0, name);
            var (a2, c2) := Acquire(a, 0, name, false);
            && c == c2 == 1 && !a1[1].state.IsComplete()
            && Ready(a2, 1, 0, b, false) && View(a2, 1, 0) == t.kids && a2[1].state == Executing
            && a2[0].parent == -1 && a2[0].children == [1] && a2[1].name == name && a2[1].parent == 0
  {
    var (a1, _) := FindOrAdd(a, 0, name);
    if t.state.NotStarted? {
      assert View(a1, 1, 0) == Nil;
    } else {
      assert a[0].children[0] == 1;
    }
    RootOpens(a1);
    var a2 := Open(a1, 1);
    forall m, j | 0 <= m < |a1[1].children| && 0 <= j < |a1| && Above(a1, a1[1].children[m], j)
      ensures a1[j] == a2[j]
    {
      AboveIsSmaller(a1, a1[1].children[m], j);
    }
    ViewKept(a1, a2, 1, 0);
  }

  lemma RootOpens(a: Arena)
    requires WellFormed(a) && |a| > 1 && a[0].parent == -1 && a[1].parent == 0
    ensures Open(a, 1) == SetState(SetState(a, 1, Executing), 0, ExecutingChildren)
  {
    var a1 := SetState(a, 1, Executing);
    assert SameLinks(a, a1);
    assert a1[0].state == ExecutingChildren ==> SetState(a1, 0, ExecutingChildren) == a1;
  }

  /** And it ends by closing that tracker, which is never found in an illogical state. */
  lemma CycleEnds(a2: Arena, a3: Arena, name: string, b: Body, t: TestCase, fuse: int)
    requires TestCaseShape(b, t) && !t.state.IsComplete()
    requires Ready(a2, 1, 0, b, false) && View(a2, 1, 0) == t.kids && a2[1].state == Executing
    requires a2[0].parent == -1 && a2[0].children == [1] && a2[1].name == name && a2[1].parent == 0
    requires Passed(a2, a3, 1, 0, RunBody(b, t.kids, Executing, false, fuse))
    ensures var r := CloseCurrent(a3, 1);
            r.Some? && Holds(r.value, name, RunCycle(b, t, fuse).0) && !RunCycle(b, t, fuse).0.state.NotStarted?
  {
    var s := RunBody(b, t.kids, Executing, false, fuse);
    RunBodyShape(b, t.kids, Executing, false, fuse);
    CycleKeepsShape(b, t, fuse);
    CloseEffect(a3, 1);
    assert !Above(a2, 1, 0);
    var a4 := SetState(a3, 1, CloseState(s.own, s.forest));
    ViewBelowSetStates(a3, 1, CloseState(s.own, s.forest), 0, a3[0].state);
    assert a4 == SetState(a4, 0, a3[0].state);
    assert a3[0].children == [1];
  }
}
