/** The trackers of one run as a value: records in order of creation, linked by index.
    The heap objects of `TestCaseTracking.dfy` are coupled to such a value, so that what they
    do can be related to `SectionSpec` without reasoning about the heap. */
module TrackerArena {
  import opened Options
  import opened SectionSpec

  /** One tracker; the root has parent -1. */
  datatype Record = Record(name: string, parent: int, children: seq<nat>, state: CycleState)

  type Arena = seq<Record>

  /** Children are created after their parent, in order, and know it. */
  ghost predicate WellFormed(a: Arena) {
    && (forall i :: 0 <= i < |a| ==> -1 <= a[i].parent < i)
    && (forall i, j :: 0 <= i < |a| && 0 <= j < |a[i].children| ==>
          i < a[i].children[j] < |a| && a[a[i].children[j]].parent == i)
    && (forall i, j, k :: 0 <= i < |a| && 0 <= j < k < |a[i].children| ==> a[i].children[j] != a[i].children[k])
  }

  // ----- the operations of a tracker -----

  function SetState(a: Arena, i: nat, s: CycleState): Arena
    requires i < |a|
  {
    a[i := a[i].(state := s)]
  }

  ghost function OpenChild(a: Arena, i: nat): (r: Arena)
    requires WellFormed(a) && i < |a|
    ensures SameLinks(a, r)
    ensures forall j :: i < j < |a| ==> r[j] == a[j]
    decreases i
  {
    if a[i].state == ExecutingChildren then a
    else
      var a1 := SetState(a, i, ExecutingChildren);
      if a[i].parent < 0 then a1 else OpenChild(a1, a[i].parent)
  }

  ghost function Open(a: Arena, i: nat): (r: Arena)
    requires WellFormed(a) && i < |a|
    ensures SameLinks(a, r) && r[i].state == Executing
  {
    var a1 := SetState(a, i, Executing);
    if a[i].parent < 0 then a1 else OpenChild(a1, a[i].parent)
  }

  ghost function AddChild(a: Arena, i: nat, name: string): (r: Arena)
    requires WellFormed(a) && i < |a|
    ensures WellFormed(r)
  {
    a[i := a[i].(children := a[i].children + [|a|])] + [Record(name, i, [], NotStarted)]
  }

  /** Closing the current tracker: None stands for the "Illogical state" error. */
  ghost function CloseCurrent(a: Arena, i: nat): (r: Option<Arena>)
    requires WellFormed(a) && i < |a|
    ensures r.Some? ==> SameLinks(a, r.value)
  {
    match a[i].state
    case NotStarted => None
    case CompletedSuccessfully => None
    case Failed => None
    case NeedsAnotherRun => Some(a)
    case Executing => Some(SetState(a, i, CompletedSuccessfully))
    case ExecutingChildren =>
      var n := |a[i].children|;
      if n == 0 || a[a[i].children[n - 1]].state.IsComplete()
      then Some(SetState(a, i, CompletedSuccessfully)) else Some(a)
  }

  /** Closing tracker `i` while `current` is the current one: everything between them first. */
  ghost function Close(a: Arena, current: nat, i: nat): (r: Option<Arena>)
    requires WellFormed(a) && current < |a| && Above(a, i, current)
    ensures r.Some? ==> SameLinks(a, r.value)
    decreases current
  {
    if current == i then CloseCurrent(a, i)
    else
      match CloseCurrent(a, current)
      case None => None
      case Some(a1) =>
        AboveKept(a, a1, i, a[current].parent);
        Close(a1, a[current].parent, i)
  }

  ghost function Fail(a: Arena, i: nat): (r: Arena)
    requires WellFormed(a) && i < |a| && a[i].parent >= 0
    ensures SameLinks(a, r)
  {
    SetState(SetState(a, i, Failed), a[i].parent, NeedsAnotherRun)
  }

  /** The tracker of the first child with this name, or -1. */
  ghost function FindChild(a: Arena, i: nat, name: string, k: nat): (c: int)
    requires WellFormed(a) && i < |a| && k <= |a[i].children|
    ensures c == -1 || (i < c < |a| && a[c].name == name && a[c].parent == i)
    decreases |a[i].children| - k
  {
    if k == |a[i].children| then -1
    else if a[a[i].children[k]].name == name then a[i].children[k]
    else FindChild(a, i, name, k + 1)
  }

  /** The tracker a section of this name gets below `i`, and the arena in which it exists. */
  ghost function FindOrAdd(a: Arena, i: nat, name: string): (r: (Arena, nat))
    requires WellFormed(a) && i < |a|
    ensures WellFormed(r.0) && i < r.1 < |r.0|
  {
    var c := FindChild(a, i, name, 0);
    if c >= 0 then (a, c) else (AddChild(a, i, name), |a|)
  }

  ghost function Acquire(a: Arena, i: nat, name: string, completedCycle: bool): (r: (Arena, nat))
    requires WellFormed(a) && i < |a|
    ensures WellFormed(r.0) && i < r.1 < |r.0|
  {
    var (a1, c) := FindOrAdd(a, i, name);
    if !completedCycle && !a1[c].state.IsComplete() then (Open(a1, c), c) else (a1, c)
  }

  /** Only states differ. */
  ghost predicate SameLinks(a: Arena, b: Arena) {
    && WellFormed(b) && |a| == |b|
    && forall i :: 0 <= i < |a| ==> a[i].parent == b[i].parent && a[i].children == b[i].children && a[i].name == b[i].name
  }

  // ----- ancestors -----

  /** `i` is `j` or one of its ancestors. */
  ghost predicate Above(a: Arena, i: int, j: nat)
    requires WellFormed(a) && j < |a|
    decreases j
  {
    i == j || (a[j].parent >= 0 && Above(a, i, a[j].parent))
  }

  lemma {:induction false} AboveIsSmaller(a: Arena, i: int, j: nat)
    requires WellFormed(a) && j < |a| && Above(a, i, j)
    ensures 0 <= i <= j
    decreases j
  {
    if i != j {
      AboveIsSmaller(a, i, a[j].parent);
    }
  }

  /** `b` has all trackers of `a`, with the same parents and names, and maybe more. */
  ghost predicate Extends(a: Arena, b: Arena) {
    && WellFormed(a) && WellFormed(b) && |a| <= |b|
    && forall i :: 0 <= i < |a| ==> a[i].parent == b[i].parent && a[i].name == b[i].name && a[i].children <= b[i].children
  }

  lemma {:induction false} AboveKept(a: Arena, b: Arena, i: int, j: nat)
    requires WellFormed(a) && WellFormed(b) && |a| <= |b| && j < |a|
    requires forall k :: 0 <= k < |a| ==> a[k].parent == b[k].parent
    ensures Above(a, i, j) == Above(b, i, j)
    decreases j
  {
    if i != j && a[j].parent >= 0 {
      AboveKept(a, b, i, a[j].parent);
    }
  }

  lemma {:induction false} AboveParent(a: Arena, i: nat, j: nat)
    requires WellFormed(a) && i < |a| && j < |a| && Above(a, i, j) && a[i].parent >= 0
    ensures Above(a, a[i].parent, j)
    decreases j
  {
    if i != j {
      AboveParent(a, i, a[j].parent);
    }
  }

  /** Two different siblings have no descendant in common. */
  lemma {:induction false} SiblingsAreApart(a: Arena, i: nat, k: nat, j: nat)
    requires WellFormed(a) && i < |a| && k < |a| && i != k && a[i].parent == a[k].parent && j < |a|
    requires Above(a, i, j)
    ensures !Above(a, k, j)
    decreases j
  {
    if i == j {
      if Above(a, k, j) {
        AboveIsSmaller(a, k, a[j].parent);
        assert false;
      }
    } else if k == j {
      AboveIsSmaller(a, i, a[j].parent);
      assert false;
    } else {
      SiblingsAreApart(a, i, k, a[j].parent);
    }
  }

  // ----- the trackers as a forest -----

  /** The children of tracker `i` from the k-th on. */
  ghost function View(a: Arena, i: nat, k: nat): Forest
    requires WellFormed(a) && i < |a| && k <= |a[i].children|
    decreases |a| - i, |a[i].children| - k
  {
    if k == |a[i].children| then Nil
    else
      var c := a[i].children[k];
      Tree(a[c].name, a[c].state, View(a, c, 0), View(a, i, k + 1))
  }

  /** The view is decided by the trackers below the children it shows. */
  lemma {:induction false} ViewKept(a: Arena, b: Arena, i: nat, k: nat)
    requires Extends(a, b) && i < |a| && k <= |a[i].children| && a[i].children == b[i].children
    requires forall m, j :: k <= m < |a[i].children| && 0 <= j < |a| && Above(a, a[i].children[m], j) ==> a[j] == b[j]
    ensures View(a, i, k) == View(b, i, k)
    decreases |a| - i, |a[i].children| - k
  {
    if k < |a[i].children| {
      var c := a[i].children[k];
      assert Above(a, c, c);
      forall m, j | 0 <= m < |a[c].children| && 0 <= j < |a| && Above(a, a[c].children[m], j)
        ensures a[j] == b[j]
      {
        AboveParent(a, a[c].children[m], j);
      }
      ViewKept(a, b, c, 0);
      ViewKept(a, b, i, k + 1);
    }
  }

  /** Every tracker above `i` is executing its children. */
  ghost predicate AncestorsOpen(a: Arena, i: nat)
    requires WellFormed(a) && i < |a|
    decreases i
  {
    a[i].parent >= 0 ==> a[a[i].parent].state == ExecutingChildren && AncestorsOpen(a, a[i].parent)
  }

  lemma {:induction false} AncestorsOpenKept(a: Arena, b: Arena, i: nat)
    requires Extends(a, b) && i < |a| && AncestorsOpen(a, i)
    requires forall j :: 0 <= j < i && !Above(a, i, j) ==> a[j].state == b[j].state
    ensures AncestorsOpen(b, i)
    decreases i
  {
    var p := a[i].parent;
    if p >= 0 {
      if Above(a, i, p) {
        AboveIsSmaller(a, i, p);
        assert false;
      }
      forall j | 0 <= j < p && !Above(a, p, j) ensures a[j].state == b[j].state {
        if Above(a, i, j) {
          AboveIsSmaller(a, i, j);
          assert false;
        }
      }
      AncestorsOpenKept(a, b, p);
    }
  }

  // ----- the stack of active sections -----

  /** `path` lists the trackers from below `base` down to `current`, each the parent of the next. */
  ghost predicate IsPath(a: Arena, base: nat, path: seq<nat>, current: nat)
    requires WellFormed(a) && current < |a|
    decreases |path|
  {
    if path == [] then current == base
    else
      var n := |path| - 1;
      path[n] == current && a[current].parent >= 0 && IsPath(a, base, path[..n], a[current].parent)
  }

  lemma {:induction false} IsPathKept(a: Arena, b: Arena, base: nat, path: seq<nat>, current: nat)
    requires WellFormed(a) && WellFormed(b) && |a| <= |b| && current < |a|
    requires forall k :: 0 <= k < |a| ==> a[k].parent == b[k].parent
    requires IsPath(a, base, path, current)
    ensures IsPath(b, base, path, current)
    decreases |path|
  {
    if path == [] {
    } else {
      IsPathKept(a, b, base, path[..|path| - 1], a[current].parent);
    }
  }
}
