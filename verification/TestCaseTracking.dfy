/** The mutable trackers: `TrackerContext` and `SectionTracker`. Every method is proved to do to
    the heap what the operation of the same name in `TrackerArena` does to the coupled value. */
module TestCaseTracking {
  import opened SectionSpec
  import A = TrackerArena

  datatype RunState = Idle | InCycle | CompletedCycle

  class TrackerContext {
    var rootTracker: SectionTracker?
    var currentTracker: SectionTracker?
    var runState: RunState

    /** All trackers of the current run, in order of creation, and their value. */
    ghost var nodes: seq<SectionTracker>
    ghost var arena: A.Arena

    /** The same trackers, as the frame of what the methods may change. */
    ghost var trackers: set<SectionTracker>

    ghost predicate Has(t: SectionTracker?)
      reads this`nodes
    {
      t != null && t.ctx == this && t.id < |nodes| && nodes[t.id] == t
    }

    /** Tracker i of a list is what record i of its value says. */
    ghost predicate CoupledIn(nodes: seq<SectionTracker>, arena: A.Arena, i: nat)
      requires i < |nodes| == |arena| && A.WellFormed(arena)
      reads nodes[i]
    {
      var t, r := nodes[i], arena[i];
      && t.id == i && t.ctx == this && t.name == r.name && t.state == r.state
      && (if r.parent < 0 then t.parent == null else t.parent == nodes[r.parent])
      && |t.children| == |r.children|
      && forall j :: 0 <= j < |r.children| ==> t.children[j] == nodes[r.children[j]]
    }

    ghost predicate Coupled(i: nat)
      requires i < |nodes| == |arena| && A.WellFormed(arena)
      reads this`nodes, this`arena, nodes
    {
      CoupledIn(nodes, arena, i)
    }

    /** A tracker stays coupled when another one gets a child, and so does that one. */
    lemma StaysCoupled(nodes: seq<SectionTracker>, arena: A.Arena, p: nat, child: SectionTracker, i: nat)
      requires |nodes| == |arena| && A.WellFormed(arena) && p < |nodes| && i < |nodes| && i != p
      requires CoupledIn(nodes, arena, i)
      ensures A.WellFormed(A.AddChild(arena, p, child.name))
      ensures CoupledIn(nodes + [child], A.AddChild(arena, p, child.name), i)
    {
    }

    lemma ParentStaysCoupled(nodes: seq<SectionTracker>, arena: A.Arena, p: nat, child: SectionTracker, children: seq<SectionTracker>)
      requires |nodes| == |arena| && A.WellFormed(arena) && p < |nodes|
      requires var t, r := nodes[p], arena[p];
               && t.id == p && t.ctx == this && t.name == r.name && t.state == r.state
               && (if r.parent < 0 then t.parent == null else t.parent == nodes[r.parent])
               && t.children == children + [child] && |children| == |r.children|
               && forall j :: 0 <= j < |r.children| ==> children[j] == nodes[r.children[j]]
      ensures A.WellFormed(A.AddChild(arena, p, child.name))
      ensures CoupledIn(nodes + [child], A.AddChild(arena, p, child.name), p)
    {
    }

    /** And the child is coupled to the record that was added. */
    lemma ChildIsCoupled(nodes: seq<SectionTracker>, arena: A.Arena, p: nat, child: SectionTracker)
      requires |nodes| == |arena| && A.WellFormed(arena) && p < |nodes|
      requires child.id == |nodes| && child.ctx == this && child.parent == nodes[p]
      requires child.children == [] && child.state == NotStarted
      ensures A.WellFormed(A.AddChild(arena, p, child.name))
      ensures CoupledIn(nodes + [child], A.AddChild(arena, p, child.name), |nodes|)
    {
    }

    ghost predicate Valid()
      reads this, nodes
    {
      && |nodes| == |arena| && A.WellFormed(arena)
      && (forall i :: 0 <= i < |nodes| ==> nodes[i] in trackers)
      && (forall i :: 0 <= i < |nodes| ==> Coupled(i))
      && (currentTracker != null ==> Has(currentTracker))
      && (rootTracker != null ==> Has(rootTracker) && rootTracker.id == 0 && arena[0].parent == -1)
    }

    constructor ()
      ensures Valid() && nodes == []
    {
      rootTracker, currentTracker, runState := null, null, Idle;
      nodes, arena, trackers := [], [], {};
    }

    /** A new tree of trackers, holding the root only. */
    method StartRun()
      modifies this
      ensures Valid() && rootTracker != null && fresh(trackers) && nodes == [rootTracker]
      ensures arena == [A.Record("{root}", -1, [], NotStarted)]
      ensures currentTracker == null && runState == InCycle
    {
      var root := new SectionTracker("{root}", this, null, 0);
      rootTracker := root;
      currentTracker := null;
      runState := InCycle;
      nodes, trackers := [root], {root};
      arena := [A.Record("{root}", -1, [], NotStarted)];
    }

    method StartCycle()
      requires Valid() && rootTracker != null
      modifies this`currentTracker, this`runState
      ensures Valid() && currentTracker == rootTracker && runState == InCycle
    {
      currentTracker := rootTracker;
      runState := InCycle;
    }

    predicate HasCompletedCycle()
      reads this
    {
      runState == CompletedCycle
    }
  }

  class SectionTracker {
    const name: string
    const ctx: TrackerContext
    const parent: SectionTracker?
    var children: seq<SectionTracker>
    var state: CycleState

    /** Position in the context's creation order. */
    ghost const id: nat

    constructor (name: string, ctx: TrackerContext, parent: SectionTracker?, ghost id: nat)
      ensures this.name == name && this.ctx == ctx && this.parent == parent && this.id == id
      ensures children == [] && state == NotStarted
    {
      this.name, this.ctx, this.parent, this.id := name, ctx, parent, id;
      children, state := [], NotStarted;
    }

    predicate IsComplete()
      reads this
    {
      state.IsComplete()
    }

    predicate IsOpen()
      reads this
    {
      state.IsOpen()
    }

    ghost predicate Live()
      reads ctx, ctx.nodes
    {
      ctx.Valid() && ctx.Has(this)
    }

    /** What being live means for the tracker's own links. */
    lemma Links()
      requires Live()
      ensures |ctx.nodes| == |ctx.arena| && A.WellFormed(ctx.arena) && id < |ctx.arena|
      ensures name == ctx.arena[id].name && state == ctx.arena[id].state
      ensures if parent == null then ctx.arena[id].parent == -1
              else ctx.arena[id].parent == parent.id && parent.ctx == ctx && parent.Live()
      ensures |children| == |ctx.arena[id].children|
      ensures forall j :: 0 <= j < |children| ==>
                var c := children[j]; c.id == ctx.arena[id].children[j] && c.ctx == ctx && c.Live() && c.state == ctx.arena[c.id].state
                                      && c.name == ctx.arena[c.id].name
    {
      assert ctx.Coupled(id);
      if parent != null {
        assert ctx.Coupled(ctx.arena[id].parent);
      }
      forall j | 0 <= j < |children|
        ensures var c := children[j]; c.id == ctx.arena[id].children[j] && c.ctx == ctx && c.Live() && c.state == ctx.arena[c.id].state
                                      && c.name == ctx.arena[c.id].name
      {
        assert ctx.Coupled(ctx.arena[id].children[j]);
      }
    }

    method SetState(s: CycleState)
      requires Live()
      modifies this`state, ctx`arena
      ensures ctx.Valid() && ctx.arena == A.SetState(old(ctx.arena), id, s)
    {
      state := s;
      ctx.arena := A.SetState(ctx.arena, id, s);
      assert forall i :: 0 <= i < |ctx.nodes| ==> old(ctx.Coupled(i)) ==> ctx.Coupled(i);
    }

    method OpenChild()
      requires Live()
      modifies ctx.trackers`state, ctx`arena
      ensures ctx.Valid() && ctx.arena == A.OpenChild(old(ctx.arena), id)
      decreases id
    {
      Links();
      if state != ExecutingChildren {
        SetState(ExecutingChildren);
        Links();
        if parent != null {
          parent.OpenChild();
        }
      }
    }

    method Open()
      requires Live()
      modifies ctx.trackers`state, ctx`arena, ctx`currentTracker
      ensures ctx.Valid() && ctx.arena == A.Open(old(ctx.arena), id) && ctx.currentTracker == this
    {
      SetState(Executing);
      MoveToThis();
      Links();
      if parent != null {
        parent.OpenChild();
      }
    }

    method MoveToThis()
      requires Live()
      modifies ctx`currentTracker
      ensures ctx.Valid() && ctx.currentTracker == this
    {
      ctx.currentTracker := this;
      assert forall i :: 0 <= i < |ctx.nodes| ==> old(ctx.Coupled(i)) ==> ctx.Coupled(i);
    }

    method MoveToParent()
      requires Live() && parent != null
      modifies ctx`currentTracker
      ensures ctx.Valid() && ctx.currentTracker == parent
    {
      Links();
      ctx.currentTracker := parent;
      assert forall i :: 0 <= i < |ctx.nodes| ==> old(ctx.Coupled(i)) ==> ctx.Coupled(i);
    }

    method MarkAsNeedingAnotherRun()
      requires Live()
      modifies ctx.trackers`state, ctx`arena
      ensures ctx.Valid() && ctx.arena == A.SetState(old(ctx.arena), id, NeedsAnotherRun)
    {
      SetState(NeedsAnotherRun);
    }

    method Fail()
      requires Live() && ctx.arena[id].parent >= 0
      modifies ctx.trackers`state, ctx`arena, ctx`currentTracker, ctx`runState
      ensures ctx.Valid() && ctx.arena == A.Fail(old(ctx.arena), id)
      ensures ctx.currentTracker == parent && ctx.runState == CompletedCycle
    {
      Links();
      SetState(Failed);
      Links();
      parent.MarkAsNeedingAnotherRun();
      MoveToParent();
      ctx.runState := CompletedCycle;
    }

    /** Closes this tracker, after any tracker still open below it. The result is false where the
        source throws "Illogical state". */
    method Close() returns (ok: bool)
      requires Live() && ctx.arena[id].parent >= 0 && ctx.currentTracker != null
      requires A.Above(ctx.arena, id, ctx.currentTracker.id)
      modifies ctx.trackers`state, ctx`arena, ctx`currentTracker, ctx`runState
      ensures ctx.Valid() && ctx.currentTracker != null
      ensures var r := A.Close(old(ctx.arena), old(ctx.currentTracker.id), id);
              && ok == r.Some?
              && (ok ==> ctx.arena == r.value && ctx.currentTracker == parent && ctx.runState == CompletedCycle)
      decreases ctx.currentTracker.id - id
    {
      A.AboveIsSmaller(ctx.arena, id, ctx.currentTracker.id);
      while ctx.currentTracker != this
        invariant Live() && ctx.currentTracker != null
        invariant A.Above(ctx.arena, id, ctx.currentTracker.id) && id <= ctx.currentTracker.id
        invariant ctx.arena[id].parent >= 0
        invariant ctx.currentTracker.id <= old(ctx.currentTracker.id)
        invariant A.Close(ctx.arena, ctx.currentTracker.id, id) == A.Close(old(ctx.arena), old(ctx.currentTracker.id), id)
        decreases ctx.currentTracker.id
      {
        var inner := ctx.currentTracker;
        inner.Links();
        label before:
        ok := inner.Close();
        if !ok {
          return;
        }
        A.AboveKept(old@before(ctx.arena), ctx.arena, id, inner.parent.id);
        A.AboveIsSmaller(ctx.arena, id, ctx.currentTracker.id);
      }
      ok := Finish();
    }

    /** The second half of `Close`, once this tracker is the current one. */
    method Finish() returns (ok: bool)
      requires Live() && ctx.arena[id].parent >= 0 && ctx.currentTracker == this
      modifies ctx.trackers`state, ctx`arena, ctx`currentTracker, ctx`runState
      ensures ctx.Valid() && ctx.currentTracker != null
      ensures var r := A.CloseCurrent(old(ctx.arena), id);
              && ok == r.Some?
              && (ok ==> ctx.arena == r.value && ctx.currentTracker == parent && ctx.runState == CompletedCycle)
    {
      Links();
      match state {
        case NotStarted => return false;
        case CompletedSuccessfully => return false;
        case Failed => return false;
        case NeedsAnotherRun =>
        case Executing => SetState(CompletedSuccessfully);
        case ExecutingChildren =>
          if children == [] || children[|children| - 1].IsComplete() {
            SetState(CompletedSuccessfully);
          }
      }
      Links();
      MoveToParent();
      ctx.runState := CompletedCycle;
      ok := true;
    }

    method FindChild(name: string) returns (child: SectionTracker?)
      requires Live()
      ensures var c := A.FindChild(ctx.arena, id, name, 0);
              if c < 0 then child == null else ctx.Has(child) && child.id == c
    {
      Links();
      var k := 0;
      while k < |children|
        invariant 0 <= k <= |children|
        invariant A.FindChild(ctx.arena, id, name, 0) == A.FindChild(ctx.arena, id, name, k)
      {
        if children[k].name == name {
          return children[k];
        }
        k := k + 1;
      }
      return null;
    }

    method AddChild(child: SectionTracker)
      requires Live() && child !in ctx.nodes
      requires child.id == |ctx.nodes| && child.ctx == ctx && child.parent == this
      requires child.children == [] && child.state == NotStarted
      modifies this`children, ctx`nodes, ctx`trackers, ctx`arena
      ensures ctx.Valid() && ctx.nodes == old(ctx.nodes) + [child] && ctx.trackers == old(ctx.trackers) + {child}
      ensures ctx.arena == A.AddChild(old(ctx.arena), id, child.name)
    {
      ghost var nodes, arena := ctx.nodes, ctx.arena;
      assert forall i :: 0 <= i < |nodes| ==> ctx.Coupled(i) && nodes[i].id == i;
      children := children + [child];
      ctx.nodes, ctx.trackers := nodes + [child], ctx.trackers + {child};
      ctx.arena := A.AddChild(arena, id, child.name);
      forall i: nat | i < |nodes| && i != id ensures ctx.Coupled(i) {
        assert ctx.CoupledIn(nodes, arena, i);
        ctx.StaysCoupled(nodes, arena, id, child, i);
      }
      ctx.ParentStaysCoupled(nodes, arena, id, child, old(children));
      ctx.ChildIsCoupled(nodes, arena, id, child);
    }

    static method Acquire(ctx: TrackerContext, name: string) returns (section: SectionTracker)
      requires ctx.Valid() && ctx.currentTracker != null
      modifies ctx.trackers, ctx`arena, ctx`currentTracker, ctx`nodes, ctx`trackers
      ensures ctx.Valid() && old(ctx.nodes) <= ctx.nodes && fresh(ctx.trackers - old(ctx.trackers))
      ensures var (a, c) := A.Acquire(old(ctx.arena), old(ctx.currentTracker.id), name, ctx.HasCompletedCycle());
              ctx.arena == a && ctx.Has(section) && section.id == c
      ensures section.ctx == ctx && section.name == name && section.parent == old(ctx.currentTracker)
      ensures ctx.currentTracker ==
                if !ctx.HasCompletedCycle() && !A.FindOrAdd(old(ctx.arena), old(ctx.currentTracker.id), name).0[section.id].state.IsComplete()
                then section else old(ctx.currentTracker)
    {
      var current := ctx.currentTracker;
      var child := current.FindChild(name);
      if child != null {
        section := child;
      } else {
        section := new SectionTracker(name, ctx, current, |ctx.nodes|);
        current.AddChild(section);
      }
      section.Links();
      if !ctx.HasCompletedCycle() && !section.IsComplete() {
        section.Open();
      }
    }
  }
}
