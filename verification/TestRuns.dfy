/** All runs of a test: one for every combination of generator indices, each of them a loop of
    cycles over the sections of the body. */
module TestRuns {
  import opened SectionSpec
  import opened SectionTheorems
  import opened SectionLeaves
  import opened Generators
  import opened RunContext
  import opened Strings

  /** The run loop from index tuple `idx` on. The body may depend on the indices; `inputs(n)`
      governs the cycles of run n. */
  ghost function AllRuns(
    bodyOf: seq<nat> -> Body, sizes: seq<nat>, idx: seq<nat>, inputs: nat -> nat -> CycleInput, n: nat
  ): seq<seq<Report>>
    requires InRange(sizes, idx)
    decreases Combinations(sizes) - Position(sizes, idx)
  {
    StepCounts(sizes, idx);
    var reports := Run(bodyOf(idx), FRESH_TEST_CASE, inputs(n), 0).1;
    var (more, next) := Step(sizes, idx);
    if more && !inputs(n)(|reports| - 1).abort
    then [reports] + AllRuns(bodyOf, sizes, next, inputs, n + 1)
    else [reports]
  }

  lemma {:induction false} RunsFollowTheOdometer(
    bodyOf: seq<nat> -> Body, sizes: seq<nat>, idx: seq<nat>, inputs: nat -> nat -> CycleInput, n: nat)
    requires InRange(sizes, idx) && (forall i :: DistinctNames(bodyOf(i)))
    requires forall m, k :: inputs(m)(k).fuse < 0 && !inputs(m)(k).abort
    ensures var runs := AllRuns(bodyOf, sizes, idx, inputs, n);
            && |runs| == |Runs(sizes, idx)|
            && forall m :: 0 <= m < |runs| ==> Paths(runs[m]) == Leaves(bodyOf(Runs(sizes, idx)[m]))
    decreases Combinations(sizes) - Position(sizes, idx)
  {
    StepCounts(sizes, idx);
    CyclesAreTheLeaves(bodyOf(idx), inputs(n));
    var (more, next) := Step(sizes, idx);
    if more {
      RunsFollowTheOdometer(bodyOf, sizes, next, inputs, n + 1);
      var later, laterIdx := AllRuns(bodyOf, sizes, next, inputs, n + 1), Runs(sizes, next);
      var runs := AllRuns(bodyOf, sizes, idx, inputs, n);
      forall m | 0 <= m < |runs| ensures Paths(runs[m]) == Leaves(bodyOf(Runs(sizes, idx)[m])) {
        if m > 0 {
          assert runs[m] == later[m - 1] && Runs(sizes, idx)[m] == laterIdx[m - 1];
        }
      }
    }
  }

  /** Without exceptions and aborts, a test meets every leaf of its body, as the body is for
      that combination, exactly once under every combination of generator indices. */
  lemma EveryLeafUnderEveryCombination(bodyOf: seq<nat> -> Body, sizes: seq<nat>, inputs: nat -> nat -> CycleInput)
    requires Positive(sizes) && (forall i :: DistinctNames(bodyOf(i)))
    requires forall m, k :: inputs(m)(k).fuse < 0 && !inputs(m)(k).abort
    ensures InRange(sizes, Zeros(|sizes|))
    ensures var runs := AllRuns(bodyOf, sizes, Zeros(|sizes|), inputs, 0);
            && |runs| == Combinations(sizes)
            && |Runs(sizes, Zeros(|sizes|))| == |runs|
            && (forall m :: 0 <= m < |runs| ==> Paths(runs[m]) == Leaves(bodyOf(Runs(sizes, Zeros(|sizes|))[m])))
            && (forall idx :: InRange(sizes, idx) <==> idx in Runs(sizes, Zeros(|sizes|)))
            && (forall m, n :: 0 <= m < n < |runs| ==> Runs(sizes, Zeros(|sizes|))[m] != Runs(sizes, Zeros(|sizes|))[n])
  {
    EveryCombinationOnce(sizes);
    RunsFollowTheOdometer(bodyOf, sizes, Zeros(|sizes|), inputs, 0);
  }

  // ----- a whole test -----

  /** The run loop when generators are registered as they are first reached. */
  ghost function LateAllRuns(
    bodyOf: seq<nat> -> Body, sizes: seq<nat>, reached: nat -> nat, idx: seq<nat>, inputs: nat -> nat -> CycleInput, n: nat
  ): (runs: seq<seq<Report>>)
    requires InRange(sizes, idx) && Growing(reached, |sizes|) && ZeroFrom(idx, reached(n))
    ensures |runs| > 0 && |runs[|runs| - 1]| > 0
    decreases Combinations(sizes) - Position(sizes, idx)
  {
    var k := reached(n);
    LateStep(sizes, reached, idx, n);
    var reports := Run(bodyOf(idx), FRESH_TEST_CASE, inputs(n), 0).1;
    var (more, next) := Step(sizes[..k], idx[..k]);
    if more && !inputs(n)(|reports| - 1).abort
    then [reports] + LateAllRuns(bodyOf, sizes, reached, next + Zeros(|sizes| - k), inputs, n + 1)
    else [reports]
  }

  /** Unless it aborts, a run loop that has reached every generator there is makes the same runs
      as if all of them had been registered from the start. */
  lemma {:induction false} LateAllRunsAreAll(
    bodyOf: seq<nat> -> Body, sizes: seq<nat>, reached: nat -> nat, idx: seq<nat>, inputs: nat -> nat -> CycleInput, n: nat)
    requires InRange(sizes, idx) && Growing(reached, |sizes|) && ZeroFrom(idx, reached(n))
    requires var runs := LateAllRuns(bodyOf, sizes, reached, idx, inputs, n);
             var last := |runs| - 1;
             reached(n + last) == |sizes| || inputs(n + last)(|runs[last]| - 1).abort
    ensures LateAllRuns(bodyOf, sizes, reached, idx, inputs, n) == AllRuns(bodyOf, sizes, idx, inputs, n)
    decreases Combinations(sizes) - Position(sizes, idx)
  {
    hide Run, Step, Position, Combinations, Zeros, Growing, ZeroFrom;
    var k := reached(n);
    LateStep(sizes, reached, idx, n);
    var runs := LateAllRuns(bodyOf, sizes, reached, idx, inputs, n);
    var reports := Run(bodyOf(idx), FRESH_TEST_CASE, inputs(n), 0).1;
    var (more, next) := Step(sizes[..k], idx[..k]);
    if more && !inputs(n)(|reports| - 1).abort {
      var later := LateAllRuns(bodyOf, sizes, reached, next + Zeros(|sizes| - k), inputs, n + 1);
      assert runs[|runs| - 1] == later[|later| - 1];
      LateAllRunsAreAll(bodyOf, sizes, reached, next + Zeros(|sizes| - k), inputs, n + 1);
    } else {
      assert k == |sizes| ==> sizes[..k] == sizes && idx[..k] == idx;
    }
  }

  predicate DistinctPlaces(places: seq<string>) {
    forall i, j :: 0 <= i < j < |places| ==> places[i] != places[j]
  }

  /** The generators registered are the first k, by place and size. */
  ghost predicate Registered(generators: GeneratorsForTest, places: seq<string>, sizes: seq<nat>, k: nat)
    requires |places| == |sizes|
    reads generators
  {
    && generators.Valid() && k <= |sizes| && generators.Sizes() == sizes[..k]
    && forall i :: 0 <= i < |places| ==> (places[i] in generators.generatorsByName <==> i < k)
  }

  /** The generators reached in a run ask for their indices: known ones have theirs, new ones are
      registered. */
  method ReachGenerators(generators: GeneratorsForTest, places: seq<string>, sizes: seq<nat>, ghost known: nat, k: nat)
    requires |places| == |sizes| && DistinctPlaces(places) && Registered(generators, places, sizes, known)
    requires known <= k <= |sizes|
    modifies generators
    ensures Registered(generators, places, sizes, k)
    ensures generators.Indices() == old(generators.Indices()) + Zeros(k - known)
    ensures old(generators.generatorsInOrder) <= generators.generatorsInOrder
    ensures fresh(generators.generatorsInOrder[|old(generators.generatorsInOrder)|..])
  {
    var i := 0;
    assert generators.Indices() == old(generators.Indices()) + Zeros(0);
    while i < k
      invariant 0 <= i <= k
      invariant Registered(generators, places, sizes, Max(known, i))
      invariant generators.Indices() == old(generators.Indices()) + Zeros(Max(known, i) - known)
      invariant old(generators.generatorsInOrder) <= generators.generatorsInOrder
      invariant fresh(generators.generatorsInOrder[|old(generators.generatorsInOrder)|..])
    {
      ghost var before, order := generators.Indices(), generators.generatorsInOrder;
      Reach(generators, places, sizes, Max(known, i), i);
      OneMoreZero(old(generators.Indices()), before, generators.Indices(), known, i);
      LaterAppended(old(generators.generatorsInOrder), order, generators.generatorsInOrder);
      i := i + 1;
    }
  }

  lemma LaterAppended<T>(a: seq<T>, b: seq<T>, c: seq<T>)
    requires a <= b <= c
    ensures c[|a|..] == b[|a|..] + c[|b|..] && c == b + c[|b|..]
  {
  }

  lemma OneMoreZero(start: seq<nat>, before: seq<nat>, after: seq<nat>, known: nat, i: nat)
    requires before == start + Zeros(Max(known, i) - known)
    requires after == if i < Max(known, i) then before else before + [0]
    ensures after == start + Zeros(Max(known, i + 1) - known)
  {
    assert i >= known ==> Zeros(i - known) + [0] == Zeros(i + 1 - known);
  }

  /** One generator asks for its index. */
  method Reach(generators: GeneratorsForTest, places: seq<string>, sizes: seq<nat>, ghost known: nat, i: nat)
    requires |places| == |sizes| && DistinctPlaces(places) && Registered(generators, places, sizes, known)
    requires i <= known && i < |places|
    modifies generators
    ensures Registered(generators, places, sizes, Max(known, i + 1))
    ensures generators.Indices() == if i < known then old(generators.Indices()) else old(generators.Indices()) + [0]
    ensures old(generators.generatorsInOrder) <= generators.generatorsInOrder
    ensures fresh(generators.generatorsInOrder[|old(generators.generatorsInOrder)|..])
  {
    var info := generators.GetGeneratorInfo(places[i], sizes[i]);
    assert sizes[..i] + [sizes[i]] == sizes[..i + 1];
  }

  /** And they are at index tuple `idx`, filled up with zeros. */
  ghost predicate Positioned(generators: GeneratorsForTest, places: seq<string>, sizes: seq<nat>, k: nat, idx: seq<nat>)
    requires |places| == |sizes|
    reads generators, generators.generatorsInOrder
  {
    Registered(generators, places, sizes, k) && idx == generators.Indices() + Zeros(|sizes| - k)
  }

  /** What happens to the generators in a run from index tuple `idx`: those reached are registered,
      and all that are known make one step. */
  method AdvanceGenerators(
    generators: GeneratorsForTest, places: seq<string>, sizes: seq<nat>, ghost known: nat, k: nat, ghost idx: seq<nat>)
    returns (more: bool)
    requires |places| == |sizes| && DistinctPlaces(places) && Positioned(generators, places, sizes, known, idx)
    requires known <= k <= |sizes|
    modifies generators, generators.generatorsInOrder
    ensures var (again, next) := Step(sizes[..k], idx[..k]);
            more == again && Positioned(generators, places, sizes, k, next + Zeros(|sizes| - k))
    ensures old(generators.generatorsInOrder) <= generators.generatorsInOrder
    ensures fresh(generators.generatorsInOrder[|old(generators.generatorsInOrder)|..])
  {
    hide Step;
    ReachGenerators(generators, places, sizes, known, k);
    assert generators.Indices() == idx[..k];
    ghost var order := old(generators.generatorsInOrder);
    LaterAppended(order, order, generators.generatorsInOrder);
    more := generators.MoveNext();
  }

  /** The indices of a run, those of generators not yet reached included. */
  method FullIndices(generators: GeneratorsForTest, ghost places: seq<string>, sizes: seq<nat>, ghost k: nat, ghost idx: seq<nat>)
    returns (full: seq<nat>)
    requires |places| == |sizes| && Positioned(generators, places, sizes, k, idx)
    ensures full == idx
  {
    assert |generators.Sizes()| == k;
    full := generators.Indices() + Zeros(|sizes| - |generators.generatorsInOrder|);
  }

  lemma StartsAtZero(generators: GeneratorsForTest, places: seq<string>, sizes: seq<nat>)
    requires |places| == |sizes| && generators.generatorsByName == map[] && generators.generatorsInOrder == []
    requires Positive(sizes)
    ensures Positioned(generators, places, sizes, 0, Zeros(|sizes|)) && InRange(sizes, Zeros(|sizes|))
    ensures forall k: nat :: ZeroFrom(Zeros(|sizes|), k)
  {
  }

  /** One turn of the outer loop: all cycles of a run, and the step of the generators. */
  method RunOnce(rc: RunContext, name: string, bodyOf: seq<nat> -> Body, generators: GeneratorsForTest, places: seq<string>,
                 sizes: seq<nat>, ghost known: nat, k: nat, ghost idx: seq<nat>, input: nat -> CycleInput)
    returns (reports: seq<Report>, more: bool, ok: bool)
    requires (forall i :: DistinctNames(bodyOf(i))) && rc.activeSections == [] && rc.unfinishedSections == []
    requires |places| == |sizes| && DistinctPlaces(places) && Positioned(generators, places, sizes, known, idx)
    requires known <= k <= |sizes|
    modifies rc, rc.ctx, generators, generators.generatorsInOrder
    ensures ok && rc.activeSections == [] && rc.unfinishedSections == []
    ensures reports == Run(bodyOf(idx), FRESH_TEST_CASE, input, 0).1
    ensures var (again, next) := Step(sizes[..k], idx[..k]);
            more == again && Positioned(generators, places, sizes, k, next + Zeros(|sizes| - k))
    ensures old(generators.generatorsInOrder) <= generators.generatorsInOrder
    ensures fresh(generators.generatorsInOrder[|old(generators.generatorsInOrder)|..])
  {
    hide Run, Step, Positioned, Zeros;
    var now := FullIndices(generators, places, sizes, known, idx);
    reports, ok := rc.RunCycles(name, bodyOf(now), input);
    more := AdvanceGenerators(generators, places, sizes, known, k, idx);
  }

  /** A whole test in run context `rc`, from no generators registered on: `reached(n)` says how
      many of them have been reached by the end of run n, in the order of their first reach. The
      body may depend on the indices; a generator reached for the first time has index 0. */
  method RunTest(rc: RunContext, name: string, bodyOf: seq<nat> -> Body, places: seq<string>, sizes: seq<nat>,
                 reached: nat -> nat, inputs: nat -> nat -> CycleInput)
    returns (runs: seq<seq<Report>>, ok: bool)
    requires (forall i :: DistinctNames(bodyOf(i))) && rc.activeSections == [] && rc.unfinishedSections == []
    requires |places| == |sizes| && DistinctPlaces(places) && Positive(sizes) && Growing(reached, |sizes|)
    modifies rc, rc.ctx
    ensures ok && rc.activeSections == [] && rc.unfinishedSections == []
    ensures runs == LateAllRuns(bodyOf, sizes, reached, Zeros(|sizes|), inputs, 0)
  {
    hide LateAllRuns, Run, Step, Position, Combinations, InRange, ZeroFrom, Growing, DistinctNames, DistinctPlaces;
    var generators := new GeneratorsForTest();
    StartsAtZero(generators, places, sizes);
    hide Positioned, Registered, Zeros;
    runs, ok := [], true;
    var again := true;
    ghost var known: nat, idx := 0, Zeros(|sizes|);
    while again
      invariant ok && rc.activeSections == [] && rc.unfinishedSections == []
      invariant fresh(generators) && fresh(generators.generatorsInOrder)
      invariant Positioned(generators, places, sizes, known, idx) && known <= reached(|runs|)
      invariant (again ==> InRange(sizes, idx)) && ZeroFrom(idx, reached(|runs|))
      invariant LateAllRuns(bodyOf, sizes, reached, Zeros(|sizes|), inputs, 0) ==
                  if again then runs + LateAllRuns(bodyOf, sizes, reached, idx, inputs, |runs|) else runs
      decreases if again then 1 + Combinations(sizes) - Position(sizes, idx) else 0
    {
      var n, k := |runs|, reached(|runs|);
      ghost var next := OneTurn(bodyOf, sizes, reached, idx, inputs, runs);
      ghost var order := generators.generatorsInOrder;
      var reports, more;
      reports, more, ok := RunOnce(rc, name, bodyOf, generators, places, sizes, known, k, idx, inputs(n));
      LaterAppended(order, order, generators.generatorsInOrder);
      again := more && !inputs(n)(|reports| - 1).abort;
      known, idx := k, next;
      runs := runs + [reports];
      assert |runs| == n + 1;
    }
  }

  /** One turn on the side of the specification, with the indices it leads to. */
  lemma OneTurn(
    bodyOf: seq<nat> -> Body, sizes: seq<nat>, reached: nat -> nat, idx: seq<nat>, inputs: nat -> nat -> CycleInput,
    before: seq<seq<Report>>)
    returns (full: seq<nat>)
    requires InRange(sizes, idx) && Growing(reached, |sizes|) && ZeroFrom(idx, reached(|before|))
    ensures reached(|before|) <= reached(|before| + 1) <= |sizes| == |idx| && ZeroFrom(full, reached(|before| + 1))
    ensures Position(sizes, idx) < Combinations(sizes)
    ensures var reports := Run(bodyOf(idx), FRESH_TEST_CASE, inputs(|before|), 0).1;
            var k := reached(|before|);
            var (more, next) := Step(sizes[..k], idx[..k]);
            && full == next + Zeros(|sizes| - k)
            && (more ==> InRange(sizes, full) && Position(sizes, idx) < Position(sizes, full) < Combinations(sizes))
            && before + LateAllRuns(bodyOf, sizes, reached, idx, inputs, |before|) ==
                 if more && !inputs(|before|)(|reports| - 1).abort
                 then before + [reports] + LateAllRuns(bodyOf, sizes, reached, full, inputs, |before| + 1)
                 else before + [reports]
  {
    LateStep(sizes, reached, idx, |before|);
    hide Run, Step, Position, Combinations, Zeros, Growing, InRange, ZeroFrom;
    full := Step(sizes[..reached(|before|)], idx[..reached(|before|)]).1 + Zeros(|sizes| - reached(|before|));
  }
}
