/** Generators: the odometer that steps a test through every combination of generator indices,
    and the composite generator that turns an index into a value. */
module Generators {
  import opened Options

  // ----- the odometer, as numbers -----

  /** One index per generator, each within its size; the first generator turns fastest. */
  predicate InRange(sizes: seq<nat>, idx: seq<nat>) {
    |idx| == |sizes| && forall i :: 0 <= i < |sizes| ==> idx[i] < sizes[i]
  }

  predicate Positive(sizes: seq<nat>) {
    forall i :: 0 <= i < |sizes| ==> 0 < sizes[i]
  }

  function Combinations(sizes: seq<nat>): nat {
    if sizes == [] then 1 else sizes[0] * Combinations(sizes[1..])
  }

  /** The position of an index tuple in the count. */
  function Position(sizes: seq<nat>, idx: seq<nat>): nat
    requires |idx| == |sizes|
  {
    if sizes == [] then 0 else idx[0] + sizes[0] * Position(sizes[1..], idx[1..])
  }

  /** The tuple at a position. */
  function TupleAt(sizes: seq<nat>, n: nat): seq<nat>
    requires Positive(sizes)
  {
    if sizes == [] then [] else [n % sizes[0]] + TupleAt(sizes[1..], n / sizes[0])
  }

  /** One step of the odometer: whether it goes on, and the indices afterwards. */
  function Step(sizes: seq<nat>, idx: seq<nat>): (r: (bool, seq<nat>))
    requires |idx| == |sizes|
    ensures |r.1| == |sizes|
  {
    if sizes == [] then (false, [])
    else if idx[0] + 1 != sizes[0] then (true, idx[0 := idx[0] + 1])
    else
      var (more, rest) := Step(sizes[1..], idx[1..]);
      (more, [0] + rest)
  }

  function Zeros(n: nat): seq<nat> {
    seq(n, _ => 0)
  }

  lemma {:induction false} MulOrdered(s: nat, x: nat, y: nat)
    ensures x < y ==> s * x + s <= s * y
    ensures x <= y ==> s * x <= s * y
    decreases y
  {
    if x < y {
      MulOrdered(s, x, y - 1);
      assert s * y == s * (y - 1) + s;
    }
  }

  lemma {:induction false} PositionInRange(sizes: seq<nat>, idx: seq<nat>)
    requires InRange(sizes, idx)
    ensures Position(sizes, idx) < Combinations(sizes)
  {
    if sizes == [] {
    } else {
      PositionInRange(sizes[1..], idx[1..]);
      MulOrdered(sizes[0], Position(sizes[1..], idx[1..]), Combinations(sizes[1..]));
    }
  }

  lemma QuotientInRange(s: nat, n: nat, c: nat)
    requires n < s * c
    ensures 0 < s && n / s < c && n == n % s + s * (n / s)
  {
    MulOrdered(s, c, n / s);
  }

  lemma {:induction false} PositionOfTuple(sizes: seq<nat>, n: nat)
    requires Positive(sizes) && n < Combinations(sizes)
    ensures InRange(sizes, TupleAt(sizes, n)) && Position(sizes, TupleAt(sizes, n)) == n
  {
    if sizes == [] {
    } else {
      var q := n / sizes[0];
      QuotientInRange(sizes[0], n, Combinations(sizes[1..]));
      PositionOfTuple(sizes[1..], q);
      assert TupleAt(sizes, n)[1..] == TupleAt(sizes[1..], q);
    }
  }

  lemma {:induction false} TupleOfPosition(sizes: seq<nat>, idx: seq<nat>)
    requires InRange(sizes, idx)
    ensures Positive(sizes) && TupleAt(sizes, Position(sizes, idx)) == idx
  {
    if sizes == [] {
    } else {
      TupleOfPosition(sizes[1..], idx[1..]);
      DivModOf(sizes[0], Position(sizes[1..], idx[1..]), idx[0]);
      assert forall i :: 1 <= i < |sizes| ==> sizes[i] == sizes[1..][i - 1];
    }
  }

  lemma DivModOf(s: nat, q: nat, r: nat)
    requires r < s
    ensures (r + s * q) / s == q && (r + s * q) % s == r
  {
    var n := r + s * q;
    assert n == n % s + s * (n / s);
    MulOrdered(s, n / s, q);
    MulOrdered(s, q, n / s);
  }

  /** The arithmetic of a carry. */
  lemma CarryCounts(s: nat, p: nat, p1: nat, c: nat, more: bool)
    requires 0 < s && p < c && (more <==> p + 1 < c) && (more ==> p1 == p + 1)
    ensures more <==> (s - 1) + s * p + 1 < s * c
    ensures more ==> s * p1 == (s - 1) + s * p + 1
  {
    assert s * (p + 1) == s * p + s;
    MulOrdered(s, p + 1, c);
    MulOrdered(s, c, p + 1);
  }

  /** A step counts up by one, or, from the last tuple only, stops with all indices at zero. */
  lemma {:induction false} StepCounts(sizes: seq<nat>, idx: seq<nat>)
    requires InRange(sizes, idx)
    ensures var (more, next) := Step(sizes, idx);
            && InRange(sizes, next)
            && (more <==> Position(sizes, idx) + 1 < Combinations(sizes))
            && (more ==> Position(sizes, next) == Position(sizes, idx) + 1)
            && (!more ==> next == Zeros(|sizes|))
  {
    if sizes == [] {
    } else {
      var p, c := Position(sizes[1..], idx[1..]), Combinations(sizes[1..]);
      PositionInRange(sizes[1..], idx[1..]);
      if idx[0] + 1 != sizes[0] {
        MulOrdered(sizes[0], p, c);
        assert idx[0 := idx[0] + 1][1..] == idx[1..];
      } else {
        StepCounts(sizes[1..], idx[1..]);
        var (more, rest) := Step(sizes[1..], idx[1..]);
        assert ([0] + rest)[1..] == rest;
        CarryCounts(sizes[0], p, Position(sizes[1..], rest), c, more);
      }
    }
  }

  lemma {:induction false} PositionOfZeros(sizes: seq<nat>)
    ensures Position(sizes, Zeros(|sizes|)) == 0
  {
    if sizes == [] {
    } else {
      assert Zeros(|sizes|)[1..] == Zeros(|sizes[1..]|);
      PositionOfZeros(sizes[1..]);
    }
  }

  // ----- the generators of a test -----

  class GeneratorInfo {
    const size: nat
    var currentIndex: nat

    constructor (size: nat)
      ensures this.size == size && currentIndex == 0
    {
      this.size, currentIndex := size, 0;
    }

    method MoveNext() returns (more: bool)
      modifies this
      ensures more == (old(currentIndex) + 1 != size)
      ensures currentIndex == if more then old(currentIndex) + 1 else 0
    {
      currentIndex := currentIndex + 1;
      if currentIndex == size {
        currentIndex := 0;
        return false;
      }
      return true;
    }
  }

  class GeneratorsForTest {
    var generatorsByName: map<string, GeneratorInfo>
    var generatorsInOrder: seq<GeneratorInfo>

    ghost predicate Valid()
      reads this
    {
      && (forall i, j :: 0 <= i < j < |generatorsInOrder| ==> generatorsInOrder[i] != generatorsInOrder[j])
      && (forall name <- generatorsByName :: generatorsByName[name] in generatorsInOrder)
    }

    function Sizes(): seq<nat>
      reads this
    {
      seq(|generatorsInOrder|, i requires 0 <= i < |generatorsInOrder| reads this => generatorsInOrder[i].size)
    }

    function Indices(): seq<nat>
      reads this, generatorsInOrder
    {
      seq(|generatorsInOrder|, i requires 0 <= i < |generatorsInOrder| reads this, generatorsInOrder =>
        generatorsInOrder[i].currentIndex)
    }

    constructor ()
      ensures Valid() && generatorsByName == map[] && generatorsInOrder == []
    {
      generatorsByName, generatorsInOrder := map[], [];
    }

    /** The generator registered for a source location; a new one starts at index 0 and turns
        slowest of all. */
    method GetGeneratorInfo(fileInfo: string, size: nat) returns (info: GeneratorInfo)
      requires Valid()
      modifies this
      ensures Valid() && fileInfo in generatorsByName && generatorsByName[fileInfo] == info
      ensures fileInfo in old(generatorsByName) ==>
                info == old(generatorsByName)[fileInfo] && generatorsByName == old(generatorsByName)
                && generatorsInOrder == old(generatorsInOrder) && Sizes() == old(Sizes()) && Indices() == old(Indices())
      ensures fileInfo !in old(generatorsByName) ==>
                && fresh(info) && info.size == size && info.currentIndex == 0
                && generatorsByName == old(generatorsByName)[fileInfo := info]
                && generatorsInOrder == old(generatorsInOrder) + [info]
                && Sizes() == old(Sizes()) + [size] && Indices() == old(Indices()) + [0]
    {
      if fileInfo !in generatorsByName {
        info := new GeneratorInfo(size);
        generatorsByName := generatorsByName[fileInfo := info];
        generatorsInOrder := generatorsInOrder + [info];
        return;
      }
      return generatorsByName[fileInfo];
    }

    method MoveNext() returns (more: bool)
      requires Valid()
      modifies generatorsInOrder
      ensures (more, Indices()) == Step(Sizes(), old(Indices()))
    {
      var i := 0;
      ghost var sizes, idx := Sizes(), Indices();
      FromFirst(sizes, idx);
      while i < |generatorsInOrder|
        invariant 0 <= i <= |generatorsInOrder|
        invariant forall j :: 0 <= j < i ==> generatorsInOrder[j].currentIndex == 0
        invariant forall j :: i <= j < |generatorsInOrder| ==> generatorsInOrder[j].currentIndex == idx[j]
        invariant Step(sizes, idx) == Carried(sizes, idx, i)
      {
        CarriedOn(sizes, idx, i);
        more := generatorsInOrder[i].MoveNext();
        if more {
          IndicesAre(Zeros(i) + [idx[i] + 1] + idx[i + 1..]);
          return;
        }
        i := i + 1;
      }
      more := false;
      IndicesAre(Zeros(i) + []);
    }

    lemma IndicesAre(s: seq<nat>)
      requires |s| == |generatorsInOrder|
      requires forall j :: 0 <= j < |s| ==> generatorsInOrder[j].currentIndex == s[j]
      ensures Indices() == s
    {
    }
  }

  /** The step, once the first n generators have wrapped around. */
  ghost function Carried(sizes: seq<nat>, idx: seq<nat>, n: nat): (bool, seq<nat>)
    requires n <= |idx| == |sizes|
  {
    var r := Step(sizes[n..], idx[n..]);
    (r.0, Zeros(n) + r.1)
  }

  lemma FromFirst(sizes: seq<nat>, idx: seq<nat>)
    requires |idx| == |sizes|
    ensures Carried(sizes, idx, 0) == Step(sizes, idx)
  {
    assert sizes[0..] == sizes && idx[0..] == idx;
    assert Zeros(0) + Step(sizes, idx).1 == Step(sizes, idx).1;
  }

  lemma CarriedOn(sizes: seq<nat>, idx: seq<nat>, n: nat)
    requires n < |idx| == |sizes|
    ensures Carried(sizes, idx, n) ==
              if idx[n] + 1 != sizes[n] then (true, Zeros(n) + [idx[n] + 1] + idx[n + 1..])
              else Carried(sizes, idx, n + 1)
  {
    assert sizes[n..][1..] == sizes[n + 1..] && idx[n..][1..] == idx[n + 1..];
    if idx[n] + 1 != sizes[n] {
      assert idx[n..][0 := idx[n] + 1] == [idx[n] + 1] + idx[n + 1..];
      assert Zeros(n) + ([idx[n] + 1] + idx[n + 1..]) == Zeros(n) + [idx[n] + 1] + idx[n + 1..];
    } else {
      var rest := Step(sizes[n + 1..], idx[n + 1..]).1;
      assert Zeros(n) + ([0] + rest) == Zeros(n + 1) + rest;
    }
  }

  // ----- all runs of a test -----

  /** The index tuples a test is run with: those before `idx` in the count, from there on. */
  ghost function Runs(sizes: seq<nat>, idx: seq<nat>): seq<seq<nat>>
    requires InRange(sizes, idx)
    decreases Combinations(sizes) - Position(sizes, idx)
  {
    StepCounts(sizes, idx);
    var (more, next) := Step(sizes, idx);
    if more then [idx] + Runs(sizes, next) else [idx]
  }

  lemma {:induction false} RunsCount(sizes: seq<nat>, idx: seq<nat>)
    requires InRange(sizes, idx)
    ensures |Runs(sizes, idx)| == Combinations(sizes) - Position(sizes, idx)
    ensures forall n :: 0 <= n < |Runs(sizes, idx)| ==>
              InRange(sizes, Runs(sizes, idx)[n]) && Position(sizes, Runs(sizes, idx)[n]) == Position(sizes, idx) + n
    decreases Combinations(sizes) - Position(sizes, idx)
  {
    StepCounts(sizes, idx);
    PositionInRange(sizes, idx);
    var (more, next) := Step(sizes, idx);
    if more {
      RunsCount(sizes, next);
      var later := Runs(sizes, next);
      assert forall n :: 1 <= n < |Runs(sizes, idx)| ==> Runs(sizes, idx)[n] == later[n - 1];
    }
  }

  /** Starting from all zeros, every combination of indices is run exactly once, so the number
      of runs is the product of the sizes. */
  lemma EveryCombinationOnce(sizes: seq<nat>)
    requires Positive(sizes)
    ensures InRange(sizes, Zeros(|sizes|)) && |Runs(sizes, Zeros(|sizes|))| == Combinations(sizes)
    ensures forall idx :: InRange(sizes, idx) <==> idx in Runs(sizes, Zeros(|sizes|))
    ensures forall m, n :: 0 <= m < n < |Runs(sizes, Zeros(|sizes|))| ==>
              Runs(sizes, Zeros(|sizes|))[m] != Runs(sizes, Zeros(|sizes|))[n]
  {
    var runs := Runs(sizes, Zeros(|sizes|));
    PositionOfZeros(sizes);
    RunsCount(sizes, Zeros(|sizes|));
    forall idx | InRange(sizes, idx) ensures idx in runs {
      PositionInRange(sizes, idx);
      TupleOfPosition(sizes, idx);
      var n := Position(sizes, idx);
      TupleOfPosition(sizes, runs[n]);
    }
  }

  // ----- generators that are reached late -----

  /** How many generators have been reached by the end of each run; none is ever forgotten. */
  ghost predicate Growing(reached: nat -> nat, n: nat) {
    forall m, k :: 0 <= m <= k ==> reached(m) <= reached(k) <= n
  }

  predicate ZeroFrom(idx: seq<nat>, k: nat) {
    forall j :: k <= j < |idx| ==> idx[j] == 0
  }

  /** While the first k generators do not wrap around, those behind them, all at zero, might as
      well be there. */
  lemma {:induction false} PrefixStep(sizes: seq<nat>, idx: seq<nat>, k: nat)
    requires |sizes| == |idx| && k <= |sizes| && ZeroFrom(idx, k)
    ensures var (more, next) := Step(sizes[..k], idx[..k]);
            more ==> Step(sizes, idx) == (true, next + Zeros(|sizes| - k))
    decreases k
  {
    if k == 0 {
    } else {
      assert sizes[..k][1..] == sizes[1..][..k - 1] && idx[..k][1..] == idx[1..][..k - 1];
      if idx[0] + 1 != sizes[0] {
        assert idx[0 := idx[0] + 1] == idx[..k][0 := idx[0] + 1] + Zeros(|sizes| - k);
      } else {
        PrefixStep(sizes[1..], idx[1..], k - 1);
        var rest := Step(sizes[..k][1..], idx[..k][1..]).1;
        assert [0] + (rest + Zeros(|sizes| - k)) == ([0] + rest) + Zeros(|sizes| - k);
      }
    }
  }

  /** One run of a test of whose generators only some have been reached by its end. */
  lemma LateStep(sizes: seq<nat>, reached: nat -> nat, idx: seq<nat>, n: nat)
    requires InRange(sizes, idx) && Growing(reached, |sizes|) && ZeroFrom(idx, reached(n))
    ensures reached(n) <= reached(n + 1) <= |sizes| == |idx|
    ensures var k := reached(n);
            var (more, next) := Step(sizes[..k], idx[..k]);
            var full := next + Zeros(|sizes| - k);
            && Position(sizes, idx) < Combinations(sizes)
            && ZeroFrom(full, k) && ZeroFrom(full, reached(n + 1))
            && (more ==>
                  && Step(sizes, idx) == (true, full) && InRange(sizes, full)
                  && Position(sizes, full) == Position(sizes, idx) + 1 < Combinations(sizes))
  {
    StepCounts(sizes, idx);
    PositionInRange(sizes, idx);
    PrefixStep(sizes, idx, reached(n));
  }

  /** The index tuples when each generator is registered, at the back and with index 0, in the run
      that first reaches it. Tuples are filled up with the zeros of those still to come. */
  ghost function LateRuns(sizes: seq<nat>, reached: nat -> nat, idx: seq<nat>, n: nat): seq<seq<nat>>
    requires InRange(sizes, idx) && Growing(reached, |sizes|) && ZeroFrom(idx, reached(n))
    decreases Combinations(sizes) - Position(sizes, idx)
  {
    var k := reached(n);
    LateStep(sizes, reached, idx, n);
    var (more, next) := Step(sizes[..k], idx[..k]);
    if more then [idx] + LateRuns(sizes, reached, next + Zeros(|sizes| - k), n + 1) else [idx]
  }

  /** When the last run has reached every generator there is, the tuples are the same as if all of
      them had been registered from the start. */
  lemma {:induction false} LateIsEarly(sizes: seq<nat>, reached: nat -> nat, idx: seq<nat>, n: nat)
    requires InRange(sizes, idx) && Growing(reached, |sizes|) && ZeroFrom(idx, reached(n))
    requires reached(n + |LateRuns(sizes, reached, idx, n)| - 1) == |sizes|
    ensures LateRuns(sizes, reached, idx, n) == Runs(sizes, idx)
    decreases Combinations(sizes) - Position(sizes, idx)
  {
    var k := reached(n);
    LateStep(sizes, reached, idx, n);
    hide Step, Position, Combinations, Zeros, Growing, InRange;
    var (more, next) := Step(sizes[..k], idx[..k]);
    if more {
      LateIsEarly(sizes, reached, next + Zeros(|sizes| - k), n + 1);
    } else {
      assert sizes[..k] == sizes && idx[..k] == idx;
    }
  }

  // ----- composite generators -----

  datatype Generator =
    | Between(from: int, to: int)
    | Values(values: seq<int>)
  {
    /** An empty range is a range from one past its end. */
    predicate Valid() { Between? ==> from <= to + 1 }

    function Size(): nat
      requires Valid()
    {
      if Between? then 1 + to - from else |values|
    }

    function GetValue(index: nat): int
      requires Valid() && index < Size()
    {
      if Between? then from + index else values[index]
    }

    ghost function Contents(): seq<int>
      requires Valid()
    {
      seq(Size(), i requires 0 <= i < Size() => GetValue(i))
    }
  }

  /** A range lists the whole numbers from its first to its last, ascending, and values are listed
      as they were given. */
  lemma ContentsOfOne(g: Generator)
    requires g.Valid()
    ensures g.Between? ==>
              && (forall x :: x in g.Contents() <==> g.from <= x <= g.to)
              && (forall i, j :: 0 <= i < j < |g.Contents()| ==> g.Contents()[i] < g.Contents()[j])
    ensures g.Values? ==> g.Contents() == g.values
  {
    if g.Between? {
      forall x | g.from <= x <= g.to ensures x in g.Contents() {
        assert g.Contents()[x - g.from] == x;
      }
    }
  }

  ghost function AllContents(generators: seq<Generator>): seq<int>
    requires forall g <- generators :: g.Valid()
  {
    if generators == [] then [] else generators[0].Contents() + AllContents(generators[1..])
  }

  lemma {:induction false} ContentsOfConcat(left: seq<Generator>, right: seq<Generator>)
    requires (forall g <- left :: g.Valid()) && (forall g <- right :: g.Valid())
    ensures AllContents(left + right) == AllContents(left) + AllContents(right)
  {
    if left == [] {
      assert left + right == right;
    } else {
      assert (left + right)[1..] == left[1..] + right;
      ContentsOfConcat(left[1..], right);
    }
  }

  class CompositeGenerator {
    var composed: seq<Generator>
    var totalSize: nat

    ghost predicate Valid()
      reads this
    {
      (forall g <- composed :: g.Valid()) && totalSize == |AllContents(composed)|
    }

    ghost function Contents(): seq<int>
      requires Valid()
      reads this
    {
      AllContents(composed)
    }

    constructor ()
      ensures Valid() && Contents() == []
    {
      composed, totalSize := [], 0;
    }

    method Add(g: Generator)
      requires Valid() && g.Valid()
      modifies this
      ensures Valid() && Contents() == old(Contents()) + g.Contents()
    {
      ContentsOfConcat(composed, [g]);
      assert AllContents([g]) == g.Contents();
      totalSize := totalSize + g.Size();
      composed := composed + [g];
    }

    method ThenValue(value: int)
      requires Valid()
      modifies this
      ensures Valid() && Contents() == old(Contents()) + [value]
    {
      Add(Values([value]));
    }

    /** Appends the other generator's parts and empties it; its total size stays behind. */
    method Then(other: CompositeGenerator)
      requires Valid() && other.Valid() && other != this
      modifies this, other
      ensures Valid() && Contents() == old(Contents()) + old(other.Contents())
      ensures other.composed == [] && other.totalSize == old(other.totalSize)
    {
      ContentsOfConcat(composed, other.composed);
      composed := composed + other.composed;
      totalSize := totalSize + other.totalSize;
      other.composed := [];
    }

    /** The value at an overall index; None is the "Indexed past end" error. */
    method ValueAt(overallIndex: nat) returns (r: Option<int>)
      requires Valid()
      ensures r == if overallIndex < totalSize then Some(Contents()[overallIndex]) else None
    {
      var index, k := 0, 0;
      while k < |composed|
        invariant 0 <= k <= |composed| && 0 <= index <= overallIndex
        invariant |AllContents(composed)| == index + |AllContents(composed[k..])|
        invariant AllContents(composed)[index..] == AllContents(composed[k..])
      {
        var g := composed[k];
        assert AllContents(composed[k..]) == g.Contents() + AllContents(composed[k + 1..]) by {
          assert composed[k..][1..] == composed[k + 1..];
        }
        if index <= overallIndex && overallIndex < index + g.Size() {
          assert AllContents(composed)[overallIndex] == AllContents(composed)[index..][overallIndex - index];
          return Some(g.GetValue(overallIndex - index));
        }
        assert AllContents(composed)[index + g.Size()..] == AllContents(composed)[index..][g.Size()..];
        index := index + g.Size();
        k := k + 1;
      }
      return None;
    }
  }
}
