// The branching heuristic: variables seen in recent conflicts are decided first.

module VsidsBranching {
  import opened Literals
  import opened Trails
  import opened BinaryHeaps
  import opened Assignments

  function TenTo(k: nat): (r: real)
    ensures r > 0.0
  {
    if k == 0 then 1.0 else 10.0 * TenTo(k - 1)
  }

  /** When an activity exceeds this, all of them are scaled down by it. */
  const LIMIT: real := TenTo(100)

  /** The activities have changed, but the order of any two of them has not. */
  ghost predicate SameOrder(a: seq<real>, b: seq<real>) {
    |a| == |b| && forall i, j :: 0 <= i < |a| && 0 <= j < |a| && a[i] <= a[j] ==> b[i] <= b[j]
  }

  /** All activities have been divided by the limit. */
  ghost predicate Scaled(a: seq<real>, b: seq<real>) {
    |a| == |b| && forall i :: 0 <= i < |a| ==> b[i] == a[i] / LIMIT
  }

  function LimitPower(k: nat): (r: real)
    ensures r > 0.0
  {
    if k == 0 then 1.0 else LIMIT * LimitPower(k - 1)
  }

  /**
   * Each variable of `vars` has gained the increment `delta` once. Activities and increment have been divided by the
   * limit `k` times on the way.
   */
  ghost predicate Bumped(a: seq<real>, delta: real, vars: set<nat>, a2: seq<real>, delta2: real, k: nat) {
    && |a2| == |a| && delta2 * LimitPower(k) == delta
    && forall v :: 0 <= v < |a| ==> a2[v] * LimitPower(k) == a[v] + if v in vars then delta else 0.0
  }

  function SetOf(vars: seq<nat>): set<nat> {
    set v | v in vars
  }

  lemma NothingBumped(a: seq<real>, delta: real)
    ensures Bumped(a, delta, {}, a, delta, 0)
  {
  }

  /** One more variable gains the increment. */
  lemma BumpOne(a: seq<real>, delta: real, vars: set<nat>, a2: seq<real>, delta2: real, k: nat, v: nat)
    requires Bumped(a, delta, vars, a2, delta2, k) && v < |a| && v !in vars
    ensures Bumped(a, delta, vars + {v}, a2[v := a2[v] + delta2], delta2, k)
  {
    assert (a2[v] + delta2) * LimitPower(k) == a2[v] * LimitPower(k) + delta2 * LimitPower(k);
  }

  /** Dividing everything by the limit is the same as multiplying with it later. */
  lemma BumpScaled(a: seq<real>, delta: real, vars: set<nat>, a2: seq<real>, delta2: real, k: nat, a3: seq<real>)
    requires Bumped(a, delta, vars, a2, delta2, k) && Scaled(a2, a3)
    ensures Bumped(a, delta, vars, a3, delta2 / LIMIT, k + 1)
  {
    ScaledBack(delta2, LimitPower(k));
    forall v | 0 <= v < |a| ensures a3[v] * LimitPower(k + 1) == a2[v] * LimitPower(k) {
      ScaledBack(a2[v], LimitPower(k));
    }
  }

  lemma ScaledBack(x: real, p: real)
    ensures (x / LIMIT) * (LIMIT * p) == x * p
  {
    assert (x / LIMIT) * LIMIT == x;
    assert (x / LIMIT) * (LIMIT * p) == ((x / LIMIT) * LIMIT) * p;
  }

  lemma ScalingMonotone(x: real, y: real, s: real)
    requires x <= y && s > 0.0
    ensures x / s <= y / s
  {
  }

  lemma SameOrderSelf(a: seq<real>)
    ensures SameOrder(a, a)
  {
  }

  lemma SameOrderFits(heap: seq<nat>, a: seq<real>, b: seq<real>, n: nat, c: nat)
    requires InBounds(heap, a, n) && SameOrder(a, b)
    ensures |a| == |b| && InBounds(heap, b, n) && (Ordered(heap, a, n) ==> Ordered(heap, b, n))
    ensures c < n && OrderedButUp(heap, a, n, c) ==> OrderedButUp(heap, b, n, c)
  {
    forall i | 0 <= i < n && BelowParent(heap, a, n, i) ensures BelowParent(heap, b, n, i) {}
  }

  /** A greater activity only matters for the place of the element itself. */
  lemma BumpFits(heap: seq<nat>, indices: seq<int>, a: seq<real>, n: nat, v: nat, x: real)
    requires Indexed(heap, indices, n) && |a| == |indices| && Ordered(heap, a, n) && v < |a| && x >= a[v]
    ensures InBounds(heap, a[v := x], n)
    ensures indices[v] >= 0 ==> indices[v] < n && OrderedButUp(heap, a[v := x], n, indices[v])
    ensures indices[v] < 0 ==> Ordered(heap, a[v := x], n)
  {
    var b := a[v := x];
    forall i | 0 <= i < n && heap[i] != v ensures BelowParent(heap, b, n, i) {
      assert BelowParent(heap, a, n, i);
    }
    if indices[v] > 0 {
      assert BelowParent(heap, a, n, indices[v]);
    }
    forall i | 0 < i < n && Parent(i) == indices[v] ensures a[heap[i]] <= a[v] {
      assert BelowParent(heap, a, n, i);
    }
  }

  class VsidsBranchingHeuristic {
    const assignment: Assignment
    const heap: BinaryMaxHeap
    var eligible: seq<bool>
    var activityBumpDelta: real
    var decayRate: real
    var numberOfConflicts: nat

    ghost predicate Valid()
      reads this, heap
    {
      heap.Valid() && |eligible| == |heap.indices| && activityBumpDelta > 0.0 && 0.0 < decayRate < 1.0
    }

    /** `v` may be picked without being reset before. */
    ghost predicate Contains(v: nat)
      reads heap
    {
      v in heap.Elements()
    }

    constructor (assignment: Assignment)
      requires |assignment.assignments| >= 1
      ensures Valid() && fresh(heap) && this.assignment == assignment
      ensures |eligible| == |assignment.assignments| && forall v: nat :: v < |eligible| ==> v in heap.Elements()
    {
      var n := |assignment.assignments|;
      this.assignment := assignment;
      heap := new BinaryMaxHeap(n - 1);
      eligible := seq(n, _ => false);
      activityBumpDelta, decayRate, numberOfConflicts := 1.0, 0.8, 0;
      new;
      Reset();
    }

    /** Makes all variables available. The heap must be empty, as it is not cleared properly. */
    method Reset()
      requires Valid() && heap.size == 0
      modifies heap
      ensures Valid() && forall v: nat :: v < |eligible| ==> v in heap.Elements()
    {
      heap.Clear();
      for i := 0 to |heap.activity|
        invariant Valid() && |heap.activity| == |old(heap.activity)| && forall v: nat :: v < i ==> v in heap.Elements()
      {
        heap.Insert(i);
      }
    }

    /** Makes a variable available again. */
    method ResetVariable(v: nat)
      requires Valid() && v < |eligible|
      modifies heap
      ensures Valid() && heap.Elements() == old(heap.Elements()) + {v} && heap.activity == old(heap.activity)
    {
      heap.Insert(v);
    }

    method SetEligibleForDecisions(v: nat, isEligible: bool)
      requires Valid() && v < |eligible|
      modifies this`eligible
      ensures Valid() && eligible == old(eligible)[v := isEligible]
    {
      eligible := eligible[v := isEligible];
    }

    method IncreaseMaxVarTo(newMaxVar: nat)
      requires Valid() && newMaxVar + 1 >= |eligible|
      modifies this`eligible, heap
      ensures Valid() && |eligible| == newMaxVar + 1
      ensures forall v: nat :: Contains(v) <==> v in old(heap.Elements()) || |old(eligible)| <= v <= newMaxVar
      ensures |old(heap.activity)| <= |heap.activity| == newMaxVar + 1
      ensures heap.activity[..|old(heap.activity)|] == old(heap.activity)
      ensures forall v :: |old(heap.activity)| <= v <= newMaxVar ==> heap.activity[v] == 0.0
    {
      var firstNewVar := |heap.activity|;
      eligible := eligible + seq(newMaxVar + 1 - |eligible|, _ => false);
      heap.IncreaseMaxSizeTo(newMaxVar);
      for i := firstNewVar to newMaxVar + 1
        invariant Valid() && |eligible| == newMaxVar + 1
        invariant forall v :: v in heap.Elements() <==> v in old(heap.Elements()) || firstNewVar <= v < i
        invariant heap.activity[..|old(heap.activity)|] == old(heap.activity)
        invariant forall v :: |old(heap.activity)| <= v <= newMaxVar ==> heap.activity[v] == 0.0
        modifies heap
      {
        heap.Insert(i);
      }
    }

    /** Divides all activities by the limit, which keeps their order. */
    method ScaleDownActivities()
      requires |heap.activity| == |heap.indices| && activityBumpDelta > 0.0
      modifies this`activityBumpDelta, heap`activity
      ensures SameOrder(old(heap.activity), heap.activity) && Scaled(old(heap.activity), heap.activity)
      ensures activityBumpDelta == old(activityBumpDelta) / LIMIT > 0.0
    {
      for i := 0 to |heap.activity|
        invariant |heap.activity| == |old(heap.activity)| && activityBumpDelta == old(activityBumpDelta)
        invariant forall j :: 0 <= j < i ==> heap.activity[j] == old(heap.activity)[j] / LIMIT
        invariant forall j :: i <= j < |heap.activity| ==> heap.activity[j] == old(heap.activity)[j]
      {
        heap.activity := heap.activity[i := heap.activity[i] / LIMIT];
      }
      activityBumpDelta := activityBumpDelta / LIMIT;
      assert activityBumpDelta > 0.0;
      forall i, j | 0 <= i < |heap.activity| && 0 <= j < |heap.activity| && old(heap.activity)[i] <= old(heap.activity)[j]
        ensures heap.activity[i] <= heap.activity[j]
      {
        ScalingMonotone(old(heap.activity)[i], old(heap.activity)[j], LIMIT);
      }
    }

    /**
     * Increases the activity of a variable which has taken part in a conflict. If it exceeds the limit then,
     * all activities and the increment are divided by the limit.
     */
    method SeenInConflict(v: nat)
      requires Valid() && v < |eligible|
      modifies this`activityBumpDelta, heap
      ensures Valid() && heap.Elements() == old(heap.Elements()) && |eligible| == |old(eligible)|
      ensures
        var bumped := old(heap.activity)[v := old(heap.activity)[v] + old(activityBumpDelta)];
        if bumped[v] >= LIMIT then Scaled(bumped, heap.activity) && activityBumpDelta == old(activityBumpDelta) / LIMIT
        else heap.activity == bumped && activityBumpDelta == old(activityBumpDelta)
    {
      hide Indexed, OrderedButUp, Ordered, SameOrder, InBounds, Scaled;
      ghost var bumped := heap.activity[v := heap.activity[v] + activityBumpDelta];
      BumpFits(heap.heap, heap.indices, heap.activity, heap.size, v, heap.activity[v] + activityBumpDelta);
      heap.activity := heap.activity[v := heap.activity[v] + activityBumpDelta];
      if heap.activity[v] >= LIMIT {
        ScaleDownActivities();
      } else {
        SameOrderSelf(bumped);
      }
      SameOrderFits(heap.heap, bumped, heap.activity, heap.size, if heap.indices[v] >= 0 then heap.indices[v] else 0);
      if heap.Contains(v) {
        heap.IncreasingUpdate(v);
      }
    }

    /** Counts a conflict; every 5000 conflicts, the increment begins to grow more slowly. */
    method BeginHandlingConflict()
      requires Valid()
      modifies this`numberOfConflicts, this`decayRate
      ensures Valid()
      ensures numberOfConflicts == if old(numberOfConflicts) == 4999 then 0 else old(numberOfConflicts) + 1
      ensures decayRate == if old(numberOfConflicts) != 4999 then old(decayRate)
                           else if old(decayRate) + 0.1 < 0.95 then old(decayRate) + 0.1 else 0.95
    {
      numberOfConflicts := numberOfConflicts + 1;
      if numberOfConflicts == 5000 {
        decayRate := if decayRate + 0.1 < 0.95 then decayRate + 0.1 else 0.95;
        numberOfConflicts := 0;
      }
    }

    /** Raises the increment: the variables of later conflicts gain more. */
    method EndHandlingConflict()
      requires Valid()
      modifies this`activityBumpDelta
      ensures Valid() && activityBumpDelta == old(activityBumpDelta) * (1.0 / decayRate) > old(activityBumpDelta)
    {
      DeltaGrows(activityBumpDelta, decayRate);
      activityBumpDelta := activityBumpDelta * (1.0 / decayRate);
    }

    lemma DeltaGrows(delta: real, rate: real)
      requires delta > 0.0 && 0.0 < rate < 1.0
      ensures delta * (1.0 / rate) > delta
    {
      assert 1.0 / rate > 1.0;
    }

    /** Whether the variable has been true when it was assigned last. */
    predicate SavedPhase(v: nat)
      reads assignment
    {
      v < |assignment.phases| && assignment.phases[v] == True
    }

    /** A variable which could be decided now. */
    ghost predicate Candidate(v: nat)
      reads this, assignment
    {
      v < |eligible| && eligible[v] && Val(assignment.T(), Lit(v, true)) == Indet
    }

    /**
     * Takes an unassigned eligible variable of greatest activity from the heap. What has been taken from the heap
     * besides is assigned or not eligible. There is no result exactly if the heap holds no candidate. The sign
     * is the saved phase of the variable.
     */
    method PickBranchLiteral() returns (decision: Option<Lit>)
      requires Valid()
      modifies heap
      ensures Valid() && heap.activity == old(heap.activity) && heap.Elements() <= old(heap.Elements())
      ensures decision.Some? ==> !Contains(decision.value.v)
      ensures decision.None? <==> forall v :: v in old(heap.Elements()) ==> !Candidate(v)
      ensures decision.Some? ==>
                && Candidate(decision.value.v) && decision.value.v in old(heap.Elements())
                && decision.value.pos == SavedPhase(decision.value.v)
                && forall v :: v in old(heap.Elements()) && Candidate(v) ==>
                     v < |heap.activity| && decision.value.v < |heap.activity| &&
                     heap.activity[v] <= heap.activity[decision.value.v]
      ensures forall v :: v in old(heap.Elements()) && !Contains(v) && Candidate(v) ==>
                decision.Some? && v == decision.value.v
    {
      while heap.size != 0
        invariant Valid() && heap.activity == old(heap.activity) && heap.Elements() <= old(heap.Elements())
        invariant forall v :: v in old(heap.Elements()) && Candidate(v) ==> Contains(v)
        decreases heap.size
      {
        var branchingVar := heap.RemoveMax();
        if assignment.GetAssignment(Lit(branchingVar, true)) == Indet && eligible[branchingVar] {
          return Some(Lit(branchingVar, SavedPhase(branchingVar)));
        }
      }
      NoElements();
      decision := None;
    }

    lemma NoElements()
      requires Valid() && heap.size == 0
      ensures heap.Elements() == {}
    {
    }
  }
}
