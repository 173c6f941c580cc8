// A measure showing that the search between two restarts ends: the numbers of literals on the decision
// levels, read as the digits of a number, increase with each decision.

module Ranking {
  import opened Trails

  /** The number of trail literals on the given level. */
  function Count(t: Trail, level: nat): int {
    if level >= |t.limits| then 0
    else if level + 1 < |t.limits| then t.limits[level + 1] - t.limits[level]
    else |t.lits| - t.limits[level]
  }

  /** The number whose digits are the literal counts of the first `k` levels. */
  function Weight(t: Trail, k: nat): int {
    if k == 0 then 0 else Weight(t, k - 1) * (VarCount(t) + 1) + Count(t, k - 1)
  }

  function Pow(b: nat, k: nat): nat {
    if k == 0 then 1 else Pow(b, k - 1) * b
  }

  lemma {:induction false} ProductMonotone(x: nat, y: nat, b: nat)
    requires x <= y
    ensures x * b <= y * b
  {
  }

  /** Appending a digit `c` to `x` does not reach a number greater than `x` with any other digit appended. */
  lemma NextDigit(x: nat, y: nat, b: nat, c: nat)
    requires x < y && c < b
    ensures 0 <= x * b + c < y * b
  {
    assert (x + 1) * b == x * b + b;
    ProductMonotone(x + 1, y, b);
    ProductMonotone(0, x, b);
  }

  lemma CountBound(t: Trail, level: nat)
    requires TrailOk(t)
    ensures 0 <= Count(t, level) <= VarCount(t)
  {
    TrailBound(t);
  }

  lemma {:induction false} WeightBound(t: Trail, k: nat)
    requires TrailOk(t)
    ensures 0 <= Weight(t, k) < Pow(VarCount(t) + 1, k)
  {
    if k > 0 {
      hide TrailOk;
      var b := VarCount(t) + 1;
      WeightBound(t, k - 1);
      CountBound(t, k - 1);
      NextDigit(Weight(t, k - 1), Pow(b, k - 1), b, Count(t, k - 1));
    }
  }

  /** `t2` has more literals than `t` on level `i`, and as many on each lower level. */
  ghost predicate Beyond(t: Trail, t2: Trail, i: nat) {
    && VarCount(t2) == VarCount(t)
    && (forall j :: 0 <= j < i ==> Count(t2, j) == Count(t, j))
    && Count(t2, i) > Count(t, i)
  }

  lemma {:induction false} EqualWeight(t: Trail, t2: Trail, i: nat, k: nat)
    requires VarCount(t2) == VarCount(t) && k <= i
    requires forall j :: 0 <= j < i ==> Count(t2, j) == Count(t, j)
    ensures Weight(t2, k) == Weight(t, k)
  {
    if k > 0 {
      EqualWeight(t, t2, i, k - 1);
    }
  }

  lemma {:induction false} BeyondWeight(t: Trail, t2: Trail, i: nat, k: nat)
    requires TrailOk(t) && TrailOk(t2) && Beyond(t, t2, i) && i < k
    ensures Weight(t2, k) > Weight(t, k)
  {
    hide TrailOk, Count;
    if k == i + 1 {
      EqualWeight(t, t2, i, i);
    } else {
      BeyondWeight(t, t2, i, k - 1);
      CountBound(t, k - 1);
      CountBound(t2, k - 1);
      WeightBound(t, k - 1);
      NextDigit(Weight(t, k - 1), Weight(t2, k - 1), VarCount(t) + 1, Count(t, k - 1));
    }
  }

  /** Each level from the third on begins with a decision and contains no other one. */
  ghost predicate DecisionLevels(t: Trail) {
    && (forall level :: 2 <= level < |t.limits| ==> Count(t, level) > 0)
    && (forall i :: 0 <= i < |t.lits| && Level(t, t.lits[i].v) >= 2 ==>
          (Reason(t, t.lits[i].v).None? <==> i == LevelStart(t, Level(t, t.lits[i].v))))
  }

  function LevelStart(t: Trail, level: nat): nat {
    if level < |t.limits| then t.limits[level] else 0
  }

  /** There are at most two more levels than variables. */
  lemma {:induction false} LevelBound(t: Trail, k: nat)
    requires TrailOk(t) && DecisionLevels(t) && 2 <= k < |t.limits|
    ensures k - 1 <= t.limits[k] + Count(t, k)
  {
    if k > 2 {
      LevelBound(t, k - 1);
    }
  }

  /** How far the search is from its end. */
  ghost function Rank(t: Trail): nat
    requires TrailOk(t)
  {
    WeightBound(t, VarCount(t) + 2);
    Pow(VarCount(t) + 1, VarCount(t) + 2) - Weight(t, VarCount(t) + 2)
  }

  lemma RankDecreases(t: Trail, t2: Trail, i: nat)
    requires TrailOk(t) && TrailOk(t2) && DecisionLevels(t2) && Beyond(t, t2, i) && i < |t2.limits|
    ensures Rank(t2) < Rank(t)
  {
    TrailBound(t2);
    if i >= 2 {
      LevelBound(t2, i);
    }
    BeyondWeight(t, t2, i, VarCount(t) + 2);
  }
}
