// The values behind the assignment: trail, decision levels, truth values, reasons.
// Everything here is about values; the class Assignment updates its fields accordingly.

module Trails {
  import opened Literals

  /** A reference to a clause: its index in the clause database. */
  type CRef = nat

  /**
   * A snapshot of the assignment.
   * `lits` is the trail, `limits[i]` the trail index where level i begins. `vals`, `levels` and
   * `reasons` are indexed by variables. `pos` gives the trail index of each assigned variable.
   */
  datatype Trail = Trail(
    lits: seq<Lit>,
    limits: seq<nat>,
    vals: seq<TBool>,
    levels: seq<nat>,
    reasons: seq<Option<CRef>>,
    pos: seq<nat>)

  function VarCount(t: Trail): nat {
    |t.vals|
  }

  function Val(t: Trail, l: Lit): TBool {
    if l.v >= |t.vals| || t.vals[l.v] == Indet then Indet
    else if t.vals[l.v] == Polarity(l.pos) then True
    else False
  }

  function Level(t: Trail, v: nat): nat {
    if v < |t.levels| then t.levels[v] else 0
  }

  function Reason(t: Trail, v: nat): Option<CRef> {
    if v < |t.reasons| then t.reasons[v] else None
  }

  function Pos(t: Trail, v: nat): nat {
    if v < |t.pos| then t.pos[v] else 0
  }

  function CurLevel(t: Trail): nat {
    if t.limits == [] then 0 else |t.limits| - 1
  }

  /** Index `i` of the trail belongs to level `level`. */
  ghost predicate InLevel(t: Trail, i: nat, level: nat) {
    level < |t.limits| && t.limits[level] <= i && (level + 1 < |t.limits| ==> i < t.limits[level + 1])
  }

  /** The fields of the snapshot agree with each other. */
  ghost predicate TrailOk(t: Trail) {
    && |t.levels| == |t.reasons| == |t.pos| == |t.vals|
    && (forall i :: 0 <= i < |t.lits| ==>
          Val(t, t.lits[i]) == True && Pos(t, t.lits[i].v) == i && InLevel(t, i, Level(t, t.lits[i].v)))
    && (forall l: Lit :: Val(t, l) == True ==> Pos(t, l.v) < |t.lits| && t.lits[Pos(t, l.v)] == l)
    && |t.limits| >= 1 && t.limits[0] == 0
    && (forall i :: 0 <= i < |t.limits| ==> t.limits[i] <= |t.lits|)
    && (forall i, j :: 0 <= i <= j < |t.limits| ==> t.limits[i] <= t.limits[j])
  }

  function Push(t: Trail, l: Lit, reason: Option<CRef>): Trail
    requires |t.levels| == |t.reasons| == |t.pos| == |t.vals| && l.v < VarCount(t)
  {
    t.(lits := t.lits + [l],
    vals := t.vals[l.v := Polarity(l.pos)],
    levels := t.levels[l.v := CurLevel(t)],
    reasons := t.reasons[l.v := reason],
    pos := t.pos[l.v := |t.lits|])
  }

  function OpenLevel(t: Trail): Trail {
    t.(limits := t.limits + [|t.lits|])
  }

  /** Drops the part of the trail starting at index `cut`, keeping the first `k` levels. */
  function CutAt(t: Trail, cut: nat, k: nat): Trail
    requires cut <= |t.lits| && k <= |t.limits|
  {
    t.(lits := t.lits[..cut],
    limits := t.limits[..k],
    vals := seq(|t.vals|, v requires 0 <= v < |t.vals| => if Pos(t, v) >= cut then Indet else t.vals[v]))
  }

  function UndoTo(t: Trail, level: nat): Trail
    requires level < CurLevel(t) && t.limits[level + 1] <= |t.lits|
  {
    CutAt(t, t.limits[level + 1], level + 1)
  }

  lemma PushFacts(t: Trail, l: Lit, reason: Option<CRef>)
    requires TrailOk(t) && l.v < VarCount(t) && Val(t, l) == Indet
    ensures TrailOk(Push(t, l, reason))
    ensures forall x :: Val(Push(t, l, reason), x) ==
                        if x == l then True else if x == Neg(l) then False else Val(t, x)
    ensures forall v :: v != l.v ==>
              && Level(Push(t, l, reason), v) == Level(t, v)
              && Pos(Push(t, l, reason), v) == Pos(t, v)
              && Reason(Push(t, l, reason), v) == Reason(t, v)
    ensures Level(Push(t, l, reason), l.v) == CurLevel(t)
    ensures Pos(Push(t, l, reason), l.v) == |t.lits|
    ensures Reason(Push(t, l, reason), l.v) == reason
  {
    var u := Push(t, l, reason);
    forall x ensures Val(u, x) == if x == l then True else if x == Neg(l) then False else Val(t, x) {}
    forall i | 0 <= i < |t.lits| ensures t.lits[i].v != l.v {
      assert Val(t, t.lits[i]) == True;
    }
    forall i | 0 <= i < |u.lits|
      ensures Val(u, u.lits[i]) == True && Pos(u, u.lits[i].v) == i && InLevel(u, i, Level(u, u.lits[i].v))
    {
      if i < |t.lits| {
        assert u.lits[i] == t.lits[i];
      }
    }
  }

  lemma LevelOfPos(t: Trail, l: Lit, level: nat)
    requires TrailOk(t) && Val(t, l) != Indet && level < |t.limits|
    ensures Level(t, l.v) < |t.limits|
    ensures level < CurLevel(t) ==> (Pos(t, l.v) < t.limits[level + 1] <==> Level(t, l.v) <= level)
    ensures Pos(t, l.v) >= t.limits[level] <==> Level(t, l.v) >= level
  {
    var p := if Val(t, l) == True then l else Neg(l);
    assert Val(t, p) == True;
    assert t.lits[Pos(t, p.v)] == p;
    assert InLevel(t, Pos(t, p.v), Level(t, p.v));
  }

  lemma UndoFacts(t: Trail, level: nat)
    requires TrailOk(t) && level < CurLevel(t)
    ensures TrailOk(UndoTo(t, level)) && CurLevel(UndoTo(t, level)) == level
    ensures forall x :: Val(UndoTo(t, level), x) ==
                        if Val(t, x) != Indet && Level(t, x.v) <= level then Val(t, x) else Indet
  {
    var u := UndoTo(t, level);
    var cut := t.limits[level + 1];
    forall x: Lit
      ensures Val(u, x) == if Val(t, x) != Indet && Level(t, x.v) <= level then Val(t, x) else Indet
    {
      if Val(t, x) != Indet {
        LevelOfPos(t, x, level);
      }
    }
    forall i | 0 <= i < |u.lits|
      ensures Val(u, u.lits[i]) == True && Pos(u, u.lits[i].v) == i && InLevel(u, i, Level(u, u.lits[i].v))
    {
      assert u.lits[i] == t.lits[i];
      LevelOfPos(t, t.lits[i], level);
    }
  }

  lemma OpenLevelFacts(t: Trail)
    requires TrailOk(t)
    ensures TrailOk(OpenLevel(t)) && CurLevel(OpenLevel(t)) == CurLevel(t) + 1
    ensures forall x :: Val(OpenLevel(t), x) == Val(t, x)
  {
  }

  /** The numbers below `n`. */
  function Below(n: nat): (s: set<nat>)
    ensures |s| == n && forall v: nat :: v in s <==> v < n
  {
    if n == 0 then {} else Below(n - 1) + {n - 1}
  }

  /** The variables of the first `k` trail literals. */
  function TrailVars(t: Trail, k: nat): set<nat>
    requires k <= |t.lits|
  {
    set i | 0 <= i < k :: t.lits[i].v
  }

  lemma {:induction false} DistinctCount(ls: seq<Lit>, k: nat)
    requires DistinctVars(ls) && k <= |ls|
    ensures |set i | 0 <= i < k :: ls[i].v| == k
  {
    if k > 0 {
      DistinctCount(ls, k - 1);
      assert (set i | 0 <= i < k :: ls[i].v) == (set i | 0 <= i < k - 1 :: ls[i].v) + {ls[k - 1].v};
    }
  }

  lemma TrailVarsSize(t: Trail, k: nat)
    requires TrailOk(t) && k <= |t.lits|
    ensures |TrailVars(t, k)| == k
  {
    TrailDistinct(t);
    DistinctCount(t.lits, k);
    assert TrailVars(t, k) == set i | 0 <= i < k :: t.lits[i].v;
  }

  lemma TrailDistinct(t: Trail)
    requires TrailOk(t)
    ensures DistinctVars(t.lits)
  {
  }

  /** There are at most as many trail literals as variables; if there are as many, all variables
      are assigned. */
  lemma TrailBound(t: Trail)
    requires TrailOk(t)
    ensures |t.lits| <= VarCount(t)
    ensures |t.lits| == VarCount(t) ==> forall l: Lit :: l.v < VarCount(t) ==> Val(t, l) != Indet
  {
    var n := VarCount(t);
    var vs := TrailVars(t, |t.lits|);
    TrailVarsSize(t, |t.lits|);
    forall v | v in vs ensures v in Below(n) {
      var i :| 0 <= i < |t.lits| && t.lits[i].v == v;
      assert Val(t, t.lits[i]) == True;
    }
    SubsetSize(vs, Below(n));
    forall l: Lit | |t.lits| == n && l.v < n ensures Val(t, l) != Indet {
      assert l.v in vs;
      var i :| 0 <= i < |t.lits| && t.lits[i].v == l.v;
      assert Val(t, t.lits[i]) == True;
    }
  }

  lemma SubsetSize(a: set<nat>, b: set<nat>)
    requires a <= b
    ensures |a| <= |b| && (|a| == |b| ==> a == b)
  {
    assert b == a + (b - a);
    assert |b| == |a| + |b - a|;
  }

  /** When a part of `all` grows to a different one, less remains outside. */
  lemma GrowingSet(all: set<nat>, before: set<nat>, after: set<nat>)
    requires before <= after <= all
    ensures |all - after| < |all - before| || after == before
  {
    SubsetSize(all - after, all - before);
    assert all - (all - after) == after && all - (all - before) == before;
  }
}
