// What every state of the search keeps: where the literals on the trail come from.

module SearchState {
  import opened Literals
  import opened Trails
  import opened Watching
  import opened Traversal
  import opened Lifecycle
  import opened Ranking

  /** Unforced literals are facts on level 0, assumptions on level 1 and decisions on all other levels. */
  ghost predicate Rooted(t: Trail, facts: seq<Lit>, assumptions: seq<Lit>) {
    forall i :: 0 <= i < |t.lits| && Reason(t, t.lits[i].v).None? ==>
      && (Level(t, t.lits[i].v) == 0 ==> t.lits[i] in facts)
      && (Level(t, t.lits[i].v) == 1 ==> t.lits[i] in assumptions)
  }

  ghost predicate AllTrue(t: Trail, ls: seq<Lit>, level: nat) {
    forall l :: l in ls ==> Val(t, l) == True && Level(t, l.v) <= level
  }

  /**
   * The state of the search once facts and assumptions have been propagated on the levels 0 and 1. Everything
   * below the current level has been propagated through all clauses.
   */
  ghost predicate Searching(s: Snapshot, facts: seq<Lit>, assumptions: seq<Lit>) {
    && Consistent(s) && Rooted(s.t, facts, assumptions) && DecisionLevels(s.t)
    && FixpointBelow(s, CurLevel(s.t)) && CurLevel(s.t) >= 1
    && AllTrue(s.t, facts, 0) && AllTrue(s.t, assumptions, 1)
    && (forall l :: l in s.stale ==> Neg(l) in facts)
  }

  lemma NoStale(s: Snapshot, facts: seq<Lit>)
    requires AllTrue(s.t, facts, 0) && forall l :: l in s.stale ==> Neg(l) in facts
    ensures NoStaleTrue(s)
  {
  }

  // ---- propagation steps -----------------------------------------------------------

  /** What was on the trail before a propagation step is still there. */
  lemma ProgressTrail(s: Snapshot, s2: Snapshot, i: nat)
    requires Progress(s, s2) && TrailOk(s.t) && i < |s.t.lits|
    ensures i < |s2.t.lits| && s2.t.lits[i] == s.t.lits[i] && Level(s2.t, s.t.lits[i].v) == Level(s.t, s.t.lits[i].v)
    ensures Reason(s2.t, s.t.lits[i].v) == Reason(s.t, s.t.lits[i].v)
  {
  }

  lemma ProgressRooted(s: Snapshot, s2: Snapshot, facts: seq<Lit>, assumptions: seq<Lit>)
    requires Progress(s, s2) && TrailOk(s.t) && Rooted(s.t, facts, assumptions)
    ensures Rooted(s2.t, facts, assumptions)
  {
  }

  lemma ProgressCounts(s: Snapshot, s2: Snapshot)
    requires Progress(s, s2)
    ensures forall level :: 0 <= level && level != CurLevel(s.t) ==> Count(s2.t, level) == Count(s.t, level)
    ensures Count(s2.t, CurLevel(s.t)) >= Count(s.t, CurLevel(s.t))
  {
  }

  lemma ProgressLevels(s: Snapshot, s2: Snapshot)
    requires Progress(s, s2) && TrailOk(s.t) && TrailOk(s2.t) && DecisionLevels(s.t)
    ensures DecisionLevels(s2.t)
  {
    ProgressCounts(s, s2);
    forall level | 2 <= level < |s2.t.limits| ensures Count(s2.t, level) > 0 {
      assert Count(s2.t, level) >= Count(s.t, level);
    }
    forall i | 0 <= i < |s2.t.lits| && Level(s2.t, s2.t.lits[i].v) >= 2
      ensures Reason(s2.t, s2.t.lits[i].v).None? <==> i == LevelStart(s2.t, Level(s2.t, s2.t.lits[i].v))
    {
      if i < |s.t.lits| {
        ProgressTrail(s, s2, i);
      } else {
        assert Level(s2.t, s2.t.lits[i].v) == CurLevel(s.t);
        assert Count(s.t, CurLevel(s.t)) > 0;
      }
    }
  }

  lemma ProgressTruth(s: Snapshot, s2: Snapshot, ls: seq<Lit>, level: nat)
    requires Progress(s, s2) && AllTrue(s.t, ls, level)
    ensures AllTrue(s2.t, ls, level)
  {
  }

  lemma ProgressFixpointBelow(s: Snapshot, s2: Snapshot)
    requires Progress(s, s2) && Consistent(s) && Consistent(s2) && FixpointBelow(s, CurLevel(s.t))
    requires s.settled <= s2.settled && s2.skipped == s.skipped
    ensures FixpointBelow(s2, CurLevel(s2.t))
  {
    hide ListsOk, ReasonsOk, WatchesComplete;
    forall l | Val(s2.t, l) == False && Level(s2.t, l.v) < CurLevel(s2.t) ensures l in s2.settled {
      var p := Neg(l);
      assert Val(s2.t, p) == True;
      var i := Pos(s2.t, p.v);
      assert s2.t.lits[i] == p && Neg(p) == l;
      if i < |s.t.lits| {
        ProgressTrail(s, s2, i);
        assert Val(s.t, s.t.lits[i]) == True;
      }
    }
  }

  /** Propagation on the current level keeps the search state. */
  lemma ProgressSearching(s: Snapshot, s2: Snapshot, facts: seq<Lit>, assumptions: seq<Lit>)
    requires Searching(s, facts, assumptions) && Progress(s, s2) && Consistent(s2)
    requires s.settled <= s2.settled && s2.skipped == s.skipped
    ensures Searching(s2, facts, assumptions) && CurLevel(s2.t) == CurLevel(s.t)
  {
    ConsistentTrail(s);
    ConsistentTrail(s2);
    ProgressRooted(s, s2, facts, assumptions);
    ProgressLevels(s, s2);
    ProgressTruth(s, s2, facts, 0);
    ProgressTruth(s, s2, assumptions, 1);
    ProgressFixpointBelow(s, s2);
    hide Consistent, Rooted, DecisionLevels, AllTrue, FixpointBelow;
  }

  // ---- decisions -------------------------------------------------------------------

  /** The state after opening a level and deciding on `d`. */
  function Decided(s: Snapshot, d: Lit): Snapshot
    requires |s.t.levels| == |s.t.reasons| == |s.t.pos| == |s.t.vals| && d.v < VarCount(s.t)
  {
    Pushed(WithLevel(s), d, None)
  }

  /** What is known about the part of the trail before the decision. */
  lemma BeforeDecision(t: Trail, d: Lit)
    requires TrailOk(t) && TrailOk(OpenLevel(t)) && d.v < VarCount(t) && Val(t, d) == Indet
    ensures
      var t2 := Push(OpenLevel(t), d, None);
      && |t2.lits| == |t.lits| + 1 && t2.lits[|t.lits|] == d && Level(t2, d.v) == CurLevel(t) + 1 == CurLevel(t2)
      && Reason(t2, d.v).None? && LevelStart(t2, CurLevel(t2)) == |t.lits|
      && (forall i :: 0 <= i < |t.lits| ==>
            && t2.lits[i] == t.lits[i] && Reason(t2, t.lits[i].v) == Reason(t, t.lits[i].v)
            && Level(t2, t.lits[i].v) == Level(t, t.lits[i].v) <= CurLevel(t))
      && (forall l :: Val(t, l) != Indet ==> Val(t2, l) == Val(t, l) && Level(t2, l.v) == Level(t, l.v))
      && (forall level :: 0 <= level < |t.limits| ==> Count(t2, level) == Count(t, level))
      && (forall level :: 0 <= level < |t.limits| ==> LevelStart(t2, level) == LevelStart(t, level))
      && Count(t2, CurLevel(t2)) == 1
  {
  }

  /** A decision is the first literal of its level. */
  lemma DecisionTrail(t: Trail, d: Lit, facts: seq<Lit>, assumptions: seq<Lit>)
    requires TrailOk(t) && DecisionLevels(t) && CurLevel(t) >= 1 && d.v < VarCount(t) && Val(t, d) == Indet
    requires Rooted(t, facts, assumptions) && AllTrue(t, facts, 0) && AllTrue(t, assumptions, 1)
    requires TrailOk(OpenLevel(t))
    ensures
      var t2 := Push(OpenLevel(t), d, None);
      && DecisionLevels(t2) && Rooted(t2, facts, assumptions) && AllTrue(t2, facts, 0) && AllTrue(t2, assumptions, 1)
      && CurLevel(t2) == CurLevel(t) + 1 && Beyond(t, t2, CurLevel(t) + 1)
  {
    BeforeDecision(t, d);
    hide TrailOk, Val, Level, Reason, LevelStart;
    var t2 := Push(OpenLevel(t), d, None);
    forall i | 0 <= i < |t2.lits| && Level(t2, t2.lits[i].v) >= 2
      ensures Reason(t2, t2.lits[i].v).None? <==> i == LevelStart(t2, Level(t2, t2.lits[i].v))
    {
      if i < |t.lits| {
        assert LevelStart(t2, Level(t, t.lits[i].v)) == LevelStart(t, Level(t, t.lits[i].v));
      }
    }
  }

  lemma DecisionSearching(s: Snapshot, d: Lit, facts: seq<Lit>, assumptions: seq<Lit>)
    requires Searching(s, facts, assumptions) && Fixpoint(s) && d.v < VarCount(s.t) && Val(s.t, d) == Indet
    ensures |s.t.levels| == |s.t.reasons| == |s.t.pos| == |s.t.vals|
    ensures Consistent(WithLevel(s)) && Val(WithLevel(s).t, d) == Indet
    ensures Searching(Decided(s, d), facts, assumptions) && CurLevel(Decided(s, d).t) == CurLevel(s.t) + 1
    ensures Beyond(s.t, Decided(s, d).t, CurLevel(s.t) + 1)
  {
    hide Rooted, AllTrue, DecisionLevels, Consistent, TrailOk, Beyond;
    ConsistentTrail(s);
    OpenLevelKeeps(s);
    OpenLevelFacts(s.t);
    AssignFacts(WithLevel(s), d);
    DecisionTrail(s.t, d, facts, assumptions);
    PushFacts(OpenLevel(s.t), d, None);
    LevelsBounded(s.t);
  }

  lemma LevelsBounded(t: Trail)
    requires TrailOk(t)
    ensures forall l :: Val(t, l) != Indet ==> Level(t, l.v) <= CurLevel(t)
  {
    forall l | Val(t, l) != Indet ensures Level(t, l.v) <= CurLevel(t) {
      LevelOfPos(t, l, 0);
    }
  }

  // ---- backjumping -----------------------------------------------------------------

  lemma UndoTrail(t: Trail, b: nat, facts: seq<Lit>, assumptions: seq<Lit>)
    requires TrailOk(t) && DecisionLevels(t) && 1 <= b < CurLevel(t)
    requires Rooted(t, facts, assumptions) && AllTrue(t, facts, 0) && AllTrue(t, assumptions, 1)
    ensures
      var t2 := UndoTo(t, b);
      && TrailOk(t2) && CurLevel(t2) == b
      && DecisionLevels(t2) && Rooted(t2, facts, assumptions) && AllTrue(t2, facts, 0) && AllTrue(t2, assumptions, 1)
      && (forall j :: 0 <= j <= b ==> Count(t2, j) == Count(t, j))
  {
    UndoFacts(t, b);
    var t2 := UndoTo(t, b);
    assert forall j :: 0 <= j <= b ==> Count(t2, j) == Count(t, j);
    forall i | 0 <= i < |t2.lits| ensures t2.lits[i] == t.lits[i] && Level(t2, t2.lits[i].v) <= b {
      assert Val(t2, t2.lits[i]) == True;
      LevelOfPos(t2, t2.lits[i], 0);
    }
    forall i | 0 <= i < |t2.lits| && Level(t2, t2.lits[i].v) >= 2
      ensures Reason(t2, t2.lits[i].v).None? <==> i == LevelStart(t2, Level(t2, t2.lits[i].v))
    {
      assert LevelStart(t2, Level(t2, t2.lits[i].v)) == LevelStart(t, Level(t, t.lits[i].v));
    }
  }

  /** A forced literal does not begin a level. */
  lemma ForcedTrail(t: Trail, l: Lit, c: CRef, facts: seq<Lit>, assumptions: seq<Lit>)
    requires TrailOk(t) && DecisionLevels(t) && CurLevel(t) >= 1 && l.v < VarCount(t) && Val(t, l) == Indet
    requires Rooted(t, facts, assumptions) && AllTrue(t, facts, 0) && AllTrue(t, assumptions, 1)
    ensures
      var t2 := Push(t, l, Some(c));
      && DecisionLevels(t2) && Rooted(t2, facts, assumptions) && AllTrue(t2, facts, 0) && AllTrue(t2, assumptions, 1)
      && CurLevel(t2) == CurLevel(t) && Beyond(t, t2, CurLevel(t))
  {
    PushFacts(t, l, Some(c));
    var t2 := Push(t, l, Some(c));
    assert t2.lits[|t.lits|] == l;
    forall i | 0 <= i < |t.lits|
      ensures t2.lits[i] == t.lits[i] && Reason(t2, t.lits[i].v) == Reason(t, t.lits[i].v)
      ensures Level(t2, t.lits[i].v) == Level(t, t.lits[i].v)
    {
      assert Val(t, t.lits[i]) == True;
    }
    assert forall level :: 0 <= level < |t.limits| ==> LevelStart(t2, level) == LevelStart(t, level);
    assert forall level :: 0 <= level < |t.limits| ==>
        Count(t2, level) == Count(t, level) + if level == CurLevel(t) then 1 else 0;
    forall i | 0 <= i < |t2.lits| && Level(t2, t2.lits[i].v) >= 2
      ensures Reason(t2, t2.lits[i].v).None? <==> i == LevelStart(t2, Level(t2, t2.lits[i].v))
    {
      if i == |t.lits| {
        assert Level(t2, t2.lits[i].v) == CurLevel(t);
        assert Count(t, CurLevel(t)) > 0;
      }
    }
    forall x | Val(t, x) != Indet ensures Val(t2, x) == Val(t, x) && Level(t2, x.v) == Level(t, x.v) {}
  }

  /** Levels below the current one still agree with `t0` after going back to level `b` and assigning more. */
  lemma BeyondAfterBackjump(t0: Trail, t: Trail, t1: Trail, t2: Trail, b: nat)
    requires Beyond(t0, t, CurLevel(t)) && b < CurLevel(t) && VarCount(t1) == VarCount(t)
    requires forall j :: 0 <= j <= b ==> Count(t1, j) == Count(t, j)
    requires Beyond(t1, t2, b)
    ensures Beyond(t0, t2, b)
  {
  }

  lemma BeyondMore(t0: Trail, s: Snapshot, s2: Snapshot)
    requires Beyond(t0, s.t, CurLevel(s.t)) && Progress(s, s2)
    ensures Beyond(t0, s2.t, CurLevel(s.t)) && CurLevel(s2.t) == CurLevel(s.t)
  {
  }

  /** After undoing to level `b`, the search is at a fixpoint again. */
  lemma UndoSearching(s: Snapshot, b: nat, facts: seq<Lit>, assumptions: seq<Lit>)
    requires Searching(s, facts, assumptions) && 1 <= b < CurLevel(s.t)
    ensures CurLevel(s.t) == |s.t.limits| - 1 && s.t.limits[b + 1] <= |s.t.lits|
    ensures Searching(Undone(s, b), facts, assumptions) && Fixpoint(Undone(s, b)) && CurLevel(Undone(s, b).t) == b
    ensures forall j :: 0 <= j <= b ==> Count(Undone(s, b).t, j) == Count(s.t, j)
  {
    hide Rooted, AllTrue, DecisionLevels, Count;
    ConsistentTrail(s);
    UndoTrail(s.t, b, facts, assumptions);
    UndoKeeps(s, b);
    UndoneFixpoint(s, b);
    hide Consistent;
    assert FixpointBelow(Undone(s, b), b);
  }

  /** Registering an asserting clause and assigning its literal. */
  lemma RegisterSearching(s: Snapshot, c: CRef, facts: seq<Lit>, assumptions: seq<Lit>)
    requires Searching(s, facts, assumptions) && Fixpoint(s) && Registrable(s, c) && Asserting(s, c)
    ensures |s.t.levels| == |s.t.reasons| == |s.t.pos| == |s.t.vals| && Cl(s.st, c)[0].v < VarCount(s.t)
    ensures
      var s2 := Pushed(Registered(s, c), Cl(s.st, c)[0], Some(c));
      Searching(s2, facts, assumptions) && CurLevel(s2.t) == CurLevel(s.t) && Beyond(s.t, s2.t, CurLevel(s.t))
  {
    hide Rooted, AllTrue, DecisionLevels, Beyond, Registrable, Asserting, ListsOk, ReasonsOk, WatchesComplete;
    AssertingFacts(s, c);
    AssertingIndet(s, c);
    RegisterAsserting(s, c);
    ForcedTrail(s.t, Cl(s.st, c)[0], c, facts, assumptions);
    PushFacts(s.t, Cl(s.st, c)[0], Some(c));
    var s2 := Pushed(Registered(s, c), Cl(s.st, c)[0], Some(c));
    forall l | Val(s2.t, l) == False && Level(s2.t, l.v) < CurLevel(s2.t) ensures l in s2.settled {
      assert Val(s.t, l) == False;
    }
  }

  lemma AssertingIndet(s: Snapshot, c: CRef)
    requires Asserting(s, c)
    ensures |Cl(s.st, c)| >= 2 && Val(s.t, Cl(s.st, c)[0]) == Indet
  {
  }
}
