// First-UIP conflict analysis.

module FirstUip {
  import opened Literals
  import opened Trails
  import opened Watching
  import opened Traversal
  import opened ImplicationGraph
  import opened Assignments

  /** The placeholder for the asserting literal. */
  const UNDEFINED_LIT := Lit(0x3FFF_FFFF, true)

  // ---- the analysis in progress, as values -----------------------------------------

  /** The variables of the literals behind the first one. */
  function LowVars(result: Clause): set<nat> {
    set i | 1 <= i < |result| :: result[i].v
  }

  /** Each literal of the clause is accounted for, either as work (done or to be done) or in the result. */
  ghost predicate Covered(s: Snapshot, c: Clause, vars: set<nat>, result: Clause)
    requires |result| >= 1
  {
    forall x :: x in c ==> if Level(s.t, x.v) == CurLevel(s.t) then x.v in vars else x in result[1..]
  }

  /** `v` has been found in the conflict clause or in the reason of a resolved, later variable. */
  ghost predicate Reached(s: Snapshot, conflict: Clause, resolved: set<nat>, v: nat) {
    || v in CurrentVars(s.t, conflict)
    || exists y :: y in resolved && Pos(s.t, y) > Pos(s.t, v) && v in CurrentVars(s.t, ReasonClause(s, y))
  }

  ghost predicate NoUipFrom(s: Snapshot, conflict: Clause, k: int) {
    forall q :: k < q < |s.t.lits| && 0 <= q ==> !IsUip(s, conflict, s.t.lits[q].v)
  }

  /**
   * The trail has been walked back to index `k`. On the current level, the variables `resolved` have been
   * resolved away and the variables `work` are still part of the resolvent; its other literals are in `result`.
   */
  ghost predicate InProgress(s: Snapshot, conflict: Clause, result: Clause, work: set<nat>, resolved: set<nat>, k: int) {
    && |result| >= 1 && work !! resolved
    && Covered(s, conflict, work + resolved, result)
    && (forall v :: v in resolved ==>
          Reason(s.t, v).Some? && Covered(s, ReasonClause(s, v), work + resolved, result) && Pos(s.t, v) > k)
    && (forall v :: v in work ==> Pos(s.t, v) <= k)
    && (forall v :: v in work + resolved ==>
          Val(s.t, Lit(v, true)) != Indet && Level(s.t, v) == CurLevel(s.t) && Reached(s, conflict, resolved, v))
    && (forall x :: x in result[1..] ==> SideLiteral(s, conflict, resolved, x) && Val(s.t, x) == False)
    && DistinctVars(result[1..])
    && NoUipFrom(s, conflict, k)
  }

  /** A cut for the not yet reached `w` contains whatever has been reached. */
  lemma CutContainsReached(s: Snapshot, conflict: Clause, result: Clause, work: set<nat>, resolved: set<nat>, k: int,
                           cut: set<nat>, w: nat, v: nat)
    requires InProgress(s, conflict, result, work, resolved, k) && Consistent(s)
    requires Separates(s, conflict, cut, w) && v in work + resolved && v != w && w !in resolved
    ensures v in cut
    decreases |s.t.lits| - Pos(s.t, v)
  {
    hide Consistent, Covered, NoUipFrom;
    assert Reached(s, conflict, resolved, v);
    if v !in CurrentVars(s.t, conflict) {
      var y :| y in resolved && Pos(s.t, y) > Pos(s.t, v) && v in CurrentVars(s.t, ReasonClause(s, y));
      PosBound(s, y);
      CutContainsReached(s, conflict, result, work, resolved, k, cut, w, y);
    }
  }

  /** As long as some other variable is part of the resolvent, the one at index `k` is no implication point. */
  lemma NotUip(s: Snapshot, conflict: Clause, result: Clause, work: set<nat>, resolved: set<nat>, k: nat, x: nat)
    requires InProgress(s, conflict, result, work, resolved, k) && Consistent(s) && k < |s.t.lits|
    requires x in work && x != s.t.lits[k].v
    ensures NoUipFrom(s, conflict, k - 1)
  {
    hide Consistent, Covered, Reached, SideLiteral, Separates;
    var w := s.t.lits[k].v;
    TrailPos(s, k);
    PosBound(s, x);
    if IsUip(s, conflict, w) {
      var cut :| Separates(s, conflict, cut, w);
      CutContainsReached(s, conflict, result, work, resolved, k, cut, w, x);
      CutIsAfter(s, conflict, cut, w, x);
    }
  }

  /** The variable at index `k` is not part of the resolvent: move on. */
  lemma StepOver(s: Snapshot, conflict: Clause, result: Clause, work: set<nat>, resolved: set<nat>, k: nat, x: nat)
    requires InProgress(s, conflict, result, work, resolved, k) && Consistent(s) && k < |s.t.lits|
    requires s.t.lits[k].v !in work && x in work
    ensures InProgress(s, conflict, result, work, resolved, k - 1)
  {
    NotUip(s, conflict, result, work, resolved, k, x);
    hide Consistent, Covered, Reached, SideLiteral, NoUipFrom;
    forall v | v in work ensures Pos(s.t, v) <= k - 1 {
      PosBound(s, v);
    }
  }

  /** Resolving with the reason of the variable at index `k`. */
  lemma StepResolve(s: Snapshot, conflict: Clause, result: Clause, work: set<nat>, resolved: set<nat>, k: nat, x: nat,
                    tail: Clause, work2: set<nat>)
    requires InProgress(s, conflict, result, work, resolved, k) && Consistent(s) && k < |s.t.lits|
    requires s.t.lits[k].v in work && x in work && x != s.t.lits[k].v && Reason(s.t, s.t.lits[k].v).Some?
    requires
      var r := s.t.lits[k];
      var c := ReasonClause(s, r.v);
      && work2 == (work - {r.v}) + (CurrentVars(s.t, c) - {r.v})
      && (forall y :: y in tail ==> y in c && y != r && Level(s.t, y.v) != CurLevel(s.t))
      && (forall y :: y in c && y != r && Level(s.t, y.v) != CurLevel(s.t) ==> y.v in LowVars(result + tail))
      && DistinctVars((result + tail)[1..])
    ensures InProgress(s, conflict, result + tail, work2, resolved + {s.t.lits[k].v}, k - 1)
  {
    hide Consistent, NoUipFrom, DistinctVars, SideLiteral, Reached;
    var r := s.t.lits[k];
    var c := ReasonClause(s, r.v);
    var resolved2 := resolved + {r.v};
    NotUip(s, conflict, result, work, resolved, k, x);
    PosBound(s, r.v);
    assert Pos(s.t, r.v) == k by {
      TrailPos(s, k);
    }
    assert work2 + resolved2 == work + resolved + CurrentVars(s.t, c) by {
      assert r.v in work + resolved;
    }
    ResolventLiterals(s, conflict, result, work, resolved, k, tail);
    forall v | v in work2 ensures Pos(s.t, v) <= k - 1 && v !in resolved2 {
      WorkBefore(s, conflict, result, work, resolved, k, v);
    }
    forall v | v in work2 + resolved2
      ensures Val(s.t, Lit(v, true)) != Indet && Level(s.t, v) == CurLevel(s.t) && Reached(s, conflict, resolved2, v)
    {
      StillReached(s, conflict, result, work, resolved, k, v);
    }
  }

  lemma StillReached(s: Snapshot, conflict: Clause, result: Clause, work: set<nat>, resolved: set<nat>, k: nat, v: nat)
    requires InProgress(s, conflict, result, work, resolved, k) && Consistent(s) && k < |s.t.lits|
    requires s.t.lits[k].v in work && Reason(s.t, s.t.lits[k].v).Some?
    requires v in work + resolved || v in CurrentVars(s.t, ReasonClause(s, s.t.lits[k].v))
    ensures Val(s.t, Lit(v, true)) != Indet && Level(s.t, v) == CurLevel(s.t)
    ensures Reached(s, conflict, resolved + {s.t.lits[k].v}, v)
  {
    hide Consistent, Covered, NoUipFrom, SideLiteral;
    var r := s.t.lits[k];
    TrailPos(s, k);
    if v in work + resolved {
      assert Reached(s, conflict, resolved, v);
    } else {
      PosBound(s, r.v);
      WorkBefore(s, conflict, result, work, resolved, k, v);
      assert r.v in resolved + {r.v} && v in CurrentVars(s.t, ReasonClause(s, r.v));
    }
  }

  /** The work that remains after resolving at index `k` is before `k`. */
  lemma WorkBefore(s: Snapshot, conflict: Clause, result: Clause, work: set<nat>, resolved: set<nat>, k: nat, v: nat)
    requires InProgress(s, conflict, result, work, resolved, k) && Consistent(s) && k < |s.t.lits|
    requires s.t.lits[k].v in work && Reason(s.t, s.t.lits[k].v).Some? && v != s.t.lits[k].v
    requires v in work || v in CurrentVars(s.t, ReasonClause(s, s.t.lits[k].v))
    ensures Pos(s.t, v) <= k - 1 && v !in resolved
    ensures Val(s.t, Lit(v, true)) != Indet && Level(s.t, v) == CurLevel(s.t)
  {
    hide Consistent, Covered, Reached, SideLiteral, NoUipFrom;
    var r := s.t.lits[k];
    TrailPos(s, k);
    if v in work {
      PosBound(s, v);
    } else {
      var y :| y in ReasonClause(s, r.v) && y.v == v && Level(s.t, v) == CurLevel(s.t);
      ReasonLevel(s, r.v, y);
    }
  }

  lemma ResolventLiterals(s: Snapshot, conflict: Clause, result: Clause, work: set<nat>, resolved: set<nat>, k: nat,
                          tail: Clause)
    requires InProgress(s, conflict, result, work, resolved, k) && Consistent(s) && k < |s.t.lits|
    requires s.t.lits[k].v in work && Reason(s.t, s.t.lits[k].v).Some?
    requires
      var r := s.t.lits[k];
      var c := ReasonClause(s, r.v);
      && (forall y :: y in tail ==> y in c && y != r && Level(s.t, y.v) != CurLevel(s.t))
      && (forall y :: y in c && y != r && Level(s.t, y.v) != CurLevel(s.t) ==> y.v in LowVars(result + tail))
    ensures
      var r := s.t.lits[k];
      var c := ReasonClause(s, r.v);
      var vars := work + resolved + CurrentVars(s.t, c);
      && (forall x :: x in (result + tail)[1..] ==> SideLiteral(s, conflict, resolved + {r.v}, x) && Val(s.t, x) == False)
      && Covered(s, conflict, vars, result + tail) && Covered(s, c, vars, result + tail)
      && (forall v :: v in resolved ==> Covered(s, ReasonClause(s, v), vars, result + tail))
  {
    hide Consistent, NoUipFrom, Reached;
    var r := s.t.lits[k];
    var c := ReasonClause(s, r.v);
    TrailPos(s, k);
    assert (result + tail)[1..] == result[1..] + tail;
    forall x | x in c && Level(s.t, x.v) != CurLevel(s.t)
      ensures SideLiteral(s, conflict, resolved + {r.v}, x) && Val(s.t, x) == False
    {
      ReasonLevel(s, r.v, x);
    }
    forall x | x in c && Level(s.t, x.v) != CurLevel(s.t) ensures x in result[1..] + tail {
      assert x.v in LowVars(result + tail);
      var i :| 1 <= i < |result + tail| && (result + tail)[i].v == x.v;
      var y := (result + tail)[i];
      assert y == (result + tail)[1..][i - 1];
      assert Val(s.t, y) == False && Val(s.t, x) == False;
    }
  }

  /** Nothing has been resolved needlessly: each cut for `w` contains the variables of `cut`. */
  ghost predicate LeastCut(s: Snapshot, conflict: Clause, cut: set<nat>, w: nat) {
    forall other :: Separates(s, conflict, other, w) ==> cut <= other
  }

  lemma FinishLeast(s: Snapshot, conflict: Clause, result: Clause, work: set<nat>, resolved: set<nat>, k: nat)
    requires InProgress(s, conflict, result, work, resolved, k) && Consistent(s) && k < |s.t.lits|
    requires work == {s.t.lits[k].v}
    ensures LeastCut(s, conflict, resolved, s.t.lits[k].v)
  {
    hide Consistent, Covered, NoUipFrom, Reached, Separates, SideLiteral;
    var w := s.t.lits[k].v;
    assert w in work;
    forall other, v | Separates(s, conflict, other, w) && v in resolved ensures v in other {
      CutContainsReached(s, conflict, result, work, resolved, k, other, w, v);
    }
  }

  /** Only the variable at index `k` is left: it is the first unique implication point. */
  lemma Finish(s: Snapshot, conflict: Clause, result: Clause, work: set<nat>, resolved: set<nat>, k: nat)
    requires InProgress(s, conflict, result, work, resolved, k) && Consistent(s) && k < |s.t.lits|
    requires work == {s.t.lits[k].v}
    ensures CutClause(s, conflict, resolved, result[0 := Neg(s.t.lits[k])])
    ensures IsUip(s, conflict, s.t.lits[k].v) && NoUipFrom(s, conflict, k)
  {
    hide Consistent, NoUipFrom, Reached;
    var u := s.t.lits[k];
    var result2 := result[0 := Neg(u)];
    TrailPos(s, k);
    assert result2[1..] == result[1..];
    assert u.v in work;
    assert Separates(s, conflict, resolved, u.v);
    forall x | x in result2 ensures Val(s.t, x) == False {
      var i :| 0 <= i < |result2| && result2[i] == x;
      assert i > 0 ==> result2[1..][i - 1] == x;
    }
    forall x | SideLiteral(s, conflict, resolved, x) ensures x in result[1..] {
      if x !in conflict {
        var v :| v in resolved && x in ReasonClause(s, v);
        assert Covered(s, ReasonClause(s, v), work + resolved, result);
      }
    }
    assert DistinctVars(result2) by {
      forall i, j | 0 <= i < j < |result2| ensures result2[i].v != result2[j].v {
        assert result2[j] == result[1..][j - 1];
        if i > 0 {
          assert result2[i] == result[1..][i - 1];
        }
        assert SideLiteral(s, conflict, resolved, result2[j]);
      }
    }
  }

  /** As long as there is work, the trail index stays within the current level. */
  lemma WorkInLevel(s: Snapshot, conflict: Clause, result: Clause, work: set<nat>, resolved: set<nat>, k: int, x: nat)
    requires InProgress(s, conflict, result, work, resolved, k) && Consistent(s) && k < |s.t.lits| && x in work
    ensures k >= 0 && s.t.lits[k].v < VarCount(s.t) && Val(s.t, s.t.lits[k]) == True
    ensures s.t.limits[CurLevel(s.t)] <= k && s.t.lits[k].v !in LowVars(result)
    ensures x != s.t.lits[k].v ==> s.t.limits[CurLevel(s.t)] < k
  {
    hide Covered, NoUipFrom, Reached, ListsOk, ReasonsOk, WatchesComplete;
    PosBound(s, x);
    LevelOfPos(s.t, TrueLit(s.t, x), CurLevel(s.t));
    TrailPos(s, k);
    LevelOfPos(s.t, s.t.lits[k], CurLevel(s.t));
    forall i | 1 <= i < |result| ensures Level(s.t, result[i].v) != CurLevel(s.t) {
      assert result[1..][i - 1] == result[i];
      assert SideLiteral(s, conflict, resolved, result[i]);
    }
  }

  /** A set of two or more numbers has one that differs from `v`. */
  lemma Another(work: set<nat>, v: nat) returns (x: nat)
    requires |work| >= 2
    ensures x in work && x != v
  {
    var y :| y in work;
    if y == v {
      assert |work - {v}| == |work| - 1;
      x :| x in work - {v};
    } else {
      x := y;
    }
  }

  /** The literals of a conflict clause before any resolution. */
  lemma ConflictLiterals(s: Snapshot, c: CRef, result: Clause, work: set<nat>)
    requires Consistent(s) && Conflicting(s, c)
    requires Extended(s.t, Cl(s.st, c), UNDEFINED_LIT, [UNDEFINED_LIT], {}, result, work)
    requires VarCount(s.t) <= UNDEFINED_LIT.v
    ensures |result| >= 1 && Covered(s, Cl(s.st, c), work, result) && work == CurrentVars(s.t, Cl(s.st, c))
    ensures forall x :: x in result[1..] ==> SideLiteral(s, Cl(s.st, c), {}, x) && Val(s.t, x) == False
    ensures forall x :: x in Cl(s.st, c) ==> Val(s.t, Lit(x.v, true)) != Indet && Pos(s.t, x.v) < |s.t.lits|
  {
    var cl := Cl(s.st, c);
    forall x | x in cl
      ensures x.v < VarCount(s.t) && Pos(s.t, x.v) < |s.t.lits| && Level(s.t, x.v) <= CurLevel(s.t)
    {
      PosBound(s, x.v);
      LevelOfPos(s.t, x, 0);
    }
    hide Consistent, DistinctVars, TrailOk;
    assert [UNDEFINED_LIT] + result[1..] == result;
    forall x | x in cl && Level(s.t, x.v) != CurLevel(s.t) ensures x in result[1..] {
      var i :| 1 <= i < |result| && result[i].v == x.v;
      assert result[i] == result[1..][i - 1];
      assert Val(s.t, result[i]) == False && Val(s.t, x) == False;
    }
  }

  /** The analysis of a conflict begins with the literals of the conflict clause. */
  lemma StartAnalysis(s: Snapshot, c: CRef, result: Clause, work: set<nat>)
    requires AnalyzableConflict(s, c)
    requires Extended(s.t, Cl(s.st, c), UNDEFINED_LIT, [UNDEFINED_LIT], {}, result, work)
    requires VarCount(s.t) <= UNDEFINED_LIT.v
    ensures InProgress(s, Cl(s.st, c), result, work, {}, |s.t.lits| - 1) && |work| >= 2
  {
    hide Consistent, Covered, SideLiteral;
    ConflictLiterals(s, c, result, work);
    TwoOfLevel(s, c, work);
    StartProgress(s, Cl(s.st, c), result, work);
  }

  lemma TwoOfLevel(s: Snapshot, c: CRef, work: set<nat>)
    requires AnalyzableConflict(s, c) && work == CurrentVars(s.t, Cl(s.st, c))
    ensures |work| >= 2
  {
    hide Consistent, Conflicting, OneDecision;
    var cl := Cl(s.st, c);
    var x, y :| x in cl && y in cl && x.v != y.v && Level(s.t, x.v) == CurLevel(s.t) && Level(s.t, y.v) == CurLevel(s.t);
    SubsetSize({x.v, y.v}, work);
  }

  lemma StartProgress(s: Snapshot, conflict: Clause, result: Clause, work: set<nat>)
    requires |result| >= 1 && Covered(s, conflict, work, result) && work == CurrentVars(s.t, conflict)
    requires forall x :: x in result[1..] ==> SideLiteral(s, conflict, {}, x) && Val(s.t, x) == False
    requires forall x :: x in conflict ==> Val(s.t, Lit(x.v, true)) != Indet && Pos(s.t, x.v) < |s.t.lits|
    requires DistinctVars(result[1..])
    ensures InProgress(s, conflict, result, work, {}, |s.t.lits| - 1)
  {
  }

  /** After resolving at index `k`, the added literals are as in StepResolve. */
  lemma StepResolveExtended(s: Snapshot, conflict: Clause, result: Clause, work: set<nat>, resolved: set<nat>, k: nat,
                            extended: Clause, work2: set<nat>)
    requires InProgress(s, conflict, result, work, resolved, k) && Consistent(s) && k < |s.t.lits|
    requires s.t.lits[k].v in work && |work| >= 2 && Reason(s.t, s.t.lits[k].v).Some?
    requires Extended(s.t, ReasonClause(s, s.t.lits[k].v), s.t.lits[k], result, work - {s.t.lits[k].v}, extended, work2)
    ensures InProgress(s, conflict, extended, work2, resolved + {s.t.lits[k].v}, k - 1)
    ensures |work2| >= |work - {s.t.lits[k].v}| >= 1
  {
    hide Consistent, Covered, NoUipFrom, SideLiteral, Reached;
    var r := s.t.lits[k];
    var x := Another(work, r.v);
    var tail := extended[|result|..];
    assert result + tail == extended;
    assert forall y :: y in ReasonClause(s, r.v) && y != r ==> y.v != r.v by {
      ReasonVars(s, r.v);
      TrailPos(s, k);
    }
    SubsetSize(work - {r.v}, work2);
    StepResolve(s, conflict, result, work, resolved, k, x, tail, work2);
  }

  // ---- collecting the literals of a clause -----------------------------------------

  lemma LowVarsStep(c: Clause, x: Lit)
    requires |c| >= 1
    ensures LowVars(c + [x]) == LowVars(c) + {x.v}
    ensures DistinctVars(c[1..]) && x.v !in LowVars(c) ==> DistinctVars((c + [x])[1..])
  {
    var d := c + [x];
    assert d[|c|] == x;
    forall v | v in LowVars(c) ensures v in LowVars(d) {
      var i :| 1 <= i < |c| && c[i].v == v;
      assert d[i].v == v;
    }
    if DistinctVars(c[1..]) && x.v !in LowVars(c) {
      assert d[1..] == c[1..] + [x];
      forall j | 0 <= j < |c[1..]| ensures c[1..][j].v != x.v {
        assert c[1..][j] == c[j + 1];
      }
    }
  }

  /** The stamped variables are those of `work` and of the literals behind the first one of `result`. */
  ghost predicate StampsAre(stamps: seq<bool>, work: set<nat>, result: Clause) {
    forall v :: 0 <= v < |stamps| ==> (stamps[v] <==> v in work || v in LowVars(result))
  }

  ghost predicate LevelsFit(t: Trail, work: set<nat>, result: Clause) {
    && (forall v :: v in work ==> Level(t, v) == CurLevel(t))
    && (forall v :: v in LowVars(result) ==> Level(t, v) != CurLevel(t))
    && |result| >= 1 && DistinctVars(result[1..])
  }

  /**
   * `extended` and `work2` result from adding the literals of `part` other than `r` to `result` and `base`:
   * variables of the current level to the work, literals of other levels to the result.
   */
  ghost predicate Extended(t: Trail, part: Clause, r: Lit, result: Clause, base: set<nat>, extended: Clause,
                           work2: set<nat>)
  {
    && LevelsFit(t, work2, extended)
    && work2 == base + (CurrentVars(t, part) - {r.v})
    && result <= extended
    && (forall y :: y in extended[|result|..] ==> y in part && y != r && Level(t, y.v) != CurLevel(t))
    && (forall y :: y in part && y != r && Level(t, y.v) != CurLevel(t) ==> y.v in LowVars(extended))
  }

  /** The stamp of the variable to be resolved away has been cleared. */
  lemma ExtendNothing(t: Trail, r: Lit, result: Clause, work: set<nat>, stamps: seq<bool>)
    requires StampsAre(stamps, work, result) && LevelsFit(t, work, result)
    requires r.v >= |stamps| ==> r.v !in work
    requires r.v < |stamps| ==> r.v in work
    ensures Extended(t, [], r, result, work - {r.v}, result, work - {r.v})
    ensures StampsAre(if r.v < |stamps| then stamps[r.v := false] else stamps, work - {r.v}, result)
  {
  }

  /** The next literal `x` of the clause is looked at. */
  lemma ExtendStep(t: Trail, part: Clause, x: Lit, r: Lit, result: Clause, base: set<nat>, extended: Clause,
                   work2: set<nat>, stamps: seq<bool>)
    requires Extended(t, part, r, result, base, extended, work2) && StampsAre(stamps, work2, extended)
    requires x.v < |stamps| && (x.v == r.v ==> x == r)
    ensures x == r || stamps[x.v] ==> Extended(t, part + [x], r, result, base, extended, work2)
    ensures x != r && !stamps[x.v] && Level(t, x.v) == CurLevel(t) ==>
              Extended(t, part + [x], r, result, base, extended, work2 + {x.v}) && x.v !in work2 &&
              StampsAre(stamps[x.v := true], work2 + {x.v}, extended)
    ensures x != r && !stamps[x.v] && Level(t, x.v) != CurLevel(t) ==>
              Extended(t, part + [x], r, result, base, extended + [x], work2) &&
              StampsAre(stamps[x.v := true], work2, extended + [x])
  {
    assert CurrentVars(t, part + [x]) == CurrentVars(t, part) + if Level(t, x.v) == CurLevel(t) then {x.v} else {};
    LowVarsStep(extended, x);
    assert (extended + [x])[|result|..] == extended[|result|..] + [x];
  }

  /** `u` is the implication point of the current level which is closest to the conflict. */
  ghost predicate FirstUipOf(s: Snapshot, conflict: Clause, u: nat) {
    IsUip(s, conflict, u) && NoUipFrom(s, conflict, Pos(s.t, u))
  }

  /** The callback has been called once for each variable of `vars`. */
  ghost predicate SeenIs(seen: seq<nat>, vars: set<nat>) {
    && (forall v :: v in seen <==> v in vars)
    && (forall i, j :: 0 <= i < j < |seen| ==> seen[i] != seen[j])
  }

  /** What is known about the literal at the cursor. */
  lemma AtCursor(s: Snapshot, c: CRef, conflict: Clause, result: Clause, work: set<nat>, resolved: set<nat>, k: int,
                 x: nat, stamps: seq<bool>)
    requires AnalyzableConflict(s, c) && k < |s.t.lits| && x in work
    requires InProgress(s, conflict, result, work, resolved, k)
    requires StampsAre(stamps, work, result) && |stamps| == VarCount(s.t) <= UNDEFINED_LIT.v
    ensures k >= 0 && s.t.lits[k].v < |stamps| && (stamps[s.t.lits[k].v] <==> s.t.lits[k].v in work)
    ensures s.t.lits[k].v !in resolved && LevelsFit(s.t, work, result)
    ensures
      var r := s.t.lits[k];
      r.v in work && x != r.v ==>
        && Reason(s.t, r.v).Some? && Reason(s.t, r.v).value < |s.st.lits| == |s.st.lits|
        && (forall y :: y in ReasonClause(s, r.v) ==> y.v < |stamps| && (y.v == r.v ==> y == r))
  {
    hide Consistent, Covered, NoUipFrom, Reached;
    WorkInLevel(s, conflict, result, work, resolved, k, x);
    TrailPos(s, k);
    var r := s.t.lits[k];
    if r.v in work && x != r.v {
      ReasonVars(s, r.v);
      TrailLimits(s);
    }
    forall v | v in LowVars(result) ensures Level(s.t, v) != CurLevel(s.t) {
      var i :| 1 <= i < |result| && result[i].v == v;
      assert result[i] == result[1..][i - 1];
      assert SideLiteral(s, conflict, resolved, result[i]);
    }
  }

  lemma TrailLimits(s: Snapshot)
    requires Consistent(s)
    ensures |s.t.limits| >= 1
  {
  }

  lemma Single(work: set<nat>, u: nat)
    requires |work| == 1 && u in work
    ensures work == {u}
  {
    SubsetSize({u}, work);
  }

  lemma FinishStamps(s: Snapshot, conflict: Clause, result: Clause, resolved: set<nat>, k: nat, stamps: seq<bool>)
    requires Consistent(s) && k < |s.t.lits| && s.t.lits[k].v < |stamps|
    requires InProgress(s, conflict, result, {s.t.lits[k].v}, resolved, k)
    requires StampsAre(stamps, {s.t.lits[k].v}, result)
    ensures |result| >= 1
    ensures StampsAre(stamps[s.t.lits[k].v := false], {}, result[0 := Neg(s.t.lits[k])])
    ensures Pos(s.t, s.t.lits[k].v) == k
  {
    var u := s.t.lits[k].v;
    WorkInLevel(s, conflict, result, {u}, resolved, k, u);
    TrailPos(s, k);
    var result2 := result[0 := Neg(s.t.lits[k])];
    assert forall i :: 1 <= i < |result| ==> result2[i] == result[i];
    assert LowVars(result2) == LowVars(result);
  }

  // ---- the algorithm ---------------------------------------------------------------

  class FirstUipLearning {
    const assignment: Assignment
    // A variable of the current level is stamped while its literal is part of the resolvent,
    // any other variable if it occurs in the result.
    var stamps: seq<bool>

    /** Class invariant A: no variable is stamped. */
    ghost predicate Valid()
      reads this
    {
      forall v :: 0 <= v < |stamps| ==> !stamps[v]
    }

    constructor (assignment: Assignment)
      ensures Valid() && this.assignment == assignment && |stamps| == |assignment.assignments|
    {
      this.assignment := assignment;
      stamps := seq(|assignment.assignments|, _ => false);
    }

    method IncreaseMaxVarTo(maxVar: nat)
      requires Valid() && |stamps| <= maxVar + 1
      modifies this
      ensures Valid() && |stamps| == maxVar + 1
    {
      stamps := stamps + seq(maxVar + 1 - |stamps|, _ => false);
    }

    lemma AssignmentSizes()
      requires assignment.Valid()
      ensures |assignment.levels| == |assignment.assignments| && assignment.currentLevel == CurLevel(assignment.T())
    {
    }

    /** Adds a literal to the resolvent, unless it is `resolveAt` or has been added before. */
    method AddLiteral(x: Lit, resolveAt: Lit, extended: Clause, ghost part: Clause, ghost result: Clause,
                      ghost base: set<nat>, ghost work: set<nat>)
      returns (extended2: Clause, more: nat, ghost work2: set<nat>)
      requires assignment.Valid() && |stamps| == |assignment.assignments|
      requires Extended(assignment.T(), part, resolveAt, result, base, extended, work)
      requires StampsAre(stamps, work, extended)
      requires x.v < |stamps| && (x.v == resolveAt.v ==> x == resolveAt)
      modifies this
      ensures |stamps| == |old(stamps)| && StampsAre(stamps, work2, extended2)
      ensures Extended(assignment.T(), part + [x], resolveAt, result, base, extended2, work2)
      ensures more == |work2| - |work|
    {
      hide Consistent, Extended, Level, StampsAre, Assignment.Valid, Assignment.Shape;
      AssignmentSizes();
      ExtendStep(assignment.T(), part, x, resolveAt, result, base, extended, work, stamps);
      extended2, more, work2 := extended, 0, work;
      if x != resolveAt && !stamps[x.v] {
        stamps := stamps[x.v := true];
        if assignment.GetLevel(x.v) == assignment.currentLevel {
          more, work2 := 1, work + {x.v};
        } else {
          extended2 := extended + [x];
        }
      }
    }

    /**
     * Adds the literals of `clause` other than `resolveAt` to the resolvent: those of the current level to the
     * work, all others to the result. Returns how much work has been added.
     */
    method AddResolvent(clause: Clause, resolveAt: Lit, result: Clause, ghost work: set<nat>)
      returns (extended: Clause, unresolved: nat, ghost work2: set<nat>)
      requires assignment.Valid() && |stamps| == |assignment.assignments| <= UNDEFINED_LIT.v
      requires StampsAre(stamps, work, result) && LevelsFit(assignment.T(), work, result)
      requires forall x :: x in clause ==> x.v < |stamps| && (x.v == resolveAt.v ==> x == resolveAt)
      requires if resolveAt == UNDEFINED_LIT then resolveAt.v !in work else resolveAt.v < |stamps| && resolveAt.v in work
      modifies this
      ensures |stamps| == |old(stamps)| && StampsAre(stamps, work2, extended)
      ensures Extended(assignment.T(), clause, resolveAt, result, work - {resolveAt.v}, extended, work2)
      ensures unresolved == |work2| - |work - {resolveAt.v}|
    {
      hide Consistent, Extended, Level, StampsAre, LevelsFit, Assignment.Valid, Assignment.Shape;
      ghost var t := assignment.T();
      ExtendNothing(t, resolveAt, result, work, stamps);
      if resolveAt != UNDEFINED_LIT {
        stamps := stamps[resolveAt.v := false];
      }
      extended, unresolved, work2 := result, 0, work - {resolveAt.v};
      for i := 0 to |clause|
        invariant |stamps| == |assignment.assignments| && StampsAre(stamps, work2, extended)
        invariant Extended(t, clause[..i], resolveAt, result, work - {resolveAt.v}, extended, work2)
        invariant unresolved == |work2| - |work - {resolveAt.v}|
      {
        assert clause[i] in clause && clause[..i + 1] == clause[..i] + [clause[i]];
        var more;
        extended, more, work2 := AddLiteral(clause[i], resolveAt, extended, clause[..i], result, work - {resolveAt.v}, work2);
        unresolved := unresolved + more;
      }
      assert clause[..|clause|] == clause;
    }

    /**
     * Walks back the trail, resolving with reasons, until one literal of the current level is left in the
     * resolvent. `seen` are the variables passed to the callback.
     */
    method ResolveUntilUip(ghost c: CRef, result: Clause, unresolved: nat, ghost work: set<nat>)
      returns (resolvent: Clause, seen: seq<nat>, ghost resolved: set<nat>)
      requires assignment.Valid() && |stamps| == |assignment.assignments| <= UNDEFINED_LIT.v
      requires AnalyzableConflict(assignment.Snap(), c)
      requires InProgress(assignment.Snap(), Cl(assignment.Snap().st, c), result, work, {}, |assignment.trail| - 1)
      requires StampsAre(stamps, work, result) && unresolved == |work| >= 1
      modifies this
      ensures |stamps| == |old(stamps)| && StampsAre(stamps, {}, resolvent)
      ensures CutClause(assignment.Snap(), Cl(assignment.Snap().st, c), resolved, resolvent)
      ensures FirstUipOf(assignment.Snap(), Cl(assignment.Snap().st, c), resolvent[0].v)
      ensures LeastCut(assignment.Snap(), Cl(assignment.Snap().st, c), resolved, resolvent[0].v)
      ensures SeenIs(seen, resolved)
    {
      hide Consistent, InProgress, AnalyzableConflict, Extended, StampsAre, CutClause, Val, Level, Separates, LeastCut;
      ghost var s := assignment.Snap();
      ghost var conflict := Cl(s.st, c);
      ghost var todo := work;
      resolvent, seen, resolved := result, [], {};
      var count: nat := unresolved;
      var cursor := |assignment.trail| - 1;
      while count > 1
        invariant cursor < |assignment.trail| && count == |todo| >= 1
        invariant InProgress(s, conflict, resolvent, todo, resolved, cursor)
        invariant |stamps| == |assignment.assignments| && StampsAre(stamps, todo, resolvent)
        invariant SeenIs(seen, resolved)
        decreases cursor
      {
        ghost var x := Another(todo, if cursor >= 0 then assignment.trail[cursor].v else 0);
        AtCursor(s, c, conflict, resolvent, todo, resolved, cursor, x, stamps);
        var resolveAt := assignment.trail[cursor];
        if stamps[resolveAt.v] {
          seen := seen + [resolveAt.v];
          var reason := assignment.db.lits[assignment.GetReason(resolveAt.v).value];
          var added;
          ghost var before, todoBefore := resolvent, todo;
          resolvent, added, todo := AddResolvent(reason, resolveAt, resolvent, todo);
          StepResolveExtended(s, conflict, before, todoBefore, resolved, cursor, resolvent, todo);
          assert |todoBefore - {resolveAt.v}| == |todoBefore| - 1;
          count := count + added - 1;
          resolved := resolved + {resolveAt.v};
        } else {
          StepOver(s, conflict, resolvent, todo, resolved, cursor, x);
        }
        cursor := cursor - 1;
      }
      cursor := FindStamped(c, cursor, resolvent, todo, resolved);
      Finish(s, conflict, resolvent, todo, resolved, cursor);
      FinishLeast(s, conflict, resolvent, todo, resolved, cursor);
      FinishStamps(s, conflict, resolvent, resolved, cursor, stamps);
      resolvent := resolvent[0 := Neg(assignment.trail[cursor])];
      stamps := stamps[assignment.trail[cursor].v := false];
    }

    /** Walks back the trail to the only literal of the current level left in the resolvent. */
    method FindStamped(ghost c: CRef, start: int, ghost result: Clause, ghost work: set<nat>, ghost resolved: set<nat>)
      returns (cursor: nat)
      requires assignment.Valid() && |stamps| == |assignment.assignments| <= UNDEFINED_LIT.v
      requires AnalyzableConflict(assignment.Snap(), c) && start < |assignment.trail|
      requires InProgress(assignment.Snap(), Cl(assignment.Snap().st, c), result, work, resolved, start)
      requires StampsAre(stamps, work, result) && |work| == 1
      ensures cursor < |assignment.trail| && assignment.trail[cursor].v < |stamps|
      ensures InProgress(assignment.Snap(), Cl(assignment.Snap().st, c), result, work, resolved, cursor)
      ensures work == {assignment.trail[cursor].v}
    {
      hide Consistent, InProgress, AnalyzableConflict, StampsAre, Val, Level;
      ghost var s := assignment.Snap();
      ghost var conflict := Cl(s.st, c);
      ghost var u :| u in work;
      Single(work, u);
      AtCursor(s, c, conflict, result, work, resolved, start, u, stamps);
      cursor := start;
      while !stamps[assignment.trail[cursor].v]
        invariant cursor < |assignment.trail| && assignment.trail[cursor].v < |stamps|
        invariant InProgress(s, conflict, result, work, resolved, cursor)
        invariant stamps[assignment.trail[cursor].v] <==> assignment.trail[cursor].v in work
        decreases cursor
      {
        StepOver(s, conflict, result, work, resolved, cursor, u);
        AtCursor(s, c, conflict, result, work, resolved, cursor - 1, u, stamps);
        cursor := cursor - 1;
      }
    }

    /**
     * Computes the first-UIP clause of the falsified clause `c`, with the asserting literal in front. Each variable
     * involved is passed to the callback exactly once; `seen` are these variables in order.
     */
    method ComputeConflictClause(c: CRef) returns (result: Clause, seen: seq<nat>, ghost resolved: set<nat>)
      requires Valid() && assignment.Valid() && |stamps| == |assignment.assignments| <= UNDEFINED_LIT.v
      requires AnalyzableConflict(assignment.Snap(), c)
      modifies this
      ensures Valid() && |stamps| == |old(stamps)|
      ensures CutClause(assignment.Snap(), assignment.db.lits[c], resolved, result)
      ensures FirstUipOf(assignment.Snap(), assignment.db.lits[c], result[0].v)
      ensures LeastCut(assignment.Snap(), assignment.db.lits[c], resolved, result[0].v)
      ensures SeenIs(seen, resolved + Vars(result))
    {
      hide Consistent, InProgress, CutClause, Extended, FirstUipOf, LeastCut;
      ghost var work, s := {}, assignment.Snap();
      var unresolved;
      ConflictBounds(s, c);
      result, unresolved, work := AddResolvent(assignment.db.lits[c], UNDEFINED_LIT, [UNDEFINED_LIT], {});
      StartAnalysis(s, c, result, work);
      result, seen, resolved := ResolveUntilUip(c, result, unresolved, work);
      CutClauseVars(s, assignment.db.lits[c], resolved, result);
      var more := ClearStamps(result);
      seen := seen + more;
    }

    /** Clears the stamps of the given literals, passing their variables to the callback. */
    method ClearStamps(lits: Clause) returns (seen: seq<nat>)
      requires StampsAre(stamps, {}, lits) && forall x :: x in lits ==> x.v < |stamps|
      requires DistinctVars(lits)
      modifies this
      ensures Valid() && |stamps| == |old(stamps)|
      ensures SeenIs(seen, Vars(lits))
      ensures |seen| == |lits| && forall i :: 0 <= i < |lits| ==> seen[i] == lits[i].v
    {
      seen := [];
      for i := 0 to |lits|
        invariant |stamps| == |old(stamps)| && |seen| == i
        invariant forall v :: 0 <= v < |stamps| && stamps[v] ==> exists j :: i <= j < |lits| && lits[j].v == v
        invariant forall j :: 0 <= j < i ==> seen[j] == lits[j].v
      {
        assert lits[i] in lits;
        stamps := stamps[lits[i].v := false];
        seen := seen + [lits[i].v];
      }
      forall v | v in Vars(lits) ensures v in seen {
        var x :| x in lits && x.v == v;
        var i :| 0 <= i < |lits| && lits[i] == x;
        assert seen[i] == v;
      }
    }
  }

  lemma ConflictBounds(s: Snapshot, c: CRef)
    requires AnalyzableConflict(s, c)
    ensures c < |s.st.lits| && forall x :: x in Cl(s.st, c) ==> x.v < VarCount(s.t)
  {
  }

  lemma CutClauseVars(s: Snapshot, conflict: Clause, resolved: set<nat>, result: Clause)
    requires CutClause(s, conflict, resolved, result)
    ensures |result| >= 1 && DistinctVars(result)
    ensures forall x :: x in result ==> x.v < VarCount(s.t) && x.v !in resolved
  {
    forall x | x in result ensures x.v !in resolved {
      var i :| 0 <= i < |result| && result[i] == x;
      if i > 0 {
        assert result[1..][i - 1] == x;
        assert SideLiteral(s, conflict, resolved, x);
      }
    }
  }
}
