// The implication graph spanned by the reasons on the current level, and its implication points.

module ImplicationGraph {
  import opened Literals
  import opened Logic
  import opened Trails
  import opened Watching
  import opened Traversal

  /** On the current level, only the first literal of the trail lacks a reason. */
  ghost predicate OneDecision(t: Trail) {
    |t.limits| > 0 && forall i :: t.limits[|t.limits| - 1] < i < |t.lits| ==> Reason(t, t.lits[i].v).Some?
  }

  /** The variables of the clause which have been assigned on the current level. */
  function CurrentVars(t: Trail, c: Clause): set<nat> {
    set x | x in c && Level(t, x.v) == CurLevel(t) :: x.v
  }

  /** The clause which forced the assignment of `v` (empty if there is none). */
  function ReasonClause(s: Snapshot, v: nat): Clause {
    match Reason(s.t, v) case Some(c) => Cl(s.st, c) case None => []
  }

  /**
   * `cut` and `w` separate the conflict clause from the decision of the current level: going backwards from
   * the conflict along the reasons, one stays within `cut` unless one passes `w`. As the decision has no reason,
   * it is not in `cut`.
   */
  ghost predicate Separates(s: Snapshot, conflict: Clause, cut: set<nat>, w: nat) {
    && w !in cut
    && CurrentVars(s.t, conflict) <= cut + {w}
    && (forall v :: v in cut ==> Reason(s.t, v).Some? && CurrentVars(s.t, ReasonClause(s, v)) <= cut + {w})
  }

  /** `w` is a unique implication point: all paths from the decision to the conflict pass it. */
  ghost predicate IsUip(s: Snapshot, conflict: Clause, w: nat) {
    exists cut :: Separates(s, conflict, cut, w)
  }

  /** The literals of lower levels in the conflict clause and in the reasons of `cut`. */
  ghost predicate SideLiteral(s: Snapshot, conflict: Clause, cut: set<nat>, x: Lit) {
    && Level(s.t, x.v) < CurLevel(s.t)
    && (x in conflict || exists v :: v in cut && x in ReasonClause(s, v))
  }

  /**
   * `result` is the resolvent of the conflict clause with the reasons of `cut`, and its first literal is the
   * only one of the current level.
   */
  ghost predicate CutClause(s: Snapshot, conflict: Clause, cut: set<nat>, result: Clause) {
    && |result| >= 1
    && Separates(s, conflict, cut, result[0].v)
    && Level(s.t, result[0].v) == CurLevel(s.t)
    && (forall v :: v in cut ==> Val(s.t, Lit(v, true)) != Indet && Level(s.t, v) == CurLevel(s.t) &&
                                 Pos(s.t, v) > Pos(s.t, result[0].v))
    && (forall x :: x in result ==> Val(s.t, x) == False)
    && DistinctVars(result)
    && (forall x :: x in result[1..] <==> SideLiteral(s, conflict, cut, x))
  }

  /** The conflict clause is falsified and registered, two of its literals are of the current level. */
  ghost predicate AnalyzableConflict(s: Snapshot, c: CRef) {
    && Consistent(s) && OneDecision(s.t) && Conflicting(s, c)
    && exists x, y :: x in Cl(s.st, c) && y in Cl(s.st, c) && x.v != y.v &&
                      Level(s.t, x.v) == CurLevel(s.t) && Level(s.t, y.v) == CurLevel(s.t)
  }

  // ---- the resolvent is a consequence ----------------------------------------------

  ghost predicate ClosedUnderRegistered(u: iset<Lit>, s: Snapshot) {
    forall c :: c in s.reg ==> ClosedUnder(u, Cl(s.st, c))
  }

  /** The true literal of an assigned variable. */
  function TrueLit(t: Trail, v: nat): Lit {
    Lit(v, Val(t, Lit(v, true)) == True)
  }

  lemma TrueLitFacts(t: Trail, x: Lit)
    requires Val(t, x) != Indet
    ensures TrueLit(t, x.v) == if Val(t, x) == True then x else Neg(x)
    ensures Val(t, TrueLit(t, x.v)) == True
  {
  }

  lemma ReasonOf(s: Snapshot, v: nat)
    requires Consistent(s) && Val(s.t, Lit(v, true)) != Indet && Reason(s.t, v).Some?
    ensures Pos(s.t, v) < |s.t.lits| && s.t.lits[Pos(s.t, v)] == TrueLit(s.t, v)
    ensures ReasonFits(s.t, s.st, s.reg, Pos(s.t, v), Reason(s.t, v).value)
  {
    hide ListsOk, WatchesComplete;
    var p := TrueLit(s.t, v);
    assert Val(s.t, p) == True;
    assert s.t.lits[Pos(s.t, v)] == p;
  }

  lemma PosBound(s: Snapshot, v: nat)
    requires Consistent(s) && Val(s.t, Lit(v, true)) != Indet
    ensures Pos(s.t, v) < |s.t.lits| && s.t.lits[Pos(s.t, v)].v == v
  {
    hide ListsOk, ReasonsOk, WatchesComplete;
    assert Val(s.t, TrueLit(s.t, v)) == True;
  }

  lemma TrailPos(s: Snapshot, k: nat)
    requires Consistent(s) && k < |s.t.lits|
    ensures Val(s.t, s.t.lits[k]) == True && Pos(s.t, s.t.lits[k].v) == k
  {
  }

  /** The literals of the reason of `v`: all but the forced one are false. */
  lemma ReasonVars(s: Snapshot, v: nat)
    requires Consistent(s) && Val(s.t, Lit(v, true)) != Indet && Reason(s.t, v).Some?
    ensures v < VarCount(s.t) == |s.t.reasons| == |s.t.levels|
    ensures Reason(s.t, v).value in s.reg && Reason(s.t, v).value < |s.st.lits|
    ensures forall x :: x in ReasonClause(s, v) ==>
              x.v < VarCount(s.t) && Val(s.t, x) != Indet && (x.v == v ==> x == TrueLit(s.t, v)) &&
              (x.v != v ==> Val(s.t, Neg(x)) == True)
  {
    hide ListsOk, WatchesComplete;
    ReasonOf(s, v);
    forall x | x in ReasonClause(s, v)
      ensures x.v < VarCount(s.t) && Val(s.t, x) != Indet && (x.v == v ==> x == TrueLit(s.t, v)) &&
              (x.v != v ==> Val(s.t, Neg(x)) == True)
    {
      assert x == TrueLit(s.t, v) || FalseBefore(s.t, x, Pos(s.t, v));
    }
  }

  /** Unit propagation from the negation of the resolvent makes all of the cut true. */
  lemma CutPropagates(s: Snapshot, conflict: Clause, cut: set<nat>, result: Clause, u: iset<Lit>, v: nat)
    requires Consistent(s) && CutClause(s, conflict, cut, result)
    requires ClosedUnderRegistered(u, s) && Refutes(u, result)
    requires v in cut + {result[0].v}
    ensures TrueLit(s.t, v) in u
    decreases Pos(s.t, v)
  {
    assert result[0] in result;
    if v == result[0].v {
      TrueLitFacts(s.t, result[0]);
    } else {
      ReasonOf(s, v);
      var c := Reason(s.t, v).value;
      var p := TrueLit(s.t, v);
      forall x | x in Cl(s.st, c) && x != p ensures Neg(x) in u {
        assert FalseBefore(s.t, x, Pos(s.t, v));
        TrueLitFacts(s.t, x);
        ReasonLevel(s, v, x);
        if Level(s.t, x.v) == CurLevel(s.t) {
          assert x.v in CurrentVars(s.t, ReasonClause(s, v));
          CutPropagates(s, conflict, cut, result, u, x.v);
        } else {
          assert SideLiteral(s, conflict, cut, x);
          assert x in result[1..];
        }
      }
      assert ClosedUnder(u, Cl(s.st, c)) && p in Cl(s.st, c);
    }
  }

  /** Literals of a reason are of the same level as the forced literal or of lower ones. */
  lemma ReasonLevel(s: Snapshot, v: nat, x: Lit)
    requires Consistent(s) && Val(s.t, Lit(v, true)) != Indet && Reason(s.t, v).Some? && x in ReasonClause(s, v)
    ensures Val(s.t, x) != Indet && Level(s.t, x.v) <= Level(s.t, v) <= CurLevel(s.t)
    ensures x.v != v ==> Val(s.t, x) == False && Pos(s.t, x.v) < Pos(s.t, v)
  {
    hide ListsOk, WatchesComplete;
    ReasonOf(s, v);
    var p := TrueLit(s.t, v);
    LevelOfPos(s.t, p, 0);
    assert x == p || FalseBefore(s.t, x, Pos(s.t, v));
    LevelOfPos(s.t, x, 0);
    if Level(s.t, x.v) > Level(s.t, v) {
      LevelOfPos(s.t, p, Level(s.t, v));
      LevelOfPos(s.t, x, Level(s.t, v));
    }
  }

  /** Assuming the negation of the resolvent, unit propagation falsifies the conflict clause. */
  lemma CutClauseFalsifies(s: Snapshot, conflict: Clause, cut: set<nat>, result: Clause, u: iset<Lit>)
    requires Consistent(s) && CutClause(s, conflict, cut, result)
    requires forall x :: x in conflict ==> Val(s.t, x) == False
    requires ClosedUnderRegistered(u, s) && Refutes(u, result)
    ensures Falsified(u, conflict)
  {
    forall x | x in conflict ensures Neg(x) in u {
      TrueLitFacts(s.t, x);
      LevelOfPos(s.t, x, 0);
      if Level(s.t, x.v) == CurLevel(s.t) {
        assert x.v in CurrentVars(s.t, conflict);
        CutPropagates(s, conflict, cut, result, u, x.v);
      } else {
        assert SideLiteral(s, conflict, cut, x);
        assert x in result[1..];
      }
    }
  }

  // ---- implication points ----------------------------------------------------------

  /** A cut for `w` contains no variable assigned before `w`: one could go back for ever from there. */
  lemma CutIsAfter(s: Snapshot, conflict: Clause, cut: set<nat>, w: nat, v: nat)
    requires Consistent(s) && Separates(s, conflict, cut, w) && v in cut
    requires Val(s.t, Lit(v, true)) != Indet && Level(s.t, v) == CurLevel(s.t) && Pos(s.t, v) < Pos(s.t, w)
    ensures false
    decreases Pos(s.t, v)
  {
    ReasonOf(s, v);
    var c := Reason(s.t, v).value;
    var p := TrueLit(s.t, v);
    var x :| x in Cl(s.st, c) && x != p && Level(s.t, x.v) == Level(s.t, p.v);
    assert FalseBefore(s.t, x, Pos(s.t, v));
    assert x.v in CurrentVars(s.t, ReasonClause(s, v));
    CutIsAfter(s, conflict, cut, w, x.v);
  }
}
