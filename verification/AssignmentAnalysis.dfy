// Tracing a forced assignment back to the decisions or assumptions of the current level.

module AssignmentAnalysis {
  import opened Literals
  import opened Logic
  import opened Trails
  import opened Watching
  import opened Traversal
  import opened ImplicationGraph
  import opened StampMaps
  import opened Assignments

  /** `vs` contains `v` and, with each forced variable, the variables of the current level in its reason. */
  ghost predicate Traced(s: Snapshot, v: nat, vs: set<nat>) {
    v in vs && forall w :: w in vs && Reason(s.t, w).Some? ==> CurrentVars(s.t, ReasonClause(s, w)) <= vs
  }

  /** `vs` are exactly the variables to which the assignment of `v` can be traced back on the current level. */
  ghost predicate IsTrace(s: Snapshot, v: nat, vs: set<nat>) {
    Traced(s, v, vs) && forall ws :: Traced(s, v, ws) ==> vs <= ws
  }

  /** `roots` are the true literals of the unforced variables in `vs`, other than `v`. */
  ghost predicate AreRoots(s: Snapshot, v: nat, vs: set<nat>, roots: seq<Lit>) {
    && (forall l :: l in roots <==>
          l.v in vs && l.v != v && Reason(s.t, l.v).None? && Val(s.t, l) == True && Level(s.t, l.v) == CurLevel(s.t))
    && DistinctVars(roots)
  }

  /** `u` contains all true literals assigned below the current level. */
  ghost predicate ContainsLowerLevels(u: iset<Lit>, t: Trail) {
    forall x :: Val(t, x) == True && Level(t, x.v) < CurLevel(t) ==> x in u
  }

  /** Given the lower levels, unit propagation from the roots makes everything traced true. */
  lemma RootsPropagate(s: Snapshot, v: nat, vs: set<nat>, roots: seq<Lit>, u: iset<Lit>, w: nat)
    requires Consistent(s) && Traced(s, v, vs) && AreRoots(s, v, vs, roots) && Reason(s.t, v).Some?
    requires ClosedUnderRegistered(u, s) && ContainsLowerLevels(u, s.t) && forall l :: l in roots ==> l in u
    requires w in vs && Val(s.t, Lit(w, true)) != Indet
    ensures TrueLit(s.t, w) in u
    decreases Pos(s.t, w)
  {
    var p := TrueLit(s.t, w);
    TrueLitFacts(s.t, Lit(w, true));
    LevelOfPos(s.t, p, 0);
    if Reason(s.t, w).Some? {
      ReasonOf(s, w);
      var c := Reason(s.t, w).value;
      forall x | x in Cl(s.st, c) && x != p ensures Neg(x) in u {
        assert x in ReasonClause(s, w);
        assert FalseBefore(s.t, x, Pos(s.t, w));
        TrueLitFacts(s.t, x);
        LevelOfPos(s.t, x, 0);
        if Level(s.t, x.v) == CurLevel(s.t) {
          assert x.v in CurrentVars(s.t, ReasonClause(s, w));
          RootsPropagate(s, v, vs, roots, u, x.v);
        }
      }
      assert ClosedUnder(u, Cl(s.st, c)) && p in Cl(s.st, c);
    } else if Level(s.t, w) == CurLevel(s.t) {
      assert p in roots;
    }
  }

  // ---- the trace in progress -------------------------------------------------------

  /** The variables found so far: those in `todo` still have to be looked at. */
  ghost predicate Tracing(s: Snapshot, v: nat, vs: set<nat>, todo: seq<nat>, roots: seq<Lit>) {
    && v in vs && Reason(s.t, v).Some?
    && (forall w :: w in vs ==> Val(s.t, Lit(w, true)) != Indet && (w != v ==> Level(s.t, w) == CurLevel(s.t)))
    && (forall w :: w in todo ==> w in vs && Reason(s.t, w).Some?)
    && (forall w :: w in vs && Reason(s.t, w).Some? && w !in todo ==> CurrentVars(s.t, ReasonClause(s, w)) <= vs)
    && AreRoots(s, v, vs, roots)
    && (forall ws :: Traced(s, v, ws) ==> vs <= ws)
  }

  /** The reason of `item` is being looked at, up to its literal `j`. */
  ghost predicate TracingItem(s: Snapshot, v: nat, vs: set<nat>, todo: seq<nat>, roots: seq<Lit>, item: nat, j: nat) {
    && Tracing(s, v, vs, todo + [item], roots) && j <= |ReasonClause(s, item)|
    && CurrentVars(s.t, ReasonClause(s, item)[..j]) <= vs
  }

  /** The stamped variables of the current level are those found so far. */
  ghost predicate StampsTrace(s: Snapshot, v: nat, vs: set<nat>, stamped: set<nat>) {
    && (forall w :: w in vs ==> w in stamped || w == v)
    && (forall w :: w in stamped && Level(s.t, w) == CurLevel(s.t) ==> w in vs)
  }

  lemma StartTrace(s: Snapshot, v: nat)
    requires Val(s.t, Lit(v, true)) != Indet && Reason(s.t, v).Some?
    ensures Tracing(s, v, {v}, [v], []) && StampsTrace(s, v, {v}, {})
  {
  }

  ghost predicate ItemReady(s: Snapshot, item: nat) {
    && item < VarCount(s.t) == |s.t.reasons| && Reason(s.t, item).Some? && Reason(s.t, item).value < |s.st.lits|
    && (forall x :: x in ReasonClause(s, item) ==> x.v < VarCount(s.t) && Val(s.t, x) != Indet)
    && (forall x :: x in ReasonClause(s, item) && x.v != item ==> Val(s.t, Neg(x)) == True)
  }

  lemma StartItem(s: Snapshot, v: nat, vs: set<nat>, todo: seq<nat>, roots: seq<Lit>)
    requires Consistent(s) && Tracing(s, v, vs, todo, roots) && todo != []
    ensures
      var item := todo[|todo| - 1];
      && TracingItem(s, v, vs, todo[..|todo| - 1], roots, item, 0)
      && ItemReady(s, item) && item < |s.t.reasons| && |s.t.levels| == VarCount(s.t)
  {
    hide Consistent, AreRoots, Traced;
    var item := todo[|todo| - 1];
    assert todo == todo[..|todo| - 1] + [item] && item in todo;
    ReasonVars(s, item);
  }

  lemma FinishItem(s: Snapshot, v: nat, vs: set<nat>, todo: seq<nat>, roots: seq<Lit>, item: nat)
    requires TracingItem(s, v, vs, todo, roots, item, |ReasonClause(s, item)|)
    ensures Tracing(s, v, vs, todo, roots)
  {
  }

  /** The next literal is on a lower level or has been found before. */
  lemma TraceSkip(s: Snapshot, v: nat, vs: set<nat>, todo: seq<nat>, roots: seq<Lit>, item: nat, j: nat)
    requires TracingItem(s, v, vs, todo, roots, item, j) && j < |ReasonClause(s, item)|
    requires Level(s.t, ReasonClause(s, item)[j].v) == CurLevel(s.t) ==> ReasonClause(s, item)[j].v in vs
    ensures TracingItem(s, v, vs, todo, roots, item, j + 1)
  {
  }

  /** The next literal is a new one of the current level. */
  lemma TraceNew(s: Snapshot, v: nat, vs: set<nat>, todo: seq<nat>, roots: seq<Lit>, item: nat, j: nat)
    requires TracingItem(s, v, vs, todo, roots, item, j) && j < |ReasonClause(s, item)|
    requires
      var x := ReasonClause(s, item)[j];
      Level(s.t, x.v) == CurLevel(s.t) && x.v !in vs && Val(s.t, Neg(x)) == True
    ensures
      var x := ReasonClause(s, item)[j];
      if Reason(s.t, x.v).Some? then TracingItem(s, v, vs + {x.v}, todo + [x.v], roots, item, j + 1)
      else TracingItem(s, v, vs + {x.v}, todo, roots + [Neg(x)], item, j + 1)
  {
    var c := ReasonClause(s, item);
    var x := c[j];
    assert c[..j + 1] == c[..j] + [x] && x in c;
    assert x.v in CurrentVars(s.t, c);
    assert item in todo + [item];
    forall ws | Traced(s, v, ws) ensures vs + {x.v} <= ws {
      assert item in ws;
    }
    TraceRoots(s, v, vs, roots, x);
    hide AreRoots, Traced;
    if Reason(s.t, x.v).Some? {
      var todo2 := (todo + [x.v]) + [item];
      assert forall w :: w in todo2 <==> w in todo + [item] || w == x.v;
      assert Tracing(s, v, vs + {x.v}, todo2, roots);
    } else {
      assert Tracing(s, v, vs + {x.v}, todo + [item], roots + [Neg(x)]);
    }
  }

  lemma TraceRoots(s: Snapshot, v: nat, vs: set<nat>, roots: seq<Lit>, x: Lit)
    requires AreRoots(s, v, vs, roots) && v in vs && x.v !in vs
    requires Level(s.t, x.v) == CurLevel(s.t) && Val(s.t, Neg(x)) == True
    ensures Reason(s.t, x.v).Some? ==> AreRoots(s, v, vs + {x.v}, roots)
    ensures Reason(s.t, x.v).None? ==> AreRoots(s, v, vs + {x.v}, roots + [Neg(x)])
  {
  }

  lemma TraceDone(s: Snapshot, v: nat, vs: set<nat>, roots: seq<Lit>)
    requires Tracing(s, v, vs, [], roots)
    ensures IsTrace(s, v, vs) && AreRoots(s, v, vs, roots)
  {
  }

  lemma QueryBounds(s: Snapshot, v: nat)
    requires Consistent(s) && Val(s.t, Lit(v, true)) != Indet
    ensures v < VarCount(s.t) == |s.t.levels| == |s.t.reasons|
  {
  }

  lemma OneStamped(s: Snapshot, v: nat, vs: set<nat>, todo: seq<nat>, roots: seq<Lit>, item: nat, stamped: set<nat>)
    requires Tracing(s, v, vs, todo, roots) && item in todo
    requires StampsTrace(s, v, vs, stamped) && (v in stamped || item == v)
    ensures StampsTrace(s, v, vs, stamped + {item}) && v in stamped + {item}
  {
  }

  // ---- the algorithm ---------------------------------------------------------------

  /** Looks at the reason of `item`, adding what has not been seen yet. */
  method AnalyzeReason(assignment: Assignment, stamps: StampMap, stamp: nat, item: nat, toAnalyze: seq<nat>,
                       roots: seq<Lit>, ghost v: nat, ghost trace: set<nat>)
    returns (toAnalyze2: seq<nat>, roots2: seq<Lit>, ghost trace2: set<nat>)
    requires assignment.Valid()
    requires stamps.Valid() && stamps.contextActive && stamp == stamps.currentStamp
    requires |stamps.stamps| >= |assignment.assignments|
    requires TracingItem(assignment.Snap(), v, trace, toAnalyze, roots, item, 0)
    requires StampsTrace(assignment.Snap(), v, trace, stamps.Stamped()) && v in stamps.Stamped()
    requires item in stamps.Stamped() && ItemReady(assignment.Snap(), item)
    modifies stamps`stamps
    ensures stamps.Valid() && |stamps.stamps| == |old(stamps.stamps)|
    ensures Tracing(assignment.Snap(), v, trace2, toAnalyze2, roots2)
    ensures StampsTrace(assignment.Snap(), v, trace2, stamps.Stamped())
    ensures old(stamps.Stamped()) <= stamps.Stamped() <= old(stamps.Stamped()) + Below(|stamps.stamps|)
    ensures stamps.Stamped() == old(stamps.Stamped()) ==> toAnalyze2 == toAnalyze
  {
    hide Consistent, Tracing, TracingItem, StampsTrace, Val, Level, StampMap.Stamped, StampMap.Valid;
    ghost var s := assignment.Snap();
    toAnalyze2, roots2, trace2 := toAnalyze, roots, trace;
    var c := assignment.db.lits[assignment.GetReason(item).value];
    for j := 0 to |c|
      invariant stamps.Valid() && |stamps.stamps| == |old(stamps.stamps)| && v in stamps.Stamped()
      invariant TracingItem(s, v, trace2, toAnalyze2, roots2, item, j)
      invariant StampsTrace(s, v, trace2, stamps.Stamped()) && item in stamps.Stamped()
      invariant old(stamps.Stamped()) <= stamps.Stamped() <= old(stamps.Stamped()) + Below(|stamps.stamps|)
      invariant stamps.Stamped() == old(stamps.Stamped()) ==> toAnalyze2 == toAnalyze
    {
      var lit := c[j];
      assert lit in c;
      StampCases(s, v, trace2, stamps.Stamped(), lit.v);
      if stamps.IsStamped(lit.v, stamp) {
        TraceSkip(s, v, trace2, toAnalyze2, roots2, item, j);
      } else {
        stamps.SetStamped(lit.v, stamp, true);
        if assignment.GetLevel(lit.v) == assignment.currentLevel {
          TraceNew(s, v, trace2, toAnalyze2, roots2, item, j);
          trace2 := trace2 + {lit.v};
          if assignment.GetReason(lit.v) != None {
            toAnalyze2 := toAnalyze2 + [lit.v];
          } else {
            // The literal is false: its negation is on the trail.
            roots2 := roots2 + [Neg(lit)];
          }
        } else {
          TraceSkip(s, v, trace2, toAnalyze2, roots2, item, j);
        }
      }
    }
    FinishItem(s, v, trace2, toAnalyze2, roots2, item);
  }

  /** What the stamp of variable `w` says about the trace. */
  lemma StampCases(s: Snapshot, v: nat, vs: set<nat>, stamped: set<nat>, w: nat)
    requires StampsTrace(s, v, vs, stamped) && v in stamped
    ensures w in stamped && Level(s.t, w) == CurLevel(s.t) ==> w in vs
    ensures w !in stamped ==> w !in vs
    ensures Level(s.t, w) == CurLevel(s.t) ==> StampsTrace(s, v, vs + {w}, stamped + {w})
    ensures Level(s.t, w) != CurLevel(s.t) ==> StampsTrace(s, v, vs, stamped + {w})
  {
  }

  /**
   * Collects the unforced literals of the current level which led to the assignment of `query`, behind `query` itself.
   * If `query` has not been forced, nothing is collected.
   */
  method AnalyzeAssignment(assignment: Assignment, stamps: StampMap, query: Lit)
    returns (result: seq<Lit>, ghost trace: set<nat>)
    requires assignment.Valid() && Val(assignment.T(), query) != Indet
    requires stamps.Valid() && !stamps.contextActive && |stamps.stamps| >= |assignment.assignments|
    modifies stamps
    ensures stamps.Valid() && !stamps.contextActive && |stamps.stamps| == |old(stamps.stamps)|
    ensures |result| >= 1 && result[0] == query
    ensures Reason(assignment.T(), query.v).None? ==> result == [query]
    ensures Reason(assignment.T(), query.v).Some? ==>
              IsTrace(assignment.Snap(), query.v, trace) && AreRoots(assignment.Snap(), query.v, trace, result[1..])
  {
    hide Consistent, Tracing, TracingItem, IsTrace, AreRoots, StampsTrace, Level, Below, ItemReady;
    hide StampMap.Stamped, StampMap.Valid;
    ghost var s := assignment.Snap();
    var stamp := stamps.CreateContext();
    QueryBounds(s, query.v);
    trace := {};
    if assignment.GetReason(query.v) == None {
      stamps.Clear();
      return [query], trace;
    }
    var roots: seq<Lit> := [];
    var toAnalyze: seq<nat> := [query.v];
    trace := {query.v};
    StartTrace(s, query.v);
    while toAnalyze != []
      invariant stamps.Valid() && stamps.contextActive && stamp == stamps.currentStamp
      invariant |stamps.stamps| == |old(stamps.stamps)|
      invariant Tracing(s, query.v, trace, toAnalyze, roots) && StampsTrace(s, query.v, trace, stamps.Stamped())
      invariant query.v in stamps.Stamped() || toAnalyze == [query.v]
      invariant stamps.Stamped() <= Below(|stamps.stamps|)
      decreases |Below(|stamps.stamps|) - stamps.Stamped()|, |toAnalyze|
    {
      StartItem(s, query.v, trace, toAnalyze, roots);
      var currentVar := toAnalyze[|toAnalyze| - 1];
      OneStamped(s, query.v, trace, toAnalyze, roots, currentVar, stamps.Stamped());
      ghost var before := stamps.Stamped();
      stamps.SetStamped(currentVar, stamp, true);
      toAnalyze, roots, trace := AnalyzeReason(assignment, stamps, stamp, currentVar, toAnalyze[..|toAnalyze| - 1], roots,
                                               query.v, trace);
      GrowingSet(Below(|stamps.stamps|), before, stamps.Stamped());
    }
    TraceDone(s, query.v, trace, roots);
    stamps.Clear();
    result := [query] + roots;
    assert result[1..] == roots;
  }
}
