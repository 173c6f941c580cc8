// Two families of inputs showing what an answer of the solver does not mean.

module FailureExamples {
  import opened Literals
  import opened Logic
  import opened Trails
  import opened Watching
  import opened PropagationSteps
  import opened Traversal
  import opened Lifecycle
  import opened ClauseDatabase
  import opened ImplicationGraph
  import opened FirstUip
  import opened SearchState
  import opened Compression
  import opened Soundness
  import opened Derivations
  import opened Refutations
  import opened CdclSolvers
  import opened Environments

  /** The model whose true variables are those of the positive literals. */
  function Making(ls: seq<Lit>): Model {
    iset l | l in ls && l.pos :: l.v
  }

  function TwoClauses(a: Lit, b: Lit, c: Lit): Record {
    Record([[Neg(a), Neg(b), c], [Neg(a), Neg(b), Neg(c)]], [])
  }

  // ---- the empty clause --------------------------------------------------------------

  /**
   * If the problem has a model, a negative answer is due to the assumptions, and the empty clause which then ends the
   * proof
   * is no asymmetric tautology.
   */
  lemma LastLineOfSatisfiable(r: Record, st: Store, facts: seq<Lit>, assumptions: seq<Lit>, failed: seq<Lit>)
    requires Failure(r, st, facts, assumptions, failed) && ProofOk(r) && Satisfiable(r.problem)
    ensures failed != [] && !AsymmetricTautology(Known(r), [])
  {
    if AsymmetricTautology(Known(r), []) {
      assert Known(r) + Units([]) == Known(r) && r.problem + Units([]) == r.problem;
      RefutedIsUnsatisfiable(r, []);
    }
  }

  /**
   * With the clause (-a) and the assumption a, unit propagation refutes problem and assumption, but the empty clause
   * which then ends the proof does not follow: the problem has a model.
   */
  lemma EmptyClauseNeedNotFollow(a: Lit)
    ensures
      var r := Record([[Neg(a)]], []);
      ProofOk(r) && Refuted(r, [a]) && Satisfiable(r.problem) && !AsymmetricTautology(Known(r), [])
  {
    var r := Record([[Neg(a)]], []);
    forall u: iset<Lit> | UpClosed(u, Known(r) + Units([a])) && Refutes(u, []) ensures UpConflict(u, Known(r) + Units([a])) {
      ClosedUnderUnits(u, Known(r), [a]);
      assert Neg(Neg(a)) == a && a in [a];
      assert Falsified(u, [Neg(a)]);
      assert (Known(r) + Units([a]))[0] == [Neg(a)];
    }
    var m := Making([Neg(a)]);
    assert Neg(a) in [Neg(a)] && LitHolds(m, Neg(a));
    assert FormulaHolds(m, r.problem);
    if AsymmetricTautology(Known(r), []) {
      assert Known(r) == r.problem;
      AsymmetricTautologyIsEntailed(Known(r), []);
    }
  }

  /** The solver gives a negative answer for this input, whatever policies do, and writes that proof. */
  method EmptyClauseEndsProof(a: Lit, patience: nat, environment: Environment)
    returns (solver: CdclSolver, result: SolvingResult)
    requires a.v < UNDEFINED_LIT.v
    modifies environment
    ensures result.verdict == False
    ensures solver.proof == solver.record.lines + [[]] && !AsymmetricTautology(Known(solver.record), [])
  {
    hide CdclSolver.Valid, AsymmetricTautology, Failure;
    solver := new CdclSolver(30, 6, true, environment);
    assert Neg(a) in [Neg(a)] && a in [a];
    solver.AddClause([Neg(a)]);
    EmptyClauseNeedNotFollow(a);
    AtOnceRefutable(solver.record, a);
    result := solver.Solve([a], patience);
    assert solver.record.problem == [[Neg(a)]];
    SolverProof(solver);
    LastLineOfSatisfiable(solver.record, solver.db.S(), solver.facts, [a], result.failedAssumptions);
  }

  lemma SolverProof(solver: CdclSolver)
    requires solver.Valid()
    ensures ProofOk(solver.record)
  {
  }

  lemma AtOnceRefutable(r: Record, a: Lit)
    requires r.problem == [[Neg(a)]] && Refuted(Record([[Neg(a)]], []), [a])
    ensures UnitRefutable(r, [a])
  {
    assert Known(Record([[Neg(a)]], [])) == r.problem;
  }

  /**
   * With the clauses (-a -b c) and (-a -b -c) and the assumptions a and b, assigning b leads to a conflict. As b has no
   * reason, the failed assumptions are just [b], but problem and b have a model. This is so for all literals a, b and c
   * over different variables.
   */
  lemma LoneFailedAssumptionNeedNotSuffice(a: Lit, b: Lit, c: Lit)
    requires DistinctVars([a, b, c])
    ensures
      var r := TwoClauses(a, b, c);
      Refuted(r, [a, b]) && Satisfiable(r.problem + Units([b])) && !Refuted(r, [b])
  {
    var c1, c2 := [Neg(a), Neg(b), c], [Neg(a), Neg(b), Neg(c)];
    var r := Record([c1, c2], []);
    var f := Known(r) + Units([a, b]);
    assert f[0] == c1 && f[1] == c2;
    forall u: iset<Lit> | UpClosed(u, f) && Refutes(u, []) ensures UpConflict(u, f) {
      ClosedUnderUnits(u, Known(r), [a, b]);
      BothPropagate(u, a, b, c);
    }
    assert [a, b, c][0].v != [a, b, c][1].v;
    var m := Making([Neg(a), b]);
    assert Neg(a) in c1 && Neg(a) in c2 && LitHolds(m, Neg(a));
    UnitsHold(m, [b]);
    assert FormulaHolds(m, r.problem + Units([b]));
    if Refuted(r, [b]) {
      RefutedIsUnsatisfiable(r, [b]);
    }
  }

  // ---- failed assumptions ------------------------------------------------------------

  /** Without assumptions, unit propagation derives nothing from the two clauses, and nothing else from assuming `a`. */
  lemma NothingPropagates(a: Lit, b: Lit, c: Lit)
    requires DistinctVars([a, b, c])
    ensures UpClosed(iset{}, Known(TwoClauses(a, b, c))) && UpClosed(iset{a}, Known(TwoClauses(a, b, c)))
  {
    var c1, c2 := [Neg(a), Neg(b), c], [Neg(a), Neg(b), Neg(c)];
    assert [a, b, c][0].v != [a, b, c][1].v && [a, b, c][0].v != [a, b, c][2].v && [a, b, c][1].v != [a, b, c][2].v;
    assert Neg(b) in c1 && c in c1 && Neg(b) in c2 && Neg(c) in c2;
    assert Neg(Neg(b)) == b && Neg(Neg(c)) == c;
    assert forall x :: x in Known(TwoClauses(a, b, c)) ==> x == c1 || x == c2;
  }

  /** When only `a` has been assumed, it is the only true literal. */
  lemma OnlyFirstIsTrue(s: Snapshot, facts: seq<Lit>, a: Lit, b: Lit, c: Lit)
    requires DistinctVars([a, b, c]) && Grounded(s, facts, [a]) && Knowing(s, TwoClauses(a, b, c), facts)
    requires CurLevel(s.t) == 1 && Val(s.t, a) == True
    ensures facts == [] && forall l :: Val(s.t, l) == True ==> l == a
    ensures Val(s.t, b) == Indet && !Suffices(s.t, b)
  {
    var r := TwoClauses(a, b, c);
    NothingPropagates(a, b, c);
    assert facts != [] ==> facts[0] in facts;
    ClosedKept(iset{}, s, r, facts);
    ClosedKept(iset{a}, s, r, facts);
    ConsistentTrail(s);
    LevelsBounded(s.t);
    RootedPropagates(s, facts, [a], iset{}, 0);
    RootedPropagates(s, facts, [a], iset{a}, 1);
    assert [a, b, c][0].v != [a, b, c][1].v;
    FirstUnforced(s, a, b, c, facts);
  }

  lemma FirstUnforced(s: Snapshot, a: Lit, b: Lit, c: Lit, facts: seq<Lit>)
    requires DistinctVars([a, b, c]) && Consistent(s) && Knowing(s, TwoClauses(a, b, c), facts)
    requires Val(s.t, a) == True && Level(s.t, a.v) == 1
    requires forall l :: Val(s.t, l) == True ==> l == a
    ensures !NothingAssumed(s.t)
  {
    ConsistentTrail(s);
    assert [a, b, c][0].v != [a, b, c][1].v && [a, b, c][0].v != [a, b, c][2].v;
    assert s.t.lits[Pos(s.t, a.v)] == a;
    if Reason(s.t, a.v).Some? {
      ReasonVars(s, a.v);
      assert false;
    }
  }

  /** Whatever is registered for the two clauses, `a` and `b` cannot both be true at a fixpoint. */
  lemma NotBothTrue(s: Snapshot, facts: seq<Lit>, a: Lit, b: Lit, c: Lit)
    requires DistinctVars([a, b, c]) && Consistent(s) && Knowing(s, TwoClauses(a, b, c), facts) && facts == []
    requires Fixpoint(s) && StaleIsFalse(s.stale, facts) && Val(s.t, a) == True
    ensures Val(s.t, b) != True
  {
    hide Consistent, Kept, Fixpoint, UpClosed, SameLits, ClosedUnder, Falsified, HasCopy;
    var u := iset l: Lit | Val(s.t, l) == True;
    NoStale(s, facts);
    var k1 := StoredCopy(s.st, facts, VarCount(s.t), a, b, c, c);
    var k2 := StoredCopy(s.st, facts, VarCount(s.t), a, b, c, Neg(c));
    FixpointClosed(s, k1, u);
    FixpointClosed(s, k2, u);
    ClosedUnderCopy(u, Cl(s.st, k1), [Neg(a), Neg(b), c]);
    ClosedUnderCopy(u, Cl(s.st, k2), [Neg(a), Neg(b), Neg(c)]);
    if Val(s.t, b) == True {
      BothPropagate(u, a, b, c);
    }
  }

  /** Each of the two clauses is stored. */
  lemma StoredCopy(st: Store, facts: seq<Lit>, n: nat, a: Lit, b: Lit, c: Lit, x: Lit) returns (k: CRef)
    requires DistinctVars([a, b, c]) && Kept(TwoClauses(a, b, c), facts, st, n) && facts == [] && (x == c || x == Neg(c))
    ensures IsLive(st, k) && SameLits(Cl(st, k), [Neg(a), Neg(b), x])
  {
    hide SameLits, HasCopy, ProofOk, Derives, Bounded;
    var r := TwoClauses(a, b, c);
    var p := [Neg(a), Neg(b), x];
    assert r.problem[0] == [Neg(a), Neg(b), c] && r.problem[1] == [Neg(a), Neg(b), Neg(c)];
    assert Accounted(p, facts, st);
    assert [a, b, c][0].v != [a, b, c][1].v && [a, b, c][0].v != [a, b, c][2].v && [a, b, c][1].v != [a, b, c][2].v;
    DistinctIsNoTautology(p);
    k :| IsLive(st, k) && !IsRedundant(st, k) && forall y :: y in Cl(st, k) ==> y in p;
    assert ClauseKept(st, k, Known(r), n);
    OwnCopy(Cl(st, k), a, b, c, x);
  }

  lemma OwnCopy(cl: Clause, a: Lit, b: Lit, c: Lit, x: Lit)
    requires DistinctVars([a, b, c]) && (x == c || x == Neg(c)) && HasCopy(Known(TwoClauses(a, b, c)), cl)
    requires forall y :: y in cl ==> y in [Neg(a), Neg(b), x]
    ensures SameLits(cl, [Neg(a), Neg(b), x])
  {
    assert [a, b, c][0].v != [a, b, c][2].v && [a, b, c][1].v != [a, b, c][2].v;
    var r := TwoClauses(a, b, c);
    var d :| d in Known(r) && SameLits(cl, d);
    assert d == r.problem[0] || d == r.problem[1];
    assert d[0] in d && d[1] in d && d[2] in d;
  }

  /**
   * When `a` has been assumed and `b` is the next assumption, the solver reports `b` alone as failed, although
   * the problem has a model in which it is true.
   */
  method LoneFailedAssumption(solver: CdclSolver, ghost a: Lit, b: Lit, ghost c: Lit)
    returns (consistent: bool, failed: seq<Lit>)
    requires DistinctVars([a, b, c]) && solver.Running() && solver.record == TwoClauses(a, b, c)
    requires Grounded(solver.assignment.Snap(), solver.facts, [a]) && Fixpoint(solver.assignment.Snap())
    requires solver.assignment.currentLevel == 1 && Val(solver.assignment.T(), a) == True
    requires solver.Branching([a, b]) && b.v < |solver.assignment.assignments|
    modifies solver.assignment, solver.db`lits, solver.stamps, solver.heuristic`eligible
    ensures !consistent && failed == [b]
    ensures Satisfiable(solver.record.problem + Units(failed)) && !Refuted(solver.record, failed)
  {
    hide Consistent, Refuted, Satisfiable, Knowing, Fixpoint, StaleIsFalse, Suffices, Permuted, UpClosed;
    ghost var s := solver.assignment.Snap();
    OnlyFirstIsTrue(s, solver.facts, a, b, c);
    AssumedMore(s, solver.facts, a, b);
    LoneFailedAssumptionNeedNotSuffice(a, b, c);
    FirstStays(s, a);
    consistent, failed := solver.PropagateFact(b, true, [a], [a, b], [a, b]);
    assert a in [a] && b in [b];
    if consistent {
      NotBothTrue(solver.assignment.Snap(), solver.facts, a, b, c);
    }
  }

  lemma AssumedMore(s: Snapshot, facts: seq<Lit>, a: Lit, b: Lit)
    requires Grounded(s, facts, [a])
    ensures Grounded(s, facts, [a, b]) && b in [a, b]
  {
  }

  lemma FirstStays(s: Snapshot, a: Lit)
    requires Consistent(s) && Val(s.t, a) == True
    ensures AllTrue(s.t, [a], CurLevel(s.t))
  {
    TrueOnLevel(s, a);
  }

  lemma BothPropagate(u: iset<Lit>, a: Lit, b: Lit, c: Lit)
    requires ClosedUnder(u, [Neg(a), Neg(b), c]) && forall l :: l in [a, b] ==> l in u
    ensures Falsified(u, [Neg(a), Neg(b), Neg(c)])
  {
  }
}
