// The driver of the conflict-driven search.

module CdclSolvers {
  import opened Literals
  import opened Logic
  import opened Trails
  import opened Watching
  import opened PropagationSteps
  import opened Traversal
  import opened Lifecycle
  import opened ClauseDatabase
  import opened Assignments
  import opened ImplicationGraph
  import opened FirstUip
  import opened StampMaps
  import opened ClauseMinimization
  import opened AssignmentAnalysis
  import opened Ranking
  import opened SearchState
  import opened Compression
  import opened Soundness
  import opened Derivations
  import opened Refutations
  import opened FactCleaning
  import opened BinaryHeaps
  import opened VsidsBranching
  import opened LiteralBlockDistances
  import opened Environments

  /** What a conflict leads to: a new fact, or a stored lemma and the level to return to. */
  datatype Derived = NewFact(l: Lit) | NewLemma(c: CRef, backtrackLevel: nat)

  /**
   * What is behind a lemma: the variables whose reasons have been resolved with the conflict clause, the first-UIP
   * clause obtained from that, and what minimization has left of it.
   */
  datatype Analysis = Analysis(cut: set<nat>, first: Clause, kept: Clause)

  /** The answer of the solver: True (with a model), False (with the assumptions to blame) or Indet. */
  datatype SolvingResult = SolvingResult(verdict: TBool, model: Option<seq<TBool>>, failedAssumptions: seq<Lit>)

  /** `m` gives all variables the values they have in `values`. */
  ghost predicate Describes(values: seq<TBool>, m: Model) {
    forall v: nat :: v < |values| ==> (values[v] == True ==> v in m) && (values[v] == False ==> v !in m)
  }

  /** `s2` is reached from `s` by assigning the unassigned literal `l` and propagating. */
  ghost predicate Appends(s: Snapshot, l: Lit, s2: Snapshot) {
    && |s.t.levels| == |s.t.reasons| == |s.t.pos| == |s.t.vals| && l.v < VarCount(s.t) && Val(s.t, l) == Indet
    && Progress(Pushed(s, l, None), s2)
  }

  /** The given literals have been assumed and propagated. */
  ghost predicate HasAssumed(s: Snapshot, facts: seq<Lit>, ls: seq<Lit>) {
    Grounded(s, facts, ls) && Fixpoint(s) && AllTrue(s.t, ls, CurLevel(s.t))
  }

  /**
   * Once the literals `earlier` have been assumed and propagated, assuming `l` fails: its opposite is true, or
   * propagating it falsifies a clause.
   */
  ghost predicate Contradicted(s: Snapshot, facts: seq<Lit>, earlier: seq<Lit>, l: Lit) {
    || (HasAssumed(s, facts, earlier) && Val(s.t, l) == False)
    || (exists s0, c :: HasAssumed(s0, facts, earlier) && Appends(s0, l, s) && Conflicting(s, c))
  }

  /**
   * The first failed assumption is the one whose assignment has failed. If it has been forced to be false, the others
   * are exactly the unforced literals of its level to which that can be traced back; otherwise there are no others.
   */
  ghost predicate Blamed(s: Snapshot, failed: seq<Lit>) {
    && |failed| >= 1 && Val(s.t, failed[0]) != Indet
    && if Reason(s.t, failed[0].v).None? then |failed| == 1
       else exists trace :: IsTrace(s, failed[0].v, trace) && AreRoots(s, failed[0].v, trace, failed[1..])
  }

  /** Assumption `i` is the first one whose assignment fails, and the failed assumptions are those to blame for it. */
  ghost predicate FailsWith(s: Snapshot, facts: seq<Lit>, assumptions: seq<Lit>, failed: seq<Lit>, i: nat) {
    && i < |assumptions| && Blamed(s, failed) && assumptions[i] == failed[0]
    && Contradicted(s, facts, assumptions[..i], failed[0])
  }

  ghost predicate FailsAt(s: Snapshot, facts: seq<Lit>, assumptions: seq<Lit>, failed: seq<Lit>) {
    CurLevel(s.t) == 1 && AllTrue(s.t, facts, 0) && exists i :: FailsWith(s, facts, assumptions, failed, i)
  }

  /** There is a state of the solver which explains why exactly these assumptions have failed. */
  ghost predicate Explained(r: Record, st: Store, facts: seq<Lit>, assumptions: seq<Lit>, failed: seq<Lit>) {
    exists s: Snapshot :: s.st == st && Grounded(s, facts, assumptions) && Knowing(s, r, facts) &&
                          StaleIsFalse(s.stale, facts) && FailsAt(s, facts, assumptions, failed)
  }

  /**
   * What a negative answer means: problem and assumptions are refuted. If no assumption is to blame, the problem
   * is refuted without assumptions, and the empty clause ends a correct proof. Otherwise, propagation of the facts
   * alone does not refute the clauses of the solver, and the empty clause is no asymmetric tautology for them. Two or
   * more failed assumptions suffice for the refutation, and no assumption is among them without a reason.
   */
  ghost predicate Failure(r: Record, st: Store, facts: seq<Lit>, assumptions: seq<Lit>, failed: seq<Lit>) {
    && (forall l :: l in failed ==> l in assumptions)
    && Refuted(r, assumptions) && !Satisfiable(r.problem + Units(assumptions))
    && (failed == [] ==> AsymmetricTautology(Known(r), []) && !Satisfiable(r.problem))
    && ([] !in r.problem ==> (failed == [] <==> LiveRefuted(st, facts)))
    && (assumptions == [] ==> AsymmetricTautology(Known(r), []) && !Satisfiable(r.problem))
    && (|failed| > 1 ==> Refuted(r, failed) && !Satisfiable(r.problem + Units(failed)))
    && (failed != [] ==> Explained(r, st, facts, assumptions, failed))
  }

  /** `values` gives each variable a value, and describes models of the problem in which all assumptions hold. */
  ghost predicate Answers(r: Record, assumptions: seq<Lit>, values: Option<seq<TBool>>) {
    && values.Some? && Indet !in values.value
    && forall m :: Describes(values.value, m) ==> FormulaHolds(m, r.problem + Units(assumptions))
  }

  /**
   * What minimization leaves of the first-UIP clause: redundant literals are erased. Those which can be resolved away
   * with binary clauses are only erased if the rest is short and has literals of few levels.
   */
  ghost function Optimized(s: Snapshot, first: Clause, sizeBound: nat, lbdBound: nat): Clause
    requires |first| >= 1
  {
    var erased := Dropping(first, RedundantLits(s, first));
    if |erased| <= sizeBound && |LevelsOf(s.t, erased)| <= lbdBound then Dropping(erased, ResolvableLits(s, first[0]))
    else erased
  }

  /** `a` is the analysis of the conflict: the clause for the first unique implication point, minimized. */
  ghost predicate Analyzed(s: Snapshot, conflict: Clause, a: Analysis, sizeBound: nat, lbdBound: nat) {
    && CutClause(s, conflict, a.cut, a.first) && FirstUipOf(s, conflict, a.first[0].v)
    && LeastCut(s, conflict, a.cut, a.first[0].v)
    && a.kept == Optimized(s, a.first, sizeBound, lbdBound)
  }

  /** `c` is the lemma `kept` with all literals but the first in another order. */
  ghost predicate IsLemma(c: Clause, kept: Clause) {
    |c| == |kept| >= 1 && c[0] == kept[0] && SameLits(c, kept)
  }

  /** The variables which have taken part in the conflict have gained the increment, which has grown afterwards. */
  ghost predicate Rewarded(a: seq<real>, delta: real, vars: set<nat>, a2: seq<real>, delta2: real, rate: real) {
    exists k, d :: rate != 0.0 && Bumped(a, delta, vars, a2, d, k) && delta2 == d * (1.0 / rate)
  }

  /** The record has only been extended by derived clauses. */
  ghost predicate RecordGrown(r: Record, r2: Record) {
    r2.problem == r.problem && r.lines <= r2.lines
  }

  /** The opposite of `l` has been forced, or is a fact. */
  ghost predicate Traceable(t: Trail, l: Lit) {
    Val(t, l) == False && (Reason(t, l.v).Some? || Level(t, l.v) == 0)
  }

  /** All unassigned variables are in the heap. */
  ghost predicate Available(t: Trail, members: set<nat>) {
    forall v: nat :: v < VarCount(t) && Val(t, Lit(v, true)) == Indet ==> v in members
  }

  /** Only variables of facts and assumptions are not eligible for decisions. */
  ghost predicate Excluded(eligible: seq<bool>, facts: seq<Lit>, assumptions: seq<Lit>) {
    forall v: nat :: v < |eligible| && !eligible[v] ==> exists l :: (l in facts || l in assumptions) && l.v == v
  }

  /** No literal has been assumed yet: there is no unforced literal on level 1. */
  ghost predicate NothingAssumed(t: Trail) {
    forall i :: 0 <= i < |t.lits| && Reason(t, t.lits[i].v).None? ==> Level(t, t.lits[i].v) != 1
  }

  /** What is known about the state in which assumption `l` is to be assigned if the failed assumptions suffice. */
  ghost predicate Suffices(t: Trail, l: Lit) {
    Traceable(t, l) || (Val(t, l) != False && NothingAssumed(t))
  }

  /** A literal other than `l` has been assumed. */
  ghost predicate OtherAssumed(t: Trail, l: Lit) {
    exists x :: x != l && Val(t, x) == True && Level(t, x.v) == 1 && Reason(t, x.v).None?
  }

  /** The literals of `clause`, once each, have become a new fact or a new irredundant clause. */
  ghost predicate IsAdded(clause: Clause, facts0: seq<Lit>, facts: seq<Lit>, st0: Store, st: Store) {
    exists lits :: |lits| >= 1 && SameLits(lits, clause) && DistinctVars(lits) &&
                   if |lits| == 1 then facts == facts0 + lits && st == st0
                   else facts == facts0 && st == WithNew(st0, lits, false)
  }

  /** No unassigned variable has a greater activity than `v`. */
  ghost predicate IsGreatest(t: Trail, activity: seq<real>, v: nat) {
    v < |activity| && forall w: nat :: w < |activity| && Val(t, Lit(w, true)) == Indet ==> activity[w] <= activity[v]
  }

  /** `d` is a best decision: its sign is the saved phase, and its variable has a greatest activity. */
  ghost predicate IsBest(t: Trail, activity: seq<real>, phases: seq<TBool>, d: Lit) {
    IsGreatest(t, activity, d.v) && d.pos == (d.v < |phases| && phases[d.v] == True)
  }

  /** Literal `i` of the trail has been a best decision when it was made. */
  ghost predicate WasBest(t: Trail, activity: seq<real>, phases: seq<TBool>, i: nat)
    requires i < |t.lits|
  {
    var d := t.lits[i];
    && d.v < |activity| && d.pos == (d.v < |phases| && phases[d.v] == True)
    && forall w: nat :: w < |activity| && (Val(t, Lit(w, true)) == Indet || Pos(t, w) >= i) ==>
         activity[w] <= activity[d.v]
  }

  /** Each decision on the trail has been a best one when it was made. */
  ghost predicate BestDecisions(t: Trail, activity: seq<real>, phases: seq<TBool>) {
    forall level :: 2 <= level < |t.limits| && t.limits[level] < |t.lits| ==>
      WasBest(t, activity, phases, t.limits[level])
  }

  /** Unit propagation refutes the problem together with the assumptions. */
  ghost predicate UnitRefutable(r: Record, assumptions: seq<Lit>) {
    AsymmetricTautology(r.problem + Units(assumptions), [])
  }

  /** There are more facts than before, or unit propagation refutes facts and assumptions now. */
  ghost predicate Advanced(facts0: seq<Lit>, facts: seq<Lit>, st: Store, assumptions: seq<Lit>) {
    |facts| > |facts0| || LiveRefuted(st, facts + assumptions)
  }

  /** The clauses listed in `lemmas` are marked for deletion where `marks` says so. */
  function Marked(st: Store, lemmas: seq<CRef>, marks: seq<bool>): (r: Store)
    requires |marks| <= |lemmas|
    ensures r.lits == st.lits && (StoreOk(st) ==> StoreOk(r))
    decreases |marks|
  {
    if marks == [] then st
    else
      var i := |marks| - 1;
      var s := Marked(st, lemmas, marks[..i]);
      if marks[i] && lemmas[i] < |s.deleted| then s.(deleted := s.deleted[lemmas[i] := true]) else s
  }

  /** A lemma has been added to the store, and the literals of clauses have been permuted. */
  ghost predicate Stored(st: Store, st2: Store, line: Clause) {
    Permuted(WithNew(st, line, |line| > 2), st2)
  }

  /** The greatest variable of the literals, or `maxVar` if that is greater. */
  function MaxVar(maxVar: nat, lits: seq<Lit>): (m: nat)
    ensures m >= maxVar && Bounded(lits, m + 1)
    ensures m == maxVar || exists l :: l in lits && l.v == m
  {
    if lits == [] then maxVar
    else
      var m := MaxVar(maxVar, lits[1..]);
      if lits[0].v > m then lits[0].v else m
  }

  class CdclSolver {
    const db: ClauseDB
    const assignment: Assignment
    const heuristic: VsidsBranchingHeuristic
    const analyzer: FirstUipLearning
    const stamps: StampMap
    const optimizer: FactCleaner
    const environment: Environment
    const simplificationSizeBound: nat
    const simplificationLbdBound: nat

    var facts: seq<Lit>
    var lemmas: seq<CRef>
    var maxVar: nat
    var detectedUnsat: bool
    var stopRequested: bool
    var amntBinariesLearnt: nat
    // Whether a certificate is being written, and the clauses written to it.
    var certificate: bool
    var proof: seq<Clause>

    ghost var record: Record

    ghost predicate Wired() {
      assignment.db == db && analyzer.assignment == assignment && heuristic.assignment == assignment
    }

    /** The helpers of conflict analysis are idle and large enough. */
    ghost predicate Idle()
      reads assignment, analyzer, stamps
    {
      && stamps.Valid() && !stamps.contextActive && |stamps.stamps| == 2 * |assignment.assignments|
      && analyzer.Valid() && |analyzer.stamps| == |assignment.assignments| <= UNDEFINED_LIT.v
    }

    ghost predicate Books()
      reads this`lemmas, this`certificate, this`proof, this`record, this`detectedUnsat, db
    {
      && (forall c :: c in lemmas ==> c < |db.lits| && IsRedundant(db.S(), c))
      && (certificate ==> proof == record.lines)
      && ([] in record.problem <==> detectedUnsat)
    }

    /** The state during a call of Solve. */
    ghost predicate Running()
      reads this`lemmas, this`certificate, this`proof, this`record, this`detectedUnsat, this`maxVar, this`facts
      reads db, assignment, analyzer, stamps
    {
      && Wired() && Idle() && Books() && |assignment.assignments| == maxVar + 1
      && assignment.Valid() && Knowing(assignment.Snap(), record, facts) && StaleIsFalse(assignment.stale, facts)
      && Once(facts)
    }

    /** Variables are available for branching unless they are assigned, or occur in facts or assumptions. */
    ghost predicate Branching(assumptions: seq<Lit>)
      reads this`facts, assignment, heuristic, heuristic.heap
    {
      && heuristic.Valid() && |heuristic.eligible| == |assignment.assignments|
      && Available(assignment.T(), heuristic.heap.Elements()) && Excluded(heuristic.eligible, facts, assumptions)
    }

    /** The state between calls. */
    ghost predicate Valid()
      reads this, db, assignment, analyzer, stamps, heuristic, heuristic.heap
    {
      && heuristic.Valid() && |heuristic.eligible| == |assignment.assignments|
      && Available(assignment.T(), heuristic.heap.Elements())
      && Wired() && Idle() && Books() && |assignment.assignments| <= maxVar + 1 <= UNDEFINED_LIT.v
      && assignment.Valid() && AtRest(assignment.Snap())
      && Kept(record, facts, db.S(), maxVar + 1)
    }

    constructor (simplificationSizeBound: nat, simplificationLbdBound: nat, certificate: bool, environment: Environment)
      ensures this.environment == environment
      ensures this.simplificationSizeBound == simplificationSizeBound
      ensures this.simplificationLbdBound == simplificationLbdBound
      ensures Valid() && record == Record([], []) && this.certificate == certificate && proof == []
      ensures fresh(db) && fresh(assignment) && fresh(analyzer) && fresh(stamps) && fresh(optimizer)
      ensures fresh(heuristic) && fresh(heuristic.heap)
    {
      hide *;
      var clauses := new ClauseDB();
      var trail := new Assignment(0, clauses);
      var learning := new FirstUipLearning(trail);
      var stampMap := new StampMap(1);
      var cleaner := new FactCleaner();
      var vsids := new VsidsBranchingHeuristic(trail);
      db, assignment, analyzer, stamps, optimizer, heuristic := clauses, trail, learning, stampMap, cleaner, vsids;
      this.simplificationSizeBound, this.simplificationLbdBound := simplificationSizeBound, simplificationLbdBound;
      this.certificate, this.environment := certificate, environment;
      facts, lemmas, proof, maxVar, amntBinariesLearnt := [], [], [], 0, 0;
      detectedUnsat, stopRequested := false, false;
      record := Record([], []);
      new;
      FreshIsValid();
    }

    /** A solver whose components are new is valid. */
    lemma FreshIsValid()
      requires assignment.db == db && analyzer.assignment == assignment && heuristic.assignment == assignment
      requires assignment.Valid() && assignment.trail == [] && assignment.currentLevel == 0
      requires assignment.settled == {} && assignment.skipped == {} && |assignment.assignments| == 1 && db.lits == []
      requires stamps.Valid() && !stamps.contextActive && |stamps.stamps| == 2
      requires analyzer.Valid() && |analyzer.stamps| == 1
      requires heuristic.Valid() && |heuristic.eligible| == 1 && forall v: nat :: v < 1 ==> v in heuristic.heap.Elements()
      requires facts == [] && lemmas == [] && proof == [] && maxVar == 0 && record == Record([], []) && !detectedUnsat
      ensures Valid()
    {
      hide Consistent, Kept, AtRest, Available, Once, VsidsBranchingHeuristic.Valid, BinaryMaxHeap.Elements,
           StampMap.Valid, FirstUipLearning.Valid, Assignment.Valid;
      FreshState(assignment, heuristic.heap.Elements());
    }

    // ---- deriving lemmas -------------------------------------------------------------

    /** Simplifies a lemma: redundant literals are erased, and short lemmas are resolved with binary clauses. */
    method OptimizeLemma(lits: Clause) returns (kept: Clause)
      requires Wired() && Idle() && assignment.Valid() && assignment.litsRequiringUpdate == []
      requires |lits| >= 1 && forall x :: x in lits ==> Val(assignment.T(), x) != Indet
      requires forall x :: x in lits ==> Level(assignment.T(), x.v) < |stamps.stamps|
      requires Learnt(assignment.Snap(), Dropping(lits, RedundantLits(assignment.Snap(), lits)))
      requires Dropping(lits, RedundantLits(assignment.Snap(), lits))[0] == lits[0]
      modifies stamps
      ensures Idle()
      ensures kept == Optimized(assignment.Snap(), lits, simplificationSizeBound, simplificationLbdBound)
    {
      hide Consistent, Redundant, Learnt, Level, StampMap.Valid, ResolvableLits, RedundantLits, FirstUipLearning.Valid;
      ghost var s := assignment.Snap();
      var checker := new RedundancyChecker(assignment, stamps);
      kept := checker.EraseRedundantLiterals(lits);
      DroppingFacts(lits, RedundantLits(s, lits));
      NotEmpty(s, kept);
      kept := ResolveIfShort(kept);
    }

    /** Resolves a lemma with binary clauses if it is short and has literals of few levels. */
    method ResolveIfShort(erased: Clause) returns (kept: Clause)
      requires Wired() && Idle() && assignment.Valid() && assignment.litsRequiringUpdate == [] && |erased| >= 1
      requires forall x :: x in erased ==> Val(assignment.T(), x) != Indet
      requires forall x :: x in erased ==> Level(assignment.T(), x.v) < |stamps.stamps|
      modifies stamps
      ensures Idle()
      ensures kept == if |erased| <= simplificationSizeBound &&
                         |LevelsOf(assignment.T(), erased)| <= simplificationLbdBound
                      then Dropping(erased, ResolvableLits(assignment.Snap(), erased[0])) else erased
    {
      hide Consistent, Level, StampMap.Valid, ResolvableLits, FirstUipLearning.Valid;
      AssignedBounds(assignment.Snap(), erased);
      TrailLengths(assignment.Snap());
      kept := erased;
      if |erased| <= simplificationSizeBound {
        var lbd := GetLbd(erased, assignment, stamps);
        if lbd <= simplificationLbdBound {
          kept := ResolveWithBinaries(assignment, stamps, erased, erased[0]);
        }
      }
    }

    /** Moves a literal with the greatest level among all but the first to the second place of clause `c`. */
    method PlaceSecond(c: CRef) returns (backtrackLevel: nat)
      requires Wired() && assignment.Valid() && c < |db.lits| && c !in assignment.reg
      requires |db.lits[c]| >= 2 && Learnt(assignment.Snap(), db.lits[c])
      modifies db`lits
      ensures |db.lits| == |old(db.lits)| && db.lits == old(db.lits)[c := db.lits[c]]
      ensures IsLemma(db.lits[c], old(db.lits[c])) && BackjumpReady(assignment.Snap(), db.lits[c], backtrackLevel)
    {
      hide Consistent;
      ghost var s := assignment.Snap();
      var cl := db.lits[c];
      var litWithMaxLevel: nat := 1;
      backtrackLevel := 0;
      LearntVars(s, cl);
      for i := 1 to |cl|
        invariant 1 <= litWithMaxLevel < |cl|
        invariant forall j :: 1 <= j < i ==> Level(s.t, cl[j].v) <= backtrackLevel
        invariant if i == 1 then backtrackLevel == 0 else Level(s.t, cl[litWithMaxLevel].v) == backtrackLevel
      {
        assert cl[i] in cl;
        var level := assignment.GetLevel(cl[i].v);
        if level > backtrackLevel {
          litWithMaxLevel, backtrackLevel := i, level;
        }
      }
      SwapLearnt(s, cl, litWithMaxLevel);
      db.lits := db.lits[c := Swap(cl, litWithMaxLevel, 1)];
      assert assignment.T() == s.t;
    }

    lemma LearntVars(s: Snapshot, cl: Clause)
      requires Learnt(s, cl)
      ensures forall x :: x in cl ==> x.v < VarCount(s.t)
      ensures forall i :: 1 <= i < |cl| ==> Level(s.t, cl[i].v) >= 1
    {
    }

    /** Increases the activities of the variables seen during conflict analysis. */
    method BumpVariables(seen: seq<nat>)
      requires heuristic.Valid() && forall v :: v in seen ==> v < |heuristic.eligible|
      requires forall i, j :: 0 <= i < j < |seen| ==> seen[i] != seen[j]
      modifies heuristic`activityBumpDelta, heuristic.heap
      ensures heuristic.Valid() && heuristic.heap.Elements() == old(heuristic.heap.Elements())
      ensures exists k :: Bumped(old(heuristic.heap.activity), old(heuristic.activityBumpDelta), SetOf(seen),
                                 heuristic.heap.activity, heuristic.activityBumpDelta, k)
    {
      hide BinaryMaxHeap.Elements, SameOrder, BinaryMaxHeap.Valid, Bumped, Scaled;
      ghost var a, delta, k := heuristic.heap.activity, heuristic.activityBumpDelta, 0;
      NothingBumped(a, delta);
      assert SetOf(seen[..0]) == {};
      for i := 0 to |seen|
        invariant heuristic.Valid() && heuristic.heap.Elements() == old(heuristic.heap.Elements())
        invariant |heuristic.heap.activity| == |a|
        invariant Bumped(a, delta, SetOf(seen[..i]), heuristic.heap.activity, heuristic.activityBumpDelta, k)
      {
        ghost var a2, delta2 := heuristic.heap.activity, heuristic.activityBumpDelta;
        assert seen[i] in seen;
        HeapSizes();
        ghost var bumped := a2[seen[i] := a2[seen[i]] + delta2];
        heuristic.SeenInConflict(seen[i]);
        BumpOne(a, delta, SetOf(seen[..i]), a2, delta2, k, seen[i]);
        assert SetOf(seen[..i + 1]) == SetOf(seen[..i]) + {seen[i]};
        if bumped[seen[i]] >= LIMIT {
          BumpScaled(a, delta, SetOf(seen[..i + 1]), bumped, delta2, k, heuristic.heap.activity);
          k := k + 1;
        }
      }
      assert seen[..|seen|] == seen;
    }

    lemma HeapSizes()
      requires heuristic.Valid()
      ensures |heuristic.heap.activity| == |heuristic.eligible|
      ensures forall v :: v in heuristic.heap.Elements() ==> v < |heuristic.eligible|
    {
    }

    /** Computes the first-UIP clause of the conflict and minimizes it. */
    method LearnFrom(conflict: CRef, ghost assumptions: seq<Lit>) returns (kept: Clause, ghost analysis: Analysis)
      requires Running() && Searching(assignment.Snap(), facts, assumptions) && assignment.currentLevel >= 2
      requires Conflicting(assignment.Snap(), conflict) && assignment.litsRequiringUpdate == []
      requires Branching(assumptions)
      modifies stamps, analyzer, heuristic`activityBumpDelta, heuristic.heap
      ensures Running() && Branching(assumptions)
      ensures Learnt(assignment.Snap(), kept) && AsymmetricTautology(Known(record), kept)
      ensures Analyzed(assignment.Snap(), Cl(db.S(), conflict), analysis, simplificationSizeBound,
                       simplificationLbdBound)
      ensures kept == analysis.kept
      ensures exists k :: Bumped(old(heuristic.heap.activity), old(heuristic.activityBumpDelta),
                                 analysis.cut + Vars(analysis.first), heuristic.heap.activity,
                                 heuristic.activityBumpDelta, k)
    {
      hide Consistent, Searching, Conflicting, AnalyzableConflict, CutClause, Minimized, Learnt, Redundant, Knowing,
           AsymmetricTautology, StaleIsFalse, Kept, Surviving, Available, Once, Excluded, FirstUipOf, LeastCut,
           Optimized, Bumped, VsidsBranchingHeuristic.Valid, StampMap.Valid, FirstUipLearning.Valid,
           BinaryMaxHeap.Elements;
      ghost var s := assignment.Snap();
      ConflictAnalyzable(s, conflict, facts, assumptions);
      var first, seen;
      ghost var cut;
      first, seen, cut := analyzer.ComputeConflictClause(conflict);
      SearchingConsistent(s, facts, assumptions);
      ConflictReference(s, conflict);
      SeenBounds(s, Cl(s.st, conflict), cut, first, seen);
      BumpVariables(seen);
      assert SetOf(seen) == cut + Vars(first);
      CutClauseBasics(s, Cl(s.st, conflict), cut, first);
      LevelsStampable(s, conflict, facts, assumptions);
      ErasedLearnt(s, Cl(s.st, conflict), cut, first);
      kept := OptimizeLemma(first);
      analysis := Analysis(cut, first, kept);
      OptimizedMinimized(s, first, simplificationSizeBound, simplificationLbdBound);
      MinimizedLearnt(s, Cl(s.st, conflict), cut, first, kept);
      LemmaIsTautology(s, record, facts, assumptions, conflict, cut, first, kept);
    }

    /**
     * Derives a fact or a lemma from the conflict, as the minimized clause for the first unique implication point. A
     * lemma is stored, ready for the backjump.
     */
    method DeriveLemma(conflict: CRef, ghost assumptions: seq<Lit>) returns (derived: Derived, ghost analysis: Analysis)
      requires Running() && Searching(assignment.Snap(), facts, assumptions) && assignment.currentLevel >= 2
      requires Conflicting(assignment.Snap(), conflict) && assignment.litsRequiringUpdate == []
      requires Branching(assumptions)
      modifies stamps, analyzer, db, heuristic`activityBumpDelta, heuristic.heap, this`lemmas, this`amntBinariesLearnt
      ensures Wired() && Idle() && assignment.Shape() && Branching(assumptions)
      ensures assignment.Snap() == old(assignment.Snap()).(st := db.S())
      ensures Analyzed(old(assignment.Snap()), Cl(old(db.S()), conflict), analysis, simplificationSizeBound,
                       simplificationLbdBound)
      ensures exists k :: Bumped(old(heuristic.heap.activity), old(heuristic.activityBumpDelta),
                                 analysis.cut + Vars(analysis.first), heuristic.heap.activity,
                                 heuristic.activityBumpDelta, k)
      ensures derived.NewFact? <==> |analysis.kept| == 1
      ensures derived.NewFact? ==>
                && Running() && lemmas == old(lemmas) && amntBinariesLearnt == old(amntBinariesLearnt)
                && db.S() == old(db.S()) && analysis.kept == [derived.l]
                && AsymmetricTautology(Known(record), [derived.l]) && derived.l.v < |assignment.assignments|
                && derived.l !in facts
      ensures derived.NewLemma? ==>
                && derived.c == |old(db.lits)| < |db.lits| && AsymmetricTautology(Known(record), db.lits[derived.c])
                && IsLemma(db.lits[derived.c], analysis.kept)
                && db.S() == WithNew(old(db.S()), db.lits[derived.c], false)
                && BackjumpReady(old(assignment.Snap()), db.lits[derived.c], derived.backtrackLevel)
                && lemmas == old(lemmas) + (if |db.lits[derived.c]| > 2 then [derived.c] else [])
                && amntBinariesLearnt == old(amntBinariesLearnt) + if |db.lits[derived.c]| > 2 then 0 else 1
    {
      hide Consistent, Searching, Conflicting, Learnt, Knowing, AsymmetricTautology, StaleIsFalse, Kept, SameLits,
           Available, Once, Excluded, VsidsBranchingHeuristic.Valid, StampMap.Valid, FirstUipLearning.Valid,
           BinaryMaxHeap.Elements, Bumped, Analyzed;
      ghost var s := assignment.Snap();
      var kept;
      kept, analysis := LearnFrom(conflict, assumptions);
      LearntLiterals(s, kept);
      if |kept| == 1 {
        LearntIsNew(s, facts, assumptions, kept);
        assert kept == [kept[0]];
        derived := NewFact(kept[0]);
      } else {
        StoreGrown(s, record, facts, assumptions, kept);
        var c, backtrackLevel := StoreLemma(kept);
        if |db.lits[c]| > 2 {
          lemmas := lemmas + [c];
        } else {
          amntBinariesLearnt := amntBinariesLearnt + 1;
        }
        StillAsymmetric(Known(record), kept, db.lits[c]);
        derived := NewLemma(c, backtrackLevel);
      }
    }

    /** Stores a lemma, with a literal of the backjump level in second place. */
    method StoreLemma(kept: Clause) returns (c: CRef, backtrackLevel: nat)
      requires Wired() && assignment.Valid() && Learnt(assignment.Snap(), kept) && |kept| >= 2
      requires Consistent(assignment.Snap().(st := WithNew(db.S(), kept, false))) && |db.lits| !in assignment.reg
      modifies db
      ensures assignment.Shape() && assignment.Snap() == old(assignment.Snap()).(st := db.S())
      ensures c == |old(db.lits)| < |db.lits| && IsLemma(db.lits[c], kept)
      ensures db.S() == WithNew(old(db.S()), db.lits[c], false)
      ensures BackjumpReady(old(assignment.Snap()), db.lits[c], backtrackLevel)
    {
      hide Consistent, Learnt, SameLits;
      ghost var s := assignment.Snap();
      c := db.CreateClause(kept);
      SameTrailLearnt(s, assignment.Snap(), kept);
      backtrackLevel := PlaceSecond(c);
      SameTrailReady(assignment.Snap(), s, db.lits[c], backtrackLevel);
    }

    // ---- the search ------------------------------------------------------------------

    /** Adds a clause to the proof. */
    method AddAtClauseToProof(c: Clause)
      requires Books() && AsymmetricTautology(Known(record), c)
      modifies this`proof, this`record
      ensures Books() && record == WithLine(old(record), c)
    {
      if certificate {
        proof := proof + [c];
      }
      record := WithLine(record, c);
    }

    /** Stores a lemma derived from a conflict, jumps back and lets the lemma force its first literal. */
    method Backjump(c: CRef, backtrackLevel: nat, ghost s: Snapshot, ghost assumptions: seq<Lit>, ghost t0: Trail)
      returns (next: Option<CRef>)
      requires Wired() && Idle() && Books() && assignment.Shape() && |assignment.assignments| == maxVar + 1
      requires assignment.Snap() == s.(st := WithNew(s.st, Cl(db.S(), c), IsRedundant(db.S(), c)))
      requires Searching(s, facts, assumptions) && Knowing(s, record, facts) && CurLevel(s.t) >= 2
      requires c == |s.st.lits| < |db.lits| && StaleIsFalse(s.stale, facts)
      requires AsymmetricTautology(Known(record), db.lits[c]) && Once(facts)
      requires BackjumpReady(s, db.lits[c], backtrackLevel) && Beyond(t0, s.t, CurLevel(s.t))
      requires Branching(assumptions)
      modifies this`proof, this`record, assignment, db`lits, heuristic.heap
      ensures Running() && Branching(assumptions) && record == WithLine(old(record), old(db.lits[c]))
      ensures Searching(assignment.Snap(), facts, assumptions)
      ensures 1 <= assignment.currentLevel == backtrackLevel < CurLevel(s.t)
      ensures Beyond(t0, assignment.T(), assignment.currentLevel)
      ensures assignment.litsRequiringUpdate == [] && heuristic.heap.activity == old(heuristic.heap.activity)
      ensures Permuted(old(db.S()), db.S())
      ensures next.Some? ==> Conflicting(assignment.Snap(), next.value)
      ensures next.None? ==> Fixpoint(assignment.Snap())
    {
      hide TrailOk, BinaryMaxHeap.Valid, Val, Consistent, Searching, Conflicting, Learnt, Knowing,
           AsymmetricTautology, StaleIsFalse, Kept, SameLits, Progress, Beyond, Fixpoint, Registrable, Asserting,
           BackjumpReady, Permuted, Available, Once, Excluded, VsidsBranchingHeuristic.Valid, StampMap.Valid,
           FirstUipLearning.Valid, BinaryMaxHeap.Elements;
      var cl := db.lits[c];
      SameLitsSelf(cl);
      SearchingConsistent(s, facts, assumptions);
      ghost var members := heuristic.heap.Elements();
      BackjumpSearching(s, record, facts, assumptions, cl, cl, IsRedundant(db.S(), c), backtrackLevel, t0);
      AddAtClauseToProof(cl);
      BacktrackToLevel(backtrackLevel);
      ghost var redundant := IsRedundant(db.S(), c);
      next := assignment.RegisterLemma(c);
      BackjumpPropagated(s, record, facts, assumptions, cl, redundant, backtrackLevel, t0, assignment.Snap());
      BackjumpAvailable(s, cl, redundant, backtrackLevel, assignment.Snap(), members, heuristic.heap.Elements());
    }

    /** Undoes all levels above the given one, and makes their variables available again. */
    method BacktrackToLevel(targetLevel: nat)
      requires assignment.Valid() && heuristic.Valid() && |heuristic.eligible| == |assignment.assignments|
      requires targetLevel < assignment.currentLevel
      modifies assignment, heuristic.heap
      ensures assignment.Valid() && assignment.Snap() == Undone(old(assignment.Snap()), targetLevel)
      ensures assignment.currentLevel == targetLevel
      ensures |assignment.assignments| == |old(assignment.assignments)|
      ensures heuristic.Valid() && old(heuristic.heap.Elements()) <= heuristic.heap.Elements()
      ensures heuristic.heap.activity == old(heuristic.heap.activity)
      ensures forall l :: old(Val(assignment.T(), l)) == True && Level(old(assignment.T()), l.v) >= targetLevel + 1 ==>
                heuristic.Contains(l.v)
    {
      hide Consistent, BinaryMaxHeap.Elements, BinaryMaxHeap.Valid, Val, Level;
      ghost var s := assignment.Snap();
      UndoneVars(s, targetLevel);
      PrepareBacktrack(targetLevel + 1);
      assignment.UndoToLevel(targetLevel);
    }

    /** Makes all variables available again which have been assigned on the given level or above. */
    method PrepareBacktrack(level: nat)
      requires assignment.Valid() && heuristic.Valid() && |heuristic.eligible| == |assignment.assignments|
      modifies heuristic.heap
      ensures heuristic.Valid() && old(heuristic.heap.Elements()) <= heuristic.heap.Elements()
      ensures heuristic.heap.activity == old(heuristic.heap.activity)
      ensures forall l :: Val(assignment.T(), l) == True && Level(assignment.T(), l.v) >= level ==> heuristic.Contains(l.v)
    {
      hide Consistent, BinaryMaxHeap.Elements, BinaryMaxHeap.Valid, Val, Level;
      LevelLimits(assignment.Snap());
      var l := assignment.currentLevel + 1;
      while l > level
        invariant l <= assignment.currentLevel + 1
        invariant heuristic.Valid() && old(heuristic.heap.Elements()) <= heuristic.heap.Elements()
        invariant heuristic.heap.activity == old(heuristic.heap.activity)
        invariant forall x :: Val(assignment.T(), x) == True && Level(assignment.T(), x.v) >= l ==> heuristic.Contains(x.v)
      {
        l := l - 1;
        var lits := assignment.GetLevelAssignments(l);
        for i := 0 to |lits|
          invariant heuristic.Valid() && old(heuristic.heap.Elements()) <= heuristic.heap.Elements()
          invariant heuristic.heap.activity == old(heuristic.heap.activity)
          invariant forall x :: Val(assignment.T(), x) == True && Level(assignment.T(), x.v) > l ==> heuristic.Contains(x.v)
          invariant forall j :: 0 <= j < i ==> heuristic.Contains(lits[j].v)
        {
          TrueIsBounded(assignment.T(), lits[i]);
          heuristic.ResetVariable(lits[i].v);
        }
      }
    }

    /** Adds a derived fact. */
    method LearnFact(l: Lit, ghost assumptions: seq<Lit>)
      requires Running() && Branching(assumptions) && AsymmetricTautology(Known(record), [l])
      requires l.v < |assignment.assignments| && l !in facts
      modifies this`facts, this`proof, this`record
      ensures Running() && Branching(assumptions)
      ensures facts == old(facts) + [l] && record == WithLine(old(record), [l])
    {
      hide Consistent, Knowing, AsymmetricTautology, StaleIsFalse, Kept, Available, Excluded, BinaryMaxHeap.Elements,
           VsidsBranchingHeuristic.Valid, StampMap.Valid, FirstUipLearning.Valid;
      KnowingFact(assignment.Snap(), record, facts, l);
      ExcludedMore(heuristic.eligible, facts, facts + [l], assumptions);
      facts := facts + [l];
      AddAtClauseToProof([l]);
    }

    /** Derives a fact or a lemma from the conflict; the activities of the variables involved are raised. */
    method AnalyzeConflict(conflict: CRef, ghost assumptions: seq<Lit>)
      returns (derived: Derived, ghost analysis: Analysis)
      requires Running() && Searching(assignment.Snap(), facts, assumptions) && assignment.currentLevel >= 2
      requires Conflicting(assignment.Snap(), conflict) && assignment.litsRequiringUpdate == []
      requires Branching(assumptions)
      modifies stamps, analyzer, db, heuristic, heuristic.heap, this`lemmas, this`amntBinariesLearnt
      ensures Wired() && Idle() && assignment.Shape() && Branching(assumptions)
      ensures assignment.Snap() == old(assignment.Snap()).(st := db.S())
      ensures Analyzed(old(assignment.Snap()), Cl(old(db.S()), conflict), analysis, simplificationSizeBound,
                       simplificationLbdBound)
      ensures Rewarded(old(heuristic.heap.activity), old(heuristic.activityBumpDelta),
                       analysis.cut + Vars(analysis.first), heuristic.heap.activity, heuristic.activityBumpDelta,
                       heuristic.decayRate)
      ensures derived.NewFact? <==> |analysis.kept| == 1
      ensures derived.NewFact? ==>
                && Running() && lemmas == old(lemmas) && amntBinariesLearnt == old(amntBinariesLearnt)
                && db.S() == old(db.S()) && analysis.kept == [derived.l]
                && AsymmetricTautology(Known(record), [derived.l]) && derived.l.v < |assignment.assignments|
                && derived.l !in facts
      ensures derived.NewLemma? ==>
                && derived.c == |old(db.lits)| < |db.lits| && AsymmetricTautology(Known(record), db.lits[derived.c])
                && IsLemma(db.lits[derived.c], analysis.kept)
                && db.S() == WithNew(old(db.S()), db.lits[derived.c], false)
                && BackjumpReady(old(assignment.Snap()), db.lits[derived.c], derived.backtrackLevel)
                && lemmas == old(lemmas) + (if |db.lits[derived.c]| > 2 then [derived.c] else [])
                && amntBinariesLearnt == old(amntBinariesLearnt) + if |db.lits[derived.c]| > 2 then 0 else 1
    {
      hide Consistent, Searching, Conflicting, Learnt, Knowing, AsymmetricTautology, StaleIsFalse, Kept, SameLits,
           Available, Once, Excluded, VsidsBranchingHeuristic.Valid, StampMap.Valid, FirstUipLearning.Valid,
           BinaryMaxHeap.Elements, Bumped, Analyzed, Rewarded, BackjumpReady, IsLemma, WithNew;
      heuristic.BeginHandlingConflict();
      derived, analysis := DeriveLemma(conflict, assumptions);
      ghost var delta := heuristic.activityBumpDelta;
      heuristic.EndHandlingConflict();
      RewardedFacts(old(heuristic.heap.activity), old(heuristic.activityBumpDelta), analysis, heuristic.heap.activity,
                    delta, heuristic.activityBumpDelta, heuristic.decayRate);
    }

    /**
     * Handles one conflict: the minimized clause for its first unique implication point is added to the proof. If
     * that is a fact, nothing else happens before the restart. Otherwise, the lemma is stored, and the search goes on
     * at the level of its second literal, unless there is a conflict on the level of the assumptions now.
     */
    method HandleConflict(conflict: CRef, ghost assumptions: seq<Lit>, ghost t0: Trail)
      returns (restart: bool, next: Option<CRef>, ghost analysis: Analysis)
      requires Running() && Searching(assignment.Snap(), facts, assumptions) && assignment.currentLevel >= 2
      requires Conflicting(assignment.Snap(), conflict) && assignment.litsRequiringUpdate == []
      requires Beyond(t0, assignment.T(), assignment.currentLevel) && Branching(assumptions)
      modifies stamps, analyzer, db, assignment, heuristic, heuristic.heap
      modifies this`lemmas, this`amntBinariesLearnt, this`facts, this`proof, this`record
      ensures Running() && Branching(assumptions)
      ensures Analyzed(old(assignment.Snap()), Cl(old(db.S()), conflict), analysis, simplificationSizeBound,
                       simplificationLbdBound)
      ensures Rewarded(old(heuristic.heap.activity), old(heuristic.activityBumpDelta),
                       analysis.cut + Vars(analysis.first), heuristic.heap.activity, heuristic.activityBumpDelta,
                       heuristic.decayRate)
      ensures |analysis.kept| >= 1
      ensures |record.lines| == |old(record.lines)| + 1 && IsLemma(record.lines[|old(record.lines)|], analysis.kept)
      ensures record == WithLine(old(record), record.lines[|old(record.lines)|])
      ensures |analysis.kept| == 1 ==>
                && restart && next == None && assignment.Snap() == old(assignment.Snap()) && lemmas == old(lemmas)
                && amntBinariesLearnt == old(amntBinariesLearnt)
                && analysis.kept[0] !in old(facts) && facts == old(facts) + analysis.kept
      ensures |analysis.kept| > 1 ==>
                && facts == old(facts) && Searching(assignment.Snap(), facts, assumptions)
                && BackjumpReady(old(assignment.Snap()), record.lines[|old(record.lines)|], assignment.currentLevel)
                && 1 <= assignment.currentLevel < old(assignment.currentLevel) && assignment.litsRequiringUpdate == []
                && Beyond(t0, assignment.T(), assignment.currentLevel)
                && Stored(old(db.S()), db.S(), record.lines[|old(record.lines)|])
                && lemmas == old(lemmas) + (if |analysis.kept| > 2 then [|old(db.lits)|] else [])
                && amntBinariesLearnt == old(amntBinariesLearnt) + (if |analysis.kept| > 2 then 0 else 1)
                && (restart <==> next.Some? && assignment.currentLevel == 1)
                && (next.Some? ==> Conflicting(assignment.Snap(), next.value))
                && (next.None? ==> Fixpoint(assignment.Snap()))
    {
      hide Consistent, Searching, Conflicting, Learnt, Knowing, AsymmetricTautology, StaleIsFalse, Kept, SameLits,
           Beyond, Fixpoint, BackjumpReady, Available, Once, Excluded, VsidsBranchingHeuristic.Valid, StampMap.Valid,
           FirstUipLearning.Valid, BinaryMaxHeap.Elements, Bumped, Analyzed, Rewarded, Permuted;
      ghost var s := assignment.Snap();
      var derived;
      derived, analysis := AnalyzeConflict(conflict, assumptions);
      match derived {
        case NewFact(l) =>
          LearnFact(l, assumptions);
          SameLitsSelf([l]);
          restart, next := true, None;
        case NewLemma(c, backtrackLevel) =>
          if |db.lits[c]| > 2 {
            db.redundant := db.redundant[c := true];
          }
          MarkedRedundant(s.st, db.S(), c);
          ghost var line := db.lits[c];
          next := Backjump(c, backtrackLevel, s, assumptions, t0);
          assert Stored(s.st, db.S(), line);
          // The level 0 is never returned to, as lemmas contain no literals of that level.
          restart := backtrackLevel == 0 || (backtrackLevel == 1 && next.Some?);
      }
    }

    /** Facts and assumptions have been propagated, which has led to a conflict on the level of the assumptions. */
    ghost predicate FinalConflict(assumptions: seq<Lit>)
      reads this`facts, assignment, assignment.db
    {
      && Searching(assignment.Snap(), facts, assumptions) && assignment.currentLevel == 1
      && exists c :: Conflicting(assignment.Snap(), c)
    }

    /** Assigns and propagates the branching literal on its new level. */
    method AppendDecision(decision: Lit, ghost s0: Snapshot, ghost assumptions: seq<Lit>)
      returns (conflict: Option<CRef>)
      requires Running() && assignment.Snap() == WithLevel(s0)
      requires Searching(s0, facts, assumptions) && Fixpoint(s0)
      requires decision.v < |assignment.assignments| && Val(s0.t, decision) == Indet
      requires heuristic.Valid() && |heuristic.eligible| == |assignment.assignments|
      requires Available(s0.t, heuristic.heap.Elements() + {decision.v})
      requires Excluded(heuristic.eligible, facts, assumptions)
      modifies assignment, db`lits
      ensures Running() && Branching(assumptions) && Searching(assignment.Snap(), facts, assumptions)
      ensures |s0.t.levels| == |s0.t.reasons| == |s0.t.pos| == |s0.t.vals| && decision.v < VarCount(s0.t)
      ensures Progress(Decided(s0, decision), assignment.Snap()) && assignment.phases == old(assignment.phases)
      ensures assignment.litsRequiringUpdate == [] && Beyond(s0.t, assignment.T(), assignment.currentLevel)
      ensures conflict.Some? ==> Conflicting(assignment.Snap(), conflict.value) && assignment.currentLevel >= 2
      ensures conflict.None? ==> Fixpoint(assignment.Snap())
    {
      hide Consistent, Searching, Conflicting, Knowing, StaleIsFalse, Kept, Beyond, Fixpoint, Progress, Available, Once,
           Excluded, VsidsBranchingHeuristic.Valid, StampMap.Valid, FirstUipLearning.Valid, BinaryMaxHeap.Elements;
      DecisionSearching(s0, decision, facts, assumptions);
      LevelFixpoint(s0);
      conflict := assignment.Append(decision, IncludeLemmas);
      DecisionPropagated(s0, decision, assignment.Snap(), record, facts, assumptions);
      DecisionAvailable(s0, decision, assignment.Snap(), heuristic.heap.Elements());
    }

    /**
     * Assigns and propagates the branching literal on its new level, and resolves all conflicts. Without a conflict,
     * the decision and what it forces are all that has been added. A restart is only requested after a new fact, or a
     * conflict on the level of the assumptions.
     */
    method ResolveDecision(decision: Lit, ghost s0: Snapshot, ghost assumptions: seq<Lit>) returns (restart: bool)
      requires Running() && assignment.Snap() == WithLevel(s0)
      requires Searching(s0, facts, assumptions) && Fixpoint(s0)
      requires decision.v < |assignment.assignments| && Val(s0.t, decision) == Indet
      requires heuristic.Valid() && |heuristic.eligible| == |assignment.assignments|
      requires Available(s0.t, heuristic.heap.Elements() + {decision.v})
      requires Excluded(heuristic.eligible, facts, assumptions)
      modifies stamps, analyzer, db, assignment, heuristic, heuristic.heap
      modifies this`lemmas, this`amntBinariesLearnt, this`facts, this`proof, this`record
      ensures Running() && RecordGrown(old(record), record) && Branching(assumptions)
      ensures |s0.t.levels| == |s0.t.reasons| == |s0.t.pos| == |s0.t.vals| && decision.v < VarCount(s0.t)
      ensures record == old(record) ==>
                && !restart && Progress(Decided(s0, decision), assignment.Snap())
                && heuristic.heap.activity == old(heuristic.heap.activity)
                && assignment.phases == old(assignment.phases)
      ensures restart ==>
                || (|facts| == |old(facts)| + 1 && facts == old(facts) + [facts[|old(facts)|]])
                || (facts == old(facts) && FinalConflict(assumptions))
      ensures restart ==> Advanced(old(facts), facts, db.S(), assumptions)
      ensures !restart ==>
                && facts == old(facts) && Searching(assignment.Snap(), facts, assumptions)
                && Fixpoint(assignment.Snap())
                && Beyond(s0.t, assignment.T(), assignment.currentLevel)
    {
      hide *;
      ghost var facts0, r0 := facts, record;
      var conflict := AppendDecision(decision, s0, assumptions);
      GrownSelf(record);
      restart := false;
      while conflict.Some?
        invariant Running() && RecordGrown(r0, record) && Branching(assumptions)
        invariant facts == facts0 && Searching(assignment.Snap(), facts, assumptions)
        invariant assignment.litsRequiringUpdate == []
        invariant Beyond(s0.t, assignment.T(), assignment.currentLevel)
        invariant conflict.Some? ==> Conflicting(assignment.Snap(), conflict.value) && assignment.currentLevel >= 2
        invariant conflict.None? ==> Fixpoint(assignment.Snap())
        invariant record != r0 ||
                  (Progress(Decided(s0, decision), assignment.Snap()) && assignment.phases == old(assignment.phases) &&
                   heuristic.heap.activity == old(heuristic.heap.activity))
        decreases assignment.currentLevel
      {
        ghost var analysis;
        ghost var r := record;
        restart, conflict, analysis := HandleConflict(conflict.value, assumptions, s0.t);
        LineGrown(r0, r, record);
        if restart {
          RestartAdvances(facts0, assumptions, conflict);
          return;
        }
      }
    }

    /** A restart is requested after a new fact, or a conflict on the level of the assumptions. */
    lemma RestartAdvances(facts0: seq<Lit>, assumptions: seq<Lit>, conflict: Option<CRef>)
      requires Running() && (|facts| > |facts0| || (conflict.Some? && facts == facts0))
      requires facts == facts0 ==>
                 Searching(assignment.Snap(), facts, assumptions) && assignment.currentLevel == 1 &&
                 (conflict.Some? ==> Conflicting(assignment.Snap(), conflict.value))
      ensures Advanced(facts0, facts, db.S(), assumptions) && (facts == facts0 ==> FinalConflict(assumptions))
    {
      hide Consistent, Searching, Conflicting, Knowing, LiveRefuted;
      if facts == facts0 {
        FinalRefutes(assignment.Snap(), record, facts, assumptions, conflict.value);
      }
    }

    // ---- facts and assumptions -------------------------------------------------------

    /**
     * Determines which assumptions led to the assignment of the assumption `l`: exactly those to which it can be traced
     * back. If `l` has no reason, which is always so after a conflict caused by assigning it, the answer is just `l`.
     */
    method AnalyzeFailed(l: Lit, ghost assumptions: seq<Lit>) returns (failed: seq<Lit>)
      requires Running() && Grounded(assignment.Snap(), facts, assumptions) && assignment.currentLevel == 1
      requires l in assumptions && Val(assignment.T(), l) != Indet
      requires Val(assignment.T(), l) == True ==> Reason(assignment.T(), l.v).None?
      modifies stamps
      ensures Running()
      ensures |failed| >= 1 && failed[0] == l && forall x :: x in failed ==> x in assumptions
      ensures Traceable(assignment.T(), l) ==> Refuted(record, failed)
      ensures Reason(assignment.T(), l.v).None? ==> failed == [l]
      ensures Blamed(assignment.Snap(), failed)
    {
      hide Consistent, Knowing, Grounded, Refuted, IsTrace, AreRoots;
      if Val(assignment.T(), l) == False && Level(assignment.T(), l.v) == 0 {
        LevelZeroCore(assignment.Snap(), record, facts, assumptions, l);
      }
      ghost var trace;
      failed, trace := AnalyzeAssignment(assignment, stamps, l);
      if Reason(assignment.T(), l.v).Some? {
        TracedCore(assignment.Snap(), record, facts, assumptions, l, trace, failed[1..]);
        assert failed == [l] + failed[1..];
      } else {
        FailedAlone(l, failed, assumptions);
      }
    }

    /**
     * Assigns and propagates a fact or an assumption, unless it is true already. `earlier` are the literals assumed
     * before, and `now` those assumed afterwards. Unless the failed assumptions suffice for a refutation, just the
     * assumption itself is returned, and some other one has been assigned before.
     */
    method PropagateFact(fact: Lit, analyze: bool, ghost earlier: seq<Lit>, ghost now: seq<Lit>,
                         ghost assumptions: seq<Lit>)
      returns (consistent: bool, failed: seq<Lit>)
      requires Running() && Grounded(assignment.Snap(), facts, earlier) && Fixpoint(assignment.Snap())
      requires assignment.currentLevel == (if analyze then 1 else 0) && Branching(assumptions)
      requires fact in (if analyze then assumptions else facts) && fact.v < |assignment.assignments|
      requires now == (if analyze then earlier + [fact] else earlier)
      requires AllTrue(assignment.T(), earlier, assignment.currentLevel)
      modifies assignment, db`lits, stamps, heuristic`eligible
      ensures Running() && assignment.currentLevel == old(assignment.currentLevel) && Branching(assumptions)
      ensures Grounded(assignment.Snap(), facts, now) && Permuted(old(db.S()), db.S())
      ensures assignment.phases == old(assignment.phases)
      ensures forall ls, level :: AllTrue(old(assignment.T()), ls, level) ==> AllTrue(assignment.T(), ls, level)
      ensures consistent ==> Fixpoint(assignment.Snap()) && AllTrue(assignment.T(), [fact], assignment.currentLevel)
      ensures consistent ==> failed == []
      ensures !consistent ==> Refuted(record, Assumed(assignment.currentLevel, now))
      ensures !consistent ==> LiveRefuted(db.S(), facts + Assumed(assignment.currentLevel, now))
      ensures !consistent && !analyze ==> failed == [] && LiveRefuted(db.S(), facts)
      ensures !consistent && analyze ==> failed != [] && failed[0] == fact && forall l :: l in failed ==> l in now
      ensures !consistent && analyze ==>
                Blamed(assignment.Snap(), failed) && Contradicted(assignment.Snap(), facts, earlier, fact)
      ensures !consistent && |failed| > 1 ==> Refuted(record, failed)
      ensures !consistent && analyze ==>
                if Suffices(old(assignment.T()), fact) then Refuted(record, failed) else failed == [fact]
      ensures !consistent && analyze ==> Refuted(record, failed) || OtherAssumed(assignment.T(), fact)
    {
      hide Consistent, Knowing, Grounded, Refuted, Fixpoint, Progress, Conflicting, AllTrue, LiveRefuted, StaleIsFalse,
           Permuted, Val, Level, Available, Once, Excluded, BinaryMaxHeap.Elements, BinaryMaxHeap.Valid, Suffices,
           OtherAssumed, Blamed, Contradicted;
      consistent, failed := true, [];
      ghost var s := assignment.Snap();
      GroundedMore(s, facts, earlier, now);
      PermutedSelf(db.S());
      var value := assignment.GetAssignment(fact);
      if value != Indet {
        if value != True {
          OppositeRefutes(s, record, facts, now, fact);
          ConflictRefutesLive(s, record, facts, now);
          OppositeContradicts(s, facts, earlier, fact);
          consistent := false;
          if analyze {
            FalseAssumption(s, facts, now, fact);
            failed := AnalyzeFailed(fact, now);
          }
        } else {
          TrueAlready(s, facts, now, fact);
        }
      } else {
        var conflict := assignment.Append(fact, IncludeLemmas);
        ghost var s2 := assignment.Snap();
        GroundedBasics(s, facts, now);
        GroundedStep(s, s2, record, facts, now, fact);
        PushedFrame(s, s2, fact);
        AppendAvailable(s, s2, fact, heuristic.heap.Elements(), heuristic.heap.Elements());
        if conflict.Some? {
          ConflictRefutes(s2, record, facts, now, conflict.value);
          ConflictRefutesLive(s2, record, facts, now);
          ConflictContradicts(s, s2, facts, earlier, fact, conflict.value);
          consistent := false;
          if analyze {
            AppendedUnforced(s, s2, fact);
            LoneAssumption(s, s2, record, facts, now, fact, conflict.value);
            failed := AnalyzeFailed(fact, now);
          }
        } else {
          ExcludedOneMore(heuristic.eligible, facts, assumptions, fact);
          heuristic.SetEligibleForDecisions(fact.v, false);
        }
      }
    }

    /**
     * Assigns and propagates facts (on level 0) or assumptions (on level 1). In the latter case, the first assumption
     * which cannot be assigned and those responsible for that are determined.
     */
    method PropagateFactsOnSystemLevels(toPropagate: seq<Lit>, analyze: bool, ghost assumptions: seq<Lit>)
      returns (consistent: bool, failed: seq<Lit>)
      requires Running() && Grounded(assignment.Snap(), facts, []) && Fixpoint(assignment.Snap())
      requires assignment.currentLevel == (if analyze then 1 else 0) && Branching(assumptions)
      requires toPropagate == if analyze then assumptions else facts
      requires forall l :: l in toPropagate ==> l.v < |assignment.assignments|
      requires analyze ==> AllTrue(assignment.T(), facts, 0)
      modifies assignment, db`lits, stamps, heuristic`eligible
      ensures Running() && assignment.currentLevel == old(assignment.currentLevel) && Branching(assumptions)
      ensures Grounded(assignment.Snap(), facts, assumptions) && Permuted(old(db.S()), db.S())
      ensures assignment.phases == old(assignment.phases)
      ensures forall level :: AllTrue(old(assignment.T()), facts, level) ==> AllTrue(assignment.T(), facts, level)
      ensures consistent ==>
                Fixpoint(assignment.Snap()) && AllTrue(assignment.T(), toPropagate, assignment.currentLevel)
      ensures consistent ==> failed == []
      ensures !consistent ==> Refuted(record, Assumed(assignment.currentLevel, assumptions))
      ensures !consistent ==> LiveRefuted(db.S(), facts + Assumed(assignment.currentLevel, assumptions))
      ensures !consistent && !analyze ==> failed == [] && LiveRefuted(db.S(), facts)
      ensures !consistent && analyze ==> failed != [] && forall l :: l in failed ==> l in assumptions
      ensures !consistent && analyze ==> FailsAt(assignment.Snap(), facts, assumptions, failed)
      ensures !consistent && |failed| > 1 ==> Refuted(record, failed)
      ensures !consistent && analyze ==> Refuted(record, failed) || OtherAssumed(assignment.T(), failed[0])
    {
      hide Consistent, Knowing, Grounded, Refuted, Fixpoint, AllTrue, LiveRefuted, StaleIsFalse, Permuted, Available,
           Once, Suffices, OtherAssumed, Excluded, BinaryMaxHeap.Elements, VsidsBranchingHeuristic.Valid,
           StampMap.Valid, FirstUipLearning.Valid, Blamed, Contradicted, FailsWith, Val, Level;
      consistent, failed := true, [];
      PermutedSelf(db.S());
      NoneTrue(assignment.T(), assignment.currentLevel);
      ghost var earlier := [];
      for i := 0 to |toPropagate|
        invariant Running() && assignment.currentLevel == old(assignment.currentLevel) && Branching(assumptions)
        invariant earlier == (if analyze then assumptions[..i] else [])
        invariant Grounded(assignment.Snap(), facts, earlier) && Fixpoint(assignment.Snap())
        invariant Permuted(old(db.S()), db.S()) && |assignment.assignments| == |old(assignment.assignments)|
        invariant assignment.phases == old(assignment.phases)
        invariant forall level :: AllTrue(old(assignment.T()), facts, level) ==> AllTrue(assignment.T(), facts, level)
        invariant AllTrue(assignment.T(), toPropagate[..i], assignment.currentLevel) && consistent && failed == []
        invariant AllTrue(assignment.T(), earlier, assignment.currentLevel)
      {
        assert toPropagate[..i + 1] == toPropagate[..i] + [toPropagate[i]];
        ghost var st, now := db.S(), if analyze then assumptions[..i + 1] else [];
        consistent, failed := PropagateFact(toPropagate[i], analyze, earlier, now, assumptions);
        PermutedTransitive(old(db.S()), st, db.S());
        if !consistent {
          assignment.ShapeLevel();
          FailedPrefix(assignment.Snap(), record, facts, assumptions, now);
          if analyze {
            FailedWith(assignment.Snap(), facts, assumptions, failed, i);
          }
          return;
        }
        earlier := now;
        AllTrueSplit(assignment.T(), toPropagate[..i], toPropagate[i], assignment.currentLevel);
      }
      assert toPropagate[..|toPropagate|] == toPropagate;
      GroundedMore(assignment.Snap(), facts, earlier, assumptions);
    }

    /** Propagates the facts; everything assigned on level 0 becomes a fact. */
    method PropagateHardFacts(ghost assumptions: seq<Lit>) returns (consistent: bool)
      requires Running() && Ready(assignment.Snap(), record, facts) && Branching(assumptions)
      modifies assignment, db`lits, stamps, this`facts, heuristic`eligible
      ensures Running() && assignment.currentLevel == 0 && Branching(assumptions) && Permuted(old(db.S()), db.S())
      ensures assignment.phases == old(assignment.phases)
      ensures consistent ==>
                && Grounded(assignment.Snap(), facts, assumptions) && Fixpoint(assignment.Snap())
                && AllTrue(assignment.T(), facts, 0)
                && (forall l :: l in old(facts) ==> l in facts) && (forall l :: l in assignment.trail ==> l in facts)
                && IsClosure(db.S(), old(facts), facts) && |facts| >= |old(facts)|
      ensures consistent <==> !LiveRefuted(db.S(), old(facts))
      ensures !consistent ==> facts == old(facts) && Refuted(record, [])
    {
      hide Consistent, Knowing, Grounded, Refuted, Fixpoint, AllTrue, LiveRefuted, StaleIsFalse, Available, Once,
           Excluded, VsidsBranchingHeuristic.Valid, StampMap.Valid, FirstUipLearning.Valid, BinaryMaxHeap.Elements,
           Permuted, IsClosure;
      ReadyGrounded(assignment.Snap(), record, facts, assumptions);
      ReadyGrounded(assignment.Snap(), record, facts, []);
      FactsBounded(assignment.Snap(), record, facts);
      var amntUnits := |facts|;
      var failed;
      consistent, failed := PropagateFactsOnSystemLevels(facts, false, assumptions);
      if consistent {
        TrailAndFacts(assignment.Snap(), facts, assumptions);
        FactsClosed(assignment.Snap(), record, facts, assumptions);
        if |assignment.trail| != amntUnits {
          FactsReplaced(assignment.Snap(), record, facts, assumptions);
          ExcludedMore(heuristic.eligible, facts, assignment.trail, assumptions);
          facts := assignment.trail;
        }
      }
    }

    /** Opens the level of the assumptions and propagates them. */
    method PropagateAssumedFacts(assumptions: seq<Lit>) returns (consistent: bool, failed: seq<Lit>)
      requires Running() && Grounded(assignment.Snap(), facts, assumptions) && Fixpoint(assignment.Snap())
      requires assignment.currentLevel == 0 && AllTrue(assignment.T(), facts, 0) && Branching(assumptions)
      requires forall l :: l in assumptions ==> l.v <= maxVar
      modifies assignment, db`lits, stamps, heuristic`eligible
      ensures Running() && Branching(assumptions) && Permuted(old(db.S()), db.S())
      ensures assignment.phases == old(assignment.phases)
      ensures consistent ==>
                && Searching(assignment.Snap(), facts, assumptions) && Fixpoint(assignment.Snap()) && failed == []
                && assignment.currentLevel == 1
      ensures consistent <==> !LiveRefuted(db.S(), facts + assumptions)
      ensures !consistent ==> Refuted(record, assumptions) && !LiveRefuted(db.S(), facts)
      ensures !consistent ==> failed != [] && forall l :: l in failed ==> l in assumptions
      ensures !consistent ==>
                && Grounded(assignment.Snap(), facts, assumptions)
                && FailsAt(assignment.Snap(), facts, assumptions, failed)
      ensures !consistent && |failed| > 1 ==> Refuted(record, failed)
      ensures !consistent ==> Refuted(record, failed) || OtherAssumed(assignment.T(), failed[0])
    {
      hide Consistent, Knowing, Refuted, Fixpoint, AllTrue, LiveRefuted, StaleIsFalse, Permuted, Searching, Rooted,
           OtherAssumed, FailsAt,
           Available, Once, Excluded, VsidsBranchingHeuristic.Valid, StampMap.Valid, FirstUipLearning.Valid,
           BinaryMaxHeap.Elements;
      NothingAssumedYet(assignment.Snap(), record, facts, assumptions);
      FactsDone(assignment.Snap(), record, facts, []);
      ghost var st := db.S();
      LevelAvailable(assignment.Snap(), heuristic.heap.Elements());
      assignment.NewLevel();
      consistent, failed := PropagateFactsOnSystemLevels(assumptions, true, assumptions);
      PermutedLive(st, db.S(), facts);
      if consistent {
        AssumptionsDone(assignment.Snap(), facts, assumptions);
        AssumptionsNotRefuted(assignment.Snap(), record, facts, assumptions);
      }
    }

    /** Undoes all assignments, and makes all variables available again. Their values are remembered as phases. */
    method BacktrackAll(ghost assumptions: seq<Lit>)
      requires Running() && Branching(assumptions)
      modifies assignment, heuristic.heap
      ensures Running() && Ready(assignment.Snap(), record, facts) && Branching(assumptions)
      ensures |assignment.phases| == |old(assignment.phases)| == |old(assignment.assignments)|
      ensures forall v :: 0 <= v < |assignment.phases| ==>
                assignment.phases[v] == if old(assignment.assignments)[v] != Indet then old(assignment.assignments)[v]
                                        else old(assignment.phases)[v]
      ensures heuristic.heap.activity == old(heuristic.heap.activity)
    {
      hide Consistent, Kept, StaleIsFalse, Available, Once, Excluded, BinaryMaxHeap.Elements,
           VsidsBranchingHeuristic.Valid, StampMap.Valid, FirstUipLearning.Valid;
      ghost var s := assignment.Snap();
      PrepareBacktrack(0);
      AllAvailable(s.t, old(heuristic.heap.Elements()), heuristic.heap.Elements());
      assignment.UndoAll();
      EmptiedReady(s, record, facts);
    }

    /**
     * Picks a branching literal: the unassigned variable of greatest activity with its saved phase. As some variable is
     * unassigned, the heuristic always finds one. No other unassigned variable is taken from the heap.
     */
    method PickDecision(ghost s: Snapshot, ghost assumptions: seq<Lit>) returns (decision: Lit)
      requires Wired() && Branching(assumptions) && assignment.Snap() == WithLevel(s)
      requires Searching(s, facts, assumptions) && |s.t.lits| != VarCount(s.t)
      modifies heuristic.heap
      ensures heuristic.Valid() && |heuristic.eligible| == |assignment.assignments|
      ensures decision.v < |assignment.assignments| && Val(s.t, decision) == Indet
      ensures IsBest(s.t, heuristic.heap.activity, assignment.phases, decision)
      ensures heuristic.heap.activity == old(heuristic.heap.activity)
      ensures decision.v in old(heuristic.heap.Elements()) && !heuristic.Contains(decision.v)
      ensures forall v :: v in old(heuristic.heap.Elements()) && Val(s.t, Lit(v, true)) == Indet ==>
                heuristic.Contains(v) || v == decision.v
      ensures Available(s.t, heuristic.heap.Elements() + {decision.v})
    {
      hide Consistent, DecisionLevels, FixpointBelow, BinaryMaxHeap.Valid, Available, IsBest, Searching, Excluded,
           BinaryMaxHeap.Elements;
      ghost var members := heuristic.heap.Elements();
      LevelAvailable(s, members);
      HeapSizes();
      var picked := heuristic.PickBranchLiteral();
      assert forall l :: Val(assignment.T(), l) == Val(s.t, l);
      SomeCandidate(s, facts, assumptions, heuristic.eligible, members);
      EligibleIfUnassigned(s, facts, assumptions, heuristic.eligible);
      decision := picked.value;
      PickedIsBest(s.t, members, heuristic.heap.Elements(), heuristic.heap.activity, assignment.phases, decision);
    }

    /** Each decision on the trail has been a best one when it was made. */
    ghost predicate BestTrail(activity: seq<real>, phases: seq<TBool>)
      reads assignment
    {
      BestDecisions(assignment.T(), activity, phases)
    }

    /** Opens a level, makes a decision and resolves all conflicts. */
    method MakeDecision(ghost assumptions: seq<Lit>) returns (restart: bool)
      requires Running() && Branching(assumptions) && TrailOk(assignment.T())
      requires Searching(assignment.Snap(), facts, assumptions) && Fixpoint(assignment.Snap())
      requires |assignment.trail| != |assignment.assignments|
      modifies assignment, db, stamps, analyzer, heuristic, heuristic.heap
      modifies this`facts, this`lemmas, this`amntBinariesLearnt, this`proof, this`record
      ensures Running() && RecordGrown(old(record), record) && Branching(assumptions)
      ensures restart ==>
                || (|facts| == |old(facts)| + 1 && facts == old(facts) + [facts[|old(facts)|]])
                || (facts == old(facts) && FinalConflict(assumptions))
      ensures restart ==> Advanced(old(facts), facts, db.S(), assumptions)
      ensures !restart ==>
                && facts == old(facts) && Searching(assignment.Snap(), facts, assumptions)
                && Fixpoint(assignment.Snap())
                && TrailOk(assignment.T()) && Rank(assignment.T()) < old(Rank(assignment.T()))
      ensures record == old(record) ==>
                && !restart
                && heuristic.heap.activity == old(heuristic.heap.activity)
                && assignment.phases == old(assignment.phases)
                && (old(BestTrail(heuristic.heap.activity, assignment.phases)) ==>
                      BestTrail(heuristic.heap.activity, assignment.phases))
    {
      hide Assignment.Shape, Consistent, Knowing, Fixpoint, StaleIsFalse, Searching, Beyond, Kept, TrailOk,
           DecisionLevels, Rank, Available, Once, Excluded, VsidsBranchingHeuristic.Valid, StampMap.Valid,
           FirstUipLearning.Valid, BinaryMaxHeap.Elements, Progress, BestDecisions, IsBest, Advanced,
           CdclSolver.FinalConflict;
      ghost var s := assignment.Snap();
      SearchTrail(s, facts, assumptions);
      LevelOpened(s, record, facts, assumptions);
      LevelAvailable(s, heuristic.heap.Elements());
      assignment.NewLevel();
      var decision := PickDecision(s, assumptions);
      ghost var activity, phases, r := heuristic.heap.activity, assignment.phases, record;
      restart := ResolveDecision(decision, s, assumptions);
      if !restart {
        SearchTrail(assignment.Snap(), facts, assumptions);
        assignment.ShapeLevel();
        RankDecreases(s.t, assignment.T(), assignment.currentLevel);
      }
      if record == r {
        DecisionIsBest(s, decision, assignment.Snap(), activity, phases);
      }
    }

    /**
     * The part of the search which makes decisions. Without policies for restarts and requests to stop, it ends with
     * a complete assignment, or a conflict has led to a new fact or refuted the assumptions. As long as there is no
     * conflict, each decision is a best one.
     */
    method Decide(assumptions: seq<Lit>) returns (result: TBool)
      requires Running() && !stopRequested && Branching(assumptions) && assignment.currentLevel == 1
      requires Searching(assignment.Snap(), facts, assumptions) && Fixpoint(assignment.Snap())
      modifies assignment, db, stamps, analyzer, heuristic, heuristic.heap, environment
      modifies this`facts, this`lemmas, this`amntBinariesLearnt, this`proof, this`record, this`stopRequested
      ensures Running() && RecordGrown(old(record), record) && Branching(assumptions)
      ensures result == Indet && !stopRequested ==>
                && Ready(assignment.Snap(), record, facts)
                && (Advanced(old(facts), facts, db.S(), assumptions) ||
                    Affirmed(old(environment.log), environment.log, RestartDue))
      ensures stopRequested <==> Affirmed(old(environment.log), environment.log, StopRequested)
      ensures result == True ==>
                && Searching(assignment.Snap(), facts, assumptions) && Fixpoint(assignment.Snap())
                && |assignment.trail| == |assignment.assignments| && facts == old(facts)
                && !stopRequested && !Affirmed(old(environment.log), environment.log, RestartDue)
      ensures result == True && record == old(record) ==>
                BestTrail(old(heuristic.heap.activity), old(assignment.phases))
      ensures result != False && |facts| >= |old(facts)| && old(environment.log) <= environment.log
      ensures !Affirmed(old(environment.log), environment.log, ReduceNow)
    {
      hide *;
      StartDeciding(assumptions);
      NothingAffirmed(environment.log);
      while |assignment.trail| != |assignment.assignments|
        invariant Running() && RecordGrown(old(record), record) && TrailOk(assignment.T()) && !stopRequested
        invariant Branching(assumptions) && Searching(assignment.Snap(), facts, assumptions)
        invariant Fixpoint(assignment.Snap()) && facts == old(facts) && old(environment.log) <= environment.log
        invariant forall q :: !Affirmed(old(environment.log), environment.log, q)
        invariant record == old(record) ==>
                    && heuristic.heap.activity == old(heuristic.heap.activity)
                    && assignment.phases == old(assignment.phases)
                    && BestTrail(heuristic.heap.activity, assignment.phases)
        decreases Rank(assignment.T())
      {
        ghost var r := record;
        var restart := MakeDecision(assumptions);
        GrownBack(old(record), r, record);
        var restartIsDue := false;
        if !restart {
          restartIsDue := environment.Ask(RestartDue);
        }
        if restart || restartIsDue {
          BacktrackAll(assumptions);
          return Indet;
        }
        var stop := environment.Ask(StopRequested);
        if stop {
          stopRequested := true;
          return Indet;
        }
      }
      result := True;
    }

    /**
     * Searches until a model is found, the facts or assumptions are refuted, or a restart is due. The search
     * between two restarts always ends. The result is False exactly if unit propagation refutes facts and assumptions.
     * A result of Indet means a restart, or a request to stop.
     */
    method SolveUntilRestart(assumptions: seq<Lit>) returns (result: TBool, failed: seq<Lit>)
      requires Running() && Ready(assignment.Snap(), record, facts) && !stopRequested && Branching(assumptions)
      requires forall l :: l in assumptions ==> l.v <= maxVar
      modifies assignment, db, stamps, analyzer, heuristic, heuristic.heap, environment
      modifies this`facts, this`lemmas, this`amntBinariesLearnt, this`proof, this`record, this`stopRequested
      ensures Running() && RecordGrown(old(record), record) && Branching(assumptions)
      ensures result == False <==> LiveRefuted(old(db.S()), old(facts) + assumptions)
      ensures result == False ==> record == old(record)
      ensures result == Indet && !stopRequested ==>
                && Ready(assignment.Snap(), record, facts)
                && (Advanced(old(facts), facts, db.S(), assumptions) ||
                    Affirmed(old(environment.log), environment.log, RestartDue))
      ensures stopRequested <==> Affirmed(old(environment.log), environment.log, StopRequested)
      ensures stopRequested ==> result == Indet
      ensures |facts| >= |old(facts)| && old(environment.log) <= environment.log
      ensures !Affirmed(old(environment.log), environment.log, ReduceNow)
      ensures result == True ==>
                && Searching(assignment.Snap(), facts, assumptions) && Fixpoint(assignment.Snap())
                && |assignment.trail| == |assignment.assignments|
                && !Affirmed(old(environment.log), environment.log, RestartDue)
      ensures result == True && record == old(record) ==>
                BestTrail(old(heuristic.heap.activity), old(assignment.phases))
      ensures result == False ==> Refuted(record, assumptions)
      ensures result == False && failed == [] ==> Refuted(record, []) && LiveRefuted(db.S(), facts)
      ensures result == False && failed != [] ==>
                && !LiveRefuted(db.S(), facts)
                && Grounded(assignment.Snap(), facts, assumptions)
                && FailsAt(assignment.Snap(), facts, assumptions, failed)
      ensures result == False ==> forall l :: l in failed ==> l in assumptions
      ensures result == False && |failed| > 1 ==> Refuted(record, failed)
    {
      hide Consistent, Knowing, Grounded, Refuted, Fixpoint, AllTrue, LiveRefuted, StaleIsFalse, Searching, Beyond,
           Ready, Kept, Available, Once, Excluded, VsidsBranchingHeuristic.Valid, StampMap.Valid,
           FirstUipLearning.Valid, BinaryMaxHeap.Elements, Permuted, IsClosure, FailsAt, BestTrail, OtherAssumed,
           Affirmed;
      failed := [];
      NothingAffirmed(environment.log);
      ghost var st0, facts0 := db.S(), facts;
      ReadyStoreOk(assignment.Snap(), record, facts);
      var consistent := PropagateHardFacts(assumptions);
      ghost var st1 := db.S();
      if !consistent {
        RefutedMore(record, assumptions);
        FactsRefuteMore(st0, st1, facts, assumptions);
        return False, [];
      }
      consistent, failed := PropagateAssumedFacts(assumptions);
      SameRefutation(st0, st1, db.S(), facts0, facts, assumptions);
      if !consistent {
        return False, failed;
      }
      result := Decide(assumptions);
    }

    // ---- the set of clauses ------------------------------------------------------------

    /** Registers all clauses again, and collects those which are redundant. */
    method SynchronizeSubsystemsWithClauseDB()
      requires Wired() && Idle() && |assignment.assignments| == maxVar + 1
      requires assignment.Shape() && AtRest(assignment.Snap()) && Kept(record, facts, db.S(), maxVar + 1)
      requires (certificate ==> proof == record.lines) && ([] in record.problem <==> detectedUnsat) && Once(facts)
      modifies assignment, this`lemmas
      ensures Running() && Ready(assignment.Snap(), record, facts)
      ensures forall c: CRef :: c in lemmas <==> IsLive(db.S(), c) && IsRedundant(db.S(), c)
    {
      hide Consistent, Kept, AtRest, RegisteredUpTo, StampMap.Valid, FirstUipLearning.Valid, Once;
      ghost var s := assignment.Snap();
      RestFacts(s);
      assignment.ClearClauses();
      NoneRegistered(s, assignment.Snap());
      lemmas := [];
      for c := 0 to |db.lits|
        invariant Idle() && |assignment.assignments| == maxVar + 1
        invariant assignment.Valid() && AtRest(assignment.Snap()) && RegisteredUpTo(assignment.Snap(), c)
        invariant assignment.stale == {}
        invariant forall d: CRef :: d in lemmas <==> d < c && IsLive(db.S(), d) && IsRedundant(db.S(), d)
      {
        assert !db.deleted[c] <==> IsLive(db.S(), c);
        RegisterUnlessDeleted(c);
        if !db.deleted[c] && db.redundant[c] {
          lemmas := lemmas + [c];
        }
      }
      AllOfThem(assignment.Snap());
    }

    /** Registers clause `c`, unless it is marked for deletion. */
    method RegisterUnlessDeleted(c: CRef)
      requires Wired() && assignment.Valid() && AtRest(assignment.Snap()) && RegisteredUpTo(assignment.Snap(), c)
      requires c < |db.lits| && Kept(record, facts, db.S(), |assignment.assignments|)
      modifies assignment
      ensures assignment.Valid() && AtRest(assignment.Snap()) && RegisteredUpTo(assignment.Snap(), c + 1)
      ensures |assignment.assignments| == |old(assignment.assignments)| && assignment.stale == old(assignment.stale)
    {
      hide Consistent, Kept, Registrable, Registered, AtRest, RegisteredUpTo;
      assert !db.deleted[c] <==> IsLive(db.S(), c);
      if !db.deleted[c] {
        RegisterNext(assignment.Snap(), record, facts, c);
        RegisteredFrame(assignment.Snap(), c);
        assignment.RegisterClause(c);
      } else {
        SkipDeletedClause(assignment.Snap(), c);
      }
    }

    /** What simplification makes of facts and clauses, if it has something to do. */
    ghost predicate Simplified(st: Store, facts0: seq<Lit>, last: nat, unsat: bool)
      reads this`facts, db, optimizer
    {
      if |facts0| == last then facts == facts0 && db.S() == st && !unsat && optimizer.factsAfterLastCall == last
      else if unsat then facts == facts0 && Permuted(st, db.S()) && optimizer.factsAfterLastCall == last
      else IsClosure(st, facts0, facts) && CleanedFrom(st, db.S(), facts) && optimizer.factsAfterLastCall == |facts|
    }

    /** Simplifies the clauses with the facts. */
    method Simplify(ghost assumptions: seq<Lit>) returns (unsat: bool)
      requires Running() && Ready(assignment.Snap(), record, facts) && Branching(assumptions)
      modifies assignment, db, optimizer, this`facts, this`proof, this`record
      ensures Running() && Ready(assignment.Snap(), record, facts) && RecordGrown(old(record), record)
      ensures Branching(assumptions)
      ensures Simplified(old(db.S()), old(facts), old(optimizer.factsAfterLastCall), unsat)
      ensures unsat <==> |old(facts)| != old(optimizer.factsAfterLastCall) && LiveRefuted(old(db.S()), old(facts))
      ensures unsat ==> Refuted(record, []) && LiveRefuted(db.S(), facts)
      ensures !unsat ==> optimizer.factsAfterLastCall >= |old(facts)|
      ensures |facts| >= |old(facts)|
      ensures forall ls :: LiveRefuted(old(db.S()), old(facts) + ls) ==> LiveRefuted(db.S(), facts + ls)
    {
      hide Assignment.Shape, Ready, Consistent, Knowing, Refuted, LiveRefuted, Available, Once, Excluded, IsClosure,
           BinaryMaxHeap.Elements, VsidsBranchingHeuristic.Valid, StampMap.Valid, FirstUipLearning.Valid, CleanedFrom,
           Cleaned, Permuted, StaleIsFalse;
      ghost var s, facts0 := assignment.Snap(), facts;
      var lines;
      ReadyStoreOk(s, record, facts);
      facts, lines, unsat := optimizer.Optimize(assignment, facts, record);
      ReadyAvailable(s, assignment.Snap(), record, WithLines(record, lines), facts0, facts, heuristic.heap.Elements());
      ExcludedMore(heuristic.eligible, facts0, facts, assumptions);
      assert unsat ==> WithLines(record, lines) == record;
      ReadyParts(assignment.Snap(), WithLines(record, lines), facts);
      StillRefuted(s.st, db.S(), facts0, facts);
      FactsGrow(facts0, facts);
      if certificate {
        proof := proof + lines;
      }
      record := WithLines(record, lines);
    }

    /**
     * Simplifies the clauses with the facts, if it is time to do so. If there are new facts, this detects whether unit
     * propagation refutes them.
     */
    method TrySimplify(ghost assumptions: seq<Lit>) returns (unsat: bool)
      requires Running() && Ready(assignment.Snap(), record, facts) && Branching(assumptions)
      modifies assignment, db, optimizer, environment, this`facts, this`proof, this`record
      ensures Running() && Ready(assignment.Snap(), record, facts) && RecordGrown(old(record), record)
      ensures Branching(assumptions) && |environment.log| == |old(environment.log)| + 1
      ensures environment.log == old(environment.log) + [environment.log[|old(environment.log)|]]
      ensures environment.log[|old(environment.log)|].question == SimplifyNow
      ensures !environment.log[|old(environment.log)|].affirmed ==>
                !unsat && facts == old(facts) && record == old(record) && db.S() == old(db.S())
      ensures environment.log[|old(environment.log)|].affirmed ==>
                && Simplified(old(db.S()), old(facts), old(optimizer.factsAfterLastCall), unsat)
                && (unsat <==>
                      |old(facts)| != old(optimizer.factsAfterLastCall) && LiveRefuted(old(db.S()), old(facts)))
      ensures unsat ==> Refuted(record, []) && LiveRefuted(db.S(), facts)
      ensures environment.log[|old(environment.log)|].affirmed && !unsat ==>
                optimizer.factsAfterLastCall >= |old(facts)|
      ensures |facts| >= |old(facts)|
      ensures forall ls :: LiveRefuted(old(db.S()), old(facts) + ls) ==> LiveRefuted(db.S(), facts + ls)
    {
      hide *;
      unsat := false;
      GrownSelf(record);
      var wantsExecution := environment.Ask(SimplifyNow);
      if wantsExecution {
        unsat := Simplify(assumptions);
      }
    }

    /**
     * Deletes redundant clauses, if it is time to do so: for each of them, the policy says whether it is deleted. The
     * clauses left stay in order.
     */
    method TryReduceClauseDB(ghost assumptions: seq<Lit>)
      requires Running() && Ready(assignment.Snap(), record, facts) && Branching(assumptions)
      modifies assignment, db, environment, this`lemmas
      ensures Running() && Ready(assignment.Snap(), record, facts) && Branching(assumptions)
      ensures |environment.log| > |old(environment.log)| && old(environment.log) <= environment.log
      ensures environment.log[|old(environment.log)|].question == ReduceNow
      ensures forall i :: |old(environment.log)| < i < |environment.log| ==> environment.log[i].question == DeleteNext
      ensures !environment.log[|old(environment.log)|].affirmed ==>
                environment.log == old(environment.log) + [Answer(ReduceNow, false)] && db.S() == old(db.S())
      ensures environment.log[|old(environment.log)|].affirmed ==>
                && |environment.log| == |old(environment.log)| + 1 + |old(lemmas)|
                && var st := Marked(old(db.S()), old(lemmas),
                                    AnswersFrom(environment.log, |old(environment.log)| + 1, |old(lemmas)|));
                   StoreOk(st) && db.S() == Surviving(st, |st.lits|)
    {
      hide Consistent, Kept, Surviving, Available, Once, Excluded, VsidsBranchingHeuristic.Valid, StampMap.Valid,
           FirstUipLearning.Valid, BinaryMaxHeap.Elements;
      ghost var s := assignment.Snap();
      var shouldReduce := environment.Ask(ReduceNow);
      if !shouldReduce {
        return;
      }
      MarkLemmas();
      CompressKept(record, facts, db.S(), maxVar + 1);
      db.Compress();
      SynchronizeSubsystemsWithClauseDB();
      ReadyAvailable(s, assignment.Snap(), record, record, facts, facts, heuristic.heap.Elements());
    }

    /** Marks those redundant clauses for deletion which the policy chooses. */
    method MarkLemmas()
      requires Running() && AtRest(assignment.Snap())
      modifies db`deleted, environment
      ensures |environment.log| == |old(environment.log)| + |lemmas| && old(environment.log) <= environment.log
      ensures forall i :: |old(environment.log)| <= i < |environment.log| ==> environment.log[i].question == DeleteNext
      ensures db.S() == Marked(old(db.S()), lemmas, AnswersFrom(environment.log, |old(environment.log)|, |lemmas|))
      ensures Idle() && assignment.Shape() && AtRest(assignment.Snap()) && Kept(record, facts, db.S(), maxVar + 1)
    {
      hide Consistent, Kept, Surviving, Once, StampMap.Valid, FirstUipLearning.Valid, AtRest, StaleIsFalse,
           AllRegistered;
      ghost var n, s := maxVar + 1, assignment.Snap();
      for i := 0 to |lemmas|
        invariant db.Valid() && Kept(record, facts, db.S(), n)
        invariant |environment.log| == |old(environment.log)| + i && old(environment.log) <= environment.log
        invariant forall j :: |old(environment.log)| <= j < |environment.log| ==>
                    environment.log[j].question == DeleteNext
        invariant db.S() == Marked(old(db.S()), lemmas, AnswersFrom(environment.log, |old(environment.log)|, i))
      {
        ghost var marks := AnswersFrom(environment.log, |old(environment.log)|, i);
        var markForDeletion := environment.Ask(DeleteNext);
        assert AnswersFrom(environment.log, |old(environment.log)|, i + 1)[..i] == marks;
        if markForDeletion {
          assert lemmas[i] in lemmas;
          DeleteKept(record, facts, db.S(), n, lemmas[i]);
          db.deleted := db.deleted[lemmas[i] := true];
        }
      }
      RestStays(s, assignment.Snap());
    }

    /**
     * Adds a clause to the problem. Tautologies are not stored, unit clauses become facts, and the literals of all
     * other clauses are stored once each.
     */
    method AddClause(clause: Clause)
      requires Valid() && forall l :: l in clause ==> l.v < UNDEFINED_LIT.v
      modifies db, this`facts, this`maxVar, this`detectedUnsat, this`record
      ensures Valid() && record == WithProblem(old(record), clause)
      ensures detectedUnsat == (old(detectedUnsat) || clause == [])
      ensures clause == [] || Tautology(clause) ==>
                facts == old(facts) && db.S() == old(db.S()) && maxVar == old(maxVar)
      ensures clause != [] && !Tautology(clause) ==> IsAdded(clause, old(facts), facts, old(db.S()), db.S())
    {
      hide Consistent, Kept, Surviving, Available, Once, VsidsBranchingHeuristic.Valid, StampMap.Valid, IsAdded,
           FirstUipLearning.Valid, BinaryMaxHeap.Elements, TrailOk, Tautology;
      if clause == [] {
        ProblemClauseKept(record, clause, facts, db.S(), maxVar + 1);
        record := WithProblem(record, clause);
        detectedUnsat := true;
        return;
      }
      var compressed := CompressClause(clause);
      if compressed.None? {
        // The clause is always satisfied.
        ProblemClauseKept(record, clause, facts, db.S(), maxVar + 1);
        record := WithProblem(record, clause);
        return;
      }
      assert clause[0] in compressed.value;
      StoreCompressed(compressed.value, clause);
    }

    /** Stores the compressed form of a clause as a fact or in the clause database. */
    method StoreCompressed(lits: Clause, ghost clause: Clause)
      requires Valid() && |lits| >= 1 && SameLits(lits, clause) && DistinctVars(lits) && clause != []
      requires forall l :: l in clause ==> l.v < UNDEFINED_LIT.v
      modifies db, this`facts, this`maxVar, this`record
      ensures Valid() && record == WithProblem(old(record), clause)
      ensures IsAdded(clause, old(facts), facts, old(db.S()), db.S())
    {
      hide Consistent, Kept, Surviving, Available, Once, VsidsBranchingHeuristic.Valid, BinaryMaxHeap.Elements, TrailOk,
           StampMap.Valid, FirstUipLearning.Valid;
      var newMaxVar := MaxVar(maxVar, lits);
      if |lits| == 1 {
        assert lits == [lits[0]];
        ProblemFactKept(record, clause, lits[0], facts, db.S(), maxVar + 1, newMaxVar + 1);
        facts := facts + [lits[0]];
      } else {
        ProblemClauseStored(record, clause, lits, facts, db.S(), maxVar + 1, newMaxVar + 1);
        StoreGrows(assignment.Snap(), lits);
        var c := db.CreateClause(lits);
      }
      record := WithProblem(record, clause);
      maxVar := newMaxVar;
    }

    // ---- solving -----------------------------------------------------------------------

    /** Enlarges all components for the variables up to `maxVar`. */
    method ResizeSubsystems()
      requires Wired() && Idle() && assignment.Valid() && AtRest(assignment.Snap())
      requires |assignment.assignments| <= maxVar + 1 <= UNDEFINED_LIT.v
      requires heuristic.Valid() && |heuristic.eligible| == |assignment.assignments|
      requires Available(assignment.T(), heuristic.heap.Elements())
      modifies assignment, analyzer, stamps, heuristic`eligible, heuristic.heap
      ensures Idle() && assignment.Valid() && AtRest(assignment.Snap()) && |assignment.assignments| == maxVar + 1
      ensures heuristic.Valid() && |heuristic.eligible| == |assignment.assignments|
      ensures Available(assignment.T(), heuristic.heap.Elements())
      ensures |old(assignment.phases)| <= maxVar + 1
      ensures assignment.phases == Padded(old(assignment.phases), maxVar + 1, False)
      ensures |old(heuristic.heap.activity)| <= |heuristic.heap.activity|
      ensures heuristic.heap.activity[..|old(heuristic.heap.activity)|] == old(heuristic.heap.activity)
    {
      hide Consistent, AtRest, Available, Once, BinaryMaxHeap.Elements, BinaryMaxHeap.Valid, StampMap.Stamped;
      ghost var s, members := assignment.Snap(), heuristic.heap.Elements();
      GrownAtRest(s, maxVar + 1);
      assignment.IncreaseMaxVar(maxVar);
      heuristic.IncreaseMaxVarTo(maxVar);
      stamps.IncreaseSizeTo(2 * maxVar + 1);
      analyzer.IncreaseMaxVarTo(maxVar);
      assert forall v: nat :: heuristic.Contains(v) <==> v in heuristic.heap.Elements();
      GrownAvailable(s.t, assignment.T(), members, heuristic.heap.Elements());
    }

    /** Takes account of all variables occurring in clauses and assumptions, and registers all clauses. */
    method PrepareSearch(assumptions: seq<Lit>)
      requires Valid() && forall l :: l in assumptions ==> l.v < UNDEFINED_LIT.v
      modifies this`maxVar, this`facts, this`lemmas, assignment, analyzer, stamps, heuristic`eligible, heuristic.heap
      ensures Running() && Ready(assignment.Snap(), record, facts) && forall l :: l in assumptions ==> l.v <= maxVar
      ensures Branching(assumptions) && SameLits(facts, old(facts))
      ensures |heuristic.eligible| == maxVar + 1 == |assignment.assignments|
      ensures forall v: nat :: v <= maxVar ==> (heuristic.eligible[v] <==> v !in Vars(assumptions))
    {
      hide Consistent, Kept, Surviving, Available, Once, BinaryMaxHeap.Elements, VsidsBranchingHeuristic.Valid,
           StampMap.Valid, FirstUipLearning.Valid, AtRest, Knowing;
      var newMaxVar := MaxVar(maxVar, assumptions);
      SameFactsKept(record, facts, WithoutRedundancies(facts), db.S(), maxVar + 1, newMaxVar + 1);
      maxVar := newMaxVar;
      facts := WithoutRedundancies(facts);
      AscendingOnce(facts);
      ResizeSubsystems();
      ghost var s := assignment.Snap();
      SynchronizeSubsystemsWithClauseDB();
      RestAvailable(s, assignment.Snap(), heuristic.heap.Elements());
      InitializeBranchingHeuristic(assumptions);
    }

    /** All variables but those of the assumptions are eligible for decisions. */
    method InitializeBranchingHeuristic(assumptions: seq<Lit>)
      requires heuristic.Valid() && |heuristic.eligible| == maxVar + 1 && forall l :: l in assumptions ==> l.v <= maxVar
      modifies heuristic`eligible
      ensures heuristic.Valid() && |heuristic.eligible| == maxVar + 1
      ensures forall v: nat :: v <= maxVar ==> (heuristic.eligible[v] <==> v !in Vars(assumptions))
    {
      hide BinaryMaxHeap.Valid, BinaryMaxHeap.Elements;
      for i := 0 to maxVar + 1
        invariant heuristic.Valid() && |heuristic.eligible| == maxVar + 1
        invariant forall v :: 0 <= v < i ==> heuristic.eligible[v]
      {
        heuristic.SetEligibleForDecisions(i, true);
      }
      for i := 0 to |assumptions|
        invariant heuristic.Valid() && |heuristic.eligible| == maxVar + 1
        invariant forall v: nat :: v <= maxVar ==> (heuristic.eligible[v] <==> v !in Vars(assumptions[..i]))
      {
        assert assumptions[i] in assumptions && assumptions[..i + 1] == assumptions[..i] + [assumptions[i]];
        heuristic.SetEligibleForDecisions(assumptions[i].v, false);
      }
      assert assumptions[..|assumptions|] == assumptions;
    }

    /** The values of all variables, read from the trail. */
    method CreateModel() returns (values: seq<TBool>)
      requires TrailOk(assignment.T()) && |assignment.assignments| == maxVar + 1
      ensures values == assignment.assignments
    {
      hide InLevel;
      ghost var t := assignment.T();
      values := seq(maxVar + 1, _ => Indet);
      for i := 0 to |assignment.trail|
        invariant |values| == maxVar + 1
        invariant forall v :: 0 <= v < |values| ==> values[v] == if t.pos[v] < i then t.vals[v] else Indet
      {
        assert Val(t, t.lits[i]) == True && Pos(t, t.lits[i].v) == i;
        OneAtPos(t, i);
        var lit := assignment.trail[i];
        values := values[lit.v := if lit.pos then True else False];
      }
      NoneBeyond(t);
    }

    /** Ends the proof with the empty clause; nothing is added to it afterwards. */
    method FinalizeProofOnUnsat()
      requires Books()
      modifies this`proof, this`certificate
      ensures !certificate && proof == if old(certificate) then record.lines + [[]] else old(proof)
      ensures Books() && (old(Running()) ==> Running()) && (old(Valid()) ==> Valid())
    {
      hide Consistent, Kept, Once, Available;
      if certificate {
        proof := proof + [[]];
        certificate := false;
      }
    }

    /** What is known after a run of the search. */
    ghost predicate Outcome(assumptions: seq<Lit>, verdict: TBool, failed: seq<Lit>)
      reads this`stopRequested, this`record, this`facts, db, assignment
      requires assignment.db == db
    {
      match verdict
      case Indet => !stopRequested ==> Ready(assignment.Snap(), record, facts)
      case True =>
        && Searching(assignment.Snap(), facts, assumptions) && Fixpoint(assignment.Snap())
        && |assignment.trail| == |assignment.assignments|
      case False => Failure(record, db.S(), facts, assumptions, failed)
    }

    /**
     * Simplifies and reduces the clauses if the policies say so, and searches until the next restart. If unit
     * propagation refutes the problem with the assumptions, the verdict is False. Otherwise, either there is a
     * verdict, or a policy is responsible, or the search has advanced.
     */
    method Restart(assumptions: seq<Lit>) returns (verdict: TBool, failed: seq<Lit>)
      requires Running() && Ready(assignment.Snap(), record, facts) && !stopRequested && Branching(assumptions)
      requires !detectedUnsat && forall l :: l in assumptions ==> l.v <= maxVar
      modifies assignment, db, stamps, analyzer, optimizer, heuristic, heuristic.heap, environment
      modifies this`facts, this`lemmas, this`amntBinariesLearnt, this`proof, this`record, this`stopRequested
      ensures Running() && RecordGrown(old(record), record) && Outcome(assumptions, verdict, failed)
      ensures Branching(assumptions)
      ensures UnitRefutable(old(record), assumptions) ==> verdict == False
      ensures LiveRefuted(old(db.S()), old(facts) + assumptions) ==>
                verdict == False || Affirmed(old(environment.log), environment.log, ReduceNow)
      ensures verdict == Indet && !stopRequested ==>
                Advanced(old(facts), facts, db.S(), assumptions) ||
                Affirmed(old(environment.log), environment.log, RestartDue)
      ensures stopRequested <==> Affirmed(old(environment.log), environment.log, StopRequested)
      ensures stopRequested ==> verdict == Indet
      ensures |facts| >= |old(facts)| && old(environment.log) <= environment.log
      ensures |environment.log| > |old(environment.log)|
      ensures environment.log[|old(environment.log)|].question == SimplifyNow
      ensures environment.log[|old(environment.log)|].affirmed && verdict != False ==>
                optimizer.factsAfterLastCall >= |old(facts)|
      ensures verdict != False ==>
                |environment.log| >= |old(environment.log)| + 2 &&
                environment.log[|old(environment.log)| + 1].question == ReduceNow
    {
      hide *;
      var unsat := TrySimplify(assumptions);
      OnlyAsked(old(environment.log), environment.log);
      if unsat {
        RefutedMore(record, assumptions);
        FailureFound(assumptions, []);
        return False, [];
      }
      ghost var facts1, r1, log1 := facts, record, environment.log;
      TryReduceClauseDB(assumptions);
      ghost var log2 := environment.log;
      RefutedAtOnce(old(record), assumptions);
      verdict, failed := SolveUntilRestart(assumptions);
      if verdict == False {
        FailureFound(assumptions, failed);
      }
      RestartOver(assumptions, old(record), r1, old(facts), facts1, verdict, failed, log2);
      AnsweredInBetween(old(environment.log), log1, log2, environment.log);
    }

    /** Everything the solver knows is refuted if the problem with the assumptions is. */
    lemma RefutedAtOnce(r0: Record, assumptions: seq<Lit>)
      requires Running() && RecordGrown(r0, record) && !detectedUnsat
      ensures UnitRefutable(r0, assumptions) ==> LiveRefuted(db.S(), facts + assumptions)
    {
      ProblemRefuted(record, facts, db.S(), assumptions);
    }

    /** What follows when the search has ended. */
    lemma RestartOver(assumptions: seq<Lit>, r0: Record, r1: Record, facts0: seq<Lit>, facts1: seq<Lit>, verdict: TBool,
                      failed: seq<Lit>, log: seq<Answer>)
      requires Running() && RecordGrown(r0, r1) && RecordGrown(r1, record) && |facts0| <= |facts1|
      requires verdict == Indet && !stopRequested ==>
                 && Ready(assignment.Snap(), record, facts)
                 && (Advanced(facts1, facts, db.S(), assumptions) || Affirmed(log, environment.log, RestartDue))
      requires verdict == True ==>
                 && Searching(assignment.Snap(), facts, assumptions) && Fixpoint(assignment.Snap())
                 && |assignment.trail| == |assignment.assignments|
      requires verdict == False ==> Failure(record, db.S(), facts, assumptions, failed)
      ensures RecordGrown(r0, record) && Outcome(assumptions, verdict, failed)
      ensures verdict == Indet && !stopRequested ==>
                Advanced(facts0, facts, db.S(), assumptions) || Affirmed(log, environment.log, RestartDue)
    {
      hide Ready, Searching, Fixpoint, Failure, LiveRefuted, Knowing, Consistent, Kept, Affirmed;
    }

    /**
     * Restarts the search until it gives an answer or has to stop. If no policy asks for restarts or deletes clauses,
     * the number of restarts is bounded by the number of facts there can be.
     */
    method SearchWithRestarts(assumptions: seq<Lit>, patience: nat) returns (verdict: TBool, failed: seq<Lit>)
      requires Running() && Ready(assignment.Snap(), record, facts) && !stopRequested && Branching(assumptions)
      requires !detectedUnsat && forall l :: l in assumptions ==> l.v <= maxVar
      modifies assignment, db, stamps, analyzer, optimizer, heuristic, heuristic.heap, environment
      modifies this`facts, this`lemmas, this`amntBinariesLearnt, this`proof, this`record, this`stopRequested
      ensures Running() && RecordGrown(old(record), record) && Outcome(assumptions, verdict, failed)
      ensures Branching(assumptions)
      ensures verdict == Indet ==> stopRequested && GivenUp(old(environment.log), patience)
      ensures UnitRefutable(old(record), assumptions) ==> verdict == False
      ensures Quiet(old(environment.log)) && patience > 2 * (maxVar + 1) ==> verdict != Indet
    {
      hide CdclSolver.Running, CdclSolver.Branching, Ready, Failure, Searching, Fixpoint, LiveRefuted, UnitRefutable,
           Affirmed, CdclSolver.Wired;
      RunningWired();
      var restarts: nat := 0;
      verdict, failed := Indet, [];
      NothingAffirmed(environment.log);
      while verdict == Indet && !stopRequested
        invariant Running() && RecordGrown(old(record), record) && Outcome(assumptions, verdict, failed)
        invariant Branching(assumptions) && old(environment.log) <= environment.log
        invariant restarts == 0 ==> verdict == Indet && !stopRequested
        invariant restarts <= patience + 1 && (restarts == patience + 1 ==> stopRequested || verdict != Indet)
        invariant UnitRefutable(old(record), assumptions) && restarts > 0 ==> verdict == False
        invariant verdict == Indet ==> |environment.log| >= |old(environment.log)| + 2 * restarts
        invariant verdict == Indet && stopRequested ==>
                    restarts > patience || Affirmed(old(environment.log), environment.log, StopRequested)
        invariant Quiet(old(environment.log)) && verdict == Indet ==>
                    restarts <= |facts| || (restarts == |facts| + 1 && LiveRefuted(db.S(), facts + assumptions))
        decreases patience + 1 - restarts
      {
        ghost var log := environment.log;
        SameProblem(old(record), record, assumptions);
        verdict, failed := Restart(assumptions);
        RunningWired();
        forall q ensures Affirmed(old(environment.log), environment.log, q) <==>
                         Affirmed(old(environment.log), log, q) || Affirmed(log, environment.log, q)
        {
          AffirmedSince(old(environment.log), log, environment.log, q);
        }
        restarts := restarts + 1;
        if verdict == Indet && !stopRequested {
          var stop := environment.Ask(StopRequested);
          stopRequested := stop || restarts > patience;
        }
      }
      FactsCounted();
    }

    /** Since the answers `log0`, there has been a request to stop, or more restarts than there was patience for. */
    ghost predicate GivenUp(log0: seq<Answer>, patience: nat)
      reads environment
    {
      Affirmed(log0, environment.log, StopRequested) || |environment.log| >= |log0| + 2 * (patience + 1)
    }

    /** Since the answers `log0`, no policy has asked for a restart or for deleting clauses, and nobody for stopping. */
    ghost predicate Quiet(log0: seq<Answer>)
      reads environment
    {
      && !Affirmed(log0, environment.log, RestartDue) && !Affirmed(log0, environment.log, ReduceNow)
      && !Affirmed(log0, environment.log, StopRequested)
    }

    /** There are at most as many facts as literals. */
    lemma FactsCounted()
      requires Running()
      ensures |facts| <= 2 * (maxVar + 1)
    {
      FactsBounded(assignment.Snap(), record, facts);
      CountLiterals(facts, maxVar + 1);
    }

    method CreateSolvingResult(verdict: TBool, failed: seq<Lit>, ghost assumptions: seq<Lit>) returns (result: SolvingResult)
      requires Running() && !detectedUnsat && Outcome(assumptions, verdict, failed)
      ensures result.verdict == verdict && result.failedAssumptions == if verdict == False then failed else []
      ensures verdict == True ==> Answers(record, assumptions, result.model) && |result.model.value| == maxVar + 1
      ensures verdict == False ==> Failure(record, db.S(), facts, assumptions, failed)
    {
      hide Consistent, Kept, Surviving, Searching, Fixpoint, AtRest, Failure, Ready, StaleIsFalse, TrailOk;
      var model := None;
      if verdict == True {
        RunningTrail();
        var values := CreateModel();
        model := Some(values);
        ModelFound(assignment.Snap(), record, facts, assumptions);
      }
      result := SolvingResult(verdict, model, if verdict == False then failed else []);
    }

    /**
     * Decides whether the problem has a model under the given assumptions. The search itself may go on
     * for ever: `patience` is the number of restarts after which it is stopped from outside at the latest. If unit
     * propagation refutes the problem with the assumptions, the answer is False. If no policy interferes, there is an
     * answer after at most two restarts for each variable and one more.
     */
    method Solve(assumptions: seq<Lit>, patience: nat) returns (result: SolvingResult)
      requires Valid() && forall l :: l in assumptions ==> l.v < UNDEFINED_LIT.v
      modifies this, db, assignment, analyzer, stamps, optimizer, heuristic, heuristic.heap, environment
      ensures Valid() && RecordGrown(old(record), record)
      ensures result.verdict == True ==> Answers(record, assumptions, result.model) && |result.model.value| == maxVar + 1
      ensures result.verdict == False ==> Failure(record, db.S(), facts, assumptions, result.failedAssumptions)
      ensures result.verdict == False && old(certificate) ==> !certificate && proof == record.lines + [[]]
      ensures result.verdict != False ==> certificate == old(certificate) && result.failedAssumptions == []
      ensures result.verdict == Indet ==> stopRequested && GivenUp(old(environment.log), patience)
      ensures UnitRefutable(old(record), assumptions) ==> result.verdict == False
      ensures Quiet(old(environment.log)) && patience > 2 * (maxVar + 1) ==> result.verdict != Indet
    {
      hide Consistent, Kept, Surviving, Failure, Answers, Ready, Knowing, StaleIsFalse, Searching, Fixpoint, AtRest,
           Available, Once, Excluded, VsidsBranchingHeuristic.Valid, StampMap.Valid, FirstUipLearning.Valid,
           BinaryMaxHeap.Elements;
      stopRequested := false;
      if detectedUnsat {
        EmptyClauseFails(assumptions);
        FinalizeProofOnUnsat();
        return SolvingResult(False, None, []);
      }
      result := SolveUndecided(assumptions, patience);
    }

    /** Solves a problem without the empty clause. */
    method SolveUndecided(assumptions: seq<Lit>, patience: nat) returns (result: SolvingResult)
      requires Valid() && !detectedUnsat && !stopRequested && forall l :: l in assumptions ==> l.v < UNDEFINED_LIT.v
      modifies this, db, assignment, analyzer, stamps, optimizer, heuristic, heuristic.heap, environment
      ensures Valid() && RecordGrown(old(record), record)
      ensures result.verdict == True ==> Answers(record, assumptions, result.model) && |result.model.value| == maxVar + 1
      ensures result.verdict == False ==> Failure(record, db.S(), facts, assumptions, result.failedAssumptions)
      ensures result.verdict == False && old(certificate) ==> !certificate && proof == record.lines + [[]]
      ensures result.verdict != False ==> certificate == old(certificate) && result.failedAssumptions == []
      ensures result.verdict == Indet ==> stopRequested && GivenUp(old(environment.log), patience)
      ensures UnitRefutable(old(record), assumptions) ==> result.verdict == False
      ensures Quiet(old(environment.log)) && patience > 2 * (maxVar + 1) ==> result.verdict != Indet
    {
      hide *;
      PrepareSearch(assumptions);
      var verdict, failed := SearchWithRestarts(assumptions, patience);
      RunningBooks();
      if verdict == False {
        FinalizeProofOnUnsat();
      }
      result := CreateSolvingResult(verdict, failed, assumptions);
      BacktrackAll(assumptions);
      ReadyIsValid(assumptions);
    }

    lemma ReadyIsValid(assumptions: seq<Lit>)
      requires Running() && Ready(assignment.Snap(), record, facts) && Branching(assumptions)
      ensures Valid()
    {
    }

    lemma EmptyClauseFails(assumptions: seq<Lit>)
      requires Valid() && detectedUnsat
      ensures Failure(record, db.S(), facts, assumptions, [])
    {
      EmptyClauseRefutes(record, assumptions);
    }

    lemma FailureFound(assumptions: seq<Lit>, failed: seq<Lit>)
      requires Running() && (forall l :: l in failed ==> l in assumptions)
      requires Refuted(record, assumptions) && (failed == [] ==> Refuted(record, []))
      requires failed == [] <==> LiveRefuted(db.S(), facts)
      requires |failed| > 1 ==> Refuted(record, failed)
      requires failed != [] ==>
                 Grounded(assignment.Snap(), facts, assumptions) &&
                 FailsAt(assignment.Snap(), facts, assumptions, failed)
      ensures Failure(record, db.S(), facts, assumptions, failed) && Outcome(assumptions, False, failed)
    {
      hide Consistent, LiveRefuted, FailsAt;
      RefutedIsUnsatisfiable(record, assumptions);
      if |failed| > 1 {
        RefutedIsUnsatisfiable(record, failed);
      }
      assert failed != [] ==> failed[0] in failed;
      if failed == [] {
        RefutedIsUnsatisfiable(record, []);
        assert Known(record) + Units([]) == Known(record) && record.problem + Units([]) == record.problem;
      }
    }

    /**
     * Between calls, facts and clauses have the same models as the problem, and the proof is correct: each of its lines
     * is an asymmetric tautology with respect to the problem and the lines before it.
     */
    lemma Meaning(m: Model)
      requires Valid()
      ensures FormulaHolds(m, record.problem) <==>
              && !detectedUnsat && (forall l :: l in facts ==> LitHolds(m, l))
              && (forall c :: IsLive(db.S(), c) ==> ClauseHolds(m, Cl(db.S(), c)))
      ensures ProofOk(record) && (certificate ==> proof == record.lines)
    {
      KnowledgeIsProblem(record, facts, db.S(), maxVar + 1, m);
    }

    /** Before the first decision. */
    lemma StartDeciding(assumptions: seq<Lit>)
      requires Running() && Searching(assignment.Snap(), facts, assumptions) && assignment.currentLevel == 1
      ensures TrailOk(assignment.T()) && BestTrail(heuristic.heap.activity, assignment.phases)
      ensures RecordGrown(record, record)
    {
      hide Consistent, Searching, Kept;
      SearchTrail(assignment.Snap(), facts, assumptions);
      NoDecisions(assignment.T(), heuristic.heap.activity, assignment.phases);
    }

    lemma RunningWired()
      requires Running()
      ensures assignment.db == db
    {
    }

    lemma RunningBooks()
      requires Running()
      ensures Books()
    {
    }

    lemma RunningTrail()
      requires Running()
      ensures TrailOk(assignment.T())
    {
    }
  }

  lemma GrownAtRest(s: Snapshot, n: nat)
    requires Consistent(s) && AtRest(s) && VarCount(s.t) <= n
    ensures |s.t.levels| == |s.t.reasons| == |s.t.pos| == |s.t.vals|
    ensures AtRest(s.(t := Grown(s.t, n)))
  {
  }

  lemma EmptyClauseRefutes(r: Record, assumptions: seq<Lit>)
    requires ProofOk(r) && [] in r.problem
    ensures Refuted(r, assumptions) && AsymmetricTautology(Known(r), [])
    ensures !Satisfiable(r.problem + Units(assumptions)) && !Satisfiable(r.problem)
  {
    assert forall u :: Falsified(u, []);
    assert [] in Known(r) && [] in Known(r) + Units(assumptions);
    assert forall m :: !ClauseHolds(m, []);
    assert [] in r.problem + Units(assumptions);
  }

  lemma ModelFound(s: Snapshot, r: Record, facts: seq<Lit>, assumptions: seq<Lit>)
    requires Searching(s, facts, assumptions) && Knowing(s, r, facts) && Fixpoint(s)
    requires |s.t.lits| == VarCount(s.t) && [] !in r.problem
    ensures Indet !in s.t.vals
    ensures forall m :: Describes(s.t.vals, m) ==> FormulaHolds(m, r.problem + Units(assumptions))
  {
    SearchingConsistent(s, facts, assumptions);
    ConsistentTrail(s);
    hide Searching, Consistent, Knowing, Fixpoint;
    TrailBound(s.t);
    forall v | 0 <= v < VarCount(s.t) ensures s.t.vals[v] != Indet {
      assert Val(s.t, Lit(v, true)) != Indet;
    }
    forall m | Describes(s.t.vals, m) ensures FormulaHolds(m, r.problem + Units(assumptions)) {
      CompleteIsModel(s, r, facts, assumptions, m);
    }
  }

  /** What a new solver knows. */
  lemma FreshState(a: Assignment, members: set<nat>)
    requires a.Valid() && a.trail == [] && a.currentLevel == 0 && a.settled == {} && a.skipped == {}
    requires a.db.lits == [] && forall v: nat :: v < |a.assignments| ==> v in members
    ensures AtRest(a.Snap()) && Kept(Record([], []), [], a.db.S(), |a.assignments|) && Available(a.T(), members)
  {
    hide ListsOk, ReasonsOk, WatchesComplete, SettledOk;
  }

  lemma RestStays(s: Snapshot, s2: Snapshot)
    requires AtRest(s) && s2 == s.(st := s2.st)
    ensures AtRest(s2)
  {
  }

  lemma RestFacts(s: Snapshot)
    requires AtRest(s)
    ensures TrailOk(s.t) && SettledOk(s.t, s.settled, s.skipped) && s.t.lits == []
  {
  }

  lemma NoneRegistered(s0: Snapshot, s: Snapshot)
    requires AtRest(s0) && s.t == s0.t && s.settled == s0.settled && s.skipped == s0.skipped && s.reg == {}
    ensures AtRest(s) && RegisteredUpTo(s, 0)
  {
  }

  lemma SkipDeletedClause(s: Snapshot, c: CRef)
    requires RegisteredUpTo(s, c) && !IsLive(s.st, c)
    ensures RegisteredUpTo(s, c + 1)
  {
  }

  lemma AllOfThem(s: Snapshot)
    requires RegisteredUpTo(s, |s.st.lits|)
    ensures AllRegistered(s)
  {
  }

  lemma RegisteredFrame(s: Snapshot, c: CRef)
    requires Registrable(s, c)
    ensures Registered(s, c).stale == s.stale && Registered(s, c).t == s.t && Registered(s, c).st == s.st
  {
  }

  /** The facts are on the trail; if there are as many as trail literals, there is nothing else on it. */
  lemma TrailAndFacts(s: Snapshot, facts: seq<Lit>, assumptions: seq<Lit>)
    requires Grounded(s, facts, assumptions) && AllTrue(s.t, facts, 0) && Once(facts)
    ensures Once(s.t.lits) && forall l :: l in facts ==> l in s.t.lits
    ensures |facts| == |s.t.lits| ==> forall l :: l in s.t.lits ==> l in facts
  {
    hide Consistent, Rooted, TrailOk, AllTrue;
    ConsistentTrail(s);
    TrailDistinct(s.t);
    FactsOnTrail(s.t, facts);
    DistinctOnce(s.t.lits);
    if |facts| == |s.t.lits| {
      SameSize(facts, s.t.lits);
    }
  }

  lemma DistinctOnce(ls: seq<Lit>)
    requires DistinctVars(ls)
    ensures Once(ls)
  {
  }

  /** The facts have been propagated: they are not refuted, and everything on the trail has been derived from them. */
  lemma FactsClosed(s: Snapshot, r: Record, facts: seq<Lit>, assumptions: seq<Lit>)
    requires Grounded(s, facts, assumptions) && Fixpoint(s) && Knowing(s, r, facts) && CurLevel(s.t) == 0
    requires AllTrue(s.t, facts, 0) && StaleIsFalse(s.stale, facts) && Once(facts) && Once(s.t.lits)
    requires forall l :: l in facts ==> l in s.t.lits
    ensures !LiveRefuted(s.st, facts) && IsClosure(s.st, facts, s.t.lits) && |facts| <= |s.t.lits|
    ensures SameLits(facts, s.t.lits) ==> IsClosure(s.st, facts, facts)
  {
    hide Knowing, IsClosure, LiveRefuted, Consistent, Fixpoint, AllTrue, Rooted, StaleIsFalse;
    FixpointNotRefuted(s, r, facts, []);
    SameLitsSelf(s.t.lits);
    FixpointIsClosure(s, r, facts, assumptions, s.t.lits);
    if SameLits(facts, s.t.lits) {
      FixpointIsClosure(s, r, facts, assumptions, facts);
    }
    OnceSubset(facts, s.t.lits);
  }

  lemma NothingAssumedYet(s: Snapshot, r: Record, facts: seq<Lit>, assumptions: seq<Lit>)
    requires Grounded(s, facts, assumptions) && Fixpoint(s) && Knowing(s, r, facts) && AllTrue(s.t, facts, 0)
    requires StaleIsFalse(s.stale, facts)
    requires CurLevel(s.t) == 0
    ensures !LiveRefuted(s.st, facts) && StoreOk(s.st) && Grounded(s, facts, [])
  {
    ConsistentTrail(s);
    LevelsBounded(s.t);
    assert Rooted(s.t, facts, []);
    hide Knowing, LiveRefuted, Consistent, Fixpoint, AllTrue, Rooted, StaleIsFalse;
    FixpointNotRefuted(s, r, facts, []);
    GroundedStoreOk(s, r, facts, assumptions);
  }

  lemma AssumptionsNotRefuted(s: Snapshot, r: Record, facts: seq<Lit>, assumptions: seq<Lit>)
    requires Searching(s, facts, assumptions) && Fixpoint(s) && Knowing(s, r, facts)
    ensures !LiveRefuted(s.st, facts + assumptions)
  {
    FixpointNotRefuted(s, r, facts, assumptions);
  }

  lemma ReadyStoreOk(s: Snapshot, r: Record, facts: seq<Lit>)
    requires Ready(s, r, facts)
    ensures StoreOk(s.st)
  {
  }

  lemma FactsRefuteMore(st: Store, st2: Store, facts: seq<Lit>, assumptions: seq<Lit>)
    requires StoreOk(st) && Permuted(st, st2) && LiveRefuted(st2, facts)
    ensures LiveRefuted(st, facts + assumptions)
  {
    hide LiveRefuted, Permuted;
    PermutedLive(st, st2, facts);
    MoreRefuted(st, facts, facts + assumptions);
  }

  /** Propagation of facts and assumptions finds out whether they are refuted. */
  lemma SameRefutation(st: Store, st1: Store, st2: Store, facts: seq<Lit>, facts2: seq<Lit>, assumptions: seq<Lit>)
    requires StoreOk(st) && Permuted(st, st1) && Permuted(st1, st2) && IsClosure(st1, facts, facts2)
    ensures LiveRefuted(st, facts + assumptions) <==> LiveRefuted(st2, facts2 + assumptions)
  {
    PermutedTransitive(st, st1, st2);
    hide LiveRefuted, Permuted, IsClosure;
    PermutedLive(st, st1, facts);
    ClosureRefuted(st, facts, facts2, assumptions);
    PermutedLive(st, st2, facts2 + assumptions);
  }

  // ---- decisions ---------------------------------------------------------------------

  lemma PickedIsBest(t: Trail, before: set<nat>, after: set<nat>, activity: seq<real>, phases: seq<TBool>, d: Lit)
    requires Available(t, before) && |activity| == VarCount(t) && d.v < |activity|
    requires forall v: nat :: v in before && v < |activity| && Val(t, Lit(v, true)) == Indet ==>
               activity[v] <= activity[d.v]
    requires d.pos == (d.v < |phases| && phases[d.v] == True)
    requires forall v: nat :: v in before && v !in after && Val(t, Lit(v, true)) == Indet ==> v == d.v
    ensures IsBest(t, activity, phases, d) && Available(t, after + {d.v})
  {
  }

  lemma NothingAffirmed(log: seq<Answer>)
    ensures forall q :: !Affirmed(log, log, q)
  {
  }

  /** The only new answer is about simplification. */
  lemma OnlyAsked(log0: seq<Answer>, log: seq<Answer>)
    requires |log| == |log0| + 1 && log == log0 + [log[|log0|]] && log[|log0|].question == SimplifyNow
    ensures log0 <= log && forall q :: Affirmed(log0, log, q) ==> q == SimplifyNow
  {
  }

  /** What has been answered while clauses were simplified, reduced and searched. */
  lemma AnsweredInBetween(log0: seq<Answer>, log1: seq<Answer>, log2: seq<Answer>, log: seq<Answer>)
    requires log0 <= log1 <= log2 <= log && forall q :: Affirmed(log0, log1, q) ==> q == SimplifyNow
    requires |log2| > |log1| && log2[|log1|].question == ReduceNow
    requires log2[|log1|].affirmed || log2 == log1 + [Answer(ReduceNow, false)]
    requires forall i :: |log1| < i < |log2| ==> log2[i].question == DeleteNext
    ensures Affirmed(log0, log, ReduceNow) <==> log2[|log1|].affirmed || Affirmed(log2, log, ReduceNow)
    ensures forall q :: q == RestartDue || q == StopRequested ==> (Affirmed(log0, log, q) <==> Affirmed(log2, log, q))
  {
    forall q
      ensures Affirmed(log0, log, q) <==>
              Affirmed(log0, log1, q) || Affirmed(log1, log2, q) || Affirmed(log2, log, q)
    {
      AffirmedSince(log0, log1, log, q);
      AffirmedSince(log1, log2, log, q);
    }
    assert log2[|log1|..][0] == log2[|log1|];
  }

  lemma GrownSelf(r: Record)
    ensures RecordGrown(r, r)
  {
  }

  lemma LineGrown(r0: Record, r: Record, r2: Record)
    requires RecordGrown(r0, r) && |r2.lines| == |r.lines| + 1 && r2 == WithLine(r, r2.lines[|r.lines|])
    ensures RecordGrown(r0, r2) && r2 != r0
  {
  }

  lemma SameProblem(r: Record, r2: Record, assumptions: seq<Lit>)
    requires RecordGrown(r, r2)
    ensures UnitRefutable(r, assumptions) <==> UnitRefutable(r2, assumptions)
  {
  }

  lemma GrownBack(r: Record, r2: Record, r3: Record)
    requires RecordGrown(r, r2) && RecordGrown(r2, r3)
    ensures RecordGrown(r, r3) && (r3 == r ==> r2 == r)
  {
  }

  lemma NoDecisions(t: Trail, activity: seq<real>, phases: seq<TBool>)
    ensures CurLevel(t) <= 1 ==> BestDecisions(t, activity, phases)
  {
  }

  /** A decision is a best one if it has been picked as such, and earlier ones remain so. */
  lemma DecisionIsBest(s: Snapshot, d: Lit, s2: Snapshot, activity: seq<real>, phases: seq<TBool>)
    requires TrailOk(s.t) && DecisionLevels(s.t) && CurLevel(s.t) >= 1 && d.v < VarCount(s.t) && Val(s.t, d) == Indet
    requires |s.t.levels| == |s.t.reasons| == |s.t.pos| == |s.t.vals|
    requires Progress(Decided(s, d), s2) && IsBest(s.t, activity, phases, d)
    ensures BestDecisions(s.t, activity, phases) ==> BestDecisions(s2.t, activity, phases)
  {
    var t1, n := Decided(s, d).t, |s.t.limits|;
    assert t1.limits == s.t.limits + [|s.t.lits|] && t1.lits == s.t.lits + [d];
    AssignedBefore(s, d, s2);
    if BestDecisions(s.t, activity, phases) {
      forall level | 2 <= level < |s2.t.limits| && s2.t.limits[level] < |s2.t.lits|
        ensures WasBest(s2.t, activity, phases, s2.t.limits[level])
      {
        if level < n {
          assert Count(s.t, level) > 0;
          assert WasBest(s.t, activity, phases, s.t.limits[level]);
        }
      }
    }
  }

  /** What has been assigned before the decision keeps its place. */
  lemma AssignedBefore(s: Snapshot, d: Lit, s2: Snapshot)
    requires TrailOk(s.t) && d.v < VarCount(s.t) && Val(s.t, d) == Indet
    requires |s.t.levels| == |s.t.reasons| == |s.t.pos| == |s.t.vals| && Progress(Decided(s, d), s2)
    ensures forall w: nat :: Val(s.t, Lit(w, true)) != Indet ==>
              Val(s2.t, Lit(w, true)) != Indet && Pos(s2.t, w) == Pos(s.t, w) < |s.t.lits|
  {
    forall w: nat | Val(s.t, Lit(w, true)) != Indet
      ensures Val(s2.t, Lit(w, true)) != Indet && Pos(s2.t, w) == Pos(s.t, w) < |s.t.lits|
    {
      TrueLitFacts(s.t, Lit(w, true));
      assert Val(Decided(s, d).t, Lit(w, true)) != Indet;
    }
  }

  /** What unit propagation refutes is refuted after simplification as well. */
  lemma StillRefuted(st: Store, st2: Store, facts: seq<Lit>, facts2: seq<Lit>)
    requires StoreOk(st)
    requires (facts2 == facts && Permuted(st, st2)) || (CleanedFrom(st, st2, facts2) && IsClosure(st, facts, facts2))
    ensures forall ls :: LiveRefuted(st, facts + ls) ==> LiveRefuted(st2, facts2 + ls)
  {
    hide LiveRefuted, CleanedFrom, IsClosure, Permuted;
    forall ls: seq<Lit> ensures LiveRefuted(st, facts + ls) ==> LiveRefuted(st2, facts2 + ls) {
      if facts2 == facts && Permuted(st, st2) {
        PermutedLive(st, st2, facts + ls);
      } else {
        CleanedRefuted(st, st2, facts, facts2, ls);
      }
    }
  }

  lemma FactsGrow(facts: seq<Lit>, facts2: seq<Lit>)
    requires facts2 == facts || (Once(facts) && Once(facts2) && forall l :: l in facts ==> l in facts2)
    ensures |facts2| >= |facts|
  {
    if facts2 != facts {
      OnceSubset(facts, facts2);
    }
  }

  lemma OnceSubset(a: seq<Lit>, b: seq<Lit>)
    requires Once(a) && Once(b) && forall l :: l in a ==> l in b
    ensures |a| <= |b|
  {
    OnceSize(a);
    OnceSize(b);
    var sa, sb := set l | l in a, set l | l in b;
    assert sb == sa + (sb - sa);
    assert |sb| == |sa| + |sb - sa|;
  }

  lemma CountLiterals(ls: seq<Lit>, n: nat)
    requires Once(ls) && forall l :: l in ls ==> l.v < n
    ensures |ls| <= 2 * n
  {
    OnceSize(ls);
    var all, pos := set l | l in ls, set l | l in ls && l.pos;
    var neg := set l | l in ls && !l.pos;
    assert all == pos + neg;
    CountVars(pos, true, n);
    CountVars(neg, false, n);
  }

  lemma {:induction false} CountVars(ls: set<Lit>, positive: bool, n: nat)
    requires forall l :: l in ls ==> l.v < n && l.pos == positive
    ensures |ls| <= n
  {
    if n == 0 {
      assert ls == {};
    } else {
      var last := Lit(n - 1, positive);
      CountVars(ls - {last}, positive, n - 1);
      assert ls <= (ls - {last}) + {last};
      SubsetSizeOf(ls, (ls - {last}) + {last});
    }
  }

  lemma SubsetSizeOf<T>(a: set<T>, b: set<T>)
    requires a <= b
    ensures |a| <= |b|
  {
    assert b == a + (b - a);
  }

  /** If all literals of `a` are in `b`, which is not longer, then the converse holds, too. */
  lemma SameSize(a: seq<Lit>, b: seq<Lit>)
    requires Once(a) && Once(b) && |a| == |b| && forall l :: l in a ==> l in b
    ensures forall l :: l in b ==> l in a
  {
    OnceSize(a);
    OnceSize(b);
    var sa, sb := set l | l in a, set l | l in b;
    assert sb == sa + (sb - sa);
    assert |sb| == |sa| + |sb - sa|;
    forall l | l in b ensures l in a {
      assert l !in sb - sa;
    }
  }

  lemma {:induction false} OnceSize(ls: seq<Lit>)
    requires Once(ls)
    ensures |set l | l in ls| == |ls|
  {
    if ls != [] {
      OnceSize(ls[1..]);
      assert (set l | l in ls) == (set l | l in ls[1..]) + {ls[0]};
    }
  }

  lemma AscendingOnce(c: Clause)
    requires Ascending(c)
    ensures Once(c)
  {
  }

  lemma FactsBounded(s: Snapshot, r: Record, facts: seq<Lit>)
    requires Knowing(s, r, facts)
    ensures forall l :: l in facts ==> l.v < VarCount(s.t)
  {
  }

  lemma GroundedStoreOk(s: Snapshot, r: Record, facts: seq<Lit>, assumptions: seq<Lit>)
    requires Grounded(s, facts, assumptions) && Knowing(s, r, facts)
    ensures StoreOk(s.st)
  {
  }

  lemma {:induction false} SomeUnassigned(t: Trail)
    requires TrailOk(t) && |t.lits| < VarCount(t)
    ensures exists v: nat :: v < VarCount(t) && t.vals[v] == Indet
  {
    TrailVarsSize(t, |t.lits|);
    if forall v: nat :: v < VarCount(t) ==> t.vals[v] != Indet {
      forall v | v in Below(VarCount(t)) ensures v in TrailVars(t, |t.lits|) {
        var l := TrueLit(t, v);
        assert Val(t, l) == True;
        assert t.lits[Pos(t, v)].v == v;
      }
      SubsetSize(Below(VarCount(t)), TrailVars(t, |t.lits|));
    }
  }

  lemma RefutedMore(r: Record, ls: seq<Lit>)
    requires Refuted(r, [])
    ensures Refuted(r, ls)
  {
  }

  /** What is refuted by a part of the assumptions is refuted by all of them. */
  lemma PrefixRefutes(r: Record, ls: seq<Lit>, ls2: seq<Lit>)
    requires Refuted(r, ls) && forall l :: l in ls ==> l in ls2
    ensures Refuted(r, ls2)
  {
    var f, f2 := Known(r) + Units(ls), Known(r) + Units(ls2);
    forall c | c in f ensures c in f2 {
      if c !in Known(r) {
        var i :| 0 <= i < |ls| && c == [ls[i]];
        assert ls[i] in ls && ls[i] in ls2;
        var j :| 0 <= j < |ls2| && ls2[j] == ls[i];
        assert Units(ls2)[j] == c;
      }
    }
    forall u: iset<Lit> | UpClosed(u, f2) && Refutes(u, []) ensures UpConflict(u, f2) {
      MoreClauses(u, f, f2);
    }
  }

  lemma GroundedMore(s: Snapshot, facts: seq<Lit>, assumptions: seq<Lit>, assumptions2: seq<Lit>)
    requires Grounded(s, facts, assumptions) && forall l :: l in assumptions ==> l in assumptions2
    ensures Grounded(s, facts, assumptions2)
  {
  }

  /** If a part of the assumptions fails, all of them are refuted. */
  lemma FailedPrefix(s: Snapshot, r: Record, facts: seq<Lit>, assumptions: seq<Lit>, now: seq<Lit>)
    requires Grounded(s, facts, now) && forall l :: l in now ==> l in assumptions
    requires Refuted(r, Assumed(CurLevel(s.t), now)) && LiveRefuted(s.st, facts + Assumed(CurLevel(s.t), now))
    ensures Grounded(s, facts, assumptions) && Refuted(r, Assumed(CurLevel(s.t), assumptions))
    ensures LiveRefuted(s.st, facts + Assumed(CurLevel(s.t), assumptions))
  {
    hide Grounded, Refuted, LiveRefuted;
    GroundedMore(s, facts, now, assumptions);
    PrefixRefutes(r, Assumed(CurLevel(s.t), now), Assumed(CurLevel(s.t), assumptions));
    MoreRefuted(s.st, facts + Assumed(CurLevel(s.t), now), facts + Assumed(CurLevel(s.t), assumptions));
  }

  lemma FailedWith(s: Snapshot, facts: seq<Lit>, assumptions: seq<Lit>, failed: seq<Lit>, i: nat)
    requires i < |assumptions| && Blamed(s, failed) && assumptions[i] == failed[0]
    requires Contradicted(s, facts, assumptions[..i], failed[0])
    ensures FailsWith(s, facts, assumptions, failed, i)
  {
  }

  lemma OppositeContradicts(s: Snapshot, facts: seq<Lit>, earlier: seq<Lit>, l: Lit)
    requires HasAssumed(s, facts, earlier) && Val(s.t, l) == False
    ensures Contradicted(s, facts, earlier, l)
  {
  }

  lemma ConflictContradicts(s: Snapshot, s2: Snapshot, facts: seq<Lit>, earlier: seq<Lit>, l: Lit, c: CRef)
    requires HasAssumed(s, facts, earlier) && Val(s.t, l) == Indet && l.v < VarCount(s.t)
    requires |s.t.levels| == |s.t.reasons| == |s.t.pos| == |s.t.vals| && Progress(Pushed(s, l, None), s2)
    requires Conflicting(s2, c)
    ensures Contradicted(s2, facts, earlier, l)
  {
    hide Grounded, Fixpoint, Progress, Conflicting, HasAssumed;
    assert Appends(s, l, s2);
  }

  lemma SearchTrail(s: Snapshot, facts: seq<Lit>, assumptions: seq<Lit>)
    requires Searching(s, facts, assumptions)
    ensures TrailOk(s.t) && DecisionLevels(s.t) && 1 <= CurLevel(s.t) < |s.t.limits|
  {
  }

  lemma LevelOpened(s: Snapshot, r: Record, facts: seq<Lit>, assumptions: seq<Lit>)
    requires Searching(s, facts, assumptions) && Knowing(s, r, facts)
    ensures Knowing(WithLevel(s), r, facts)
  {
  }

  lemma GroundedBasics(s: Snapshot, facts: seq<Lit>, assumptions: seq<Lit>)
    requires Grounded(s, facts, assumptions)
    ensures Consistent(s) && |s.t.levels| == |s.t.reasons| == |s.t.pos| == |s.t.vals|
  {
  }

  lemma TrueAlready(s: Snapshot, facts: seq<Lit>, assumptions: seq<Lit>, l: Lit)
    requires Grounded(s, facts, assumptions) && Val(s.t, l) == True
    ensures AllTrue(s.t, [l], CurLevel(s.t))
  {
  }

  lemma PushedFrame(s: Snapshot, s2: Snapshot, l: Lit)
    requires |s.t.levels| == |s.t.reasons| == |s.t.pos| == |s.t.vals| && l.v < VarCount(s.t)
    requires Progress(Pushed(s, l, None), s2)
    ensures VarCount(s2.t) == VarCount(s.t) && |s2.st.lits| == |s.st.lits| && s2.stale == s.stale
    ensures forall c :: IsRedundant(s2.st, c) == IsRedundant(s.st, c)
    ensures Permuted(s.st, s2.st)
  {
  }

  /** If the opposite of an assumption is neither forced nor a fact, it has been assumed as well. */
  lemma FalseAssumption(s: Snapshot, facts: seq<Lit>, assumptions: seq<Lit>, l: Lit)
    requires Grounded(s, facts, assumptions) && CurLevel(s.t) == 1 && Val(s.t, l) == False
    ensures Suffices(s.t, l) <==> Traceable(s.t, l)
    ensures !Traceable(s.t, l) ==> OtherAssumed(s.t, l)
  {
    ConsistentTrail(s);
    LevelsBounded(s.t);
    hide Consistent;
    if !Traceable(s.t, l) {
      assert Val(s.t, Neg(l)) == True && s.t.lits[Pos(s.t, l.v)] == Neg(l);
    } else if NothingAssumed(s.t) {
      assert Suffices(s.t, l);
    }
  }

  /** If nothing else has been assumed, an assumption whose propagation leads to a conflict is refuted on its own. */
  lemma LoneAssumption(s: Snapshot, s2: Snapshot, r: Record, facts: seq<Lit>, assumptions: seq<Lit>, l: Lit, c: CRef)
    requires Grounded(s, facts, assumptions) && Knowing(s, r, facts) && CurLevel(s.t) == 1 && Val(s.t, l) == Indet
    requires |s.t.levels| == |s.t.reasons| == |s.t.pos| == |s.t.vals| && l.v < VarCount(s.t)
    requires Progress(Pushed(s, l, None), s2) && Consistent(s2) && Conflicting(s2, c)
    ensures if Suffices(s.t, l) then Refuted(r, [l]) else OtherAssumed(s2.t, l)
  {
    ConsistentTrail(s);
    if NothingAssumed(s.t) {
      hide Consistent, Knowing, Conflicting, Refuted;
      assert Rooted(s.t, facts, [l]);
      GroundedStep(s, s2, r, facts, [l], l);
      ConflictRefutes(s2, r, facts, [l], c);
    } else {
      var i :| 0 <= i < |s.t.lits| && Reason(s.t, s.t.lits[i].v).None? && Level(s.t, s.t.lits[i].v) == 1;
      var x := s.t.lits[i];
      assert Val(s.t, x) == True;
      PushFacts(s.t, l, None);
      assert Val(Pushed(s, l, None).t, x) == True;
    }
  }

  lemma AppendedUnforced(s: Snapshot, s2: Snapshot, l: Lit)
    requires Consistent(s) && l.v < VarCount(s.t) && Val(s.t, l) == Indet
    requires |s.t.levels| == |s.t.reasons| == |s.t.pos| == |s.t.vals|
    requires Progress(Pushed(s, l, None), s2)
    ensures Val(s2.t, l) == True && Reason(s2.t, l.v).None?
  {
  }

  lemma KnowingFact(s: Snapshot, r: Record, facts: seq<Lit>, l: Lit)
    requires Knowing(s, r, facts) && AsymmetricTautology(Known(r), [l]) && l.v < VarCount(s.t)
    ensures Knowing(s, WithLine(r, [l]), facts + [l])
    ensures StaleIsFalse(s.stale, facts) ==> StaleIsFalse(s.stale, facts + [l])
  {
    FactLearnt(r, facts, s.st, VarCount(s.t), l);
  }

  lemma MarkedRedundant(st: Store, st2: Store, c: CRef)
    requires c == |st.lits| && st2.lits == WithNew(st, Cl(st2, c), false).lits && st2.deleted == st.deleted + [false]
    requires |st.redundant| == c
    requires st2.redundant == if |Cl(st2, c)| > 2 then (st.redundant + [false])[c := true] else st.redundant + [false]
    ensures st2 == WithNew(st, Cl(st2, c), IsRedundant(st2, c))
    ensures IsRedundant(st2, c) <==> |Cl(st2, c)| > 2
    ensures forall d: CRef :: d < c ==> IsRedundant(st2, d) == IsRedundant(st, d)
  {
  }

  lemma DecisionPropagated(s0: Snapshot, d: Lit, s: Snapshot, r: Record, facts: seq<Lit>, assumptions: seq<Lit>)
    requires Searching(s0, facts, assumptions) && Fixpoint(s0) && d.v < VarCount(s0.t) && Val(s0.t, d) == Indet
    requires |s0.t.levels| == |s0.t.reasons| == |s0.t.pos| == |s0.t.vals|
    requires Knowing(WithLevel(s0), r, facts) && Consistent(s) && Progress(Decided(s0, d), s)
    requires s0.settled <= s.settled && s.skipped == s0.skipped
    ensures Searching(s, facts, assumptions) && Knowing(s, r, facts) && CurLevel(s.t) >= 2
    ensures VarCount(s.t) == VarCount(s0.t) && |s.st.lits| == |s0.st.lits| && s.stale == s0.stale
    ensures forall c :: IsRedundant(s.st, c) == IsRedundant(s0.st, c)
    ensures Beyond(s0.t, s.t, CurLevel(s.t))
  {
    hide Consistent, Rooted, DecisionLevels, AllTrue, FixpointBelow, Beyond, Kept, AllRegistered, Count;
    var s1 := Decided(s0, d);
    SearchingConsistent(s0, facts, assumptions);
    DecisionSearching(s0, d, facts, assumptions);
    ProgressSearching(s1, s, facts, assumptions);
    KnowingDecided(s0, d, r, facts);
    ProgressKnowing(s1, s, r, facts);
    BeyondMore(s0.t, s1, s);
    ProgressFrame(s1, s);
  }

  lemma LevelFixpoint(s: Snapshot)
    ensures Fixpoint(WithLevel(s)) <==> Fixpoint(s)
  {
  }

  lemma KnowingDecided(s: Snapshot, d: Lit, r: Record, facts: seq<Lit>)
    requires |s.t.levels| == |s.t.reasons| == |s.t.pos| == |s.t.vals| && d.v < VarCount(s.t)
    requires Knowing(WithLevel(s), r, facts)
    ensures Knowing(Decided(s, d), r, facts)
  {
  }

  // ---- branching -------------------------------------------------------------------

  lemma ExcludedMore(eligible: seq<bool>, facts: seq<Lit>, facts2: seq<Lit>, assumptions: seq<Lit>)
    requires Excluded(eligible, facts, assumptions) && forall l :: l in facts ==> l in facts2
    ensures Excluded(eligible, facts2, assumptions)
  {
  }

  lemma ExcludedOneMore(eligible: seq<bool>, facts: seq<Lit>, assumptions: seq<Lit>, l: Lit)
    requires Excluded(eligible, facts, assumptions) && (l in facts || l in assumptions) && l.v < |eligible|
    ensures Excluded(eligible[l.v := false], facts, assumptions)
  {
  }

  lemma SeenBounds(s: Snapshot, conflict: Clause, cut: set<nat>, first: Clause, seen: seq<nat>)
    requires CutClause(s, conflict, cut, first) && SeenIs(seen, cut + Vars(first))
    ensures forall v :: v in seen ==> v < VarCount(s.t)
  {
  }

  lemma UndoneVars(s: Snapshot, level: nat)
    requires Consistent(s) && level < CurLevel(s.t)
    ensures s.t.limits[level + 1] <= |s.t.lits| && VarCount(Undone(s, level).t) == VarCount(s.t)
  {
    hide ListsOk, ReasonsOk, WatchesComplete;
  }

  lemma LevelLimits(s: Snapshot)
    requires Consistent(s)
    ensures forall l :: Val(s.t, l) == True ==> Level(s.t, l.v) <= CurLevel(s.t)
  {
  }

  lemma TrueIsBounded(t: Trail, l: Lit)
    requires Val(t, l) == True
    ensures l.v < VarCount(t)
  {
  }

  /** After undoing everything, all variables are available which were before or have been assigned. */
  lemma AllAvailable(t: Trail, members: set<nat>, members2: set<nat>)
    requires Available(t, members) && members <= members2
    requires forall l :: Val(t, l) == True && Level(t, l.v) >= 0 ==> l.v in members2
    ensures forall t2 :: VarCount(t2) == VarCount(t) ==> Available(t2, members2)
  {
    forall v: nat | v < VarCount(t) ensures v in members2 {
      if Val(t, Lit(v, true)) != Indet {
        TrueLitFacts(t, Lit(v, true));
      }
    }
  }

  lemma LevelAvailable(s: Snapshot, members: set<nat>)
    ensures Available(WithLevel(s).t, members) <==> Available(s.t, members)
  {
  }

  lemma AppendAvailable(s: Snapshot, s2: Snapshot, l: Lit, before: set<nat>, members: set<nat>)
    requires Consistent(s) && l.v < VarCount(s.t) && Val(s.t, l) == Indet
    requires Available(s.t, before) && before <= members + {l.v}
    requires |s.t.levels| == |s.t.reasons| == |s.t.pos| == |s.t.vals|
    requires Progress(Pushed(s, l, None), s2)
    ensures Available(s2.t, members)
  {
  }

  lemma DecisionAvailable(s0: Snapshot, d: Lit, s: Snapshot, members: set<nat>)
    requires Consistent(WithLevel(s0)) && d.v < VarCount(s0.t) && Val(s0.t, d) == Indet
    requires |s0.t.levels| == |s0.t.reasons| == |s0.t.pos| == |s0.t.vals|
    requires Available(s0.t, members + {d.v}) && Progress(Decided(s0, d), s)
    ensures Available(s.t, members)
  {
  }

  lemma BackjumpAvailable(s: Snapshot, cl: Clause, redundant: bool, b: nat, s3: Snapshot, before: set<nat>,
                          members: set<nat>)
    requires Consistent(s) && b < CurLevel(s.t) && s.t.limits[b + 1] <= |s.t.lits| && |cl| >= 2 && StoreOk(s.st)
    requires |s.t.levels| == |s.t.reasons| == |s.t.pos| == |s.t.vals| && cl[0].v < VarCount(s.t)
    requires Progress(Backjumped(s, cl, redundant, b), s3)
    requires Available(s.t, before) && before <= members
    requires forall l :: Val(s.t, l) == True && Level(s.t, l.v) >= b + 1 ==> l.v in members
    ensures Available(s3.t, members)
  {
    ConsistentTrail(s);
    hide ListsOk, ReasonsOk, WatchesComplete;
    UndoFacts(s.t, b);
    var t2 := Backjumped(s, cl, redundant, b).t;
    forall v: nat | v < VarCount(s3.t) && Val(s3.t, Lit(v, true)) == Indet ensures v in members {
      assert Val(t2, Lit(v, true)) == Indet;
      assert Val(UndoTo(s.t, b), Lit(v, true)) == Indet;
      if Val(s.t, Lit(v, true)) != Indet {
        TrueLitFacts(s.t, Lit(v, true));
      }
    }
  }

  /** The state after propagating what a lemma has forced. */
  lemma BackjumpPropagated(s: Snapshot, r: Record, facts: seq<Lit>, assumptions: seq<Lit>, cl: Clause, redundant: bool,
                           b: nat, t0: Trail, s3: Snapshot)
    requires b < CurLevel(s.t) && s.t.limits[b + 1] <= |s.t.lits| && |cl| >= 2 && StoreOk(s.st)
    requires |s.t.levels| == |s.t.reasons| == |s.t.pos| == |s.t.vals| && cl[0].v < VarCount(s.t)
    requires
      var s2 := Backjumped(s, cl, redundant, b);
      && Searching(s2, facts, assumptions) && Knowing(s2, r, facts) && CurLevel(s2.t) == b && Beyond(t0, s2.t, b)
      && Progress(s2, s3) && Consistent(s3) && s2.settled <= s3.settled && s3.skipped == s2.skipped
    ensures Searching(s3, facts, assumptions) && Knowing(s3, r, facts) && CurLevel(s3.t) == b && Beyond(t0, s3.t, b)
    ensures VarCount(s3.t) == VarCount(s.t) && |s3.st.lits| == |s.st.lits| + 1 && s3.stale == s.stale
    ensures Permuted(WithNew(s.st, cl, redundant), s3.st)
    ensures forall c :: IsRedundant(s3.st, c) == IsRedundant(WithNew(s.st, cl, redundant), c)
  {
    hide Consistent, Searching, Knowing, Beyond;
    var s2 := Backjumped(s, cl, redundant, b);
    ProgressSearching(s2, s3, facts, assumptions);
    ProgressKnowing(s2, s3, r, facts);
    BeyondMore(t0, s2, s3);
    ProgressFrame(s2, s3);
  }

  /** If nothing is assigned before and afterwards, all variables remain available. */
  lemma RestAvailable(s: Snapshot, s2: Snapshot, members: set<nat>)
    requires AtRest(s) && VarCount(s2.t) == VarCount(s.t) && Available(s.t, members)
    ensures Available(s2.t, members)
  {
    NothingOnTrail(s.t);
  }

  lemma ReadyAvailable(s: Snapshot, s2: Snapshot, r: Record, r2: Record, facts: seq<Lit>, facts2: seq<Lit>,
                       members: set<nat>)
    requires Ready(s, r, facts) && Ready(s2, r2, facts2) && VarCount(s2.t) == VarCount(s.t) && Available(s.t, members)
    ensures Available(s2.t, members)
  {
    hide Consistent, Knowing;
    RestAvailable(s, s2, members);
  }

  lemma GrownAvailable(t: Trail, t2: Trail, members: set<nat>, members2: set<nat>)
    requires Available(t, members) && VarCount(t) <= VarCount(t2) && forall l :: Val(t2, l) == Val(t, l)
    requires forall v: nat :: v in members2 <==> v in members || VarCount(t) <= v < VarCount(t2)
    ensures Available(t2, members2)
  {
  }

  /** Unassigned variables are eligible for decisions: facts and assumptions are assigned. */
  lemma EligibleIfUnassigned(s: Snapshot, facts: seq<Lit>, assumptions: seq<Lit>, eligible: seq<bool>)
    requires Searching(s, facts, assumptions) && Excluded(eligible, facts, assumptions)
    ensures forall v: nat :: v < |eligible| && Val(s.t, Lit(v, true)) == Indet ==> eligible[v]
  {
  }

  /** As long as the assignment is not complete, there is a variable to be picked. */
  lemma SomeCandidate(s: Snapshot, facts: seq<Lit>, assumptions: seq<Lit>, eligible: seq<bool>, members: set<nat>)
    requires Searching(s, facts, assumptions) && Excluded(eligible, facts, assumptions) && Available(s.t, members)
    requires |eligible| == VarCount(s.t) != |s.t.lits|
    ensures exists v: nat :: v in members && v < |eligible| && eligible[v] && Val(s.t, Lit(v, true)) == Indet
  {
    SearchingConsistent(s, facts, assumptions);
    ConsistentTrail(s);
    EligibleIfUnassigned(s, facts, assumptions, eligible);
    hide Consistent, Searching, Excluded;
    TrailBound(s.t);
    SomeUnassigned(s.t);
    var v: nat :| v < VarCount(s.t) && s.t.vals[v] == Indet;
    assert Val(s.t, Lit(v, true)) == Indet;
  }

  /** What propagation leaves unchanged. */
  lemma ProgressFrame(s: Snapshot, s2: Snapshot)
    requires Progress(s, s2)
    ensures VarCount(s2.t) == VarCount(s.t) && CurLevel(s2.t) == CurLevel(s.t) && |s2.st.lits| == |s.st.lits|
    ensures forall c :: IsRedundant(s2.st, c) == IsRedundant(s.st, c)
    ensures s2.stale == s.stale
  {
  }

  lemma StillAsymmetric(f: Formula, c: Clause, d: Clause)
    requires AsymmetricTautology(f, c) && SameLits(d, c)
    ensures AsymmetricTautology(f, d)
  {
  }

  lemma SearchingConsistent(s: Snapshot, facts: seq<Lit>, assumptions: seq<Lit>)
    requires Searching(s, facts, assumptions)
    ensures Consistent(s) && CurLevel(s.t) >= 1
  {
  }

  lemma ConflictReference(s: Snapshot, c: CRef)
    requires Consistent(s) && Conflicting(s, c)
    ensures c < |s.st.lits|
  {
  }

  lemma CutClauseBasics(s: Snapshot, conflict: Clause, cut: set<nat>, first: Clause)
    requires CutClause(s, conflict, cut, first)
    ensures |first| >= 1 && forall x :: x in first ==> Val(s.t, x) != Indet
  {
  }

  lemma RewardedFacts(a: seq<real>, delta: real, analysis: Analysis, a2: seq<real>, d: real, delta2: real, rate: real)
    requires exists k :: Bumped(a, delta, analysis.cut + Vars(analysis.first), a2, d, k)
    requires rate != 0.0 && delta2 == d * (1.0 / rate)
    ensures Rewarded(a, delta, analysis.cut + Vars(analysis.first), a2, delta2, rate)
  {
  }

  /** A conflict on the level of the assumptions refutes facts and assumptions. */
  lemma FinalRefutes(s: Snapshot, r: Record, facts: seq<Lit>, assumptions: seq<Lit>, c: CRef)
    requires Searching(s, facts, assumptions) && Knowing(s, r, facts) && CurLevel(s.t) == 1 && Conflicting(s, c)
    ensures LiveRefuted(s.st, facts + assumptions)
  {
    hide Consistent, Knowing, Conflicting, LiveRefuted;
    ConflictRefutesLive(s, r, facts, assumptions);
  }

  lemma TrailLengths(s: Snapshot)
    requires Consistent(s)
    ensures |s.t.levels| == |s.t.reasons| == |s.t.pos| == |s.t.vals|
  {
  }

  lemma OptimizedMinimized(s: Snapshot, first: Clause, sizeBound: nat, lbdBound: nat)
    requires |first| >= 1
    ensures Minimized(s, first, Optimized(s, first, sizeBound, lbdBound))
  {
  }

  /** When a conflict is analyzed, the stamp map is large enough for all levels. */
  lemma LevelsStampable(s: Snapshot, c: CRef, facts: seq<Lit>, assumptions: seq<Lit>)
    requires Searching(s, facts, assumptions) && CurLevel(s.t) >= 2 && Conflicting(s, c)
    ensures forall x :: Val(s.t, x) != Indet ==> Level(s.t, x.v) < 2 * VarCount(s.t)
  {
    ConsistentTrail(s);
    LevelsBounded(s.t);
    TrailBound(s.t);
    LevelBound(s.t, CurLevel(s.t));
    TwoVariables(s, c);
    hide Consistent, DecisionLevels, FixpointBelow;
    assert Cl(s.st, c)[0] in Cl(s.st, c) && Cl(s.st, c)[1] in Cl(s.st, c);
  }

  /** A learnt fact has not been known before. */
  lemma LearntIsNew(s: Snapshot, facts: seq<Lit>, assumptions: seq<Lit>, kept: Clause)
    requires Searching(s, facts, assumptions) && Learnt(s, kept)
    ensures kept[0] !in facts
  {
    hide Consistent, Rooted, DecisionLevels, FixpointBelow;
    assert kept[0] in kept;
  }

  lemma LearntLiterals(s: Snapshot, kept: Clause)
    requires Learnt(s, kept)
    ensures |kept| >= 1 && kept[0].v < VarCount(s.t)
  {
    assert kept[0] in kept;
  }

  lemma StoreGrown(s: Snapshot, r: Record, facts: seq<Lit>, assumptions: seq<Lit>, cl: Clause)
    requires Searching(s, facts, assumptions) && Knowing(s, r, facts)
    ensures Consistent(s.(st := WithNew(s.st, cl, false))) && |s.st.lits| !in s.reg
  {
    SearchingConsistent(s, facts, assumptions);
    KeptStoreOk(s, r, facts);
    NewClauseAgrees(s, cl, false);
    StoreChange(s, WithNew(s.st, cl, false));
  }

  lemma SameTrailLearnt(s: Snapshot, s2: Snapshot, cl: Clause)
    requires s2.t == s.t && Learnt(s, cl)
    ensures Learnt(s2, cl)
  {
  }

}
