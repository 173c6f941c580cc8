// How the knowledge of the solver changes: facts and clauses are learnt, moved and deleted.

module Derivations {
  import opened Literals
  import opened Logic
  import opened Trails
  import opened Watching
  import opened PropagationSteps
  import opened Traversal
  import opened Lifecycle
  import opened ImplicationGraph
  import opened AssignmentAnalysis
  import opened Ranking
  import opened SearchState
  import opened ClauseDatabase
  import opened Compression
  import opened Soundness

  /** All clauses of the solver are registered and follow from the problem. */
  ghost predicate Knowing(s: Snapshot, r: Record, facts: seq<Lit>) {
    Kept(r, facts, s.st, VarCount(s.t)) && AllRegistered(s)
  }

  function WithLine(r: Record, c: Clause): Record {
    r.(lines := r.lines + [c])
  }

  // ---- the record ------------------------------------------------------------------

  lemma LineAdded(r: Record, c: Clause)
    requires ProofOk(r) && AsymmetricTautology(Known(r), c)
    ensures ProofOk(WithLine(r, c))
    ensures forall d :: d in Known(r) ==> d in Known(WithLine(r, c))
    ensures c in Known(WithLine(r, c))
  {
    var r2 := WithLine(r, c);
    forall i | 0 <= i < |r2.lines| ensures AsymmetricTautology(r2.problem + r2.lines[..i], r2.lines[i]) {
      if i < |r.lines| {
        assert r2.lines[..i] == r.lines[..i];
      } else {
        assert r2.lines[..i] == r.lines;
      }
    }
    assert Known(r2)[|Known(r)|] == c;
  }

  lemma ClauseAdded(r: Record, c: Clause)
    requires ProofOk(r)
    ensures
      var r2 := r.(problem := r.problem + [c]);
      ProofOk(r2) && (forall d :: d in Known(r) ==> d in Known(r2)) && c in Known(r2)
  {
  }

  /** Everything derived follows from the problem. */
  lemma {:induction false} LinesFollow(r: Record, m: Model, k: nat)
    requires ProofOk(r) && FormulaHolds(m, r.problem) && k <= |r.lines|
    ensures FormulaHolds(m, r.problem + r.lines[..k])
  {
    if k > 0 {
      LinesFollow(r, m, k - 1);
      AsymmetricTautologyIsEntailed(r.problem + r.lines[..k - 1], r.lines[k - 1]);
      assert r.lines[..k] == r.lines[..k - 1] + [r.lines[k - 1]];
    } else {
      assert r.problem + r.lines[..0] == r.problem;
    }
  }

  lemma UnitsHold(m: Model, ls: seq<Lit>)
    ensures FormulaHolds(m, Units(ls)) <==> forall l :: l in ls ==> LitHolds(m, l)
  {
    forall l | l in ls ensures [l] in Units(ls) {
      var i :| 0 <= i < |ls| && ls[i] == l;
      assert Units(ls)[i] == [l];
    }
    if FormulaHolds(m, Units(ls)) {
      forall l | l in ls ensures LitHolds(m, l) {
        assert ClauseHolds(m, [l]);
      }
    } else {
      var c :| c in Units(ls) && !ClauseHolds(m, c);
      assert exists i :: 0 <= i < |ls| && c == [ls[i]];
      assert c[0] in ls && c[0] in c;
    }
  }

  /** Unit propagation refutes the problem together with the literals `ls`. */
  ghost predicate Refuted(r: Record, ls: seq<Lit>) {
    AsymmetricTautology(Known(r) + Units(ls), [])
  }

  /** If unit propagation leads to a conflict, then the problem has no model with these literals. */
  lemma RefutedIsUnsatisfiable(r: Record, ls: seq<Lit>)
    requires ProofOk(r) && Refuted(r, ls)
    ensures !Satisfiable(r.problem + Units(ls))
  {
    assert r.lines[..|r.lines|] == r.lines;
    forall m: Model | FormulaHolds(m, r.problem) && FormulaHolds(m, Units(ls)) ensures FormulaHolds(m, Known(r) + Units(ls)) {
      LinesFollow(r, m, |r.lines|);
    }
    AsymmetricTautologyIsEntailed(Known(r) + Units(ls), []);
    forall m: Model ensures !FormulaHolds(m, r.problem + Units(ls)) {
      assert !ClauseHolds(m, []);
      assert FormulaHolds(m, r.problem + Units(ls)) ==> FormulaHolds(m, r.problem) && FormulaHolds(m, Units(ls));
    }
  }

  lemma ClosedUnderUnits(u: iset<Lit>, f: Formula, ls: seq<Lit>)
    requires UpClosed(u, f + Units(ls))
    ensures UpClosed(u, f) && forall l :: l in ls ==> l in u
  {
    forall l | l in ls ensures l in u {
      var i :| 0 <= i < |ls| && ls[i] == l;
      assert Units(ls)[i] == [l];
      assert ClosedUnder(u, [l]);
      assert l in [l];
    }
  }

  // ---- conflicts on the levels of facts and assumptions ------------------------------

  /** The state while facts (on level 0) and assumptions (on level 1) are being assigned. */
  ghost predicate Grounded(s: Snapshot, facts: seq<Lit>, assumptions: seq<Lit>) {
    Consistent(s) && Rooted(s.t, facts, assumptions) && CurLevel(s.t) <= 1
  }

  /** The literals assumed on the current level. */
  function Assumed(level: nat, assumptions: seq<Lit>): seq<Lit> {
    if level == 0 then [] else assumptions
  }

  /** Unit propagation derives all true literals from the facts and assumptions. */
  lemma GroundedPropagates(s: Snapshot, r: Record, facts: seq<Lit>, assumptions: seq<Lit>, u: iset<Lit>)
    requires Grounded(s, facts, assumptions) && Knowing(s, r, facts)
    requires UpClosed(u, Known(r) + Units(Assumed(CurLevel(s.t), assumptions)))
    ensures UpClosed(u, Known(r)) && forall l :: Val(s.t, l) == True ==> l in u
  {
    hide Consistent, Rooted, UpClosed;
    ClosedUnderUnits(u, Known(r), Assumed(CurLevel(s.t), assumptions));
    ClosedUnderKept(u, Known(r), s);
    RootedPropagates(s, facts, assumptions, u, CurLevel(s.t));
    ConsistentTrail(s);
    LevelsBounded(s.t);
  }

  /** A clause falsified on level 0 or 1 refutes facts and assumptions. */
  lemma ConflictRefutes(s: Snapshot, r: Record, facts: seq<Lit>, assumptions: seq<Lit>, c: CRef)
    requires Grounded(s, facts, assumptions) && Knowing(s, r, facts) && Conflicting(s, c)
    ensures Refuted(r, Assumed(CurLevel(s.t), assumptions))
  {
    hide Grounded, Consistent;
    var f := Known(r) + Units(Assumed(CurLevel(s.t), assumptions));
    forall u: iset<Lit> | UpClosed(u, f) && Refutes(u, []) ensures UpConflict(u, f) {
      GroundedPropagates(s, r, facts, assumptions, u);
      FalsifiedCopy(u, Known(r), Cl(s.st, c));
      MoreClauses(u, Known(r), f);
    }
  }

  /** The same holds for a fact or an assumption whose opposite is true already. */
  lemma OppositeRefutes(s: Snapshot, r: Record, facts: seq<Lit>, assumptions: seq<Lit>, l: Lit)
    requires Grounded(s, facts, assumptions) && Knowing(s, r, facts)
    requires Val(s.t, l) == False && l in (if CurLevel(s.t) == 0 then facts else assumptions)
    ensures Refuted(r, Assumed(CurLevel(s.t), assumptions))
  {
    hide Grounded, Consistent;
    var ls := Assumed(CurLevel(s.t), assumptions);
    var f := Known(r) + Units(ls);
    forall u: iset<Lit> | UpClosed(u, f) && Refutes(u, []) ensures UpConflict(u, f) {
      GroundedPropagates(s, r, facts, assumptions, u);
      assert Val(s.t, Neg(l)) == True;
      if CurLevel(s.t) == 0 {
        DerivedContradiction(u, Known(r), l);
        MoreClauses(u, Known(r), f);
      } else {
        UnitFalsified(u, Known(r), ls, l);
      }
    }
  }

  lemma UnitFalsified(u: iset<Lit>, f: Formula, ls: seq<Lit>, l: Lit)
    requires l in ls && Neg(l) in u
    ensures UpConflict(u, f + Units(ls))
  {
    var i :| 0 <= i < |ls| && ls[i] == l;
    assert Units(ls)[i] == [l];
    assert Falsified(u, [l]) && [l] in f + Units(ls);
  }

  // ---- lemmas ----------------------------------------------------------------------

  /** Every lemma is an asymmetric tautology with respect to what is known. */
  lemma LemmaIsTautology(s: Snapshot, r: Record, facts: seq<Lit>, assumptions: seq<Lit>, c: CRef, cut: set<nat>,
                         first: Clause, kept: Clause)
    requires Searching(s, facts, assumptions) && Knowing(s, r, facts)
    requires CutClause(s, Cl(s.st, c), cut, first) && Minimized(s, first, kept) && Conflicting(s, c)
    ensures AsymmetricTautology(Known(r), kept)
  {
    hide Consistent, CutClause, Minimized, UpClosed;
    forall u: iset<Lit> | UpClosed(u, Known(r)) && Refutes(u, kept) ensures UpConflict(u, Known(r)) {
      ClosedUnderKept(u, Known(r), s);
      RootedPropagates(s, facts, assumptions, u, 0);
      MinimizedRefutes(s, c, cut, first, kept, u);
      FalsifiedCopy(u, Known(r), Cl(s.st, c));
    }
  }

  lemma FactLearnt(r: Record, facts: seq<Lit>, st: Store, n: nat, l: Lit)
    requires Kept(r, facts, st, n) && AsymmetricTautology(Known(r), [l]) && l.v < n
    ensures Kept(WithLine(r, [l]), facts + [l], st, n)
  {
    hide AsymmetricTautology;
    var r2 := WithLine(r, [l]);
    LineAdded(r, [l]);
    BackedMore(r, r2, facts, st, n, n);
    forall u: iset<Lit>, x | UpClosed(u, Known(r2)) && x in facts + [l] ensures x in u {
      assert ClosedUnder(u, [l]);
      assert l in [l];
    }
    FactsAccounted(r.problem, facts, facts + [l], st);
  }

  lemma FactsAccounted(problem: Formula, facts: seq<Lit>, facts2: seq<Lit>, st: Store)
    requires AllAccounted(problem, facts, st)
    requires forall l :: l in facts ==> l in facts2
    ensures AllAccounted(problem, facts2, st)
  {
  }

  /** Known clauses and facts remain known when the record and the number of variables grow. */
  lemma BackedMore(r: Record, r2: Record, facts: seq<Lit>, st: Store, n: nat, n2: nat)
    requires Backed(r, facts, st, n) && ProofOk(r2) && (forall d :: d in Known(r) ==> d in Known(r2)) && n <= n2
    ensures Backed(r2, facts, st, n2)
  {
  }

  lemma WithNewFacts(st: Store, cl: Clause, redundant: bool)
    requires StoreOk(st)
    ensures StoreOk(WithNew(st, cl, redundant))
    ensures forall c :: IsLive(WithNew(st, cl, redundant), c) <==> IsLive(st, c) || c == |st.lits|
    ensures forall c: CRef :: c < |st.lits| ==>
              Cl(WithNew(st, cl, redundant), c) == Cl(st, c) &&
              IsRedundant(WithNew(st, cl, redundant), c) == IsRedundant(st, c) &&
              IsDeleted(WithNew(st, cl, redundant), c) == IsDeleted(st, c)
    ensures Cl(WithNew(st, cl, redundant), |st.lits|) == cl
    ensures IsRedundant(WithNew(st, cl, redundant), |st.lits|) == redundant
  {
  }

  lemma StoreAccounted(problem: Formula, facts: seq<Lit>, st: Store, st2: Store)
    requires AllAccounted(problem, facts, st)
    requires forall c :: IsLive(st, c) && !IsRedundant(st, c) ==>
               IsLive(st2, c) && !IsRedundant(st2, c) && SameLits(Cl(st2, c), Cl(st, c))
    ensures AllAccounted(problem, facts, st2)
  {
  }

  lemma LemmaStored(r: Record, facts: seq<Lit>, st: Store, n: nat, line: Clause, cl: Clause, redundant: bool)
    requires Kept(r, facts, st, n) && AsymmetricTautology(Known(r), line) && SameLits(cl, line)
    requires |cl| >= 2 && DistinctVars(cl) && Bounded(cl, n)
    ensures Kept(WithLine(r, line), facts, WithNew(st, cl, redundant), n)
  {
    hide AsymmetricTautology, DistinctVars, Bounded, IsLive;
    var r2 := WithLine(r, line);
    LineAdded(r, line);
    BackedMore(r, r2, facts, st, n, n);
    ClauseStored(r2, facts, st, n, cl, redundant);
    MoreAccounted(r.problem, facts, st, cl, redundant);
  }

  /** A known clause may be stored. */
  lemma ClauseStored(r: Record, facts: seq<Lit>, st: Store, n: nat, cl: Clause, redundant: bool)
    requires Backed(r, facts, st, n) && HasCopy(Known(r), cl)
    requires |cl| >= 2 && DistinctVars(cl) && Bounded(cl, n)
    ensures Backed(r, facts, WithNew(st, cl, redundant), n)
  {
    hide DistinctVars, Bounded, IsLive, SameLits, ProofOk, Derives;
    var st2 := WithNew(st, cl, redundant);
    WithNewFacts(st, cl, redundant);
    forall c | IsLive(st2, c) ensures ClauseKept(st2, c, Known(r), n) {
      if c != |st.lits| {
        LiveInStore(st, c);
        assert ClauseKept(st, c, Known(r), n);
      }
    }
  }

  lemma MoreAccounted(problem: Formula, facts: seq<Lit>, st: Store, cl: Clause, redundant: bool)
    requires AllAccounted(problem, facts, st) && StoreOk(st)
    ensures AllAccounted(problem, facts, WithNew(st, cl, redundant))
  {
    hide IsLive, SameLits;
    var st2 := WithNew(st, cl, redundant);
    WithNewFacts(st, cl, redundant);
    forall c | IsLive(st, c) ensures SameLits(Cl(st2, c), Cl(st, c)) && IsRedundant(st2, c) == IsRedundant(st, c) {
      LiveInStore(st, c);
      SameLitsSelf(Cl(st, c));
    }
    StoreAccounted(problem, facts, st, st2);
  }

  lemma LiveInStore(st: Store, c: CRef)
    requires IsLive(st, c)
    ensures c < |st.lits|
  {
  }

  lemma SameLitsSelf(c: Clause)
    ensures SameLits(c, c)
  {
  }

  // ---- propagation -----------------------------------------------------------------

  /** Propagation rearranges clauses, but nothing is lost. */
  lemma ProgressKnowing(s: Snapshot, s2: Snapshot, r: Record, facts: seq<Lit>)
    requires Knowing(s, r, facts) && Progress(s, s2) && Consistent(s2)
    ensures Knowing(s2, r, facts)
  {
    hide ListsOk, ReasonsOk, WatchesComplete, TrailOk, SettledOk, ProofOk, Derives;
    assert forall c :: IsLive(s2.st, c) <==> IsLive(s.st, c);
    forall c | IsLive(s2.st, c) ensures ClauseKept(s2.st, c, Known(r), VarCount(s2.t)) {
      assert ClauseKept(s.st, c, Known(r), VarCount(s.t));
      assert SameLits(Cl(s2.st, c), Cl(s.st, c));
      var d :| d in Known(r) && SameLits(Cl(s.st, c), d);
      assert SameLits(Cl(s2.st, c), d);
      assert c in s2.reg;
    }
    StoreAccounted(r.problem, facts, s.st, s2.st);
  }

  // ---- facts -----------------------------------------------------------------------

  /** After propagation of the facts, they can be replaced by everything assigned on level 0. */
  lemma TrailAsFacts(s: Snapshot, r: Record, facts: seq<Lit>, assumptions: seq<Lit>)
    requires Grounded(s, facts, assumptions) && Knowing(s, r, facts) && CurLevel(s.t) == 0 && AllTrue(s.t, facts, 0)
    ensures Knowing(s, r, s.t.lits) && AllTrue(s.t, s.t.lits, 0) && Rooted(s.t, s.t.lits, assumptions)
  {
    ConsistentTrail(s);
    LevelsBounded(s.t);
    TrailTrue(s.t);
    hide Consistent, Rooted, UpClosed, AsymmetricTautology;
    forall u: iset<Lit>, l | UpClosed(u, Known(r)) && l in s.t.lits ensures l in u {
      assert Known(r) + Units([]) == Known(r);
      GroundedPropagates(s, r, facts, assumptions, u);
    }
    FactsOnTrail(s.t, facts);
    FactsAccounted(r.problem, facts, s.t.lits, s.st);
    TrailRooted(s.t, assumptions);
  }

  lemma TrailTrue(t: Trail)
    requires TrailOk(t)
    ensures forall l :: l in t.lits <==> Val(t, l) == True
    ensures forall l :: l in t.lits ==> l.v < VarCount(t)
  {
  }

  lemma FactsOnTrail(t: Trail, facts: seq<Lit>)
    requires TrailOk(t) && AllTrue(t, facts, 0)
    ensures forall l :: l in facts ==> l in t.lits
  {
  }

  lemma TrailRooted(t: Trail, assumptions: seq<Lit>)
    requires forall l :: l in t.lits ==> Level(t, l.v) == 0
    ensures Rooted(t, t.lits, assumptions)
  {
  }

  // ---- models ----------------------------------------------------------------------

  /** `m` makes all literals of the trail true. */
  ghost predicate Agrees(m: Model, t: Trail) {
    forall l :: Val(t, l) == True ==> LitHolds(m, l)
  }

  /** A complete assignment without conflict satisfies problem and assumptions. */
  lemma CompleteIsModel(s: Snapshot, r: Record, facts: seq<Lit>, assumptions: seq<Lit>, m: Model)
    requires Searching(s, facts, assumptions) && Knowing(s, r, facts) && Fixpoint(s)
    requires |s.t.lits| == VarCount(s.t) && Agrees(m, s.t) && [] !in r.problem
    ensures FormulaHolds(m, r.problem + Units(assumptions))
  {
    NoStale(s, facts);
    hide Consistent, AllRegistered, Derives, ProofOk;
    forall p | p in r.problem ensures ClauseHolds(m, p) {
      assert Accounted(p, facts, s.st);
      if Tautology(p) {
        var l :| l in p && Neg(l) in p;
        assert LitHolds(m, l) || LitHolds(m, Neg(l));
      } else if l :| l in p && l in facts {
        assert Val(s.t, l) == True;
      } else {
        var c :| IsLive(s.st, c) && !IsRedundant(s.st, c) && forall x :: x in Cl(s.st, c) ==> x in p;
        var x := TotalClause(s, c);
      }
    }
    UnitsHold(m, assumptions);
  }

  lemma TotalClause(s: Snapshot, c: CRef) returns (x: Lit)
    requires Consistent(s) && Fixpoint(s) && NoStaleTrue(s) && AllRegistered(s) && IsLive(s.st, c)
    requires |s.t.lits| == VarCount(s.t)
    ensures x in Cl(s.st, c) && Val(s.t, x) == True
  {
    hide ListsOk, ReasonsOk, WatchesComplete;
    FixpointComplete(s, c);
    TrailBound(s.t);
    assert Cl(s.st, c)[0] in Cl(s.st, c);
    x :| x in Cl(s.st, c) && Val(s.t, x) == True;
  }

  // ---- facts and assumptions -------------------------------------------------------

  lemma PushRooted(t: Trail, l: Lit, facts: seq<Lit>, assumptions: seq<Lit>)
    requires TrailOk(t) && Rooted(t, facts, assumptions) && l.v < VarCount(t) && Val(t, l) == Indet
    requires CurLevel(t) == 0 ==> l in facts
    requires CurLevel(t) == 1 ==> l in assumptions
    ensures Rooted(Push(t, l, None), facts, assumptions)
  {
  }

  lemma PushTruth(t: Trail, l: Lit, ls: seq<Lit>, level: nat)
    requires TrailOk(t) && l.v < VarCount(t) && Val(t, l) == Indet
    ensures AllTrue(t, ls, level) ==> AllTrue(Push(t, l, None), ls, level)
    ensures CurLevel(t) <= level ==> AllTrue(Push(t, l, None), [l], level)
  {
  }

  /** Assigning and propagating a fact or an assumption. */
  lemma GroundedStep(s: Snapshot, s2: Snapshot, r: Record, facts: seq<Lit>, assumptions: seq<Lit>, l: Lit)
    requires Grounded(s, facts, assumptions) && Knowing(s, r, facts) && l.v < VarCount(s.t) && Val(s.t, l) == Indet
    requires l in (if CurLevel(s.t) == 0 then facts else assumptions)
    requires |s.t.levels| == |s.t.reasons| == |s.t.pos| == |s.t.vals|
    requires Progress(Pushed(s, l, None), s2) && Consistent(s2)
    ensures Grounded(s2, facts, assumptions) && Knowing(s2, r, facts) && CurLevel(s2.t) == CurLevel(s.t)
    ensures AllTrue(s2.t, [l], CurLevel(s.t))
    ensures forall ls, level :: AllTrue(s.t, ls, level) ==> AllTrue(s2.t, ls, level)
  {
    hide ListsOk, ReasonsOk, WatchesComplete, AllTrue, Rooted;
    var s1 := Pushed(s, l, None);
    AssignFacts(s, l);
    PushRooted(s.t, l, facts, assumptions);
    PushTruth(s.t, l, [l], CurLevel(s.t));
    ProgressRooted(s1, s2, facts, assumptions);
    ProgressKnowing(s1, s2, r, facts);
    ProgressTruth(s1, s2, [l], CurLevel(s.t));
    forall ls, level | AllTrue(s.t, ls, level) ensures AllTrue(s2.t, ls, level) {
      PushTruth(s.t, l, ls, level);
      ProgressTruth(s1, s2, ls, level);
    }
  }

  lemma AllTrueSplit(t: Trail, ls: seq<Lit>, l: Lit, level: nat)
    requires AllTrue(t, ls, level) && AllTrue(t, [l], level)
    ensures AllTrue(t, ls + [l], level)
  {
  }

  lemma TrueOnLevel(s: Snapshot, l: Lit)
    requires Consistent(s) && Val(s.t, l) == True
    ensures AllTrue(s.t, [l], CurLevel(s.t))
  {
  }

  ghost predicate StaleIsFalse(stale: set<Lit>, facts: seq<Lit>) {
    forall l :: l in stale ==> Neg(l) in facts
  }

  /** Nothing is assigned. */
  ghost predicate AtRest(s: Snapshot) {
    TrailOk(s.t) && s.t.lits == [] && CurLevel(s.t) == 0 && s.settled == {} && s.skipped == {}
  }

  /** The state between two runs of the search: nothing is assigned, and all clauses are registered. */
  ghost predicate Ready(s: Snapshot, r: Record, facts: seq<Lit>) {
    AtRest(s) && Consistent(s) && Knowing(s, r, facts) && StaleIsFalse(s.stale, facts)
  }

  lemma ReadyParts(s: Snapshot, r: Record, facts: seq<Lit>)
    requires Ready(s, r, facts)
    ensures Consistent(s) && Knowing(s, r, facts) && StaleIsFalse(s.stale, facts)
  {
  }

  lemma ReadyGrounded(s: Snapshot, r: Record, facts: seq<Lit>, assumptions: seq<Lit>)
    requires Ready(s, r, facts)
    ensures Grounded(s, facts, assumptions) && Fixpoint(s)
  {
    hide ListsOk, ReasonsOk, WatchesComplete;
    NothingOnTrail(s.t);
  }

  /** A new level is opened when all facts have been propagated. */
  lemma FactsDone(s: Snapshot, r: Record, facts: seq<Lit>, assumptions: seq<Lit>)
    requires Grounded(s, facts, assumptions) && Fixpoint(s) && CurLevel(s.t) == 0 && AllTrue(s.t, facts, 0)
    requires Knowing(s, r, facts)
    ensures
      var s2 := WithLevel(s);
      && Grounded(s2, facts, assumptions) && Fixpoint(s2) && CurLevel(s2.t) == 1 && AllTrue(s2.t, facts, 0)
      && Knowing(s2, r, facts)
  {
    OpenLevelKeeps(s);
    OpenLevelFacts(s.t);
    hide Consistent, TrailOk;
  }

  /** The search for a model starts when all assumptions have been propagated. */
  lemma AssumptionsDone(s: Snapshot, facts: seq<Lit>, assumptions: seq<Lit>)
    requires Grounded(s, facts, assumptions) && Fixpoint(s) && CurLevel(s.t) == 1
    requires AllTrue(s.t, facts, 0) && AllTrue(s.t, assumptions, 1) && StaleIsFalse(s.stale, facts)
    ensures Searching(s, facts, assumptions)
  {
  }

  // ---- backjumping -----------------------------------------------------------------

  /** The state after storing the lemma `cl`, returning to level `b` and letting `cl` force its first literal. */
  function Backjumped(s: Snapshot, cl: Clause, redundant: bool, b: nat): Snapshot
    requires b < CurLevel(s.t) && s.t.limits[b + 1] <= |s.t.lits| && |cl| >= 2 && StoreOk(s.st)
    requires |s.t.levels| == |s.t.reasons| == |s.t.pos| == |s.t.vals| && cl[0].v < VarCount(s.t)
  {
    var s1 := Undone(s.(st := WithNew(s.st, cl, redundant)), b);
    Pushed(Registered(s1, |s.st.lits|), cl[0], Some(|s.st.lits|))
  }

  lemma NewClauseAgrees(s: Snapshot, cl: Clause, redundant: bool)
    requires AllRegistered(s) && StoreOk(s.st)
    ensures StoreAgrees(s.st, WithNew(s.st, cl, redundant), s.reg) && |s.st.lits| !in s.reg
  {
  }

  lemma LearntBounds(s: Snapshot, cl: Clause)
    requires Learnt(s, cl)
    ensures Bounded(cl, VarCount(s.t)) && DistinctVars(cl)
  {
  }

  lemma BackjumpSearching(s: Snapshot, r: Record, facts: seq<Lit>, assumptions: seq<Lit>, line: Clause, cl: Clause,
                          redundant: bool, b: nat, t0: Trail)
    requires Searching(s, facts, assumptions) && Knowing(s, r, facts) && CurLevel(s.t) >= 2
    requires AsymmetricTautology(Known(r), line) && SameLits(cl, line) && BackjumpReady(s, cl, b)
    requires Beyond(t0, s.t, CurLevel(s.t))
    ensures 1 <= b < CurLevel(s.t) && s.t.limits[b + 1] <= |s.t.lits| && |cl| >= 2 && StoreOk(s.st)
    ensures |s.t.levels| == |s.t.reasons| == |s.t.pos| == |s.t.vals| && cl[0].v < VarCount(s.t)
    ensures
      var c, s0 := |s.st.lits|, s.(st := WithNew(s.st, cl, redundant));
      && Consistent(s0) && Registrable(Undone(s0, b), c) && Asserting(Undone(s0, b), c) && Fixpoint(Undone(s0, b))
      && var s2 := Backjumped(s, cl, redundant, b);
         Searching(s2, facts, assumptions) && Knowing(s2, WithLine(r, line), facts) && CurLevel(s2.t) == b &&
         Beyond(t0, s2.t, b)
  {
    hide Consistent, Rooted, DecisionLevels, AllTrue, FixpointBelow, Beyond, Kept, AsymmetricTautology, StoreAgrees,
         Learnt, Count, WithNew, SameLits;
    var c, s0 := |s.st.lits|, s.(st := WithNew(s.st, cl, redundant));
    KeptStoreOk(s, r, facts);
    NewClauseAgrees(s, cl, redundant);
    WithNewFacts(s.st, cl, redundant);
    StoreSearching(s, s0.st, facts, assumptions);
    SameTrailReady(s, s0, cl, b);
    LearntBounds(s, cl);
    BackjumpAsserting(s0, c, b);
    UndoSearching(s0, b, facts, assumptions);
    var s1 := Undone(s0, b);
    RegisterSearching(s1, c, facts, assumptions);
    LemmaStored(r, facts, s.st, VarCount(s.t), line, cl, redundant);
    BeyondAfterBackjump(t0, s.t, s1.t, Backjumped(s, cl, redundant, b).t, b);
  }

  lemma SameTrailReady(s: Snapshot, s2: Snapshot, cl: Clause, b: nat)
    requires s2.t == s.t && BackjumpReady(s, cl, b)
    ensures BackjumpReady(s2, cl, b)
  {
  }

  lemma KeptStoreOk(s: Snapshot, r: Record, facts: seq<Lit>)
    requires Knowing(s, r, facts) && Consistent(s)
    ensures StoreOk(s.st) && |s.t.levels| == |s.t.reasons| == |s.t.pos| == |s.t.vals|
  {
  }

  // ---- the clauses of the problem --------------------------------------------------

  function WithProblem(r: Record, p: Clause): Record {
    r.(problem := r.problem + [p])
  }

  /** A clause of the problem which is accounted for already. */
  lemma ProblemClauseKept(r: Record, p: Clause, facts: seq<Lit>, st: Store, n: nat)
    requires Kept(r, facts, st, n) && (p == [] || Tautology(p))
    ensures Kept(WithProblem(r, p), facts, st, n)
  {
  }

  /** A clause of the problem which is a fact. */
  lemma ProblemFactKept(r: Record, p: Clause, l: Lit, facts: seq<Lit>, st: Store, n: nat, n2: nat)
    requires Kept(r, facts, st, n) && SameLits([l], p) && n <= n2 && l.v < n2
    ensures Kept(WithProblem(r, p), facts + [l], st, n2)
  {
    var r2 := WithProblem(r, p);
    ClauseAdded(r, p);
    BackedMore(r, r2, facts, st, n, n2);
    assert l in [l];
    forall u: iset<Lit>, x | UpClosed(u, Known(r2)) && x in facts + [l] ensures x in u {
      assert ClosedUnder(u, p);
    }
    FactsAccounted(r.problem, facts, facts + [l], st);
  }

  /** A clause of the problem which is stored in a compressed form. */
  lemma ProblemClauseStored(r: Record, p: Clause, cl: Clause, facts: seq<Lit>, st: Store, n: nat, n2: nat)
    requires Kept(r, facts, st, n) && SameLits(cl, p) && n <= n2
    requires |cl| >= 2 && DistinctVars(cl) && Bounded(cl, n2)
    ensures Kept(WithProblem(r, p), facts, WithNew(st, cl, false), n2)
  {
    hide DistinctVars, Bounded, Derives, UpClosed;
    var r2, st2 := WithProblem(r, p), WithNew(st, cl, false);
    ClauseAdded(r, p);
    BackedMore(r, r2, facts, st, n, n2);
    ClauseStored(r2, facts, st, n2, cl, false);
    MoreAccounted(r.problem, facts, st, cl, false);
    WithNewFacts(st, cl, false);
    assert IsLive(st2, |st.lits|);
    assert Accounted(p, facts, st2);
  }

  // ---- deleting clauses ------------------------------------------------------------

  /** Redundant clauses may be deleted. */
  lemma DeleteKept(r: Record, facts: seq<Lit>, st: Store, n: nat, c: CRef)
    requires Kept(r, facts, st, n) && IsRedundant(st, c) && c < |st.deleted|
    ensures Kept(r, facts, st.(deleted := st.deleted[c := true]), n)
  {
    hide Derives, ProofOk, DistinctVars, Bounded;
    var st2 := st.(deleted := st.deleted[c := true]);
    forall d | IsLive(st2, d) ensures ClauseKept(st2, d, Known(r), n) {
      assert ClauseKept(st, d, Known(r), n);
    }
    StoreAccounted(r.problem, facts, st, st2);
  }

  /** Dropping the deleted clauses loses nothing. */
  lemma CompressKept(r: Record, facts: seq<Lit>, st: Store, n: nat)
    requires Kept(r, facts, st, n)
    ensures
      var st2 := Surviving(st, |st.lits|);
      Kept(r, facts, st2, n) && forall c :: !IsDeleted(st2, c)
  {
    hide Derives, ProofOk, DistinctVars, Bounded, IsLive, Surviving;
    var st2 := Surviving(st, |st.lits|);
    SurvivingFrom(st, |st.lits|, 0);
    forall d ensures !IsDeleted(st2, d) && (IsLive(st2, d) ==> ClauseKept(st2, d, Known(r), n)) {
      SurvivingFrom(st, |st.lits|, d);
      if IsLive(st2, d) {
        var c :| IsLive(st, c) && SameClause(st, c, st2, d);
        assert ClauseKept(st, c, Known(r), n);
      }
    }
    forall p | p in r.problem && p != [] ensures Accounted(p, facts, st2) {
      assert Accounted(p, facts, st);
      if c :| IsLive(st, c) && !IsRedundant(st, c) && forall x :: x in Cl(st, c) ==> x in p {
        LiveInStore(st, c);
        var d := SurvivingHas(st, |st.lits|, c);
      }
    }
  }

  // ---- failed assumptions ------------------------------------------------------------

  /** A falsified assumption together with the assumptions it can be traced back to is refuted. */
  lemma TracedCore(s: Snapshot, r: Record, facts: seq<Lit>, assumptions: seq<Lit>, l: Lit, trace: set<nat>,
                   roots: seq<Lit>)
    requires Grounded(s, facts, assumptions) && Knowing(s, r, facts) && CurLevel(s.t) == 1
    requires Val(s.t, l) == False && Reason(s.t, l.v).Some? && IsTrace(s, l.v, trace) && AreRoots(s, l.v, trace, roots)
    ensures forall x :: x in roots ==> x in assumptions
    ensures Refuted(r, [l] + roots)
  {
    ConsistentTrail(s);
    forall x | x in roots ensures x in assumptions {
      assert Val(s.t, x) == True && s.t.lits[Pos(s.t, x.v)] == x;
    }
    hide Consistent, Kept, UpClosed, AreRoots;
    var f := Known(r) + Units([l] + roots);
    forall u: iset<Lit> | UpClosed(u, f) && Refutes(u, []) ensures UpConflict(u, f) {
      ClosedUnderUnits(u, Known(r), [l] + roots);
      ClosedKept(u, s, r, facts);
      RootedPropagates(s, facts, assumptions, u, 0);
      assert forall x :: x in roots ==> x in [l] + roots;
      RootsPropagate(s, l.v, trace, roots, u, l.v);
      TrueLitFacts(s.t, l);
      assert l in [l] + roots;
      UnitFalsified(u, Known(r), [l] + roots, l);
    }
  }

  /** An assumption whose opposite holds on level 0 is refuted on its own. */
  lemma LevelZeroCore(s: Snapshot, r: Record, facts: seq<Lit>, assumptions: seq<Lit>, l: Lit)
    requires Grounded(s, facts, assumptions) && Knowing(s, r, facts) && Val(s.t, l) == False && Level(s.t, l.v) == 0
    ensures Refuted(r, [l])
  {
    hide Consistent, Kept, UpClosed;
    var f := Known(r) + Units([l]);
    forall u: iset<Lit> | UpClosed(u, f) && Refutes(u, []) ensures UpConflict(u, f) {
      ClosedUnderUnits(u, Known(r), [l]);
      ClosedKept(u, s, r, facts);
      RootedPropagates(s, facts, assumptions, u, 0);
      assert Val(s.t, Neg(l)) == True;
      assert l in [l];
      UnitFalsified(u, Known(r), [l], l);
    }
  }

  lemma ClosedKept(u: iset<Lit>, s: Snapshot, r: Record, facts: seq<Lit>)
    requires Knowing(s, r, facts) && UpClosed(u, Known(r))
    ensures ClosedUnderRegistered(u, s) && forall l :: l in facts ==> l in u
  {
  }

  lemma FailedAlone(l: Lit, failed: seq<Lit>, assumptions: seq<Lit>)
    requires failed == [l] && l in assumptions
    ensures forall x :: x in failed ==> x in assumptions
  {
  }

  // ---- preparing a search ------------------------------------------------------------

  lemma SameFactsKept(r: Record, facts: seq<Lit>, facts2: seq<Lit>, st: Store, n: nat, n2: nat)
    requires Kept(r, facts, st, n) && SameLits(facts2, facts) && n <= n2
    ensures Kept(r, facts2, st, n2)
  {
  }

  lemma StoreGrows(s: Snapshot, cl: Clause)
    requires Consistent(s) && StoreOk(s.st)
    ensures Consistent(s.(st := WithNew(s.st, cl, false)))
  {
    WithNewFacts(s.st, cl, false);
    assert StoreAgrees(s.st, WithNew(s.st, cl, false), s.reg);
    StoreChange(s, WithNew(s.st, cl, false));
  }

  /** The first `k` clauses have been registered, unless they are marked for deletion. */
  ghost predicate RegisteredUpTo(s: Snapshot, k: nat) {
    forall c: CRef :: c in s.reg <==> c < k && IsLive(s.st, c)
  }

  lemma RegisterNext(s: Snapshot, r: Record, facts: seq<Lit>, c: CRef)
    requires Consistent(s) && AtRest(s) && Kept(r, facts, s.st, VarCount(s.t)) && RegisteredUpTo(s, c)
    requires IsLive(s.st, c)
    ensures Registrable(s, c) && forall x :: x in Cl(s.st, c) ==> Val(s.t, x) == Indet
    ensures RegisteredUpTo(Registered(s, c), c + 1) && AtRest(Registered(s, c)) && Registered(s, c).st == s.st
  {
    hide Consistent, TrailOk, Derives, ProofOk, AllAccounted, DistinctVars, Bounded, HasCopy, WithClause, Val;
    NothingOnTrail(s.t);
    assert ClauseKept(s.st, c, Known(r), VarCount(s.t));
  }

  lemma PermutedSelf(st: Store)
    ensures Permuted(st, st)
  {
  }

  lemma NoneTrue(t: Trail, level: nat)
    ensures AllTrue(t, [], level)
  {
  }

  lemma FactsReplaced(s: Snapshot, r: Record, facts: seq<Lit>, assumptions: seq<Lit>)
    requires Grounded(s, facts, assumptions) && Knowing(s, r, facts) && CurLevel(s.t) == 0 && AllTrue(s.t, facts, 0)
    ensures Knowing(s, r, s.t.lits) && AllTrue(s.t, s.t.lits, 0) && Grounded(s, s.t.lits, assumptions)
    ensures StaleIsFalse(s.stale, facts) ==> StaleIsFalse(s.stale, s.t.lits)
    ensures forall l :: l in facts ==> l in s.t.lits
  {
    TrailAsFacts(s, r, facts, assumptions);
    ConsistentTrail(s);
    FactsOnTrail(s.t, facts);
  }

  lemma EmptiedReady(s: Snapshot, r: Record, facts: seq<Lit>)
    requires Consistent(s) && Knowing(s, r, facts) && StaleIsFalse(s.stale, facts)
    ensures |s.t.limits| >= 1 && Ready(Emptied(s), r, facts)
  {
  }

  /** The facts and the live clauses have the same models as the problem. */
  lemma KnowledgeIsProblem(r: Record, facts: seq<Lit>, st: Store, n: nat, m: Model)
    requires Kept(r, facts, st, n)
    ensures FormulaHolds(m, r.problem) <==>
            && [] !in r.problem && (forall l :: l in facts ==> LitHolds(m, l))
            && (forall c :: IsLive(st, c) ==> ClauseHolds(m, Cl(st, c)))
  {
    hide ProofOk, DistinctVars, Bounded;
    assert !ClauseHolds(m, []);
    if FormulaHolds(m, r.problem) {
      LinesFollow(r, m, |r.lines|);
      assert r.lines[..|r.lines|] == r.lines;
      ModelIsClosed(m, Known(r));
      forall l | l in facts ensures LitHolds(m, l) {
        assert l in TrueLits(m);
      }
      forall c | IsLive(st, c) ensures ClauseHolds(m, Cl(st, c)) {
        assert ClauseKept(st, c, Known(r), n);
        var d :| d in Known(r) && SameLits(Cl(st, c), d);
        assert ClauseHolds(m, d);
      }
    } else {
      var p :| p in r.problem && !ClauseHolds(m, p);
      assert p != [] ==> Accounted(p, facts, st);
    }
  }
}
