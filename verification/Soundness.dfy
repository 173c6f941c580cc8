// What the facts and clauses of the solver have to do with the problem it has been given.

module Soundness {
  import opened Literals
  import opened Logic
  import opened Trails
  import opened Watching
  import opened Traversal
  import opened Lifecycle
  import opened ImplicationGraph
  import opened ClauseMinimization
  import opened Ranking
  import opened ClauseDatabase
  import opened Compression
  import opened SearchState

  /** The clauses added by the user, and the clauses derived by the solver so far. */
  datatype Record = Record(problem: Formula, lines: Formula)

  /** Everything a proof checker knows if it ignores deletions. */
  function Known(r: Record): Formula {
    r.problem + r.lines
  }

  /** Unit propagation through `f` derives all literals of `ls`. */
  ghost predicate Derives(f: Formula, ls: seq<Lit>) {
    forall u: iset<Lit>, l :: UpClosed(u, f) && l in ls ==> l in u
  }

  ghost predicate HasCopy(f: Formula, c: Clause) {
    exists d :: d in f && SameLits(c, d)
  }

  ghost predicate ClauseKept(st: Store, c: CRef, f: Formula, n: nat) {
    |Cl(st, c)| >= 2 && DistinctVars(Cl(st, c)) && Bounded(Cl(st, c), n) && HasCopy(f, Cl(st, c))
  }

  /** Each derived clause is an asymmetric tautology with respect to the clauses before it. */
  ghost predicate ProofOk(r: Record) {
    forall i :: 0 <= i < |r.lines| ==> AsymmetricTautology(r.problem + r.lines[..i], r.lines[i])
  }

  /** Clause `p` of the problem follows from the facts and the irredundant clauses. */
  ghost predicate Accounted(p: Clause, facts: seq<Lit>, st: Store) {
    || Tautology(p)
    || (exists l :: l in p && l in facts)
    || (exists c :: IsLive(st, c) && !IsRedundant(st, c) && forall x :: x in Cl(st, c) ==> x in p)
  }

  ghost predicate AllAccounted(problem: Formula, facts: seq<Lit>, st: Store) {
    forall p :: p in problem && p != [] ==> Accounted(p, facts, st)
  }

  /** The facts and clauses of the solver are derived from the problem. */
  ghost predicate Backed(r: Record, facts: seq<Lit>, st: Store, n: nat) {
    && StoreOk(st)
    && (forall c :: IsLive(st, c) ==> ClauseKept(st, c, Known(r), n))
    && Derives(Known(r), facts) && (forall l :: l in facts ==> l.v < n)
    && ProofOk(r)
  }

  /** Facts and clauses follow from the problem, and the problem follows from them. */
  ghost predicate Kept(r: Record, facts: seq<Lit>, st: Store, n: nat) {
    Backed(r, facts, st, n) && AllAccounted(r.problem, facts, st)
  }

  ghost predicate AllRegistered(s: Snapshot) {
    forall c :: c in s.reg <==> IsLive(s.st, c)
  }

  // ---- unit propagation ------------------------------------------------------------

  lemma ClosedUnderCopy(u: iset<Lit>, c: Clause, d: Clause)
    requires SameLits(c, d)
    ensures ClosedUnder(u, c) <==> ClosedUnder(u, d)
    ensures Falsified(u, c) <==> Falsified(u, d)
  {
  }

  lemma ClosedUnderKept(u: iset<Lit>, f: Formula, s: Snapshot)
    requires UpClosed(u, f) && forall c :: c in s.reg ==> HasCopy(f, Cl(s.st, c))
    ensures ClosedUnderRegistered(u, s)
  {
  }

  lemma FalsifiedCopy(u: iset<Lit>, f: Formula, c: Clause)
    requires HasCopy(f, c) && Falsified(u, c)
    ensures UpConflict(u, f)
  {
  }

  /** If unit propagation derives `l` without further assumptions, assuming the opposite of `l` leads to a conflict. */
  lemma DerivedContradiction(u: iset<Lit>, f: Formula, l: Lit)
    requires Derives(f, [l]) && UpClosed(u, f) && Neg(l) in u
    ensures UpConflict(u, f)
  {
    assert l in [l];
    if !UpConflict(u, f) {
      var w := u - iset{l};
      forall c | c in f ensures ClosedUnder(w, c) {
        assert ClosedUnder(u, c) && !Falsified(u, c);
        var x :| x in c && Neg(x) !in u;
        assert x != l;
      }
      assert UpClosed(w, f);
    }
  }

  lemma MoreClauses(u: iset<Lit>, f: Formula, g: Formula)
    requires forall c :: c in f ==> c in g
    ensures UpClosed(u, g) ==> UpClosed(u, f)
    ensures UpConflict(u, f) ==> UpConflict(u, g)
  {
  }

  /** Given the unforced literals up to a level, unit propagation derives all literals up to that level. */
  lemma LevelsPropagate(s: Snapshot, u: iset<Lit>, level: nat, v: nat)
    requires Consistent(s) && ClosedUnderRegistered(u, s)
    requires forall i :: 0 <= i < |s.t.lits| && Reason(s.t, s.t.lits[i].v).None? && Level(s.t, s.t.lits[i].v) <= level ==>
               s.t.lits[i] in u
    requires Val(s.t, Lit(v, true)) != Indet && Level(s.t, v) <= level
    ensures TrueLit(s.t, v) in u
    decreases Pos(s.t, v)
  {
    PosBound(s, v);
    var p := TrueLit(s.t, v);
    TrailPos(s, Pos(s.t, v));
    assert s.t.lits[Pos(s.t, v)] == p;
    if Reason(s.t, v).Some? {
      hide Consistent;
      ReasonOf(s, v);
      var c := Reason(s.t, v).value;
      forall x | x in Cl(s.st, c) && x != p ensures Neg(x) in u {
        assert FalseBefore(s.t, x, Pos(s.t, v)) && x in ReasonClause(s, v);
        ReasonLevel(s, v, x);
        TrueLitFacts(s.t, x);
        LevelsPropagate(s, u, level, x.v);
      }
      assert ClosedUnder(u, Cl(s.st, c)) && p in Cl(s.st, c);
    }
  }

  /** Sets closed under unit propagation contain everything assigned on the levels of facts and assumptions. */
  lemma RootedPropagates(s: Snapshot, facts: seq<Lit>, assumptions: seq<Lit>, u: iset<Lit>, level: nat)
    requires Consistent(s) && ClosedUnderRegistered(u, s) && Rooted(s.t, facts, assumptions) && level <= 1
    requires forall l :: l in facts ==> l in u
    requires level == 1 ==> forall l :: l in assumptions ==> l in u
    ensures forall l :: Val(s.t, l) == True && Level(s.t, l.v) <= level ==> l in u
  {
    forall l | Val(s.t, l) == True && Level(s.t, l.v) <= level ensures l in u {
      LevelsPropagate(s, u, level, l.v);
    }
  }

  // ---- conflicts -------------------------------------------------------------------

  /** The watched literals of a falsified clause have been assigned on the current level. */
  lemma ConflictOnLevel(s: Snapshot, c: CRef)
    requires Consistent(s) && FixpointBelow(s, CurLevel(s.t)) && NoStaleTrue(s) && Conflicting(s, c)
    ensures |Cl(s.st, c)| >= 2
    ensures Level(s.t, Cl(s.st, c)[0].v) == CurLevel(s.t) && Level(s.t, Cl(s.st, c)[1].v) == CurLevel(s.t)
  {
    hide WatchesComplete;
    var cl := Cl(s.st, c);
    forall k | 0 <= k < 2 ensures Level(s.t, cl[k].v) == CurLevel(s.t) {
      assert cl[k] in cl;
      LevelOfPos(s.t, cl[k], 0);
      if Level(s.t, cl[k].v) < CurLevel(s.t) {
        VisitedTrue(s, c, k);
      }
    }
  }

  lemma VisitedTrue(s: Snapshot, c: CRef, k: nat)
    requires Consistent(s) && NoStaleTrue(s) && c in s.reg && k < 2 && k < |Cl(s.st, c)|
    requires Visited(s.st, c, Cl(s.st, c)[k], s.settled, s.skipped)
    ensures exists x :: x in Cl(s.st, c) && Val(s.t, x) == True
  {
  }

  /** A conflict above the levels of facts and assumptions can be analyzed. */
  lemma ConflictAnalyzable(s: Snapshot, c: CRef, facts: seq<Lit>, assumptions: seq<Lit>)
    requires Searching(s, facts, assumptions) && CurLevel(s.t) >= 2 && Conflicting(s, c)
    ensures AnalyzableConflict(s, c)
  {
    NoStale(s, facts);
    ConflictOnLevel(s, c);
    DecisionFirst(s.t);
    TwoVariables(s, c);
    hide Consistent, FixpointBelow, Conflicting;
    var cl := Cl(s.st, c);
    assert cl[0] in cl && cl[1] in cl;
  }

  lemma TwoVariables(s: Snapshot, c: CRef)
    requires Consistent(s) && c in s.reg
    ensures |Cl(s.st, c)| >= 2 && Cl(s.st, c)[0].v != Cl(s.st, c)[1].v
  {
  }

  lemma DecisionFirst(t: Trail)
    requires TrailOk(t) && DecisionLevels(t) && CurLevel(t) >= 2
    ensures OneDecision(t)
  {
  }

  // ---- derived clauses -------------------------------------------------------------

  /** `kept` is what minimization makes of the first-UIP clause `first`. */
  ghost predicate Minimized(s: Snapshot, first: Clause, kept: Clause) {
    && |first| >= 1
    && var erased := Dropping(first, RedundantLits(s, first));
       kept == erased || kept == Dropping(erased, ResolvableLits(s, first[0]))
  }

  /** Assuming the negation of a minimized lemma, unit propagation falsifies the clause which was in conflict. */
  lemma MinimizedRefutes(s: Snapshot, c: CRef, cut: set<nat>, first: Clause, kept: Clause, u: iset<Lit>)
    requires Consistent(s) && CutClause(s, Cl(s.st, c), cut, first) && Minimized(s, first, kept) && Conflicting(s, c)
    requires CurLevel(s.t) > 0
    requires ClosedUnderRegistered(u, s) && ContainsLevelZero(u, s.t) && Refutes(u, kept)
    ensures Falsified(u, Cl(s.st, c))
  {
    hide Consistent, Redundant;
    var erased := Dropping(first, RedundantLits(s, first));
    DroppingFacts(first, RedundantLits(s, first));
    AssertingKept(s, first, cut, Cl(s.st, c));
    if kept != erased {
      ResolvedRefutes(s, erased, first[0], u);
    }
    ErasedRefutes(s, first, erased, u);
    CutClauseFalsifies(s, Cl(s.st, c), cut, first, u);
  }

  /** The asserting literal is never redundant. */
  lemma AssertingKept(s: Snapshot, first: Clause, cut: set<nat>, conflict: Clause)
    requires CutClause(s, conflict, cut, first)
    requires CurLevel(s.t) > 0
    ensures !Redundant(s, first, first[0])
  {
  }

  /** Literals of level 0 are always redundant. */
  lemma LevelZeroRedundant(s: Snapshot, clause: Clause, l: Lit)
    requires Consistent(s) && Val(s.t, l) != Indet && Level(s.t, l.v) == 0 && CurLevel(s.t) > 0
    ensures Redundant(s, clause, l)
  {
    hide Consistent;
    if Reason(s.t, l.v).Some? {
      forall x | x in ReasonClause(s, l.v) ensures Level(s.t, x.v) == 0 {
        ReasonLevel(s, l.v, x);
      }
      assert Justified(s, {l.v} + Vars(clause), l.v);
      assert RedundantSet(s, clause, {l.v});
    }
  }

  /** The asserting literal comes first; all other literals are of lower levels, none of level 0. */
  ghost predicate Learnt(s: Snapshot, kept: Clause) {
    && |kept| >= 1 && DistinctVars(kept)
    && (forall x :: x in kept ==> Val(s.t, x) == False)
    && Level(s.t, kept[0].v) == CurLevel(s.t)
    && (forall i :: 1 <= i < |kept| ==> 1 <= Level(s.t, kept[i].v) < CurLevel(s.t))
  }

  lemma ErasedLearnt(s: Snapshot, conflict: Clause, cut: set<nat>, first: Clause)
    requires Consistent(s) && CutClause(s, conflict, cut, first) && CurLevel(s.t) > 0
    ensures Learnt(s, Dropping(first, RedundantLits(s, first)))
    ensures Dropping(first, RedundantLits(s, first))[0] == first[0]
  {
    hide Consistent, Redundant;
    var erased := Dropping(first, RedundantLits(s, first));
    DroppingFacts(first, RedundantLits(s, first));
    AssertingKept(s, first, cut, conflict);
    forall i | 1 <= i < |erased| ensures 1 <= Level(s.t, erased[i].v) < CurLevel(s.t) {
      assert erased[i] in erased;
      assert erased[i] in first && erased[i] != first[0];
      var j :| 0 <= j < |first| && first[j] == erased[i];
      assert first[1..][j - 1] == erased[i];
      assert SideLiteral(s, conflict, cut, erased[i]);
      if Level(s.t, erased[i].v) == 0 {
        LevelZeroRedundant(s, first, erased[i]);
      }
    }
  }

  lemma DroppedLearnt(s: Snapshot, c: Clause, drop: iset<Lit>)
    requires Learnt(s, c) && c[0] !in drop
    ensures Learnt(s, Dropping(c, drop)) && Dropping(c, drop)[0] == c[0]
  {
    DroppingFacts(c, drop);
    var d := Dropping(c, drop);
    forall i | 1 <= i < |d| ensures 1 <= Level(s.t, d[i].v) < CurLevel(s.t) {
      assert d[i] in d;
      var j :| 0 <= j < |c| && c[j] == d[i];
    }
  }

  lemma MinimizedLearnt(s: Snapshot, conflict: Clause, cut: set<nat>, first: Clause, kept: Clause)
    requires Consistent(s) && CutClause(s, conflict, cut, first) && Minimized(s, first, kept) && CurLevel(s.t) > 0
    ensures Learnt(s, kept) && kept[0] == first[0]
  {
    hide Consistent, CutClause, Learnt, Dropping, Redundant;
    var erased := Dropping(first, RedundantLits(s, first));
    ErasedLearnt(s, conflict, cut, first);
    NotEmpty(s, erased);
    if kept != erased {
      NoOwnPartner(s, first[0]);
      DroppedLearnt(s, erased, ResolvableLits(s, first[0]));
    }
  }

  lemma NotEmpty(s: Snapshot, c: Clause)
    ensures Learnt(s, c) ==> |c| >= 1
  {
  }

  /** The lemma with a literal of the greatest remaining level in second place. */
  ghost predicate BackjumpReady(s: Snapshot, cl: Clause, b: nat) {
    && Learnt(s, cl) && |cl| >= 2 && Level(s.t, cl[1].v) == b
    && (forall i :: 1 <= i < |cl| ==> Level(s.t, cl[i].v) <= b)
  }

  lemma SwapLearnt(s: Snapshot, cl: Clause, i: nat)
    requires Learnt(s, cl) && 1 <= i < |cl| && forall j :: 1 <= j < |cl| ==> Level(s.t, cl[j].v) <= Level(s.t, cl[i].v)
    ensures BackjumpReady(s, Swap(cl, i, 1), Level(s.t, cl[i].v))
    ensures SameLits(Swap(cl, i, 1), cl)
  {
    SwapFacts(cl, i, 1);
  }

  /** After the backjump, all literals of the lemma but the first are false, and the second one since the new level. */
  lemma BackjumpAsserting(s: Snapshot, c: CRef, b: nat)
    requires Consistent(s) && BackjumpReady(s, Cl(s.st, c), b)
    ensures 1 <= b < CurLevel(s.t) && s.t.limits[b + 1] <= |s.t.lits|
    ensures Asserting(Undone(s, b), c) && CurLevel(UndoTo(s.t, b)) == b
  {
    hide ListsOk, ReasonsOk, WatchesComplete;
    var cl := Cl(s.st, c);
    UndoFacts(s.t, b);
    assert cl[0] in cl;
    forall j | 1 <= j < |cl| ensures Val(UndoTo(s.t, b), cl[j]) == False {
      assert cl[j] in cl;
    }
  }

  // ---- storing clauses -------------------------------------------------------------

  /** Nothing has changed in `st2` about the registered clauses of `st`. */
  ghost predicate StoreAgrees(st: Store, st2: Store, reg: set<CRef>) {
    && |st2.lits| >= |st.lits|
    && (forall c :: c in reg ==>
          Cl(st2, c) == Cl(st, c) && IsRedundant(st2, c) == IsRedundant(st, c) && IsDeleted(st2, c) == IsDeleted(st, c))
    && (forall c :: IsDeleted(st, c) ==> IsDeleted(st2, c))
  }

  lemma StoreChange(s: Snapshot, st2: Store)
    requires Consistent(s) && StoreAgrees(s.st, st2, s.reg)
    ensures Consistent(s.(st := st2))
  {
  }

  lemma StoreSearching(s: Snapshot, st2: Store, facts: seq<Lit>, assumptions: seq<Lit>)
    requires Searching(s, facts, assumptions) && StoreAgrees(s.st, st2, s.reg)
    ensures Searching(s.(st := st2), facts, assumptions)
  {
    StoreChange(s, st2);
    hide Consistent, StoreAgrees, Rooted, DecisionLevels, AllTrue;
  }
}
