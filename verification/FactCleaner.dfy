// Simplification of the clauses with the facts known so far.

module FactCleaning {
  import opened Literals
  import opened Logic
  import opened Trails
  import opened Watching
  import opened PropagationSteps
  import opened Traversal
  import opened Lifecycle
  import opened ClauseDatabase
  import opened Assignments
  import opened SearchState
  import opened Soundness
  import opened Derivations
  import opened Refutations
  import opened OccurrenceMaps

  // ---- watch lists -----------------------------------------------------------------

  /** The literals of `dirty2` are those of `dirty` and the first two of `cl`. */
  ghost predicate MoreDirty(dirty: seq<Lit>, dirty2: seq<Lit>, cl: Clause) {
    |cl| >= 2 && forall l :: l in dirty2 <==> l in dirty || l in cl[..2]
  }

  /** The state after marking clause `c` for deletion. */
  function Deleted(s: Snapshot, c: CRef, dirty2: seq<Lit>): Snapshot
    requires c < |s.st.deleted|
  {
    s.(st := s.st.(deleted := s.st.deleted[c := true]), reg := s.reg - {c}, wt := s.wt.(dirty := dirty2))
  }

  /** The state after taking the literal `x` out of clause `c`, which leaves `cl`. */
  function Strengthened(s: Snapshot, c: CRef, cl: Clause, x: Lit, dirty2: seq<Lit>): Snapshot
    requires c < |s.st.lits|
  {
    s.(st := s.st.(lits := s.st.lits[c := cl]), stale := s.stale + {x}, wt := s.wt.(dirty := dirty2))
  }

  lemma DeletedLists(s: Snapshot, c: CRef, dirty2: seq<Lit>)
    requires ListsOk(s.st, s.reg, s.stale, s.wt) && c < |s.st.deleted| && c in s.reg
    requires MoreDirty(s.wt.dirty, dirty2, Cl(s.st, c))
    ensures
      var s2 := Deleted(s, c, dirty2);
      ListsOk(s2.st, s2.reg, s2.stale, s2.wt)
  {
    hide Watched;
    var s2 := Deleted(s, c, dirty2);
    var cl := Cl(s.st, c);
    assert forall k :: 0 <= k < 2 ==> cl[..2][k] == cl[k];
    forall l, i | 0 <= i < |At(s2.wt.long, l)| ensures LongOk(s2.st, s2.reg, s2.stale, dirty2, l, At(s2.wt.long, l)[i]) {
      assert LongOk(s.st, s.reg, s.stale, s.wt.dirty, l, At(s.wt.long, l)[i]);
    }
    forall l, i | 0 <= i < |At(s2.wt.binary, l)|
      ensures BinaryOk(s2.st, s2.reg, dirty2, l, At(s2.wt.binary, l)[i])
    {
      assert BinaryOk(s.st, s.reg, s.wt.dirty, l, At(s.wt.binary, l)[i]);
    }
    assert ListsSound(s2.st, s2.reg, s2.stale, s2.wt) by {
      hide LongOk, BinaryOk, Holds, NoDup;
    }
    SameWatched(s.wt, s2.wt);
  }

  lemma SameWatched(wt: Watches, wt2: Watches)
    requires wt2.long == wt.long && wt2.binary == wt.binary
    ensures forall c, k :: Watched(wt2, c, k) <==> Watched(wt, c, k)
  {
  }

  /** What is left of clause `cl` if literal `x` is taken out behind the watched literals. */
  ghost predicate IsShortened(cl: Clause, cl2: Clause, x: Lit) {
    && x in cl && |cl| > 2 && |cl2| == |cl| - 1 && cl2[0] == cl[0] && cl2[1] == cl[1] && DistinctVars(cl2)
    && (forall l :: l in cl2 <==> l in cl && l != x)
  }

  lemma StrengthenedLists(s: Snapshot, c: CRef, cl: Clause, x: Lit, dirty2: seq<Lit>)
    requires ListsOk(s.st, s.reg, s.stale, s.wt) && c < |s.st.lits| && c in s.reg
    requires IsShortened(Cl(s.st, c), cl, x) && MoreDirty(s.wt.dirty, dirty2, cl)
    ensures
      var s2 := Strengthened(s, c, cl, x, dirty2);
      ListsOk(s2.st, s2.reg, s2.stale, s2.wt)
  {
    hide Watched;
    var s2 := Strengthened(s, c, cl, x, dirty2);
    assert forall k :: 0 <= k < 2 ==> cl[..2][k] == cl[k];
    forall l, i | 0 <= i < |At(s2.wt.long, l)| ensures LongOk(s2.st, s2.reg, s2.stale, dirty2, l, At(s2.wt.long, l)[i]) {
      assert LongOk(s.st, s.reg, s.stale, s.wt.dirty, l, At(s.wt.long, l)[i]);
    }
    forall l, i | 0 <= i < |At(s2.wt.binary, l)|
      ensures BinaryOk(s2.st, s2.reg, dirty2, l, At(s2.wt.binary, l)[i])
    {
      assert BinaryOk(s.st, s.reg, s.wt.dirty, l, At(s.wt.binary, l)[i]);
    }
    assert ListsSound(s2.st, s2.reg, s2.stale, s2.wt) by {
      hide LongOk, BinaryOk, Holds, NoDup;
    }
    SameWatched(s.wt, s2.wt);
  }

  // ---- meaning ---------------------------------------------------------------------

  /** If nothing is assigned, only the clauses and watch lists matter. */
  lemma RestConsistent(s: Snapshot)
    requires AtRest(s) && ClausesOk(s.st, s.reg, VarCount(s.t)) && ListsOk(s.st, s.reg, s.stale, s.wt)
    ensures Consistent(s)
  {
  }

  /** A clause containing a fact may be deleted. */
  lemma DeletedReady(s: Snapshot, r: Record, facts: seq<Lit>, c: CRef, l: Lit, dirty2: seq<Lit>)
    requires Ready(s, r, facts) && IsLive(s.st, c) && l in Cl(s.st, c) && l in facts
    requires MoreDirty(s.wt.dirty, dirty2, Cl(s.st, c))
    ensures c < |s.st.deleted| && Ready(Deleted(s, c, dirty2), r, facts)
  {
    DeletedKept(r, facts, s.st, VarCount(s.t), c, l);
    DeletedLists(s, c, dirty2);
    hide Kept, ListsOk, TrailOk, WatchesComplete, ReasonsOk, MoreDirty;
    RestConsistent(Deleted(s, c, dirty2));
  }

  lemma DeletedKept(r: Record, facts: seq<Lit>, st: Store, n: nat, c: CRef, l: Lit)
    requires Kept(r, facts, st, n) && IsLive(st, c) && l in Cl(st, c) && l in facts
    ensures c < |st.deleted| && Kept(r, facts, st.(deleted := st.deleted[c := true]), n)
  {
    hide Derives, ProofOk, DistinctVars, Bounded;
    var st2 := st.(deleted := st.deleted[c := true]);
    forall d | IsLive(st2, d) ensures ClauseKept(st2, d, Known(r), n) {
      assert ClauseKept(st, d, Known(r), n);
    }
    forall p | p in r.problem && p != [] ensures Accounted(p, facts, st2) {
      DeletedAccounted(p, facts, st, c, l);
    }
  }

  lemma DeletedAccounted(p: Clause, facts: seq<Lit>, st: Store, c: CRef, l: Lit)
    requires Accounted(p, facts, st) && c < |st.deleted| && l in Cl(st, c) && l in facts
    ensures Accounted(p, facts, st.(deleted := st.deleted[c := true]))
  {
    var st2 := st.(deleted := st.deleted[c := true]);
    if !(exists x :: x in p && x in facts) && !Compression.Tautology(p) {
      var d :| IsLive(st, d) && !IsRedundant(st, d) && forall x :: x in Cl(st, d) ==> x in p;
      assert IsLive(st2, d);
    }
  }

  /** Taking the negation of a fact out of a clause is a proof step, and nothing is lost. */
  lemma StrengthenedReady(s: Snapshot, r: Record, facts: seq<Lit>, c: CRef, cl: Clause, x: Lit, dirty2: seq<Lit>)
    requires Ready(s, r, facts) && IsLive(s.st, c) && IsShortened(Cl(s.st, c), cl, x) && Neg(x) in facts
    requires MoreDirty(s.wt.dirty, dirty2, cl)
    ensures AsymmetricTautology(Known(r), cl)
    ensures Ready(Strengthened(s, c, cl, x, dirty2), WithLine(r, cl), facts)
  {
    StrengthenedKept(r, facts, s.st, VarCount(s.t), c, cl, x);
    StrengthenedLists(s, c, cl, x, dirty2);
    StrengthenedClauses(s, c, cl, x);
    hide Kept, ListsOk, TrailOk, WatchesComplete, ReasonsOk, MoreDirty, IsShortened, AsymmetricTautology, ClausesOk;
    RestConsistent(Strengthened(s, c, cl, x, dirty2));
  }

  lemma StrengthenedClauses(s: Snapshot, c: CRef, cl: Clause, x: Lit)
    requires ClausesOk(s.st, s.reg, VarCount(s.t)) && IsLive(s.st, c) && IsShortened(Cl(s.st, c), cl, x)
    ensures ClausesOk(s.st.(lits := s.st.lits[c := cl]), s.reg, VarCount(s.t))
  {
  }

  lemma StrengthenedKept(r: Record, facts: seq<Lit>, st: Store, n: nat, c: CRef, cl: Clause, x: Lit)
    requires Kept(r, facts, st, n) && IsLive(st, c) && IsShortened(Cl(st, c), cl, x) && Neg(x) in facts
    ensures AsymmetricTautology(Known(r), cl) && Kept(WithLine(r, cl), facts, st.(lits := st.lits[c := cl]), n)
  {
    hide Derives, ProofOk, AsymmetricTautology, DistinctVars, Bounded, HasCopy, IsLive, Accounted, Known;
    var st2, r2 := st.(lits := st.lits[c := cl]), WithLine(r, cl);
    assert ClauseKept(st, c, Known(r), n);
    StrengthenedTautology(r, facts, Cl(st, c), cl, x);
    LineAdded(r, cl);
    BackedMore(r, r2, facts, st, n, n);
    LiveInStore(st, c);
    SameLitsSelf(cl);
    CopyOf(Known(r2), cl);
    StrengthenedStore(st, c, cl, x, Known(r2), n);
    forall p | p in r.problem && p != [] ensures Accounted(p, facts, st2) {
      StrengthenedAccounted(p, facts, st, c, cl);
    }
  }

  lemma CopyOf(f: Formula, cl: Clause)
    requires cl in f
    ensures HasCopy(f, cl)
  {
  }

  lemma StrengthenedStore(st: Store, c: CRef, cl: Clause, x: Lit, f: Formula, n: nat)
    requires (forall d :: IsLive(st, d) ==> ClauseKept(st, d, f, n)) && c < |st.lits| && IsShortened(Cl(st, c), cl, x)
    requires HasCopy(f, cl) && IsLive(st, c)
    ensures
      var st2 := st.(lits := st.lits[c := cl]);
      forall d :: IsLive(st2, d) ==> ClauseKept(st2, d, f, n)
  {
    hide HasCopy, DistinctVars;
    var st2 := st.(lits := st.lits[c := cl]);
    assert ClauseKept(st, c, f, n);
    forall d | IsLive(st2, d) ensures ClauseKept(st2, d, f, n) {
      assert ClauseKept(st, d, f, n);
    }
  }

  lemma StrengthenedTautology(r: Record, facts: seq<Lit>, cl: Clause, cl2: Clause, x: Lit)
    requires Derives(Known(r), facts) && HasCopy(Known(r), cl) && Neg(x) in facts
    requires forall l :: l in cl ==> l in cl2 || l == x
    ensures AsymmetricTautology(Known(r), cl2)
  {
  }

  lemma StrengthenedAccounted(p: Clause, facts: seq<Lit>, st: Store, c: CRef, cl: Clause)
    requires Accounted(p, facts, st) && c < |st.lits| && forall l :: l in cl ==> l in Cl(st, c)
    ensures Accounted(p, facts, st.(lits := st.lits[c := cl]))
  {
    var st2 := st.(lits := st.lits[c := cl]);
    if !(exists x :: x in p && x in facts) && !Compression.Tautology(p) {
      var d :| IsLive(st, d) && !IsRedundant(st, d) && forall x :: x in Cl(st, d) ==> x in p;
      assert IsLive(st2, d) && forall x :: x in Cl(st2, d) ==> x in Cl(st, d);
    }
  }

  // ---- the clauses seen through the occurrence map -----------------------------------

  /** The occurrence map knows the live clauses and their literals. */
  ghost predicate Tracks(contents: Contents, st: Store) {
    && (forall c :: c in contents <==> IsLive(st, c))
    && (forall c :: c in contents ==> contents[c] == Elements(Cl(st, c)))
  }

  /** The first two literals of `cl` are neither facts nor negations of facts. */
  ghost predicate WatchesFree(cl: Clause, facts: seq<Lit>) {
    forall k :: 0 <= k < 2 && k < |cl| ==> cl[k] !in facts && Neg(cl[k]) !in facts
  }

  ghost predicate Satisfied(cl: Clause, facts: seq<Lit>) {
    exists x :: x in cl && x in facts
  }

  /** Each live clause contains a fact, or its watched literals are not affected by the facts. */
  ghost predicate Separated(st: Store, facts: seq<Lit>) {
    forall c :: IsLive(st, c) ==> Satisfied(Cl(st, c), facts) || WatchesFree(Cl(st, c), facts)
  }

  /** No live clause contains one of the facts. */
  ghost predicate NoneSatisfied(st: Store, facts: seq<Lit>) {
    forall c, x :: IsLive(st, c) && x in facts ==> x !in Cl(st, c)
  }

  /** No live clause contains the negation of one of the facts. */
  ghost predicate NoneFalsified(st: Store, facts: seq<Lit>) {
    forall c, x :: IsLive(st, c) && x in facts ==> Neg(x) !in Cl(st, c)
  }

  /** No live clause mentions a variable of the facts. */
  ghost predicate Cleaned(st: Store, facts: seq<Lit>) {
    forall c, x, y :: IsLive(st, c) && x in facts && y in Cl(st, c) ==> y.v != x.v
  }

  lemma NothingLeft(st: Store, facts: seq<Lit>)
    requires NoneSatisfied(st, facts) && NoneFalsified(st, facts)
    ensures Cleaned(st, facts)
  {
  }

  /** After propagation of the facts, no clause has lost just one of its watched literals. */
  lemma PropagatedSeparated(s: Snapshot, r: Record, facts: seq<Lit>)
    requires Consistent(s) && Fixpoint(s) && Knowing(s, r, facts) && AllTrue(s.t, facts, 0)
    requires StaleIsFalse(s.stale, facts)
    ensures Separated(s.st, s.t.lits)
  {
    NoStale(s, facts);
    ConsistentTrail(s);
    TrailTrue(s.t);
    hide Kept, ListsOk, ReasonsOk, WatchesComplete;
    forall c | IsLive(s.st, c) ensures Satisfied(Cl(s.st, c), s.t.lits) || WatchesFree(Cl(s.st, c), s.t.lits) {
      FixpointComplete(s, c);
    }
  }

  lemma PermutedTracks(contents: Contents, st: Store, st2: Store)
    requires Tracks(contents, st) && Permuted(st, st2) && StoreOk(st)
    ensures Tracks(contents, st2)
  {
  }

  lemma ReadyStore(s: Snapshot, r: Record, facts: seq<Lit>)
    requires Ready(s, r, facts)
    ensures StoreOk(s.st) && (forall l :: l in facts ==> l.v < VarCount(s.t)) && TrailOk(s.t)
    ensures forall c :: IsLive(s.st, c) ==> |Cl(s.st, c)| >= 2 && DistinctVars(Cl(s.st, c))
  {
  }

  /** Literal `i` of the clause is exchanged for the last one, which is dropped then. */
  lemma ShortenedFacts(cl: Clause, i: nat)
    requires DistinctVars(cl) && 2 <= i < |cl|
    ensures IsShortened(cl, Swap(cl, i, |cl| - 1)[..|cl| - 1], cl[i])
  {
    var swapped := Swap(cl, i, |cl| - 1);
    var cl2 := swapped[..|cl| - 1];
    SwapFacts(cl, i, |cl| - 1);
    forall l | l in cl && l != cl[i] ensures l in cl2 {
      var j :| 0 <= j < |cl| && cl[j] == l;
      assert cl2[if j == |cl| - 1 then i else j] == l;
    }
    forall l | l in cl2 ensures l in cl && l != cl[i] {
      var j :| 0 <= j < |cl2| && cl2[j] == l;
      assert l in swapped && swapped[|cl| - 1] == cl[i];
    }
  }

  function WithLines(r: Record, lines: seq<Clause>): Record {
    r.(lines := r.lines + lines)
  }

  /** No watched literal of a live clause is a fact or the negation of a fact. */
  ghost predicate Unwatched(st: Store, facts: seq<Lit>) {
    forall c :: IsLive(st, c) ==> WatchesFree(Cl(st, c), facts)
  }

  /** Clauses have lost some literals which are negations of facts, nothing else has changed. */
  ghost predicate Shrunk(st: Store, st2: Store, facts: seq<Lit>) {
    && |st2.lits| == |st.lits| && st2.redundant == st.redundant && st2.deleted == st.deleted
    && (forall c, l :: IsLive(st, c) && l in Cl(st2, c) ==> l in Cl(st, c))
    && (forall c, l :: IsLive(st, c) && l in Cl(st, c) && Neg(l) !in facts ==> l in Cl(st2, c))
  }

  /**
   * Exactly the clauses containing facts have been deleted, and all others have exactly lost the negations of facts.
   */
  ghost predicate CleanedFrom(st: Store, st2: Store, facts: seq<Lit>) {
    && |st2.lits| == |st.lits| && st2.redundant == st.redundant
    && (forall c :: IsLive(st2, c) <==> IsLive(st, c) && !Satisfied(Cl(st, c), facts))
    && (forall c, l :: IsLive(st2, c) ==> (l in Cl(st2, c) <==> l in Cl(st, c) && Neg(l) !in facts))
  }

  lemma DeletedThenShrunk(st: Store, st1: Store, st2: Store, facts: seq<Lit>)
    requires st1 == st.(deleted := st1.deleted) && Shrunk(st1, st2, facts) && NoneFalsified(st2, facts)
    requires forall c :: IsLive(st1, c) <==> IsLive(st, c) && !Satisfied(Cl(st, c), facts)
    ensures CleanedFrom(st, st2, facts)
  {
    forall c ensures IsLive(st2, c) <==> IsLive(st, c) && !Satisfied(Cl(st, c), facts) {
      assert IsLive(st2, c) <==> IsLive(st1, c);
    }
    forall c, l | IsLive(st2, c) ensures l in Cl(st2, c) <==> l in Cl(st, c) && Neg(l) !in facts {
      assert IsLive(st1, c) && Neg(Neg(l)) == l;
    }
  }

  lemma PermutedCleaned(st: Store, st1: Store, st2: Store, facts: seq<Lit>)
    requires Permuted(st, st1) && CleanedFrom(st1, st2, facts) && StoreOk(st)
    ensures CleanedFrom(st, st2, facts)
  {
    forall c ensures IsLive(st, c) <==> IsLive(st1, c)
             ensures SameLits(Cl(st1, c), Cl(st, c)) && (Satisfied(Cl(st1, c), facts) <==> Satisfied(Cl(st, c), facts))
    {}
    hide Satisfied, Permuted, IsLive;
  }

  /** What unit propagation refutes is refuted after simplification as well. */
  lemma CleanedRefuted(st: Store, st2: Store, facts: seq<Lit>, facts2: seq<Lit>, more: seq<Lit>)
    requires CleanedFrom(st, st2, facts2) && IsClosure(st, facts, facts2)
    ensures LiveRefuted(st, facts + more) ==> LiveRefuted(st2, facts2 + more)
  {
    forall l | l in facts ensures l in facts2 {
      assert l in Members(facts2);
    }
    if !LiveRefuted(st2, facts2 + more) {
      var u: iset<Lit> :| LiveClosed(u, st2, facts2 + more) && !LiveConflict(u, st2, facts2 + more);
      forall c | IsLive(st, c) ensures ClosedUnder(u, Cl(st, c)) && !Falsified(u, Cl(st, c)) {
        CleanedClosed(u, st, st2, facts2, more, c);
      }
      assert LiveClosed(u, st, facts + more) && !LiveConflict(u, st, facts + more);
    }
  }

  lemma CleanedClosed(u: iset<Lit>, st: Store, st2: Store, facts2: seq<Lit>, more: seq<Lit>, c: CRef)
    requires CleanedFrom(st, st2, facts2) && LiveClosed(u, st2, facts2 + more) && IsLive(st, c)
    requires !LiveConflict(u, st2, facts2 + more)
    ensures ClosedUnder(u, Cl(st, c)) && !Falsified(u, Cl(st, c))
  {
    if Satisfied(Cl(st, c), facts2) {
      var x :| x in Cl(st, c) && x in facts2;
      assert x in facts2 + more && x in u && Neg(x) !in u;
    } else {
      assert IsLive(st2, c) && ClosedUnder(u, Cl(st2, c)) && !Falsified(u, Cl(st2, c));
    }
  }

  // ---- the algorithm -----------------------------------------------------------------

  class FactCleaner {
    var factsAfterLastCall: nat

    constructor ()
      ensures factsAfterLastCall == 0
    {
      factsAfterLastCall := 0;
    }

    /** The facts and everything unit propagation derives from them. */
    method WithConsequences(assignment: Assignment, facts: seq<Lit>, ghost r: Record)
      returns (consistent: bool, consequences: seq<Lit>)
      requires assignment.Valid() && Ready(assignment.Snap(), r, facts)
      modifies assignment, assignment.db`lits
      ensures assignment.Valid() && |assignment.assignments| == |old(assignment.assignments)|
      ensures Permuted(old(assignment.db.S()), assignment.db.S()) && assignment.stale == old(assignment.stale)
      ensures consistent ==>
                && Ready(assignment.Snap(), r, consequences) && Separated(assignment.db.S(), consequences)
                && (forall l :: l in facts ==> l in consequences) && Once(consequences)
                && IsClosure(assignment.db.S(), facts, consequences)
      ensures consistent <==> !LiveRefuted(assignment.db.S(), facts)
      ensures !consistent ==>
                && consequences == facts && Ready(assignment.Snap(), r, facts)
                && Refuted(r, [])
    {
      hide Consistent, Grounded, Fixpoint, IsClosure, Shrunk, Knowing, StaleIsFalse, AtRest, Refuted, LiveRefuted,
           AllTrue, Permuted, Conflicting, Progress, Val;
      ReadyStore(assignment.Snap(), r, facts);
      PermutedSelf(assignment.db.S());
      assignment.UndoAll();
      ghost var st := assignment.db.S();
      EmptiedReady(old(assignment.Snap()), r, facts);
      ReadyGrounded(assignment.Snap(), r, facts, []);
      consistent, consequences := true, facts;
      NoneTrue(assignment.T(), 0);
      for i := 0 to |facts|
        invariant assignment.Valid() && |assignment.assignments| == |old(assignment.assignments)|
        invariant assignment.stale == old(assignment.stale) && assignment.currentLevel == 0
        invariant Permuted(st, assignment.db.S())
        invariant Grounded(assignment.Snap(), facts, []) && Fixpoint(assignment.Snap())
        invariant Knowing(assignment.Snap(), r, facts)
        invariant AllTrue(assignment.T(), facts[..i], 0)
      {
        var fact := facts[i];
        assert facts[..i + 1] == facts[..i] + [fact];
        ghost var s := assignment.Snap();
        var factValue := assignment.GetAssignment(fact);
        var conflicting := false;
        if factValue == Indet {
          var conflict := assignment.Append(fact, IncludeLemmas);
          FactAppended(s, assignment.Snap(), r, facts, fact);
          PermutedTransitive(st, s.st, assignment.db.S());
          conflicting := conflict.Some?;
        } else if factValue == True {
          TrueOnLevel(s, fact);
        }
        if conflicting || factValue == False {
          ConflictRefutesLive(assignment.Snap(), r, facts, []);
          FactsRefuted(assignment.Snap(), r, facts);
          EmptiedReady(assignment.Snap(), r, facts);
          assignment.UndoAll();
          return false, facts;
        }
        AllTrueSplit(assignment.T(), facts[..i], fact, 0);
      }
      assert facts[..|facts|] == facts;
      ghost var s := assignment.Snap();
      FactsReplaced(s, r, facts, []);
      PropagatedSeparated(s, r, facts);
      SameLitsSelf(s.t.lits);
      FixpointIsClosure(s, r, facts, [], s.t.lits);
      FixpointNotRefuted(s, r, facts, []);
      ConsistentTrail(s);
      TrailDistinct(s.t);
      FactsOnTrail(s.t, facts);
      EmptiedReady(s, r, s.t.lits);
      consequences := assignment.trail;
      assignment.UndoAll();
    }

    /** What holds between the single steps of the simplification. */
    ghost predicate Working(assignment: Assignment, occurrences: OccurrenceMap, r: Record, facts: seq<Lit>)
      reads assignment, assignment.db, occurrences
    {
      && assignment.Valid() && Ready(assignment.Snap(), r, facts)
      && occurrences.db == assignment.db && occurrences.Valid() && Tracks(occurrences.contents, assignment.db.S())
    }

    /** Deletes a clause containing the fact `l`. */
    method DeleteClause(assignment: Assignment, occurrences: OccurrenceMap, c: CRef, ghost l: Lit, ghost r: Record,
                        ghost facts: seq<Lit>)
      requires Working(assignment, occurrences, r, facts) && IsLive(assignment.db.S(), c)
      requires l in Cl(assignment.db.S(), c) && l in facts
      modifies assignment`updateFlags, assignment`litsRequiringUpdate, assignment`reg, assignment`stale
      modifies assignment.db`deleted, occurrences
      ensures Working(assignment, occurrences, r, facts) && c < |old(assignment.db.deleted)|
      ensures assignment.db.S() == old(assignment.db.S()).(deleted := old(assignment.db.deleted)[c := true])
    {
      hide Ready, AtRest, Consistent, Represents, DistinctVars, Tracks;
      var db := assignment.db;
      ghost var s := assignment.Snap();
      ReadyStore(s, r, facts);
      LiveFacts(s.st, occurrences.contents, c);
      db.deleted := db.deleted[c := true];
      assignment.RegisterClauseModification(c, {});
      assert assignment.Snap() == Deleted(s, c, assignment.litsRequiringUpdate);
      DeletedReady(s, r, facts, c, l, assignment.litsRequiringUpdate);
      ReadyParts(assignment.Snap(), r, facts);
      assert db.deleted[c := false] == old(db.deleted);
      occurrences.Remove(c);
      DeletedTracked(s.st, old(occurrences.contents), c);
    }

    /** Exchanges the first occurrence of `l` (if any) with the last literal. */
    method SwapWithLastElement(lits: Clause, l: Lit) returns (swapped: Clause, ghost i: nat)
      ensures i <= |lits| && (i < |lits| <==> l in lits)
      ensures if i < |lits| then lits[i] == l && swapped == Swap(lits, i, |lits| - 1) else swapped == lits
    {
      for j := 0 to |lits|
        invariant l !in lits[..j]
      {
        assert lits[..j + 1] == lits[..j] + [lits[j]];
        if lits[j] == l {
          return Swap(lits, j, |lits| - 1), j;
        }
      }
      assert lits[..|lits|] == lits;
      return lits, |lits|;
    }

    /** Takes the literal `l` out of the clause, behind the watched literals. */
    method Shorten(lits: Clause, l: Lit) returns (line: Clause)
      requires DistinctVars(lits) && l in lits && |lits| >= 2 && lits[0] != l && lits[1] != l
      ensures IsShortened(lits, line, l) && |line| >= 2
    {
      var swapped;
      ghost var i;
      swapped, i := SwapWithLastElement(lits, l);
      ShortenedFacts(lits, i);
      line := swapped[..|swapped| - 1];
    }

    /** Takes the negation of a fact out of a clause. The shortened clause is a proof step. */
    method StrengthenClause(assignment: Assignment, occurrences: OccurrenceMap, c: CRef, fact: Lit, ghost r: Record,
                            ghost facts: seq<Lit>)
      returns (line: Clause)
      requires Working(assignment, occurrences, r, facts) && IsLive(assignment.db.S(), c) && fact in facts
      requires Neg(fact) in Cl(assignment.db.S(), c) && WatchesFree(Cl(assignment.db.S(), c), facts)
      modifies assignment`updateFlags, assignment`litsRequiringUpdate, assignment`reg, assignment`stale
      modifies assignment.db`lits, assignment.db`modified, occurrences
      ensures Working(assignment, occurrences, WithLine(r, line), facts) && c < |old(assignment.db.lits)|
      ensures assignment.db.S() == old(assignment.db.S()).(lits := old(assignment.db.lits)[c := line])
      ensures IsShortened(old(assignment.db.lits[c]), line, Neg(fact))
    {
      hide Ready, AtRest, Consistent, Represents, DistinctVars, IsShortened, Tracks, AsymmetricTautology, WatchesFree;
      var db := assignment.db;
      ghost var s := assignment.Snap();
      ReadyStore(s, r, facts);
      LiveFacts(s.st, occurrences.contents, c);
      FactNotWatched(db.lits[c], facts, fact);
      line := Shorten(db.lits[c], Neg(fact));
      ShortenedSize(db.lits[c], line, Neg(fact));
      db.lits := db.lits[c := line];
      ModifiedFits(occurrences.O(), occurrences.contents, db.deleted, db.modified, c);
      db.modified := db.modified[c := true];
      occurrences.SetModified(c, [], {Neg(fact)});
      assignment.RegisterClauseModification(c, {Neg(fact)});
      assert assignment.Snap() == Strengthened(s, c, line, Neg(fact), assignment.litsRequiringUpdate);
      StrengthenedReady(s, r, facts, c, line, Neg(fact), assignment.litsRequiringUpdate);
      ReadyParts(assignment.Snap(), WithLine(r, line), facts);
      StrengthenedTracked(s.st, old(occurrences.contents), c, line, Neg(fact));
    }

    /** The live clauses in which `l` occurs. */
    method ClausesWith(assignment: Assignment, occurrences: OccurrenceMap, l: Lit, ghost r: Record,
                       ghost facts: seq<Lit>)
      returns (list: seq<CRef>)
      requires Working(assignment, occurrences, r, facts)
      modifies occurrences, assignment.db`modified
      ensures Working(assignment, occurrences, r, facts)
      ensures forall c :: c in list <==> IsLive(assignment.db.S(), c) && l in Cl(assignment.db.S(), c)
      ensures forall i, j :: 0 <= i < j < |list| ==> list[i] != list[j]
    {
      hide Ready, Consistent, Represents, Occurring, Tracks;
      list := occurrences.Lookup(l);
      ListedLive(assignment.db.S(), occurrences.contents, l, list);
    }

    /** Deletes all clauses in which the fact `l` occurs. */
    method DeleteAll(assignment: Assignment, occurrences: OccurrenceMap, l: Lit, ghost r: Record, ghost facts: seq<Lit>)
      requires Working(assignment, occurrences, r, facts) && l in facts
      modifies assignment`updateFlags, assignment`litsRequiringUpdate, assignment`reg, assignment`stale
      modifies assignment.db`deleted, assignment.db`modified, occurrences
      ensures Working(assignment, occurrences, r, facts)
      ensures assignment.db.S() == old(assignment.db.S()).(deleted := assignment.db.deleted)
      ensures forall c :: IsLive(assignment.db.S(), c) <==>
                          IsLive(old(assignment.db.S()), c) && l !in Cl(assignment.db.S(), c)
    {
      hide Working;
      ghost var st := assignment.db.S();
      var list := ClausesWith(assignment, occurrences, l, r, facts);
      for j := 0 to |list|
        invariant Working(assignment, occurrences, r, facts)
        invariant assignment.db.S() == st.(deleted := assignment.db.deleted)
        invariant forall c :: IsLive(assignment.db.S(), c) <==> IsLive(st, c) && c !in list[..j]
      {
        assert list[..j + 1] == list[..j] + [list[j]];
        DeleteClause(assignment, occurrences, list[j], l, r, facts);
      }
      assert list[..|list|] == list;
    }

    /** Deletes all clauses in which a fact occurs. */
    method DeleteSatisfied(assignment: Assignment, occurrences: OccurrenceMap, facts: seq<Lit>, ghost r: Record)
      requires Working(assignment, occurrences, r, facts)
      modifies assignment`updateFlags, assignment`litsRequiringUpdate, assignment`reg, assignment`stale
      modifies assignment.db`deleted, assignment.db`modified, occurrences
      ensures Working(assignment, occurrences, r, facts) && NoneSatisfied(assignment.db.S(), facts)
      ensures assignment.db.S() == old(assignment.db.S()).(deleted := assignment.db.deleted)
      ensures forall c :: IsLive(assignment.db.S(), c) <==>
                          IsLive(old(assignment.db.S()), c) && !Satisfied(Cl(assignment.db.S(), c), facts)
    {
      hide Ready, AtRest, Consistent, Represents, DistinctVars, Occurring, Tracks;
      for i := 0 to |facts|
        invariant Working(assignment, occurrences, r, facts) && NoneSatisfied(assignment.db.S(), facts[..i])
        invariant assignment.db.S() == old(assignment.db.S()).(deleted := assignment.db.deleted)
        invariant forall c :: IsLive(assignment.db.S(), c) <==>
                              IsLive(old(assignment.db.S()), c) && !Satisfied(Cl(assignment.db.S(), c), facts[..i])
      {
        assert facts[..i + 1] == facts[..i] + [facts[i]];
        DeleteAll(assignment, occurrences, facts[i], r, facts);
      }
      assert facts[..|facts|] == facts;
    }

    /** Takes the negation of a fact out of all clauses. */
    method StrengthenAll(assignment: Assignment, occurrences: OccurrenceMap, fact: Lit, ghost r: Record,
                         ghost facts: seq<Lit>)
      returns (lines: seq<Clause>)
      requires Working(assignment, occurrences, r, facts) && fact in facts
      requires Unwatched(assignment.db.S(), facts) && NoneSatisfied(assignment.db.S(), facts)
      modifies assignment`updateFlags, assignment`litsRequiringUpdate, assignment`reg, assignment`stale
      modifies assignment.db`lits, assignment.db`modified, occurrences
      ensures Working(assignment, occurrences, WithLines(r, lines), facts)
      ensures Unwatched(assignment.db.S(), facts) && NoneSatisfied(assignment.db.S(), facts)
      ensures Shrunk(old(assignment.db.S()), assignment.db.S(), facts)
      ensures forall c :: IsLive(assignment.db.S(), c) ==> Neg(fact) !in Cl(assignment.db.S(), c)
    {
      hide Working, Shrunk, Unwatched, NoneSatisfied, IsShortened;
      ghost var st := assignment.db.S();
      var list := ClausesWith(assignment, occurrences, Neg(fact), r, facts);
      lines := [];
      ShrunkSelf(st, facts);
      assert WithLines(r, []) == r;
      for j := 0 to |list|
        invariant Working(assignment, occurrences, WithLines(r, lines), facts)
        invariant Unwatched(assignment.db.S(), facts) && NoneSatisfied(assignment.db.S(), facts)
        invariant Shrunk(st, assignment.db.S(), facts)
        invariant forall c :: IsLive(assignment.db.S(), c) <==> IsLive(st, c)
        invariant forall c :: IsLive(st, c) ==> (Neg(fact) in Cl(assignment.db.S(), c) <==> c in list[j..])
      {
        assert list[j..] == [list[j]] + list[j + 1..] && list[j] in list[j..];
        var c := list[j];
        ghost var before := assignment.db.S();
        LongEnough(assignment, occurrences, WithLines(r, lines), facts, c, fact);
        if !assignment.db.deleted[c] {
          if |assignment.db.lits[c]| == 2 {
            // The remaining literal would be a fact, so the clause would have been deleted.
            assert false;
          }
          var line := StrengthenClause(assignment, occurrences, c, fact, WithLines(r, lines), facts);
          StrengthenedStep(st, before, assignment.db.S(), facts, c, line, Neg(fact));
          assert WithLine(WithLines(r, lines), line) == WithLines(r, lines + [line]);
          lines := lines + [line];
        }
      }
    }

    /** Takes the negations of all facts out of the clauses. */
    method StrengthenFalsified(assignment: Assignment, occurrences: OccurrenceMap, facts: seq<Lit>, ghost r: Record)
      returns (lines: seq<Clause>)
      requires Working(assignment, occurrences, r, facts)
      requires Unwatched(assignment.db.S(), facts) && NoneSatisfied(assignment.db.S(), facts)
      modifies assignment`updateFlags, assignment`litsRequiringUpdate, assignment`reg, assignment`stale
      modifies assignment.db`lits, assignment.db`modified, occurrences
      ensures Working(assignment, occurrences, WithLines(r, lines), facts) && NoneFalsified(assignment.db.S(), facts)
      ensures NoneSatisfied(assignment.db.S(), facts)
      ensures Shrunk(old(assignment.db.S()), assignment.db.S(), facts)
    {
      hide Ready, AtRest, Consistent, Represents, DistinctVars, Occurring, Unwatched, NoneSatisfied, Tracks,
           Shrunk, NoneFalsified, Working;
      lines := [];
      assert WithLines(r, []) == r;
      ShrunkSelf(assignment.db.S(), facts);
      assert NoneFalsified(assignment.db.S(), []) by {
        NoFacts(assignment.db.S());
      }
      for i := 0 to |facts|
        invariant Working(assignment, occurrences, WithLines(r, lines), facts)
        invariant Unwatched(assignment.db.S(), facts) && NoneSatisfied(assignment.db.S(), facts)
        invariant NoneFalsified(assignment.db.S(), facts[..i])
        invariant Shrunk(old(assignment.db.S()), assignment.db.S(), facts)
      {
        assert facts[..i + 1] == facts[..i] + [facts[i]];
        ghost var before := assignment.db.S();
        var more := StrengthenAll(assignment, occurrences, facts[i], WithLines(r, lines), facts);
        assert WithLines(WithLines(r, lines), more) == WithLines(r, lines + more);
        lines := lines + more;
        ShrunkMore(old(assignment.db.S()), before, assignment.db.S(), facts, i);
      }
      assert facts[..|facts|] == facts;
    }

    /** Collects the occurrences of literals in clauses. */
    method PrecomputeOccurrenceMap(assignment: Assignment, ghost r: Record, ghost facts: seq<Lit>)
      returns (occurrences: OccurrenceMap)
      requires assignment.Valid() && Ready(assignment.Snap(), r, facts)
      ensures fresh(occurrences) && Working(assignment, occurrences, r, facts)
    {
      hide Ready, AtRest, Consistent, Represents, DistinctVars, Occurring;
      var db := assignment.db;
      occurrences := new OccurrenceMap(db);
      ReadyStore(assignment.Snap(), r, facts);
      for c := 0 to |db.lits|
        invariant occurrences.db == db && occurrences.Valid()
        invariant forall d: CRef :: d in occurrences.contents <==> d < c && IsLive(db.S(), d)
        invariant forall d :: d in occurrences.contents ==> occurrences.contents[d] == Elements(Cl(db.S(), d))
        modifies occurrences
      {
        assert !db.deleted[c] ==> IsLive(db.S(), c);
        occurrences.Insert(c);
      }
    }

    /**
     * Adds the consequences of the facts to them, deletes all clauses containing facts and takes the negations of
     * facts out of the others. The shortened clauses are the lines of the proof. Nothing is done if the number
     * of facts has not changed since the last time.
     */
    method Optimize(assignment: Assignment, facts: seq<Lit>, ghost r: Record)
      returns (facts2: seq<Lit>, lines: seq<Clause>, unsat: bool)
      requires assignment.Valid() && Ready(assignment.Snap(), r, facts)
      modifies this, assignment, assignment.db
      ensures assignment.Valid() && |assignment.assignments| == |old(assignment.assignments)|
      ensures Ready(assignment.Snap(), WithLines(r, lines), facts2)
      ensures (forall l :: l in facts ==> l in facts2) && (facts2 == facts || Once(facts2))
      ensures |assignment.db.lits| == |old(assignment.db.lits)|
      ensures assignment.db.redundant == old(assignment.db.redundant)
      ensures unsat ==> facts2 == facts && lines == [] && Refuted(r, []) && LiveRefuted(assignment.db.S(), facts)
      ensures unsat <==> |facts| != old(factsAfterLastCall) && LiveRefuted(old(assignment.db.S()), facts)
      ensures !unsat && |facts| != old(factsAfterLastCall) ==>
                && IsClosure(old(assignment.db.S()), facts, facts2) && factsAfterLastCall == |facts2|
                && CleanedFrom(old(assignment.db.S()), assignment.db.S(), facts2) && Cleaned(assignment.db.S(), facts2)
      ensures |facts| == old(factsAfterLastCall) ==>
                facts2 == facts && lines == [] && assignment.Snap() == old(assignment.Snap())
      ensures unsat || |facts| == old(factsAfterLastCall) ==>
                factsAfterLastCall == old(factsAfterLastCall) && Permuted(old(assignment.db.S()), assignment.db.S())
    {
      hide Ready, AtRest, Consistent, Represents, DistinctVars, Occurring, Unwatched, NoneSatisfied, Tracks, Cleaned,
           Separated, Refuted, LiveRefuted, Permuted, IsClosure, CleanedFrom, NoneFalsified, Shrunk, Satisfied;
      facts2, lines, unsat := facts, [], false;
      assert WithLines(r, []) == r;
      PermutedSelf(assignment.db.S());
      if |facts| == factsAfterLastCall {
        return;
      }
      var occurrences := PrecomputeOccurrenceMap(assignment, r, facts);
      ghost var st := assignment.db.S();
      ReadyStore(assignment.Snap(), r, facts);
      var consistent;
      consistent, facts2 := WithConsequences(assignment, facts, r);
      PermutedFrame(st, assignment.db.S());
      PermutedLive(st, assignment.db.S(), facts);
      if !consistent {
        unsat := true;
        return;
      }
      factsAfterLastCall := |facts2|;
      PermutedTracks(occurrences.contents, st, assignment.db.S());
      ghost var propagated := assignment.db.S();
      lines := Clean(assignment, occurrences, facts2, r);
      PermutedCleaned(st, propagated, assignment.db.S(), facts2);
    }

    /** Deletes the clauses containing facts, and takes the negations of facts out of the others. */
    method Clean(assignment: Assignment, occurrences: OccurrenceMap, facts: seq<Lit>, ghost r: Record)
      returns (lines: seq<Clause>)
      requires Working(assignment, occurrences, r, facts) && Separated(assignment.db.S(), facts)
      modifies assignment`updateFlags, assignment`litsRequiringUpdate, assignment`reg, assignment`stale
      modifies assignment.db`deleted, assignment.db`lits, assignment.db`modified, occurrences
      ensures Working(assignment, occurrences, WithLines(r, lines), facts)
      ensures CleanedFrom(old(assignment.db.S()), assignment.db.S(), facts) && Cleaned(assignment.db.S(), facts)
    {
      hide Working, Unwatched, NoneSatisfied, Cleaned, Separated, CleanedFrom, NoneFalsified, Shrunk, Satisfied;
      ghost var st := assignment.db.S();
      DeleteSatisfied(assignment, occurrences, facts, r);
      ghost var st1 := assignment.db.S();
      FewerSeparated(st, st1, facts);
      SeparatedUnwatched(st1, facts);
      lines := StrengthenFalsified(assignment, occurrences, facts, r);
      DeletedThenShrunk(st, st1, assignment.db.S(), facts);
      NothingLeft(assignment.db.S(), facts);
    }

    /** Clauses containing the negation of a fact have more than two literals. */
    lemma LongEnough(assignment: Assignment, occurrences: OccurrenceMap, r: Record, facts: seq<Lit>, c: CRef, fact: Lit)
      requires Working(assignment, occurrences, r, facts) && Unwatched(assignment.db.S(), facts) && fact in facts
      requires IsLive(assignment.db.S(), c) && Neg(fact) in Cl(assignment.db.S(), c)
      ensures c < |assignment.db.lits| == |assignment.db.deleted| && |assignment.db.lits[c]| > 2
      ensures !assignment.db.deleted[c] && WatchesFree(Cl(assignment.db.S(), c), facts)
    {
    }
  }

  /** Simplification keeps the models of the facts together with the live clauses. */
  lemma SimplificationKeepsModels(s: Snapshot, s2: Snapshot, r: Record, lines: seq<Clause>, facts: seq<Lit>,
                                  facts2: seq<Lit>, m: Model)
    requires Ready(s, r, facts) && Ready(s2, WithLines(r, lines), facts2) && [] !in r.problem
    ensures
      (forall l :: l in facts ==> LitHolds(m, l)) && (forall c :: IsLive(s.st, c) ==> ClauseHolds(m, Cl(s.st, c))) <==>
      (forall l :: l in facts2 ==> LitHolds(m, l)) && (forall c :: IsLive(s2.st, c) ==> ClauseHolds(m, Cl(s2.st, c)))
  {
    hide Consistent, Kept, AtRest;
    KnowledgeIsProblem(r, facts, s.st, VarCount(s.t), m);
    KnowledgeIsProblem(WithLines(r, lines), facts2, s2.st, VarCount(s2.t), m);
  }

  lemma ShrunkSelf(st: Store, facts: seq<Lit>)
    ensures Shrunk(st, st, facts)
  {
  }

  lemma NoFacts(st: Store)
    ensures NoneFalsified(st, [])
  {
  }

  /** The negations of the facts dealt with before do not come back. */
  lemma ShrunkMore(st0: Store, st: Store, st2: Store, facts: seq<Lit>, i: nat)
    requires Shrunk(st0, st, facts) && Shrunk(st, st2, facts) && i < |facts| && NoneFalsified(st, facts[..i])
    requires forall c :: IsLive(st2, c) ==> Neg(facts[i]) !in Cl(st2, c)
    ensures Shrunk(st0, st2, facts) && NoneFalsified(st2, facts[..i + 1])
  {
    forall c ensures IsLive(st0, c) == IsLive(st, c) == IsLive(st2, c) {}
    forall c, x | IsLive(st2, c) && x in facts[..i + 1] ensures Neg(x) !in Cl(st2, c) {
      assert x in facts[..i] || x == facts[i];
      assert IsLive(st, c) && (x in facts[..i] ==> Neg(x) !in Cl(st, c));
    }
  }

  lemma StrengthenedStep(st0: Store, st: Store, st2: Store, facts: seq<Lit>, c: CRef, line: Clause, x: Lit)
    requires Shrunk(st0, st, facts) && IsLive(st, c) && Neg(x) in facts && st2 == st.(lits := st.lits[c := line])
    requires IsShortened(Cl(st, c), line, x) && Unwatched(st, facts) && NoneSatisfied(st, facts)
    ensures Unwatched(st2, facts) && NoneSatisfied(st2, facts) && Shrunk(st0, st2, facts)
    ensures forall d :: IsLive(st2, d) <==> IsLive(st, d)
    ensures forall d :: IsLive(st, d) ==> (x in Cl(st2, d) <==> d != c && x in Cl(st, d))
  {
    assert forall d, l :: l in Cl(st2, d) ==> l in Cl(st, d);
    assert WatchesFree(Cl(st, c), facts);
    forall d | IsLive(st2, d) ensures WatchesFree(Cl(st2, d), facts) {
      assert WatchesFree(Cl(st, d), facts);
    }
  }

  lemma PermutedFrame(st: Store, st2: Store)
    requires Permuted(st, st2)
    ensures |st2.lits| == |st.lits| && st2.redundant == st.redundant && st2.deleted == st.deleted
  {
  }

  /** If the clauses containing facts have been deleted, the watched literals of all others are free. */
  lemma SeparatedUnwatched(st: Store, facts: seq<Lit>)
    requires Separated(st, facts) && NoneSatisfied(st, facts)
    ensures Unwatched(st, facts)
  {
  }

  lemma FewerSeparated(st: Store, st2: Store, facts: seq<Lit>)
    requires Separated(st, facts) && st2.lits == st.lits && forall c :: IsLive(st2, c) ==> IsLive(st, c)
    ensures Separated(st2, facts)
  {
  }

  lemma ListedLive(st: Store, contents: Contents, l: Lit, list: seq<CRef>)
    requires Tracks(contents, st) && Occurring(contents, l, list)
    ensures forall c :: c in list <==> IsLive(st, c) && l in Cl(st, c)
    ensures forall i, j :: 0 <= i < j < |list| ==> list[i] != list[j]
  {
  }

  lemma ShortenedSize(cl: Clause, line: Clause, x: Lit)
    requires IsShortened(cl, line, x)
    ensures |line| >= 2 && x in Elements(cl)
  {
  }

  lemma FactNotWatched(cl: Clause, facts: seq<Lit>, fact: Lit)
    requires WatchesFree(cl, facts) && fact in facts && |cl| >= 2
    ensures cl[0] != Neg(fact) && cl[1] != Neg(fact)
  {
  }

  lemma LiveFacts(st: Store, contents: Contents, c: CRef)
    requires Tracks(contents, st) && IsLive(st, c) && StoreOk(st)
    ensures c < |st.lits| == |st.deleted| && !st.deleted[c] && c in contents && Elements(Cl(st, c)) == contents[c]
  {
  }

  lemma DeletedTracked(st: Store, contents: Contents, c: CRef)
    requires Tracks(contents, st) && IsLive(st, c) && StoreOk(st)
    ensures c < |st.deleted| && Tracks(contents - {c}, st.(deleted := st.deleted[c := true]))
  {
  }

  lemma ModifiedFits(o: Occurrences, contents: Contents, deleted: seq<bool>, modified: seq<bool>, c: CRef)
    requires Represents(o, contents, deleted, modified) && c < |modified|
    ensures Represents(o, contents, deleted, modified[c := true])
  {
  }

  lemma StrengthenedTracked(st: Store, contents: Contents, c: CRef, line: Clause, x: Lit)
    requires Tracks(contents, st) && IsLive(st, c) && StoreOk(st) && IsShortened(Cl(st, c), line, x)
    ensures c in contents && Tracks(contents[c := contents[c] + Elements([]) - {x}], st.(lits := st.lits[c := line]))
  {
  }

  lemma FactAppended(s: Snapshot, s2: Snapshot, r: Record, facts: seq<Lit>, l: Lit)
    requires Grounded(s, facts, []) && Knowing(s, r, facts) && CurLevel(s.t) == 0 && l in facts && Val(s.t, l) == Indet
    requires |s.t.levels| == |s.t.reasons| == |s.t.pos| == |s.t.vals| && l.v < VarCount(s.t)
    requires Progress(Pushed(s, l, None), s2) && Consistent(s2)
    ensures Grounded(s2, facts, []) && Knowing(s2, r, facts) && CurLevel(s2.t) == 0 && AllTrue(s2.t, [l], 0)
    ensures forall ls :: AllTrue(s.t, ls, 0) ==> AllTrue(s2.t, ls, 0)
    ensures VarCount(s2.t) == VarCount(s.t) && s2.stale == s.stale && Permuted(s.st, s2.st)
  {
    GroundedStep(s, s2, r, facts, [], l);
    hide Consistent;
  }

  lemma FactsRefuted(s: Snapshot, r: Record, facts: seq<Lit>)
    requires Grounded(s, facts, []) && Knowing(s, r, facts) && CurLevel(s.t) == 0
    requires (exists c :: Conflicting(s, c)) || (exists l :: l in facts && Val(s.t, l) == False)
    ensures Refuted(r, [])
  {
    hide Consistent, Knowing, Conflicting, Refuted;
    if c :| Conflicting(s, c) {
      ConflictRefutes(s, r, facts, [], c);
    } else {
      var l :| l in facts && Val(s.t, l) == False;
      OppositeRefutes(s, r, facts, [], l);
    }
  }
}
