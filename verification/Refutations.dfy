// What unit propagation through the live clauses refutes, and what it derives.

module Refutations {
  import opened Literals
  import opened Logic
  import opened Trails
  import opened Watching
  import opened PropagationSteps
  import opened Traversal
  import opened Lifecycle
  import opened SearchState
  import opened ClauseDatabase
  import opened Compression
  import opened Soundness
  import opened Derivations

  /** `u` contains `facts` and everything unit propagation through the live clauses forces from `u`. */
  ghost predicate LiveClosed(u: iset<Lit>, st: Store, facts: seq<Lit>) {
    (forall l :: l in facts ==> l in u) && (forall c :: IsLive(st, c) ==> ClosedUnder(u, Cl(st, c)))
  }

  ghost predicate LiveConflict(u: iset<Lit>, st: Store, facts: seq<Lit>) {
    (exists c :: IsLive(st, c) && Falsified(u, Cl(st, c))) || (exists l :: l in facts && Neg(l) in u)
  }

  /** Unit propagation refutes the facts and live clauses, all other clauses being forgotten. */
  ghost predicate LiveRefuted(st: Store, facts: seq<Lit>) {
    forall u: iset<Lit> :: LiveClosed(u, st, facts) ==> LiveConflict(u, st, facts)
  }

  ghost function Members(lits: seq<Lit>): iset<Lit> {
    iset l | l in lits
  }

  /** `lits` are exactly the literals which unit propagation through the live clauses derives from `facts`. */
  ghost predicate IsClosure(st: Store, facts: seq<Lit>, lits: seq<Lit>) {
    && LiveClosed(Members(lits), st, facts)
    && forall u: iset<Lit>, l :: LiveClosed(u, st, facts) && l in lits ==> l in u
  }

  lemma MoreRefuted(st: Store, facts: seq<Lit>, facts2: seq<Lit>)
    requires LiveRefuted(st, facts) && forall l :: l in facts ==> l in facts2
    ensures LiveRefuted(st, facts2)
  {
    forall u: iset<Lit> | LiveClosed(u, st, facts2) ensures LiveConflict(u, st, facts2) {
      assert LiveConflict(u, st, facts);
    }
  }

  // ---- reading the trail -------------------------------------------------------------

  /** If a clause, a fact or an assumption is falsified on level 0 or 1, unit propagation refutes what is true there. */
  lemma ConflictRefutesLive(s: Snapshot, r: Record, facts: seq<Lit>, assumptions: seq<Lit>)
    requires Grounded(s, facts, assumptions) && Knowing(s, r, facts)
    requires (exists c :: Conflicting(s, c)) ||
             (exists l :: l in facts + Assumed(CurLevel(s.t), assumptions) && Val(s.t, l) == False)
    ensures LiveRefuted(s.st, facts + Assumed(CurLevel(s.t), assumptions))
    ensures CurLevel(s.t) == 0 ==> LiveRefuted(s.st, facts)
  {
    ConsistentTrail(s);
    LevelsBounded(s.t);
    var ls := facts + Assumed(CurLevel(s.t), assumptions);
    assert CurLevel(s.t) == 0 ==> ls == facts;
    hide Consistent, Rooted, Kept;
    forall u: iset<Lit> | LiveClosed(u, s.st, ls) ensures LiveConflict(u, s.st, ls) {
      RootedPropagates(s, facts, assumptions, u, CurLevel(s.t));
      if c :| Conflicting(s, c) {
        FalseIsFalsified(s, c, u);
      } else {
        var l :| l in ls && Val(s.t, l) == False;
        assert Val(s.t, Neg(l)) == True;
      }
    }
  }

  lemma FalseIsFalsified(s: Snapshot, c: CRef, u: iset<Lit>)
    requires Conflicting(s, c) && AllRegistered(s) && forall l :: Val(s.t, l) == True ==> l in u
    ensures IsLive(s.st, c) && Falsified(u, Cl(s.st, c))
  {
  }

  /** If facts and assumptions can be propagated without conflict, unit propagation does not refute them. */
  lemma FixpointNotRefuted(s: Snapshot, r: Record, facts: seq<Lit>, assumptions: seq<Lit>)
    requires Consistent(s) && Fixpoint(s) && Knowing(s, r, facts) && AllTrue(s.t, facts, 0)
    requires StaleIsFalse(s.stale, facts) && forall l :: l in assumptions ==> Val(s.t, l) == True
    ensures !LiveRefuted(s.st, facts + assumptions) && !LiveRefuted(s.st, facts)
  {
    var u := iset l: Lit | Val(s.t, l) == True;
    FixpointLiveClosed(s, r, facts, u);
    hide Consistent, Kept, Fixpoint, ClosedUnder, Falsified;
    assert LiveClosed(u, s.st, facts + assumptions) && !LiveConflict(u, s.st, facts + assumptions);
    assert LiveClosed(u, s.st, facts) && !LiveConflict(u, s.st, facts);
  }

  /** At a fixpoint, the true literals are closed under unit propagation, and no clause is falsified. */
  lemma FixpointLiveClosed(s: Snapshot, r: Record, facts: seq<Lit>, u: iset<Lit>)
    requires Consistent(s) && Fixpoint(s) && Knowing(s, r, facts) && AllTrue(s.t, facts, 0)
    requires StaleIsFalse(s.stale, facts) && forall l :: l in u <==> Val(s.t, l) == True
    ensures forall c :: IsLive(s.st, c) ==> ClosedUnder(u, Cl(s.st, c)) && !Falsified(u, Cl(s.st, c))
    ensures LiveClosed(u, s.st, facts)
  {
    NoStale(s, facts);
    hide Consistent, Kept, Fixpoint, ClosedUnder, Falsified;
    forall c | IsLive(s.st, c) ensures ClosedUnder(u, Cl(s.st, c)) && !Falsified(u, Cl(s.st, c)) {
      FixpointClosed(s, c, u);
    }
  }

  lemma FixpointClosed(s: Snapshot, c: CRef, u: iset<Lit>)
    requires Consistent(s) && Fixpoint(s) && NoStaleTrue(s) && c in s.reg
    requires forall l :: l in u <==> Val(s.t, l) == True
    ensures ClosedUnder(u, Cl(s.st, c)) && !Falsified(u, Cl(s.st, c))
  {
    var cl := Cl(s.st, c);
    FixpointComplete(s, c);
    TwoVariables(s, c);
    hide Consistent, Fixpoint;
    assert cl[0] in cl && cl[1] in cl;
  }

  /** After propagation of the facts, exactly what unit propagation derives from them is true on level 0. */
  lemma FixpointIsClosure(s: Snapshot, r: Record, facts: seq<Lit>, assumptions: seq<Lit>, lits: seq<Lit>)
    requires Grounded(s, facts, assumptions) && Fixpoint(s) && Knowing(s, r, facts) && CurLevel(s.t) == 0
    requires AllTrue(s.t, facts, 0) && StaleIsFalse(s.stale, facts) && SameLits(lits, s.t.lits)
    ensures IsClosure(s.st, facts, lits)
  {
    ConsistentTrail(s);
    LevelsBounded(s.t);
    TrailTrue(s.t);
    FixpointLiveClosed(s, r, facts, Members(lits));
    hide Consistent, Rooted, Kept, Fixpoint, TrailOk;
    forall u: iset<Lit>, l | LiveClosed(u, s.st, facts) && l in lits ensures l in u {
      RootedPropagates(s, facts, assumptions, u, 0);
    }
  }

  // ---- changing clauses and facts ------------------------------------------------------

  lemma PermutedClosed(st: Store, st2: Store, facts: seq<Lit>, u: iset<Lit>)
    requires Permuted(st, st2) && StoreOk(st)
    ensures LiveClosed(u, st, facts) <==> LiveClosed(u, st2, facts)
    ensures LiveConflict(u, st, facts) <==> LiveConflict(u, st2, facts)
  {
    forall c ensures IsLive(st, c) <==> IsLive(st2, c)
             ensures ClosedUnder(u, Cl(st, c)) <==> ClosedUnder(u, Cl(st2, c))
             ensures Falsified(u, Cl(st, c)) <==> Falsified(u, Cl(st2, c))
    {
      ClosedUnderCopy(u, Cl(st2, c), Cl(st, c));
    }
    hide ClosedUnder, Falsified, Permuted, IsLive;
  }

  /** Permuting the literals of clauses changes nothing. */
  lemma PermutedLive(st: Store, st2: Store, facts: seq<Lit>)
    requires Permuted(st, st2) && StoreOk(st)
    ensures LiveRefuted(st, facts) <==> LiveRefuted(st2, facts)
    ensures forall lits :: IsClosure(st, facts, lits) <==> IsClosure(st2, facts, lits)
  {
    hide LiveClosed, LiveConflict, Permuted;
    forall u: iset<Lit>
      ensures (LiveClosed(u, st, facts) <==> LiveClosed(u, st2, facts)) &&
              (LiveConflict(u, st, facts) <==> LiveConflict(u, st2, facts))
    {
      PermutedClosed(st, st2, facts, u);
    }
  }

  /** Removing a literal from a closed set without conflict which contains its opposite leaves a closed set. */
  lemma WithoutLiteral(u: iset<Lit>, st: Store, facts: seq<Lit>, l: Lit)
    requires LiveClosed(u, st, facts) && Neg(l) in u && l !in facts
    requires forall c :: IsLive(st, c) ==> !Falsified(u, Cl(st, c))
    ensures LiveClosed(u - iset{l}, st, facts)
  {
    forall c | IsLive(st, c) ensures ClosedUnder(u - iset{l}, Cl(st, c)) {
      assert ClosedUnder(u, Cl(st, c)) && !Falsified(u, Cl(st, c));
    }
  }

  /** Replacing facts by everything derived from them does not change what is refuted. */
  lemma ClosureRefuted(st: Store, facts: seq<Lit>, lits: seq<Lit>, more: seq<Lit>)
    requires IsClosure(st, facts, lits)
    ensures LiveRefuted(st, facts + more) <==> LiveRefuted(st, lits + more)
  {
    assert forall l :: l in facts ==> l in Members(lits);
    if LiveRefuted(st, facts + more) {
      MoreRefuted(st, facts + more, lits + more);
    } else {
      var u: iset<Lit> :| LiveClosed(u, st, facts + more) && !LiveConflict(u, st, facts + more);
      assert LiveClosed(u, st, facts);
      forall l | l in lits ensures Neg(l) !in u && l in u {
        if Neg(l) in u {
          assert l in u && (l in facts ==> l in facts + more);
          WithoutLiteral(u, st, facts, l);
        }
      }
      assert LiveClosed(u, st, lits + more) && !LiveConflict(u, st, lits + more);
    }
  }

  // ---- the problem -----------------------------------------------------------------------

  ghost predicate InAllClosed(l: Lit, st: Store, facts: seq<Lit>) {
    forall u: iset<Lit> :: LiveClosed(u, st, facts) ==> l in u
  }

  /** The literals which unit propagation derives from the facts. */
  ghost function Derived(st: Store, facts: seq<Lit>): iset<Lit> {
    iset l: Lit | InAllClosed(l, st, facts)
  }

  /** Unless the facts are refuted, the derived literals are closed, free of conflicts and consistent. */
  lemma DerivedFacts(st: Store, facts: seq<Lit>)
    requires !LiveRefuted(st, facts)
    ensures LiveClosed(Derived(st, facts), st, facts) && !LiveConflict(Derived(st, facts), st, facts)
    ensures forall l :: l in Derived(st, facts) ==> Neg(l) !in Derived(st, facts)
  {
    var d := Derived(st, facts);
    var u: iset<Lit> :| LiveClosed(u, st, facts) && !LiveConflict(u, st, facts);
    assert forall l :: l in d ==> l in u;
    forall c | IsLive(st, c) ensures ClosedUnder(d, Cl(st, c)) && !Falsified(d, Cl(st, c)) {
      assert !Falsified(u, Cl(st, c));
      forall w: iset<Lit> | LiveClosed(w, st, facts) ensures ClosedUnder(w, Cl(st, c)) {}
    }
    forall l | l in d ensures Neg(l) !in d {
      if Neg(l) in d {
        WithoutLiteral(d, st, facts, l);
      }
    }
  }

  /** A consistent set without conflict does not falsify a clause of the problem either, and is closed under it. */
  lemma AccountedClosed(p: Clause, facts: seq<Lit>, st: Store, ls: seq<Lit>, u: iset<Lit>)
    requires Accounted(p, facts, st) && LiveClosed(u, st, ls) && !LiveConflict(u, st, ls)
    requires (forall l :: l in facts ==> l in ls) && forall l :: l in u ==> Neg(l) !in u
    ensures ClosedUnder(u, p) && !Falsified(u, p)
  {
    if Tautology(p) {
      var l :| l in p && Neg(l) in p;
      assert Neg(Neg(l)) == l;
    } else if l :| l in p && l in facts {
      assert l in u && Neg(l) !in u;
    } else {
      var c :| IsLive(st, c) && !IsRedundant(st, c) && forall x :: x in Cl(st, c) ==> x in p;
      assert ClosedUnder(u, Cl(st, c)) && !Falsified(u, Cl(st, c));
    }
  }

  /** If unit propagation refutes the problem and the assumptions, it also refutes what the solver has made of it. */
  lemma ProblemRefuted(r: Record, facts: seq<Lit>, st: Store, assumptions: seq<Lit>)
    requires AllAccounted(r.problem, facts, st) && [] !in r.problem
    ensures AsymmetricTautology(r.problem + Units(assumptions), []) ==> LiveRefuted(st, facts + assumptions)
  {
    var f, ls := r.problem + Units(assumptions), facts + assumptions;
    if !LiveRefuted(st, ls) {
      var u := Derived(st, ls);
      DerivedFacts(st, ls);
      forall c | c in f ensures ClosedUnder(u, c) && !Falsified(u, c) {
        if c in r.problem {
          assert Accounted(c, facts, st);
          AccountedClosed(c, facts, st, ls, u);
        } else {
          assert exists i :: 0 <= i < |assumptions| && c == [assumptions[i]];
          assert c[0] in ls && c[0] in u && c[0] in c;
        }
      }
      assert UpClosed(u, f) && Refutes(u, []) && !UpConflict(u, f);
    }
  }
}
