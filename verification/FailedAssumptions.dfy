// Which assumptions are to blame for a negative answer.

module FailedAssumptions {
  import opened Literals
  import opened Logic
  import opened Trails
  import opened Watching
  import opened PropagationSteps
  import opened Traversal
  import opened Lifecycle
  import opened ImplicationGraph
  import opened AssignmentAnalysis
  import opened SearchState
  import opened Soundness
  import opened Derivations
  import opened Refutations
  import opened CdclSolvers
  import opened FailureExamples

  /** The reasons in a state of the solver consist of known clauses. */
  lemma ReasonIsKnown(s: Snapshot, r: Record, facts: seq<Lit>, v: nat)
    requires Consistent(s) && Knowing(s, r, facts) && Val(s.t, Lit(v, true)) != Indet && Reason(s.t, v).Some?
    ensures HasCopy(Known(r), ReasonClause(s, v))
    ensures exists x :: x in ReasonClause(s, v) && x.v == v
    ensures forall x :: x in ReasonClause(s, v) ==> Val(s.t, Lit(x.v, true)) != Indet
  {
    ReasonVars(s, v);
    ReasonOf(s, v);
    hide Consistent, ProofOk, Derives, HasCopy;
    assert ClauseKept(s.st, Reason(s.t, v).value, Known(r), VarCount(s.t));
    var cl := ReasonClause(s, v);
    assert cl[0] in cl && cl[1] in cl;
  }

  lemma NotMentioned(f: Formula, cl: Clause, v: nat)
    requires HasCopy(f, cl) && forall c, x :: c in f && x in c ==> x.v != v
    ensures forall x :: x in cl ==> x.v != v
  {
  }

  /** A variable which occurs in no known clause is not part of a trace. */
  lemma UnusedNotTraced(s: Snapshot, r: Record, facts: seq<Lit>, v: nat, trace: set<nat>, a: nat)
    requires Consistent(s) && Knowing(s, r, facts) && IsTrace(s, v, trace) && v != a && Val(s.t, Lit(v, true)) != Indet
    requires forall c, x :: c in Known(r) && x in c ==> x.v != a
    ensures a !in trace
  {
    var vs := set w | w in trace && w != a && Val(s.t, Lit(w, true)) != Indet;
    forall w | w in vs && Reason(s.t, w).Some? ensures CurrentVars(s.t, ReasonClause(s, w)) <= vs {
      ReasonIsKnown(s, r, facts, w);
      NotMentioned(Known(r), ReasonClause(s, w), a);
      hide Consistent, Knowing, HasCopy;
    }
    hide Consistent, Knowing;
    assert Traced(s, v, vs);
  }

  /**
   * An assumption whose variable occurs in no known clause is only to blame if it is the one which fails, and alone.
   */
  lemma UnusedNotBlamed(r: Record, st: Store, facts: seq<Lit>, assumptions: seq<Lit>, failed: seq<Lit>, a: Lit)
    requires Failure(r, st, facts, assumptions, failed) && a in failed
    requires forall c, x :: c in Known(r) && x in c ==> x.v != a.v
    ensures failed == [a]
  {
    hide Refuted, Satisfiable, LiveRefuted, AsymmetricTautology, Knowing, Consistent, IsTrace, HasCopy;
    var s: Snapshot :| s.st == st && Grounded(s, facts, assumptions) && Knowing(s, r, facts) &&
                       StaleIsFalse(s.stale, facts) && FailsAt(s, facts, assumptions, failed);
    var i :| FailsWith(s, facts, assumptions, failed, i);
    if Reason(s.t, failed[0].v).Some? {
      ReasonIsKnown(s, r, facts, failed[0].v);
      NotMentioned(Known(r), ReasonClause(s, failed[0].v), a.v);
      var trace :| IsTrace(s, failed[0].v, trace) && AreRoots(s, failed[0].v, trace, failed[1..]);
      assert a in failed[1..];
      UnusedNotTraced(s, r, facts, failed[0].v, trace, a.v);
    }
  }

  // ---- an example --------------------------------------------------------------------

  function OneClause(b: Lit, c: Lit): Record {
    Record([[Neg(b), Neg(c)]], [])
  }

  /** What unit propagation derives from the clause (-b -c) and some of the assumptions a, b and c. */
  lemma ClosedSets(a: Lit, b: Lit, c: Lit)
    requires DistinctVars([a, b, c])
    ensures UpClosed(iset{}, Known(OneClause(b, c))) && UpClosed(iset{a}, Known(OneClause(b, c)))
    ensures UpClosed(iset{a, b, Neg(c)}, Known(OneClause(b, c)))
  {
    var p := [Neg(b), Neg(c)];
    assert [a, b, c][0].v != [a, b, c][1].v && [a, b, c][0].v != [a, b, c][2].v && [a, b, c][1].v != [a, b, c][2].v;
    assert Neg(b) in p && Neg(c) in p && Neg(Neg(b)) == b && Neg(Neg(c)) == c;
    assert forall x :: x in Known(OneClause(b, c)) ==> x == p;
  }

  /** Only what unit propagation derives from the assumptions is true. */
  lemma OnlyDerivedIsTrue(s: Snapshot, facts: seq<Lit>, b: Lit, c: Lit, assumed: seq<Lit>, u: iset<Lit>)
    requires Consistent(s) && Rooted(s.t, facts, assumed) && CurLevel(s.t) <= 1 && facts == []
    requires Knowing(s, OneClause(b, c), facts) && UpClosed(u, Known(OneClause(b, c)))
    requires forall l :: l in assumed ==> l in u
    ensures forall l :: Val(s.t, l) == True ==> l in u
  {
    ConsistentTrail(s);
    LevelsBounded(s.t);
    ClosedKept(u, s, OneClause(b, c), facts);
    RootedPropagates(s, facts, assumed, u, 1);
  }

  lemma NoFactsKnown(s: Snapshot, facts: seq<Lit>, a: Lit, b: Lit, c: Lit)
    requires DistinctVars([a, b, c]) && Knowing(s, OneClause(b, c), facts)
    ensures facts == []
  {
    ClosedSets(a, b, c);
    assert facts != [] ==> facts[0] in facts;
    ClosedKept(iset{}, s, OneClause(b, c), facts);
  }

  /** The state after assuming `l` still contains nothing but what has been assumed and derived. */
  lemma StillRooted(s0: Snapshot, s: Snapshot, facts: seq<Lit>, earlier: seq<Lit>, l: Lit)
    requires Grounded(s0, facts, earlier) && Appends(s0, l, s) && CurLevel(s.t) == 1
    ensures Rooted(s.t, facts, earlier + [l])
  {
    AssignFacts(s0, l);
    ConsistentTrail(Pushed(s0, l, None));
    ConsistentTrail(s0);
    hide Consistent;
    assert Rooted(s0.t, facts, earlier + [l]);
    PushRooted(s0.t, l, facts, earlier + [l]);
    ProgressRooted(Pushed(s0, l, None), s, facts, earlier + [l]);
  }

  /** The only registered clause is the one of the problem. */
  lemma RegisteredIsCopy(s: Snapshot, facts: seq<Lit>, b: Lit, c: Lit, k: CRef)
    requires Knowing(s, OneClause(b, c), facts) && k in s.reg
    ensures SameLits(Cl(s.st, k), [Neg(b), Neg(c)])
  {
    hide ProofOk, Derives, SameLits;
    var r := OneClause(b, c);
    assert ClauseKept(s.st, k, Known(r), VarCount(s.t));
    var d :| d in Known(r) && SameLits(Cl(s.st, k), d);
    assert Known(r) == [[Neg(b), Neg(c)]];
  }

  /** If assuming one of a, b and c falsifies the clause, b and c have become true. */
  lemma ConflictMakesBothTrue(s: Snapshot, facts: seq<Lit>, b: Lit, c: Lit, k: CRef)
    requires Knowing(s, OneClause(b, c), facts) && Conflicting(s, k)
    ensures Val(s.t, b) == True && Val(s.t, c) == True
  {
    RegisteredIsCopy(s, facts, b, c, k);
    assert Neg(b) in [Neg(b), Neg(c)] && Neg(c) in [Neg(b), Neg(c)];
  }

  /** Once b is true at a fixpoint, c is false. */
  lemma SecondMakesThirdFalse(s: Snapshot, b: Lit, c: Lit, k: CRef)
    requires Consistent(s) && Fixpoint(s) && NoStaleTrue(s) && k in s.reg && SameLits(Cl(s.st, k), [Neg(b), Neg(c)])
    requires Val(s.t, b) == True
    ensures Val(s.t, c) == False
  {
    hide Consistent, Fixpoint, NoStaleTrue, SameLits;
    var u, p := iset l: Lit | Val(s.t, l) == True, [Neg(b), Neg(c)];
    FixpointClosed(s, k, u);
    ClosedUnderCopy(u, Cl(s.st, k), p);
    assert Neg(c) in p && Neg(Neg(b)) == b && Neg(Neg(c)) == c;
    assert forall x :: x in p && x != Neg(c) ==> Neg(x) in u;
    assert Neg(c) in u;
  }

  /** The clause had the same literals before the last assumption, and was registered as well. */
  lemma RegisteredBefore(s0: Snapshot, s: Snapshot, facts: seq<Lit>, b: Lit, c: Lit, k: CRef, l: Lit)
    requires Appends(s0, l, s) && Knowing(s, OneClause(b, c), facts) && k in s.reg && facts == []
    requires StaleIsFalse(s.stale, facts)
    ensures k in s0.reg && SameLits(Cl(s0.st, k), [Neg(b), Neg(c)]) && NoStaleTrue(s0)
  {
    RegisteredIsCopy(s, facts, b, c, k);
    assert Permuted(s0.st, s.st) && k < |s.st.lits|;
    assert SameLits(Cl(s.st, k), Cl(s0.st, k));
  }

  /** With the clause (-b -c), the assumptions a and b can be assigned. */
  lemma OnlyThirdFails(s: Snapshot, facts: seq<Lit>, a: Lit, b: Lit, c: Lit, i: nat)
    requires DistinctVars([a, b, c]) && facts == [] && i < 3 && CurLevel(s.t) == 1 && Consistent(s)
    requires Knowing(s, OneClause(b, c), facts) && StaleIsFalse(s.stale, facts)
    requires Contradicted(s, facts, [a, b, c][..i], [a, b, c][i])
    ensures i == 2 && HasAssumed(s, facts, [a, b]) && Val(s.t, c) == False
  {
    hide Consistent, Knowing, Fixpoint, Progress, Conflicting, UpClosed, AllTrue;
    var ls := [a, b, c];
    var earlier, l := ls[..i], ls[i];
    assert ls[..0] == [] && ls[..1] == [a] && ls[..2] == [a, b];
    assert ls[0].v != ls[1].v && ls[0].v != ls[2].v && ls[1].v != ls[2].v;
    ClosedSets(a, b, c);
    var us := [iset{}, iset{a}, iset{a, b, Neg(c)}];
    if HasAssumed(s, facts, earlier) && Val(s.t, l) == False {
      OnlyDerivedIsTrue(s, facts, b, c, earlier, us[i]);
      assert Val(s.t, Neg(l)) == True;
    } else {
      var s0, k :| HasAssumed(s0, facts, earlier) && Appends(s0, l, s) && Conflicting(s, k);
      StillRooted(s0, s, facts, earlier, l);
      ConflictMakesBothTrue(s, facts, b, c, k);
      if i < 2 {
        OnlyDerivedIsTrue(s, facts, b, c, earlier + [l], us[i + 1]);
        assert false;
      } else {
        BothAssumed(s0, facts, a, b);
        ConflictingRegistered(s, k);
        RegisteredBefore(s0, s, facts, b, c, k, c);
        SecondMakesThirdFalse(s0, b, c, k);
      }
    }
  }

  lemma BothAssumed(s: Snapshot, facts: seq<Lit>, a: Lit, b: Lit)
    requires HasAssumed(s, facts, [a, b])
    ensures Consistent(s) && Fixpoint(s) && Val(s.t, b) == True
  {
    assert b in [a, b];
  }

  lemma ConflictingRegistered(s: Snapshot, k: CRef)
    requires Conflicting(s, k)
    ensures k in s.reg
  {
  }

  lemma ReasonContains(s: Snapshot, l: Lit)
    requires Consistent(s) && Val(s.t, l) == True && Reason(s.t, l.v).Some?
    ensures l in ReasonClause(s, l.v) && Reason(s.t, l.v).value in s.reg
  {
    ReasonVars(s, l.v);
    ReasonOf(s, l.v);
    TrueLitFacts(s.t, l);
  }

  /** The only clause does not force b. */
  lemma SecondUnforced(s: Snapshot, facts: seq<Lit>, b: Lit, c: Lit)
    requires b.v != c.v && Consistent(s) && Knowing(s, OneClause(b, c), facts) && Val(s.t, b) == True
    ensures Reason(s.t, b.v).None?
  {
    hide Consistent, Knowing;
    if Reason(s.t, b.v).Some? {
      var k := Reason(s.t, b.v).value;
      ReasonContains(s, b);
      RegisteredIsCopy(s, facts, b, c, k);
    }
  }

  lemma SecondIsAssumed(s: Snapshot, facts: seq<Lit>, a: Lit, b: Lit, c: Lit)
    requires b.v != c.v && facts == [] && HasAssumed(s, facts, [a, b]) && CurLevel(s.t) == 1
    requires Knowing(s, OneClause(b, c), facts)
    ensures Val(s.t, b) == True && Reason(s.t, b.v).None? && Level(s.t, b.v) == 1
  {
    BothAssumed(s, facts, a, b);
    SecondUnforced(s, facts, b, c);
    assert b in [a, b];
    ConsistentTrail(s);
    hide Fixpoint, Knowing, Consistent;
    assert s.t.lits[Pos(s.t, b.v)] == b;
  }

  /** If c is false, the only clause has forced that. */
  lemma ThirdIsForced(s: Snapshot, facts: seq<Lit>, a: Lit, b: Lit, c: Lit)
    requires DistinctVars([a, b, c]) && facts == [] && HasAssumed(s, facts, [a, b]) && CurLevel(s.t) == 1
    requires Knowing(s, OneClause(b, c), facts) && Val(s.t, c) == False
    ensures Reason(s.t, c.v).Some? && SameLits(ReasonClause(s, c.v), [Neg(b), Neg(c)])
  {
    hide Knowing, Fixpoint, AllTrue;
    assert [a, b, c][0].v != [a, b, c][2].v && [a, b, c][1].v != [a, b, c][2].v;
    ConsistentTrail(s);
    LevelsBounded(s.t);
    assert Val(s.t, Neg(c)) == True && s.t.lits[Pos(s.t, c.v)] == Neg(c);
    ReasonVars(s, c.v);
    RegisteredIsCopy(s, facts, b, c, Reason(s.t, c.v).value);
  }

  /** The trace of -c consists of c and b. */
  lemma TraceOfThird(s: Snapshot, facts: seq<Lit>, a: Lit, b: Lit, c: Lit, trace: set<nat>)
    requires DistinctVars([a, b, c]) && facts == [] && CurLevel(s.t) == 1 && HasAssumed(s, facts, [a, b])
    requires Knowing(s, OneClause(b, c), facts) && Val(s.t, c) == False && IsTrace(s, c.v, trace)
    ensures trace == {b.v, c.v}
  {
    hide Knowing, HasAssumed, Consistent, Val, Level, ReasonClause, Reason;
    assert [a, b, c][1].v != [a, b, c][2].v;
    SecondIsAssumed(s, facts, a, b, c);
    ThirdIsForced(s, facts, a, b, c);
    var p := [Neg(b), Neg(c)];
    assert Neg(b) in p && Neg(b) in ReasonClause(s, c.v);
    assert b.v in CurrentVars(s.t, ReasonClause(s, c.v));
    assert Traced(s, c.v, {b.v, c.v});
  }

  /**
   * With the clause (-b -c) and the assumptions a, b and c, a negative answer blames exactly c and b, in this order:
   * a has nothing to do with it.
   */
  lemma OnlyInvolvedAreBlamed(a: Lit, b: Lit, c: Lit, st: Store, facts: seq<Lit>, failed: seq<Lit>)
    requires DistinctVars([a, b, c]) && Failure(OneClause(b, c), st, facts, [a, b, c], failed)
    ensures failed == [c, b]
  {
    hide Refuted, LiveRefuted, AsymmetricTautology, Knowing, Consistent, IsTrace, HasCopy, Contradicted;
    var r := OneClause(b, c);
    assert [a, b, c][1].v != [a, b, c][2].v;
    OneClauseSatisfiable(b, c);
    LastLineOfSatisfiable(r, st, facts, [a, b, c], failed);
    var s: Snapshot :| s.st == st && Grounded(s, facts, [a, b, c]) && Knowing(s, r, facts) &&
                       StaleIsFalse(s.stale, facts) && FailsAt(s, facts, [a, b, c], failed);
    var i :| FailsWith(s, facts, [a, b, c], failed, i);
    NoFactsKnown(s, facts, a, b, c);
    OnlyThirdFails(s, facts, a, b, c, i);
    SecondIsAssumed(s, facts, a, b, c);
    ThirdIsForced(s, facts, a, b, c);
    hide HasAssumed, SameLits;
    var trace :| IsTrace(s, c.v, trace) && AreRoots(s, c.v, trace, failed[1..]);
    TraceOfThird(s, facts, a, b, c, trace);
    var roots := failed[1..];
    assert b in roots;
    assert failed == [c] + roots;
    OnlyOne(roots, b);
  }

  lemma OnlyOne(ls: seq<Lit>, l: Lit)
    requires l in ls && DistinctVars(ls) && forall x :: x in ls ==> x.v == l.v
    ensures ls == [l]
  {
    assert ls[0] in ls && ls[|ls| - 1] in ls;
  }

  lemma OneClauseSatisfiable(b: Lit, c: Lit)
    requires b.v != c.v
    ensures Satisfiable(OneClause(b, c).problem) && ProofOk(OneClause(b, c))
  {
    var p, m := [Neg(b), Neg(c)], Making([Neg(b)]);
    assert Neg(b) in [Neg(b)] && Neg(b) in p && LitHolds(m, Neg(b));
    assert FormulaHolds(m, [p]);
  }
}
