// Lemma minimization: erasing redundant literals, and resolution with binary clauses.

module ClauseMinimization {
  import opened Literals
  import opened Logic
  import opened Trails
  import opened Watching
  import opened Traversal
  import opened Lifecycle
  import opened ImplicationGraph
  import opened StampMaps
  import opened Assignments

  /** Variable `v` is forced, and its reason consists of literals of level 0 and of variables in `vars`. */
  ghost predicate Justified(s: Snapshot, vars: set<nat>, v: nat) {
    && Val(s.t, Lit(v, true)) != Indet && Reason(s.t, v).Some?
    && forall x :: x in ReasonClause(s, v) ==> x.v in vars || Level(s.t, x.v) == 0
  }

  /** All variables in `vs` can be traced back to literals of the lemma and literals of level 0. */
  ghost predicate RedundantSet(s: Snapshot, clause: Clause, vs: set<nat>) {
    forall v :: v in vs ==> Justified(s, vs + Vars(clause), v)
  }

  /**
   * Literal `l` of the lemma is redundant: it is on level 0, or it has been forced and each other literal of its
   * reason is on level 0, occurs in the lemma or is redundant. Forced literals of the current level are kept.
   */
  ghost predicate Redundant(s: Snapshot, clause: Clause, l: Lit) {
    if Reason(s.t, l.v).None? then Level(s.t, l.v) == 0
    else Level(s.t, l.v) != CurLevel(s.t) && exists vs :: l.v in vs && RedundantSet(s, clause, vs)
  }

  ghost function RedundantLits(s: Snapshot, clause: Clause): iset<Lit> {
    iset l: Lit | Redundant(s, clause, l)
  }

  /** The literals which can be resolved away from a clause containing `r`. */
  ghost function ResolvableLits(s: Snapshot, r: Lit): iset<Lit> {
    iset l: Lit | Partners(s, r, Neg(l))
  }

  // ---- the redundancy check in progress --------------------------------------------

  /** The stamped variables: those of the lemma and those found to be redundant. */
  ghost predicate StampsFit(s: Snapshot, clause: Clause, found: set<nat>, stamped: set<nat>) {
    && stamped == Vars(clause) + found
    && RedundantSet(s, clause, found)
    && forall x :: x in clause ==> Val(s.t, x) != Indet
  }

  /** A redundancy check of variable `v` in `clause`, with the stamped variables at its beginning. */
  datatype Check = Check(s: Snapshot, clause: Clause, found: set<nat>, stamped: set<nat>, v: nat, levels: Approximation)

  ghost predicate CheckOk(k: Check) {
    && Consistent(k.s) && StampsFit(k.s, k.clause, k.found, k.stamped)
    && k.v in Vars(k.clause) && Reason(k.s.t, k.v).Some?
    && (forall x :: x in k.clause ==> MightContain(k.levels, Level(k.s.t, x.v)))
    && (forall v :: v in k.found ==> MightContain(k.levels, Level(k.s.t, v)))
    && MightContain(k.levels, 0)
  }

  /** The variables `added` have been stamped for the check, those in `work` still have to be looked at. */
  ghost predicate Checking(k: Check, added: set<nat>, work: seq<nat>) {
    && added !! k.stamped
    && (forall w :: w in work ==> w in added + {k.v})
    && (forall w :: w in added + {k.v} ==> Val(k.s.t, Lit(w, true)) != Indet && Reason(k.s.t, w).Some?)
    && (forall w :: w in added + {k.v} && w !in work ==> Justified(k.s, k.stamped + added, w))
    && (forall w :: w in added ==> MightContain(k.levels, Level(k.s.t, w)))
    && (forall vs :: RedundantSet(k.s, k.clause, vs) && k.v in vs ==> added <= vs)
  }

  /** The reason of `item` is being looked at, up to its literal `j`. */
  ghost predicate CheckingItem(k: Check, added: set<nat>, work: seq<nat>, item: nat, j: nat) {
    && Checking(k, added, work + [item])
    && item in added + {k.v} && j <= |ReasonClause(k.s, item)|
    && forall x :: x in ReasonClause(k.s, item)[..j] ==> x.v in k.stamped + added || Level(k.s.t, x.v) == 0
  }

  lemma CheckFacts(k: Check, l: Lit)
    requires CheckOk(k) && l.v == k.v
    ensures Level(k.s.t, l.v) == CurLevel(k.s.t) ==> !Redundant(k.s, k.clause, l)
    ensures StampsFit(k.s, k.clause, k.found, k.stamped)
    ensures forall v :: v in k.found ==> MightContain(k.levels, Level(k.s.t, v))
  {
  }

  lemma StartCheck(k: Check)
    requires CheckOk(k)
    ensures Checking(k, {}, [k.v])
  {
  }

  ghost predicate ItemReady(k: Check, item: nat) {
    && item < VarCount(k.s.t) && Reason(k.s.t, item).Some? && Reason(k.s.t, item).value < |k.s.st.lits|
    && (forall x :: x in ReasonClause(k.s, item) ==> x.v < VarCount(k.s.t) && Val(k.s.t, x) != Indet)
  }

  lemma StartItem(k: Check, added: set<nat>, work: seq<nat>)
    requires CheckOk(k) && Checking(k, added, work) && work != []
    ensures
      var item := work[|work| - 1];
      CheckingItem(k, added, work[..|work| - 1], item, 0) && ItemReady(k, item)
  {
    hide ListsOk, WatchesComplete, StampsFit, RedundantSet;
    var item := work[|work| - 1];
    assert work == work[..|work| - 1] + [item];
    assert item in work;
    ReasonVars(k.s, item);
  }

  lemma FinishItem(k: Check, added: set<nat>, work: seq<nat>, item: nat)
    requires CheckingItem(k, added, work, item, |ReasonClause(k.s, item)|)
    ensures Checking(k, added, work)
  {
  }

  /** The literal looked at needs no further treatment. */
  lemma CheckSkip(k: Check, added: set<nat>, work: seq<nat>, item: nat, j: nat)
    requires CheckingItem(k, added, work, item, j) && j < |ReasonClause(k.s, item)|
    requires
      var x := ReasonClause(k.s, item)[j];
      Level(k.s.t, x.v) == 0 || x.v in k.stamped + added
    ensures CheckingItem(k, added, work, item, j + 1)
  {
  }

  /** A literal which has not been stamped belongs to each set proving the redundancy of `k.v`. */
  lemma Needed(k: Check, added: set<nat>, work: seq<nat>, item: nat, x: Lit, vs: set<nat>)
    requires StampsFit(k.s, k.clause, k.found, k.stamped) && Checking(k, added, work) && item in added + {k.v}
    requires x in ReasonClause(k.s, item) && x.v !in k.stamped + added && Level(k.s.t, x.v) != 0
    requires RedundantSet(k.s, k.clause, vs) && k.v in vs
    ensures x.v in vs && added <= vs
  {
  }

  lemma JustifiedMore(s: Snapshot, vars: set<nat>, more: set<nat>, v: nat)
    requires Justified(s, vars, v) && vars <= more
    ensures Justified(s, more, v)
  {
  }

  /** The literal looked at has to be checked as well. */
  lemma CheckPush(k: Check, added: set<nat>, work: seq<nat>, item: nat, j: nat)
    requires CheckOk(k) && CheckingItem(k, added, work, item, j) && j < |ReasonClause(k.s, item)|
    requires
      var x := ReasonClause(k.s, item)[j];
      && Level(k.s.t, x.v) != 0 && x.v !in k.stamped + added && Reason(k.s.t, x.v).Some? && Val(k.s.t, x) != Indet
      && MightContain(k.levels, Level(k.s.t, x.v))
    ensures
      var x := ReasonClause(k.s, item)[j];
      CheckingItem(k, added + {x.v}, work + [x.v], item, j + 1)
  {
    hide RedundantSet, Justified, Consistent, StampsFit;
    var c := ReasonClause(k.s, item);
    var x := c[j];
    assert c[..j + 1] == c[..j] + [x];
    assert x in c;
    forall vs | RedundantSet(k.s, k.clause, vs) && k.v in vs ensures added + {x.v} <= vs {
      Needed(k, added, work + [item], item, x, vs);
    }
    forall w | w in added + {x.v} + {k.v} && w !in (work + [x.v]) + [item]
      ensures Justified(k.s, k.stamped + (added + {x.v}), w)
    {
      assert w !in work + [item];
      JustifiedMore(k.s, k.stamped + added, k.stamped + (added + {x.v}), w);
    }
    var work2 := (work + [x.v]) + [item];
    assert forall w :: w in work2 ==> w in work + [item] || w == x.v;
    assert forall y :: y in c[..j + 1] ==> y in c[..j] || y == x;
    assert added + {x.v} !! k.stamped;
    assert Checking(k, added + {x.v}, work2);
  }

  /** The literal looked at has no reason, or its level has no literal in the clause: `k.v` is not redundant. */
  lemma CheckFails(k: Check, added: set<nat>, work: seq<nat>, item: nat, j: nat, l: Lit)
    requires CheckOk(k) && CheckingItem(k, added, work, item, j) && j < |ReasonClause(k.s, item)| && l.v == k.v
    requires
      var x := ReasonClause(k.s, item)[j];
      || !MightContain(k.levels, Level(k.s.t, x.v))
      || (Level(k.s.t, x.v) != 0 && x.v !in k.stamped + added && Reason(k.s.t, x.v).None?)
    ensures !Redundant(k.s, k.clause, l)
  {
    hide Consistent;
    var x := ReasonClause(k.s, item)[j];
    assert x.v !in k.stamped + added;
    if Redundant(k.s, k.clause, l) {
      var vs :| l.v in vs && RedundantSet(k.s, k.clause, vs);
      Needed(k, added, work + [item], item, x, vs);
      assert Justified(k.s, vs + Vars(k.clause), x.v);
      LevelWithoutLiteral(k.s, k.clause, vs, x.v);
    }
  }

  lemma CheckDone(k: Check, added: set<nat>, l: Lit)
    requires CheckOk(k) && Checking(k, added, []) && l.v == k.v && Level(k.s.t, l.v) != CurLevel(k.s.t)
    ensures StampsFit(k.s, k.clause, k.found + added + {k.v}, k.stamped + added)
    ensures Redundant(k.s, k.clause, l)
    ensures forall v :: v in k.found + added + {k.v} ==> MightContain(k.levels, Level(k.s.t, v))
  {
    hide Consistent;
    var found2 := k.found + added + {k.v};
    assert k.stamped + added == found2 + Vars(k.clause);
    forall w | w in found2 ensures Justified(k.s, found2 + Vars(k.clause), w) {
      if w in k.found {
        assert Justified(k.s, k.found + Vars(k.clause), w);
      } else {
        assert Justified(k.s, k.stamped + added, w);
      }
    }
  }

  /** A set proving redundancy cannot enter a level (other than 0) without a literal of the clause. */
  lemma LevelWithoutLiteral(s: Snapshot, clause: Clause, vs: set<nat>, v: nat)
    requires Consistent(s) && RedundantSet(s, clause, vs) && v in vs && Level(s.t, v) != 0
    requires forall x :: x in clause ==> Level(s.t, x.v) != Level(s.t, v)
    ensures false
    decreases Pos(s.t, v)
  {
    assert Justified(s, vs + Vars(clause), v);
    ReasonOf(s, v);
    var c := Reason(s.t, v).value;
    var p := TrueLit(s.t, v);
    var x :| x in Cl(s.st, c) && x != p && Level(s.t, x.v) == Level(s.t, p.v);
    assert FalseBefore(s.t, x, Pos(s.t, v));
    assert x in ReasonClause(s, v);
    LevelWithoutLiteral(s, clause, vs, x.v);
  }

  // ---- meaning ---------------------------------------------------------------------

  /** `u` contains all literals assigned on level 0. */
  ghost predicate ContainsLevelZero(u: iset<Lit>, t: Trail) {
    forall x :: Val(t, x) == True && Level(t, x.v) == 0 ==> x in u
  }

  /** Unit propagation from the negation of what remains of a lemma makes all redundant literals false, too. */
  lemma RedundantPropagates(s: Snapshot, clause: Clause, kept: Clause, vs: set<nat>, u: iset<Lit>, v: nat)
    requires Consistent(s) && RedundantSet(s, clause, vs) && v in vs
    requires forall x :: x in clause ==> Val(s.t, x) == False
    requires forall x :: x in clause && x !in kept ==> x.v in vs || Level(s.t, x.v) == 0
    requires ClosedUnderRegistered(u, s) && Refutes(u, kept) && ContainsLevelZero(u, s.t)
    ensures TrueLit(s.t, v) in u
    decreases Pos(s.t, v)
  {
    assert Justified(s, vs + Vars(clause), v);
    ReasonOf(s, v);
    var c := Reason(s.t, v).value;
    var p := TrueLit(s.t, v);
    forall x | x in Cl(s.st, c) && x != p ensures Neg(x) in u {
      assert FalseBefore(s.t, x, Pos(s.t, v));
      TrueLitFacts(s.t, x);
      assert x in ReasonClause(s, v);
      if Level(s.t, x.v) != 0 {
        if x.v in vs {
          RedundantPropagates(s, clause, kept, vs, u, x.v);
        } else {
          var y :| y in clause && y.v == x.v;
          assert Val(s.t, y) == False && y == x;
        }
      }
    }
    assert ClosedUnder(u, Cl(s.st, c)) && p in Cl(s.st, c);
  }

  /** Whatever unit propagation derives from the negation of the lemma, it derives from what remains of it. */
  lemma ErasedRefutes(s: Snapshot, clause: Clause, kept: Clause, u: iset<Lit>)
    requires Consistent(s) && forall x :: x in clause ==> Val(s.t, x) == False
    requires forall x :: x in clause && x !in kept ==> Redundant(s, clause, x)
    requires ClosedUnderRegistered(u, s) && Refutes(u, kept) && ContainsLevelZero(u, s.t)
    ensures Refutes(u, clause)
  {
    var found := AllRedundant(s, clause, clause);
    forall x | x in clause ensures Neg(x) in u {
      TrueLitFacts(s.t, x);
      if x !in kept && Level(s.t, x.v) != 0 {
        assert Redundant(s, clause, x);
        RedundantPropagates(s, clause, kept, found, u, x.v);
      }
    }
  }

  /** No binary clause consists of a literal and its negation. */
  lemma NoOwnPartner(s: Snapshot, r: Lit)
    requires Consistent(s)
    ensures !Partners(s, r, Neg(r))
    ensures forall m :: Partners(s, r, m) ==> m.v < VarCount(s.t)
  {
  }

  /** The same holds for what remains after resolution with binary clauses. */
  lemma ResolvedRefutes(s: Snapshot, clause: Clause, r: Lit, u: iset<Lit>)
    requires Consistent(s) && r in clause
    requires ClosedUnderRegistered(u, s) && Refutes(u, Dropping(clause, ResolvableLits(s, r)))
    ensures r in Dropping(clause, ResolvableLits(s, r)) && Refutes(u, clause)
  {
    hide Consistent;
    DroppingFacts(clause, ResolvableLits(s, r));
    NoOwnPartner(s, r);
    forall l | l in clause ensures Neg(l) in u {
      if Partners(s, r, Neg(l)) {
        var c :| c in s.reg && |Cl(s.st, c)| == 2 && r in Cl(s.st, c) && Neg(l) in Cl(s.st, c) && Neg(l) != r;
        assert ClosedUnder(u, Cl(s.st, c));
        assert forall x :: x in Cl(s.st, c) && x != Neg(l) ==> x == r;
      }
    }
  }

  /** One set proves the redundancy of all redundant literals in a part of the lemma. */
  lemma AllRedundant(s: Snapshot, clause: Clause, part: Clause) returns (vs: set<nat>)
    ensures RedundantSet(s, clause, vs)
    ensures forall x :: x in part && Redundant(s, clause, x) && Level(s.t, x.v) != 0 ==> x.v in vs
  {
    vs := {};
    if part != [] {
      var l := part[|part| - 1];
      assert part == part[..|part| - 1] + [l];
      vs := AllRedundant(s, clause, part[..|part| - 1]);
      if Redundant(s, clause, l) && Level(s.t, l.v) != 0 {
        var ws :| l.v in ws && RedundantSet(s, clause, ws);
        RedundantUnion(s, clause, vs, ws);
        vs := vs + ws;
      }
    }
  }

  lemma RedundantUnion(s: Snapshot, clause: Clause, vs: set<nat>, ws: set<nat>)
    requires RedundantSet(s, clause, vs) && RedundantSet(s, clause, ws)
    ensures RedundantSet(s, clause, vs + ws)
  {
  }

  // ---- the algorithms --------------------------------------------------------------

  class RedundancyChecker {
    const assignment: Assignment
    const tempStamps: StampMap
    var work: seq<nat>
    var stampCleanup: seq<nat>

    constructor (assignment: Assignment, tempStamps: StampMap)
      ensures this.assignment == assignment && this.tempStamps == tempStamps
    {
      this.assignment, this.tempStamps := assignment, tempStamps;
      work, stampCleanup := [], [];
    }

    ghost predicate Ready(stamp: nat)
      reads assignment, assignment.db, tempStamps
    {
      && assignment.Valid() && tempStamps.Valid() && tempStamps.contextActive && stamp == tempStamps.currentStamp
      && |tempStamps.stamps| >= |assignment.assignments|
    }

    /** The literals stamped for the check `k` are those to be cleaned up if it fails. */
    ghost predicate Tracks(k: Check, added: set<nat>)
      reads this`stampCleanup, tempStamps
    {
      && (forall v :: v in stampCleanup <==> v in added)
      && tempStamps.Stamped() == k.stamped + added && added !! k.stamped
      && (forall v :: v in stampCleanup ==> v < |tempStamps.stamps|)
    }

    lemma NothingAdded(stamp: nat, k: Check, l: Lit)
      requires Ready(stamp) && stampCleanup == [] && tempStamps.Stamped() == k.stamped && k.s == assignment.Snap()
      ensures Tracks(k, {})
      ensures l.v < |assignment.assignments| ==> l.v < |assignment.levels|
      ensures assignment.currentLevel == CurLevel(k.s.t)
    {
    }

    lemma StampedNow(k: Check, added: set<nat>)
      requires Tracks(k, added)
      ensures tempStamps.Stamped() == k.stamped + added
    {
    }

    /** Removes the stamps of a failed check. */
    method RemoveStamps(stamp: nat, ghost k: Check, ghost added: set<nat>)
      requires Ready(stamp) && Tracks(k, added)
      modifies tempStamps`stamps
      ensures Ready(stamp) && tempStamps.Stamped() == k.stamped
      ensures |tempStamps.stamps| == |old(tempStamps.stamps)|
    {
      hide Consistent;
      for i := 0 to |stampCleanup|
        invariant Ready(stamp) && |tempStamps.stamps| == |old(tempStamps.stamps)|
        invariant forall v :: v in tempStamps.Stamped() <==> v in k.stamped + added && v !in stampCleanup[..i]
      {
        assert stampCleanup[..i + 1] == stampCleanup[..i] + [stampCleanup[i]];
        assert stampCleanup[i] in stampCleanup;
        tempStamps.SetStamped(stampCleanup[i], stamp, false);
      }
      assert stampCleanup[..|stampCleanup|] == stampCleanup;
    }

    /** Stamps a variable which has to be checked as well. */
    method PushWork(v: nat, stamp: nat, ghost k: Check, ghost added: set<nat>)
      requires Ready(stamp) && Tracks(k, added) && v < |tempStamps.stamps| && v !in tempStamps.Stamped()
      modifies this, tempStamps`stamps
      ensures Ready(stamp) && Tracks(k, added + {v}) && |tempStamps.stamps| == |old(tempStamps.stamps)|
      ensures work == old(work) + [v]
    {
      hide Consistent;
      tempStamps.SetStamped(v, stamp, true);
      work := work + [v];
      stampCleanup := stampCleanup + [v];
    }

    /**
     * Looks at the reason of `item`: literals which have not been seen yet are stamped and added to the work.
     * Stops if one of them shows that the literal being checked is not redundant.
     */
    method CheckReason(item: nat, stamp: nat, levels: Approximation, ghost l: Lit, ghost k: Check, ghost added: set<nat>)
      returns (ok: bool, ghost added2: set<nat>)
      requires Ready(stamp) && Tracks(k, added) && CheckOk(k) && k.s == assignment.Snap() && k.levels == levels
      requires CheckingItem(k, added, work, item, 0) && l.v == k.v
      requires ItemReady(k, item)
      modifies this, tempStamps`stamps
      ensures Ready(stamp) && Tracks(k, added2) && |tempStamps.stamps| == |old(tempStamps.stamps)|
      ensures ok ==> Checking(k, added2, work)
      ensures !ok ==> !Redundant(k.s, k.clause, l)
      ensures added2 == added ==> work == old(work)
      ensures added <= added2 <= added + Below(VarCount(k.s.t))
    {
      hide Consistent, CheckOk, CheckingItem, Checking, Redundant, MightContain, Val, Level, Tracks, StampMap.Stamped;
      added2 := added;
      var c := assignment.db.lits[assignment.GetReason(item).value];
      for j := 0 to |c|
        invariant Ready(stamp) && Tracks(k, added2) && |tempStamps.stamps| == |old(tempStamps.stamps)|
        invariant CheckingItem(k, added2, work, item, j)
        invariant added2 == added ==> work == old(work)
        invariant added <= added2 <= added + Below(VarCount(k.s.t))
      {
        var lit := c[j];
        assert lit in c;
        StampedNow(k, added2);
        var varLevel := assignment.GetLevel(lit.v);
        if !MightContain(levels, varLevel) {
          CheckFails(k, added2, work, item, j, l);
          return false, added2;
        }
        if varLevel == 0 || tempStamps.IsStamped(lit.v, stamp) {
          CheckSkip(k, added2, work, item, j);
        } else if assignment.GetReason(lit.v) != None {
          CheckPush(k, added2, work, item, j);
          PushWork(lit.v, stamp, k, added2);
          added2 := added2 + {lit.v};
        } else {
          CheckFails(k, added2, work, item, j, l);
          return false, added2;
        }
      }
      FinishItem(k, added2, work, item);
      ok := true;
    }

    /**
     * Checks whether the forced literal `l` of `clause` is redundant. If so, the variables on which this depends
     * stay stamped; otherwise, no stamps are left behind.
     */
    method IsRedundant(l: Lit, stamp: nat, levelsInLemma: Approximation, ghost k: Check)
      returns (redundant: bool, ghost found2: set<nat>)
      requires Ready(stamp) && CheckOk(k) && k.s == assignment.Snap() && tempStamps.Stamped() == k.stamped
      requires k.levels == Insert(levelsInLemma, 0) && l.v == k.v && l.v < |assignment.assignments|
      modifies this, tempStamps`stamps
      ensures Ready(stamp) && |tempStamps.stamps| == |old(tempStamps.stamps)|
      ensures redundant == Redundant(k.s, k.clause, l)
      ensures StampsFit(k.s, k.clause, found2, tempStamps.Stamped()) && k.found <= found2
      ensures forall v :: v in found2 ==> MightContain(k.levels, Level(k.s.t, v))
      ensures !redundant ==> tempStamps.Stamped() == k.stamped
    {
      hide Consistent, Checking, CheckingItem, StampsFit, CheckOk, Redundant, MightContain, Insert, Level, Val,
           ItemReady, Below, StampMap.Stamped, StampMap.Valid, Ready, Tracks;
      found2 := k.found;
      stampCleanup := [];
      CheckFacts(k, l);
      NothingAdded(stamp, k, l);
      if assignment.GetLevel(l.v) == assignment.currentLevel {
        redundant := false;
        return;
      }
      work := [l.v];
      var levels := Insert(levelsInLemma, 0);
      ghost var added: set<nat> := {};
      var ok;
      ghost var vars := Below(|assignment.assignments|);
      StartCheck(k);
      while work != []
        invariant Ready(stamp) && Tracks(k, added) && |tempStamps.stamps| == |old(tempStamps.stamps)|
        invariant Checking(k, added, work)
        invariant added <= vars
        decreases |vars - added|, |work|
      {
        StartItem(k, added, work);
        var item := work[|work| - 1];
        work := work[..|work| - 1];
        ghost var before := added;
        ok, added := CheckReason(item, stamp, levels, l, k, added);
        if !ok {
          RemoveStamps(stamp, k, added);
          redundant := false;
          return;
        }
        GrowingSet(vars, before, added);
      }
      CheckDone(k, added, l);
      StampedNow(k, added);
      redundant := true;
      found2 := k.found + added + {k.v};
    }

    /**
     * Erases the redundant literals of a lemma, keeping the order of the others. The stamp map is clean
     * before and afterwards.
     */
    method EraseRedundantLiterals(lits: Clause) returns (kept: Clause)
      requires assignment.Valid() && tempStamps.Valid() && !tempStamps.contextActive
      requires |tempStamps.stamps| >= |assignment.assignments|
      requires forall x :: x in lits ==> Val(assignment.T(), x) != Indet
      modifies this, tempStamps
      ensures tempStamps.Valid() && !tempStamps.contextActive && |tempStamps.stamps| == |old(tempStamps.stamps)|
      ensures kept == Dropping(lits, RedundantLits(assignment.Snap(), lits))
    {
      hide Consistent, StampsFit, Redundant, MightContain, Insert;
      ghost var s := assignment.Snap();
      var stamp := tempStamps.CreateContext();
      var decisionLevels: Approximation := {};
      AssignedBounds(s, lits);
      for i := 0 to |lits|
        invariant Ready(stamp) && |tempStamps.stamps| == |old(tempStamps.stamps)|
        invariant tempStamps.Stamped() == Vars(lits[..i])
        invariant forall x :: x in lits[..i] ==> MightContain(decisionLevels, Level(s.t, x.v))
      {
        assert lits[i] in lits && lits[..i + 1] == lits[..i] + [lits[i]];
        tempStamps.SetStamped(lits[i].v, stamp, true);
        InsertFacts(decisionLevels, assignment.GetLevel(lits[i].v));
        decisionLevels := Insert(decisionLevels, assignment.GetLevel(lits[i].v));
      }
      assert lits[..|lits|] == lits;
      kept := [];
      ghost var found := {};
      ghost var levels := Insert(decisionLevels, 0);
      InsertFacts(decisionLevels, 0);
      NothingFound(s, lits);
      for i := 0 to |lits|
        invariant Ready(stamp) && |tempStamps.stamps| == |old(tempStamps.stamps)|
        invariant StampsFit(s, lits, found, tempStamps.Stamped())
        invariant forall v :: v in found ==> MightContain(levels, Level(s.t, v))
        invariant kept == Dropping(lits[..i], RedundantLits(s, lits))
      {
        assert lits[i] in lits && lits[..i + 1] == lits[..i] + [lits[i]];
        var redundant;
        if assignment.GetReason(lits[i].v) != None {
          ghost var k := Check(s, lits, found, tempStamps.Stamped(), lits[i].v, levels);
          redundant, found := IsRedundant(lits[i], stamp, decisionLevels, k);
        } else {
          redundant := assignment.GetLevel(lits[i].v) == 0;
          assert redundant == Redundant(s, lits, lits[i]) by {
            NoReason(s, lits, lits[i]);
          }
        }
        if !redundant {
          kept := kept + [lits[i]];
        }
      }
      tempStamps.Clear();
    }
  }

  /**
   * Erases literals which can be removed by resolution with binary clauses containing `resolveAt`.
   */
  method ResolveWithBinaries(assignment: Assignment, tempStamps: StampMap, lits: Clause, resolveAt: Lit)
    returns (kept: Clause)
    requires assignment.Valid() && assignment.litsRequiringUpdate == []
    requires tempStamps.Valid() && !tempStamps.contextActive && |tempStamps.stamps| >= 2 * |assignment.assignments|
    requires forall x :: x in lits ==> x.v < |assignment.assignments|
    modifies tempStamps
    ensures tempStamps.Valid() && !tempStamps.contextActive && |tempStamps.stamps| == |old(tempStamps.stamps)|
    ensures kept == Dropping(lits, ResolvableLits(assignment.Snap(), resolveAt))
  {
    hide Consistent, StampMap.Stamped;
    ghost var s := assignment.Snap();
    var stamp := tempStamps.CreateContext();
    var partners := assignment.BinariesOf(resolveAt);
    NoOwnPartner(s, resolveAt);
    if partners == [] {
      NothingDropped(lits, ResolvableLits(s, resolveAt));
      tempStamps.Clear();
      return lits;
    }
    for i := 0 to |partners|
      invariant tempStamps.Valid() && tempStamps.contextActive && stamp == tempStamps.currentStamp
      invariant |tempStamps.stamps| == |old(tempStamps.stamps)|
      invariant forall l :: Raw(l) in tempStamps.Stamped() <==> l in partners[..i]
    {
      assert partners[i] in partners && partners[..i + 1] == partners[..i] + [partners[i]];
      forall l | Raw(l) == Raw(partners[i]) ensures l == partners[i] {
        RawInjective(l, partners[i]);
      }
      tempStamps.SetStamped(Raw(partners[i]), stamp, true);
    }
    assert partners[..|partners|] == partners;
    kept := [];
    for i := 0 to |lits|
      invariant kept == Dropping(lits[..i], ResolvableLits(s, resolveAt))
    {
      assert lits[i] in lits && lits[..i + 1][..i] == lits[..i];
      if !tempStamps.IsStamped(Raw(Neg(lits[i])), stamp) {
        kept := kept + [lits[i]];
      }
    }
    assert lits[..|lits|] == lits;
    tempStamps.Clear();
  }

  lemma NothingDropped(c: Clause, drop: iset<Lit>)
    requires forall l :: l in c ==> l !in drop
    ensures Dropping(c, drop) == c
  {
  }

  lemma AssignedBounds(s: Snapshot, clause: Clause)
    requires forall x :: x in clause ==> Val(s.t, x) != Indet
    ensures forall x :: x in clause ==> x.v < VarCount(s.t)
  {
  }

  lemma NoReason(s: Snapshot, clause: Clause, l: Lit)
    requires Reason(s.t, l.v).None?
    ensures Redundant(s, clause, l) <==> Level(s.t, l.v) == 0
  {
  }

  lemma InsertFacts(a: Approximation, x: nat)
    ensures MightContain(Insert(a, x), x)
    ensures forall y :: MightContain(a, y) ==> MightContain(Insert(a, x), y)
  {
  }

  lemma NothingFound(s: Snapshot, clause: Clause)
    requires forall x :: x in clause ==> Val(s.t, x) != Indet
    ensures StampsFit(s, clause, {}, Vars(clause))
  {
  }
}
