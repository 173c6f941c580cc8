// Registering clauses, opening and undoing levels: what happens to the state between propagations.

module Lifecycle {
  import opened Literals
  import opened Trails
  import opened Watching
  import opened ListMoves
  import opened PropagationSteps
  import opened Traversal

  // ---- registering clauses ---------------------------------------------------------

  /** Clause `c` may be registered: it is not registered yet and has distinct variables. */
  ghost predicate Registrable(s: Snapshot, c: CRef) {
    && c < |s.st.lits| && c !in s.reg && !IsDeleted(s.st, c)
    && |Cl(s.st, c)| >= 2 && DistinctVars(Cl(s.st, c)) && Bounded(Cl(s.st, c), VarCount(s.t))
  }

  /** The watch lists after adding the two watchers of clause `c`. */
  function WithClause(st: Store, wt: Watches, c: CRef): Watches
    requires |Cl(st, c)| >= 2
  {
    if |Cl(st, c)| <= 2 then AddBinary(AddBinary(wt, Cl(st, c)[0], Watcher0(st, c)), Cl(st, c)[1], Watcher1(st, c))
    else AddLong(AddLong(wt, Cl(st, c)[0], Watcher0(st, c)), Cl(st, c)[1], Watcher1(st, c))
  }

  /** No list holds a watcher of a clause which is neither registered nor deleted. */
  lemma NotWatched(s: Snapshot, c: CRef)
    requires ListsOk(s.st, s.reg, s.stale, s.wt) && c !in s.reg && !IsDeleted(s.st, c)
    ensures !Watched(s.wt, c, 0) && !Watched(s.wt, c, 1)
  {
  }

  function Watcher0(st: Store, c: CRef): Watcher
    requires |Cl(st, c)| >= 2
  {
    Watcher(c, Cl(st, c)[1], 0, IsRedundant(st, c))
  }

  function Watcher1(st: Store, c: CRef): Watcher
    requires |Cl(st, c)| >= 2
  {
    Watcher(c, Cl(st, c)[0], 1, IsRedundant(st, c))
  }

  lemma NewWatchersOk(s: Snapshot, c: CRef, dirty: seq<Lit>)
    requires |Cl(s.st, c)| >= 2
    ensures |Cl(s.st, c)| > 2 ==> LongOk(s.st, s.reg + {c}, s.stale, dirty, Cl(s.st, c)[0], Watcher0(s.st, c))
    ensures |Cl(s.st, c)| > 2 ==> LongOk(s.st, s.reg + {c}, s.stale, dirty, Cl(s.st, c)[1], Watcher1(s.st, c))
    ensures |Cl(s.st, c)| == 2 ==> BinaryOk(s.st, s.reg + {c}, dirty, Cl(s.st, c)[0], Watcher0(s.st, c))
    ensures |Cl(s.st, c)| == 2 ==> BinaryOk(s.st, s.reg + {c}, dirty, Cl(s.st, c)[1], Watcher1(s.st, c))
  {
  }

  lemma WithClauseLists(s: Snapshot, c: CRef)
    requires ListsOk(s.st, s.reg, s.stale, s.wt) && Registrable(s, c)
    ensures ListsOk(s.st, s.reg + {c}, s.stale, WithClause(s.st, s.wt, c))
  {
    hide ListsSound, Watched, LongOk, BinaryOk, DistinctVars, Bounded;
    var cl := Cl(s.st, c);
    var reg := s.reg + {c};
    NotWatched(s, c);
    OneMore(s, c);
    NewWatchersOk(s, c, s.wt.dirty);
    if |cl| <= 2 {
      AddBinarySound(s.st, reg, s.stale, s.wt, cl[0], Watcher0(s.st, c));
      AddBinarySound(s.st, reg, s.stale, AddBinary(s.wt, cl[0], Watcher0(s.st, c)), cl[1], Watcher1(s.st, c));
    } else {
      AddLongSound(s.st, reg, s.stale, s.wt, cl[0], Watcher0(s.st, c));
      AddLongSound(s.st, reg, s.stale, AddLong(s.wt, cl[0], Watcher0(s.st, c)), cl[1], Watcher1(s.st, c));
    }
  }

  lemma OneMore(s: Snapshot, c: CRef)
    requires ListsSound(s.st, s.reg, s.stale, s.wt) && !IsDeleted(s.st, c)
    ensures ListsSound(s.st, s.reg + {c}, s.stale, s.wt)
  {
  }

  function Registered(s: Snapshot, c: CRef): Snapshot
    requires |Cl(s.st, c)| >= 2
  {
    s.(wt := WithClause(s.st, s.wt, c), reg := s.reg + {c})
  }

  /** A clause without assigned literals joins the registered ones. */
  lemma RegisterUnassigned(s: Snapshot, c: CRef)
    requires Consistent(s) && Registrable(s, c) && forall x :: x in Cl(s.st, c) ==> Val(s.t, x) == Indet
    ensures Consistent(Registered(s, c))
  {
    hide ListsOk;
    WithClauseLists(s, c);
    var s2 := Registered(s, c);
    forall d, k | d in s2.reg && 0 <= k < 2 && k < |Cl(s.st, d)| && Visited(s.st, d, Cl(s.st, d)[k], s.settled, s.skipped)
      ensures HasTrue(s.t, Cl(s.st, d), s.stale, Level(s.t, Cl(s.st, d)[k].v))
    {
      assert Cl(s.st, d)[k] in Cl(s.st, d);
      assert d != c;
    }
    ReasonsInLargerSet(s.t, s.st, s.reg, s2.reg);
  }

  lemma ReasonsInLargerSet(t: Trail, st: Store, reg: set<CRef>, reg2: set<CRef>)
    requires ReasonsOk(t, st, reg) && reg <= reg2
    ensures ReasonsOk(t, st, reg2)
  {
  }

  /** All literals of `c` but the first are false, the second one since the current level. */
  ghost predicate Asserting(s: Snapshot, c: CRef) {
    && |Cl(s.st, c)| >= 2
    && Val(s.t, Cl(s.st, c)[0]) == Indet
    && (forall j :: 1 <= j < |Cl(s.st, c)| ==> Val(s.t, Cl(s.st, c)[j]) == False)
    && Level(s.t, Cl(s.st, c)[1].v) == CurLevel(s.t)
  }

  /** An asserting clause joins the registered ones and forces its first literal. */
  lemma RegisterAsserting(s: Snapshot, c: CRef)
    requires Consistent(s) && Registrable(s, c) && Asserting(s, c)
    ensures Cl(s.st, c)[0].v < VarCount(s.t)
    ensures Consistent(Pushed(Registered(s, c), Cl(s.st, c)[0], Some(c)))
  {
    hide ListsOk, ReasonsOk, WatchesComplete, TrailOk, SettledOk, Forces, Asserting, DistinctVars, Push, WithClause;
    AssertingFacts(s, c);
    AssertingForces(s, c);
    WithClauseLists(s, c);
    ReasonsInLargerSet(s.t, s.st, s.reg, s.reg + {c});
    PushForced(s.t, Cl(s.st, c)[0], c, s.st, s.reg + {c}, s.reg, s.settled, s.skipped, s.stale);
    AssertingComplete(s, c);
    ConsistentTrail(s);
    PushedVars(s.t, Cl(s.st, c)[0], c);
  }

  lemma PushedVars(t: Trail, l: Lit, c: CRef)
    requires TrailOk(t) && l.v < VarCount(t)
    ensures |t.levels| == |t.reasons| == |t.pos| == |t.vals| && VarCount(Push(t, l, Some(c))) == VarCount(t)
  {
  }

  lemma AssertingForces(s: Snapshot, c: CRef)
    requires Asserting(s, c)
    ensures |Cl(s.st, c)| >= 2 && Forces(s.t, s.st, c, Cl(s.st, c)[0]) && Val(s.t, Cl(s.st, c)[0]) == Indet
  {
    assert Cl(s.st, c)[1] in Cl(s.st, c);
  }

  /** The watched literals of the new clause are accompanied by the literal it has forced. */
  lemma AssertingComplete(s: Snapshot, c: CRef)
    requires TrailOk(s.t) && SettledOk(s.t, s.settled, s.skipped) && Asserting(s, c) && Cl(s.st, c)[0].v < VarCount(s.t)
    requires
      var t2 := Push(s.t, Cl(s.st, c)[0], Some(c));
      WatchesComplete(t2, s.st, s.reg, s.settled, s.skipped, s.stale)
    ensures
      var t2 := Push(s.t, Cl(s.st, c)[0], Some(c));
      WatchesComplete(t2, s.st, s.reg + {c}, s.settled, s.skipped, s.stale)
  {
  }

  /**
   * Registering a clause which forces its first literal keeps the invariants exactly if the second literal has been
   * assigned on the current level: otherwise it may stay false after the first one has lost its value.
   */
  lemma SecondLiteralMatters(s: Snapshot, c: CRef)
    requires Consistent(s) && Fixpoint(s) && NoStaleTrue(s) && Registrable(s, c)
    requires Val(s.t, Cl(s.st, c)[0]) == Indet && forall j :: 1 <= j < |Cl(s.st, c)| ==> Val(s.t, Cl(s.st, c)[j]) == False
    ensures |s.t.levels| == |s.t.reasons| == |s.t.pos| == |s.t.vals| && Cl(s.st, c)[0].v < VarCount(s.t)
    ensures Consistent(Pushed(Registered(s, c), Cl(s.st, c)[0], Some(c))) <==> Level(s.t, Cl(s.st, c)[1].v) == CurLevel(s.t)
  {
    var cl := Cl(s.st, c);
    assert cl[0] in cl && cl[1] in cl;
    ConsistentTrail(s);
    if Level(s.t, cl[1].v) == CurLevel(s.t) {
      RegisterAsserting(s, c);
    } else {
      SecondLiteralLower(s, c);
    }
  }

  lemma SecondLiteralLower(s: Snapshot, c: CRef)
    requires Consistent(s) && Fixpoint(s) && NoStaleTrue(s) && Registrable(s, c)
    requires Val(s.t, Cl(s.st, c)[0]) == Indet && forall j :: 1 <= j < |Cl(s.st, c)| ==> Val(s.t, Cl(s.st, c)[j]) == False
    requires Level(s.t, Cl(s.st, c)[1].v) != CurLevel(s.t) && Cl(s.st, c)[0].v < VarCount(s.t)
    ensures |s.t.levels| == |s.t.reasons| == |s.t.pos| == |s.t.vals|
    ensures !Consistent(Pushed(Registered(s, c), Cl(s.st, c)[0], Some(c)))
  {
    hide ListsOk, ReasonsOk;
    var cl := Cl(s.st, c);
    LevelOfPos(s.t, cl[1], 0);
    PushFacts(s.t, cl[0], Some(c));
    var s2 := Pushed(Registered(s, c), cl[0], Some(c));
    assert Visited(s.st, c, cl[1], s2.settled, s2.skipped);
    forall x | (x in cl || x in s.stale) && Val(s2.t, x) == True ensures Level(s2.t, x.v) == CurLevel(s.t) {
      assert x == cl[0];
    }
    assert !HasTrue(s2.t, cl, s.stale, Level(s2.t, cl[1].v));
  }

  /** Without registered clauses, the invariants only concern the trail. */
  lemma NothingRegistered(s: Snapshot)
    requires TrailOk(s.t) && SettledOk(s.t, s.settled, s.skipped)
    requires s.reg == {} && s.wt.long == map[] && s.wt.binary == map[]
    ensures Consistent(s) <==> forall i :: 0 <= i < |s.t.lits| ==> Reason(s.t, s.t.lits[i].v).None?
  {
    hide TrailOk, SettledOk;
    assert ListsOk(s.st, s.reg, s.stale, s.wt);
    assert ReasonsOk(s.t, s.st, s.reg) <==> forall i :: 0 <= i < |s.t.lits| ==> Reason(s.t, s.t.lits[i].v).None?;
  }

  lemma AssertingFacts(s: Snapshot, c: CRef)
    requires Registrable(s, c) && Asserting(s, c)
    ensures Cl(s.st, c)[0].v < VarCount(s.t)
  {
  }

  // ---- levels ----------------------------------------------------------------------

  /** `t2` is a part of `t` from which only the most recent literals may be missing. */
  ghost predicate Earlier(t2: Trail, t: Trail) {
    && t2.lits <= t.lits
    && (forall v :: Level(t2, v) == Level(t, v) && Reason(t2, v) == Reason(t, v) && Pos(t2, v) == Pos(t, v))
    && (forall l :: Val(t2, l) != Indet ==> Val(t2, l) == Val(t, l))
    && (forall l :: Val(t, l) != Indet && Pos(t, l.v) < |t2.lits| ==> Val(t2, l) == Val(t, l))
    && (forall l, x :: Val(t2, l) != Indet && Val(t, x) != Indet && Level(t, x.v) <= Level(t, l.v) ==>
          Val(t2, x) == Val(t, x))
  }

  lemma EarlierReasons(t2: Trail, t: Trail, st: Store, reg: set<CRef>)
    requires Earlier(t2, t) && ReasonsOk(t, st, reg)
    ensures ReasonsOk(t2, st, reg)
  {
  }

  lemma EarlierWatches(t2: Trail, t: Trail, st: Store, reg: set<CRef>, settled: set<Lit>, skipped: set<Lit>,
                       settled2: set<Lit>, skipped2: set<Lit>, stale: set<Lit>)
    requires Earlier(t2, t) && SettledOk(t, settled, skipped) && WatchesComplete(t, st, reg, settled, skipped, stale)
    requires forall l :: l in settled2 <==> l in settled && Val(t2, l) == False
    requires forall l :: l in skipped2 <==> l in skipped && Val(t2, l) == False
    ensures SettledOk(t2, settled2, skipped2) && WatchesComplete(t2, st, reg, settled2, skipped2, stale)
  {
  }

  function WithLevel(s: Snapshot): Snapshot {
    s.(t := OpenLevel(s.t))
  }

  lemma OpenLevelKeeps(s: Snapshot)
    requires Consistent(s)
    ensures Consistent(WithLevel(s)) && CurLevel(WithLevel(s).t) == CurLevel(s.t) + 1 && |s.t.limits| >= 1
  {
    hide ListsOk, ReasonsOk, WatchesComplete, ClausesOk;
    OpenLevelFacts(s.t);
    EarlierReasons(OpenLevel(s.t), s.t, s.st, s.reg);
    EarlierWatches(OpenLevel(s.t), s.t, s.st, s.reg, s.settled, s.skipped, s.settled, s.skipped, s.stale);
  }

  /** The literals of `ls` which are false on the trail `t`. */
  function StillFalse(t: Trail, ls: set<Lit>): set<Lit> {
    set l | l in ls && Val(t, l) == False
  }

  function Undone(s: Snapshot, level: nat): Snapshot
    requires level < CurLevel(s.t) && s.t.limits[level + 1] <= |s.t.lits|
  {
    var t := UndoTo(s.t, level);
    s.(t := t, settled := StillFalse(t, s.settled), skipped := StillFalse(t, s.skipped))
  }

  lemma UndoIsEarlier(t: Trail, level: nat)
    requires TrailOk(t) && level < CurLevel(t)
    ensures Earlier(UndoTo(t, level), t)
  {
    var t2 := UndoTo(t, level);
    UndoFacts(t, level);
    forall l | Val(t, l) != Indet && Pos(t, l.v) < |t2.lits| ensures Val(t2, l) == Val(t, l) {
      LevelOfPos(t, l, level);
    }
  }

  /** The trail is cut where the level above `level` begins. */
  lemma UndoCut(s: Snapshot, level: nat)
    requires Consistent(s) && level < CurLevel(s.t)
    ensures TrailOk(s.t) && s.t.limits[level + 1] <= |s.t.lits| && |s.t.pos| == |s.t.levels| == |s.t.vals|
    ensures CurLevel(UndoTo(s.t, level)) == level
    ensures forall v :: 0 <= v < VarCount(s.t) && s.t.vals[v] != Indet ==>
              (s.t.pos[v] >= s.t.limits[level + 1] <==> s.t.levels[v] > level)
  {
    UndoFacts(s.t, level);
    forall v | 0 <= v < VarCount(s.t) && s.t.vals[v] != Indet
      ensures s.t.pos[v] >= s.t.limits[level + 1] <==> s.t.levels[v] > level
    {
      LevelOfPos(s.t, Lit(v, true), level);
    }
  }

  lemma UndoToIs(t: Trail, level: nat, t2: Trail)
    requires level < CurLevel(t) && t.limits[level + 1] <= |t.lits| && |t.pos| == |t.vals| == |t2.vals|
    requires t2.lits == t.lits[..t.limits[level + 1]] && t2.limits == t.limits[..level + 1]
    requires t2.levels == t.levels && t2.reasons == t.reasons && t2.pos == t.pos
    requires forall v :: 0 <= v < |t.vals| ==> t2.vals[v] == if t.pos[v] >= t.limits[level + 1] then Indet else t.vals[v]
    ensures t2 == UndoTo(t, level)
  {
  }

  /** Undoing levels keeps all invariants, although no watch list is touched. */
  lemma UndoKeeps(s: Snapshot, level: nat)
    requires Consistent(s) && level < CurLevel(s.t)
    ensures Consistent(Undone(s, level))
  {
    hide ListsOk, ReasonsOk, WatchesComplete, ClausesOk, Earlier, SettledOk;
    var s2 := Undone(s, level);
    UndoFacts(s.t, level);
    UndoIsEarlier(s.t, level);
    EarlierReasons(s2.t, s.t, s.st, s.reg);
    EarlierWatches(s2.t, s.t, s.st, s.reg, s.settled, s.skipped, s2.settled, s2.skipped, s.stale);
  }

  function Emptied(s: Snapshot): Snapshot
    requires |s.t.limits| >= 1
  {
    s.(t := CutAt(s.t, 0, 1), settled := {}, skipped := {})
  }

  lemma EmptiedIs(t: Trail, t2: Trail)
    requires |t.limits| >= 1 && |t.pos| == |t.vals| == |t2.vals| && t2.lits == [] && t2.limits == t.limits[..1]
    requires t2.levels == t.levels && t2.reasons == t.reasons && t2.pos == t.pos
    requires forall v :: 0 <= v < |t.vals| ==> t2.vals[v] == Indet
    ensures t2 == CutAt(t, 0, 1)
  {
    assert t2.vals == CutAt(t, 0, 1).vals;
  }

  lemma TrailStart(t: Trail)
    requires TrailOk(t)
    ensures |t.limits| >= 1
  {
  }

  lemma EmptiedFacts(s: Snapshot)
    requires Consistent(s)
    ensures TrailOk(s.t) && |s.t.limits| >= 1 && CurLevel(Emptied(s).t) == 0 && Emptied(s).t.lits == []
    ensures Consistent(Emptied(s)) && forall l :: Val(Emptied(s).t, l) == Indet
  {
  }

  // ---- more variables --------------------------------------------------------------

  /** The sequence, made longer by adding `x`. */
  function Padded<T>(s: seq<T>, n: nat, x: T): (r: seq<T>)
    requires |s| <= n
    ensures |r| == n
  {
    s + seq(n - |s|, _ => x)
  }

  function Grown(t: Trail, n: nat): Trail
    requires |t.vals| <= n && |t.levels| == |t.reasons| == |t.pos| == |t.vals|
  {
    t.(vals := Padded(t.vals, n, Indet), levels := Padded(t.levels, n, 0), reasons := Padded(t.reasons, n, None),
    pos := Padded(t.pos, n, 0))
  }

  lemma GrowKeeps(s: Snapshot, n: nat)
    requires Consistent(s) && VarCount(s.t) <= n
    ensures Consistent(s.(t := Grown(s.t, n)))
    ensures forall l :: Val(Grown(s.t, n), l) == Val(s.t, l)
  {
    hide ListsOk, ReasonsOk, WatchesComplete;
    var t2 := Grown(s.t, n);
    assert forall l :: Val(t2, l) == Val(s.t, l);
    assert forall v :: Level(t2, v) == Level(s.t, v) && Pos(t2, v) == Pos(s.t, v) && Reason(t2, v) == Reason(s.t, v);
    forall i | 0 <= i < |t2.lits| ensures InLevel(t2, i, Level(t2, t2.lits[i].v)) {
      assert InLevel(s.t, i, Level(s.t, s.t.lits[i].v));
    }
    EarlierReasons(t2, s.t, s.st, s.reg);
    EarlierWatches(t2, s.t, s.st, s.reg, s.settled, s.skipped, s.settled, s.skipped, s.stale);
  }

  // ---- propagation fixpoints -------------------------------------------------------

  /** Everything on the trail has been propagated through all registered clauses. */
  ghost predicate Fixpoint(s: Snapshot) {
    (forall l :: Val(s.t, l) == False ==> l in s.settled) && s.skipped == {}
  }

  ghost predicate NoStaleTrue(s: Snapshot) {
    forall l :: l in s.stale ==> Val(s.t, l) != True
  }

  /** At a fixpoint no registered clause is falsified or has just one unassigned literal left:
      each clause has a true literal, or its two watched literals are unassigned. */
  lemma FixpointComplete(s: Snapshot, c: CRef)
    requires Consistent(s) && Fixpoint(s) && NoStaleTrue(s) && c in s.reg
    ensures |Cl(s.st, c)| >= 2
    ensures (exists x :: x in Cl(s.st, c) && Val(s.t, x) == True) ||
            (Val(s.t, Cl(s.st, c)[0]) == Indet && Val(s.t, Cl(s.st, c)[1]) == Indet)
  {
  }

  /** Whatever has been added to the trail since the fixpoint `s` has been propagated. */
  lemma NextFixpoint(s: Snapshot, s2: Snapshot)
    requires Consistent(s) && Fixpoint(s) && Consistent(s2) && s.t.lits <= s2.t.lits
    requires s.settled <= s2.settled && s2.skipped == {}
    requires forall j :: |s.t.lits| <= j < |s2.t.lits| ==> Neg(s2.t.lits[j]) in s2.settled
    ensures Fixpoint(s2)
  {
    hide ListsOk, ReasonsOk, WatchesComplete;
    forall l | Val(s2.t, l) == False ensures l in s2.settled {
      var p := Neg(l);
      assert Val(s2.t, p) == True;
      var i := Pos(s2.t, p.v);
      assert s2.t.lits[i] == p && Neg(p) == l;
      if i < |s.t.lits| {
        assert s.t.lits[i] == p;
        assert Val(s.t, p) == True;
      }
    }
  }

  /** All literals on levels below `level` have been propagated. */
  ghost predicate FixpointBelow(s: Snapshot, level: nat) {
    (forall l :: Val(s.t, l) == False && Level(s.t, l.v) < level ==> l in s.settled) && s.skipped == {}
  }

  lemma UndoneFixpoint(s: Snapshot, level: nat)
    requires Consistent(s) && level < CurLevel(s.t) && FixpointBelow(s, level + 1)
    ensures Fixpoint(Undone(s, level))
  {
    hide ListsOk, ReasonsOk, WatchesComplete;
    UndoFacts(s.t, level);
  }

  // ---- assigning a literal ---------------------------------------------------------

  /** Assigning an unassigned literal keeps all invariants. */
  lemma AssignFacts(s: Snapshot, l: Lit)
    requires Consistent(s) && l.v < VarCount(s.t) && Val(s.t, l) == Indet
    ensures |s.t.levels| == |s.t.reasons| == |s.t.pos| == |s.t.vals|
    ensures Consistent(Pushed(s, l, None)) && Neg(l) !in s.settled
    ensures Level(Pushed(s, l, None).t, l.v) == CurLevel(s.t)
  {
    hide ListsOk;
    PushUnforced(s.t, l, s.st, s.reg, s.settled, s.skipped, s.stale);
  }

  /** The literal just assigned on the way from `s` to `s2` starts a propagation queue. */
  lemma PushedFacts(s: Snapshot, s2: Snapshot, l: Lit)
    requires Consistent(s) && Val(s.t, l) == Indet && l.v < VarCount(s.t) && s2.settled == s.settled
    requires exists r :: s2.t == Push(s.t, l, r)
    ensures Neg(l) !in s2.settled && Level(s2.t, l.v) == CurLevel(s2.t)
  {
  }

  lemma AppendFixpoint(s: Snapshot, s1: Snapshot, s2: Snapshot)
    requires Consistent(s) && Consistent(s2) && Progress(s1, s2)
    requires s.t.lits <= s1.t.lits && |s1.t.lits| == |s.t.lits| + 1
    requires s.settled <= s2.settled
    ensures
      Fixpoint(s) && s2.skipped == s.skipped &&
      (forall j :: |s.t.lits| <= j < |s2.t.lits| ==> Neg(s2.t.lits[j]) in s2.settled) ==>
        Fixpoint(s2)
  {
    hide Consistent;
    if Fixpoint(s) && s2.skipped == s.skipped &&
       (forall j :: |s.t.lits| <= j < |s2.t.lits| ==> Neg(s2.t.lits[j]) in s2.settled)
    {
      NextFixpoint(s, s2);
    }
  }

  // ---- queries ---------------------------------------------------------------------

  lemma OneAtPos(t: Trail, i: nat)
    requires TrailOk(t) && i < |t.lits|
    ensures forall v :: 0 <= v < VarCount(t) && t.pos[v] == i && t.vals[v] != Indet ==> v == t.lits[i].v
  {
    forall v | 0 <= v < VarCount(t) && t.pos[v] == i && t.vals[v] != Indet ensures v == t.lits[i].v {
      var l := Lit(v, t.vals[v] == True);
      assert Val(t, l) == True;
    }
  }

  lemma NoneBeyond(t: Trail)
    requires TrailOk(t)
    ensures forall v :: 0 <= v < VarCount(t) && t.pos[v] >= |t.lits| ==> t.vals[v] == Indet
  {
    forall v | 0 <= v < VarCount(t) && t.vals[v] != Indet ensures t.pos[v] < |t.lits| {
      var l := Lit(v, t.vals[v] == True);
      assert Val(t, l) == True;
    }
  }

  lemma NothingOnTrail(t: Trail)
    requires TrailOk(t) && t.lits == []
    ensures forall l :: Val(t, l) == Indet
  {
    forall l ensures Val(t, l) == Indet {
      assert Val(t, l) != True && Val(t, Neg(l)) != True;
    }
  }

  function LevelEnd(t: Trail, level: nat): nat {
    if level + 1 < |t.limits| then t.limits[level + 1] else |t.lits|
  }

  lemma LevelRange(t: Trail, level: nat)
    requires TrailOk(t)
    ensures level < |t.limits| ==> t.limits[level] <= LevelEnd(t, level) <= |t.lits|
    ensures forall l :: Val(t, l) == True && Level(t, l.v) == level ==>
              level < |t.limits| && l in t.lits[t.limits[level]..LevelEnd(t, level)]
    ensures level < |t.limits| ==>
              forall i :: t.limits[level] <= i < LevelEnd(t, level) ==>
                Val(t, t.lits[i]) == True && Level(t, t.lits[i].v) == level
  {
  }

  lemma ReasonOfTrue(s: Snapshot, c: CRef)
    requires Consistent(s) && c in s.reg
    ensures forall l :: Val(s.t, l) == True && Reason(s.t, l.v) == Some(c) ==>
              s.t.lits != [] && |Cl(s.st, c)| >= 2 && Level(s.t, l.v) <= CurLevel(s.t) &&
              (Cl(s.st, c)[0] == l || Cl(s.st, c)[1] == l)
  {
  }

  function Blockers(ws: seq<Watcher>): seq<Lit> {
    seq(|ws|, i requires 0 <= i < |ws| => ws[i].blocker)
  }

  /** There is a registered binary clause consisting of `l` and `m`. */
  ghost predicate Partners(s: Snapshot, l: Lit, m: Lit) {
    exists c :: c in s.reg && |Cl(s.st, c)| == 2 && l in Cl(s.st, c) && m in Cl(s.st, c) && m != l
  }

  /** The blockers in the list of binary watchers of `l` are its partners in binary clauses. */
  lemma BlockersAreBinaries(s: Snapshot, l: Lit)
    requires Consistent(s) && s.wt.dirty == []
    ensures forall m :: m in Blockers(At(s.wt.binary, l)) <==> Partners(s, l, m)
  {
    hide ReasonsOk, WatchesComplete;
    var ws := At(s.wt.binary, l);
    forall m | m in Blockers(ws) ensures Partners(s, l, m) {
      var i :| 0 <= i < |ws| && ws[i].blocker == m;
      assert BinaryOk(s.st, s.reg, s.wt.dirty, l, ws[i]);
      var cl := Cl(s.st, ws[i].c);
      assert cl[0].v != cl[1].v;
      assert cl[ws[i].k] in cl && cl[1 - ws[i].k] in cl;
    }
    BinariesAreBlockers(s, l);
  }

  lemma BinariesAreBlockers(s: Snapshot, l: Lit)
    requires Consistent(s) && s.wt.dirty == []
    ensures forall m, c :: c in s.reg && |Cl(s.st, c)| == 2 && l in Cl(s.st, c) && m in Cl(s.st, c) && m != l ==>
              m in Blockers(At(s.wt.binary, l))
  {
    hide ListsOk, ReasonsOk, WatchesComplete, TrailOk, SettledOk;
    forall m, c | c in s.reg && |Cl(s.st, c)| == 2 && l in Cl(s.st, c) && m in Cl(s.st, c) && m != l
      ensures m in Blockers(At(s.wt.binary, l))
    {
      BinaryIsBlocker(s, l, m, c);
    }
  }

  lemma BinaryIsBlocker(s: Snapshot, l: Lit, m: Lit, c: CRef)
    requires ListsOk(s.st, s.reg, s.stale, s.wt) && s.wt.dirty == []
    requires c in s.reg && |Cl(s.st, c)| == 2 && l in Cl(s.st, c) && m in Cl(s.st, c) && m != l
    ensures m in Blockers(At(s.wt.binary, l))
  {
    hide LongOk, Watched, NoDup;
    var ws := At(s.wt.binary, l);
    var k := if Cl(s.st, c)[0] == l then 0 else 1;
    CleanLists(s.st, s.reg, s.stale, s.wt, c, k);
    var i :| 0 <= i < |ws| && ws[i].c == c && ws[i].k == k;
    assert BinaryOk(s.st, s.reg, s.wt.dirty, l, ws[i]);
    assert Blockers(ws)[i] == m;
  }
}
