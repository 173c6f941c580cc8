// The state of the assignment as a value, and the traversal of watch lists as steps on it.

module Traversal {
  import opened Literals
  import opened Trails
  import opened Watching
  import opened ListMoves
  import opened PropagationSteps

  /**
   * A snapshot of the assignment and the clauses it works on.
   * `reg` are the clauses registered for propagation. `settled` are the false literals whose
   * watch lists have been traversed, `skipped` those among them where redundant clauses were left
   * out. `stale` are literals removed from registered clauses which may still be blockers.
   */
  datatype Snapshot = Snapshot(
    t: Trail,
    st: Store,
    wt: Watches,
    reg: set<CRef>,
    settled: set<Lit>,
    skipped: set<Lit>,
    stale: set<Lit>)

  ghost predicate Consistent(s: Snapshot) {
    && TrailOk(s.t) && ClausesOk(s.st, s.reg, VarCount(s.t)) && ReasonsOk(s.t, s.st, s.reg)
    && SettledOk(s.t, s.settled, s.skipped)
    && WatchesComplete(s.t, s.st, s.reg, s.settled, s.skipped, s.stale)
    && ListsOk(s.st, s.reg, s.stale, s.wt)
  }

  lemma ConsistentTrail(s: Snapshot)
    requires Consistent(s)
    ensures TrailOk(s.t)
  {
  }

  /** Registered clause `c` is falsified. */
  ghost predicate Conflicting(s: Snapshot, c: CRef) {
    c in s.reg && forall x :: x in Cl(s.st, c) ==> Val(s.t, x) == False
  }

  /** The step from `s0` to `s` has only forced literals and rearranged clauses. */
  ghost predicate Progress(s0: Snapshot, s: Snapshot) {
    && Extends(s0.t, s.t) && Permuted(s0.st, s.st)
    && s.reg == s0.reg && s.stale == s0.stale
  }

  /** Clause `c` is left out if redundant clauses are: binary clauses never are. */
  ghost predicate LeftOut(st: Store, c: CRef) {
    IsRedundant(st, c) && |Cl(st, c)| > 2
  }

  /** From trail index `n` on, no literal has been forced by a clause which is left out. */
  ghost predicate NoneByLeftOut(s: Snapshot, n: nat) {
    forall i :: n <= i < |s.t.lits| && Reason(s.t, s.t.lits[i].v).Some? ==>
      !LeftOut(s.st, Reason(s.t, s.t.lits[i].v).value)
  }

  lemma NoneByLeftOutMore(s0: Snapshot, s: Snapshot, s2: Snapshot)
    requires Progress(s0, s) && Progress(s, s2) && TrailOk(s.t)
    requires NoneByLeftOut(s, |s0.t.lits|) && NoneByLeftOut(s2, |s.t.lits|)
    ensures NoneByLeftOut(s2, |s0.t.lits|)
  {
    forall i | |s0.t.lits| <= i < |s.t.lits| && Reason(s2.t, s2.t.lits[i].v).Some?
      ensures !LeftOut(s2.st, Reason(s2.t, s2.t.lits[i].v).value)
    {
      assert s2.t.lits[i] == s.t.lits[i] && Val(s.t, s.t.lits[i]) == True;
    }
  }

  lemma ProgressTransitive(s0: Snapshot, s: Snapshot, s2: Snapshot)
    requires Progress(s0, s) && Progress(s, s2) && TrailOk(s.t)
    ensures Progress(s0, s2)
  {
  }

  /** Changing watch lists and nothing else. */
  lemma WatchesOnlyProgress(s0: Snapshot, s: Snapshot, s2: Snapshot)
    requires s == s0.(wt := s.wt) && Progress(s, s2)
    ensures Progress(s0, s2)
  {
  }

  /**
   * Since `s0`, the trail from index `first` on is the propagation queue, and it has been processed
   * up to index `i`.
   */
  ghost predicate Queue(s0: Snapshot, s: Snapshot, first: nat, i: nat, exclude: bool) {
    && Consistent(s) && Progress(s0, s) && i <= |s.t.lits| <= VarCount(s.t)
    && s0.settled <= s.settled && s0.skipped <= s.skipped && (!exclude ==> s.skipped == s0.skipped)
    && (forall l :: l in s.settled ==> Pos(s.t, l.v) < i)
    && (forall j :: first <= j < i ==> Neg(s.t.lits[j]) in s.settled)
    && (forall j :: first <= j < |s.t.lits| ==> Level(s.t, s.t.lits[j].v) == CurLevel(s.t))
    && (exclude ==> NoneByLeftOut(s, |s0.t.lits|))
  }

  lemma QueueStart(s: Snapshot, first: nat, exclude: bool)
    requires Consistent(s)
    requires first + 1 == |s.t.lits| && Level(s.t, s.t.lits[first].v) == CurLevel(s.t)
    requires Neg(s.t.lits[first]) !in s.settled
    ensures Queue(s, s, first, first, exclude)
  {
    TrailBound(s.t);
    forall l | l in s.settled ensures Pos(s.t, l.v) < first {
      assert Val(s.t, Neg(l)) == True;
    }
  }

  lemma QueueFacts(s0: Snapshot, s: Snapshot, first: nat, i: nat, exclude: bool)
    requires Queue(s0, s, first, i, exclude)
    ensures Consistent(s) && Progress(s0, s) && i <= |s.t.lits| <= VarCount(s.t)
    ensures s0.settled <= s.settled && s0.skipped <= s.skipped && (!exclude ==> s.skipped == s0.skipped)
    ensures forall j :: first <= j < i ==> Neg(s.t.lits[j]) in s.settled
    ensures exclude ==> NoneByLeftOut(s, |s0.t.lits|)
  {
  }

  /** The next literal of the queue is ready for propagation. */
  lemma QueueNext(s0: Snapshot, s: Snapshot, first: nat, i: nat, exclude: bool)
    requires Queue(s0, s, first, i, exclude) && first <= i < |s.t.lits|
    ensures Consistent(s) && Val(s.t, s.t.lits[i]) == True && Level(s.t, s.t.lits[i].v) == CurLevel(s.t)
    ensures Neg(s.t.lits[i]) !in s.settled && |s.t.lits| <= VarCount(s.t) == VarCount(s0.t)
  {
  }

  /** Literal `i` of the queue has been propagated without conflict, leading from `s` to `s2`. */
  lemma QueueStep(s0: Snapshot, s: Snapshot, s2: Snapshot, first: nat, i: nat, exclude: bool)
    requires Queue(s0, s, first, i, exclude) && first <= i < |s.t.lits| && Progress(s, s2) && Consistent(s2)
    requires s2.settled == s.settled + {Neg(s.t.lits[i])}
    requires s2.skipped == s.skipped + if exclude then {Neg(s.t.lits[i])} else {}
    requires exclude ==> NoneByLeftOut(s2, |s.t.lits|)
    ensures Queue(s0, s2, first, i + 1, exclude)
  {
    hide ListsOk, ReasonsOk, WatchesComplete, NoneByLeftOut;
    ProgressTransitive(s0, s, s2);
    TrailBound(s2.t);
    if exclude {
      NoneByLeftOutMore(s0, s, s2);
    }
    forall j | first <= j < |s2.t.lits| ensures Level(s2.t, s2.t.lits[j].v) == CurLevel(s2.t) {
      if j < |s.t.lits| {
        assert s2.t.lits[j] == s.t.lits[j];
        assert Val(s.t, s.t.lits[j]) == True;
      }
    }
    forall l | l in s2.settled ensures Pos(s2.t, l.v) < i + 1 {
      assert Val(s.t, s.t.lits[i]) == True;
      if l in s.settled {
        assert Val(s.t, l) == False;
      }
    }
  }

  lemma QueueConflict(s0: Snapshot, s: Snapshot, s2: Snapshot, first: nat, i: nat, exclude: bool)
    requires Queue(s0, s, first, i, exclude) && Progress(s, s2) && (exclude ==> NoneByLeftOut(s2, |s.t.lits|))
    ensures Progress(s0, s2) && (exclude ==> NoneByLeftOut(s2, |s0.t.lits|))
    ensures s0.settled <= s.settled && s0.skipped <= s.skipped && (!exclude ==> s.skipped == s0.skipped)
  {
    ProgressTransitive(s0, s, s2);
    if exclude {
      NoneByLeftOutMore(s0, s, s2);
    }
  }

  /**
   * The lists of the literal falsified by `p` are being traversed: the binary clauses up to
   * watcher `b`, the longer ones up to watcher `i`.
   */
  ghost predicate Traversing(s0: Snapshot, s: Snapshot, p: Lit, b: nat, i: nat, exclude: bool) {
    && Consistent(s) && Progress(s0, s) && s.wt.dirty == []
    && s.settled == s0.settled && s.skipped == s0.skipped
    && Val(s0.t, p) == True && Level(s0.t, p.v) == CurLevel(s0.t) && Neg(p) !in s0.settled
    && Handled(s.t, s.st, s.stale, At(s.wt.binary, Neg(p)), b, false)
    && Handled(s.t, s.st, s.stale, At(s.wt.long, Neg(p)), i, exclude)
    && (exclude ==> NoneByLeftOut(s, |s0.t.lits|))
  }

  lemma StartTraversal(s: Snapshot, p: Lit, exclude: bool)
    requires Consistent(s) && s.wt.dirty == []
    requires Val(s.t, p) == True && Level(s.t, p.v) == CurLevel(s.t) && Neg(p) !in s.settled
    ensures Traversing(s, s, p, 0, 0, exclude)
  {
  }

  lemma TraversalKeeps(s0: Snapshot, s: Snapshot, p: Lit, b: nat, i: nat, exclude: bool)
    requires Traversing(s0, s, p, b, i, exclude)
    ensures Consistent(s) && Progress(s0, s) && s.wt.dirty == []
    ensures s.settled == s0.settled && s.skipped == s0.skipped && (exclude ==> NoneByLeftOut(s, |s0.t.lits|))
  {
  }

  /** The literal whose lists are traversed is false. */
  lemma TraversedLiteral(s0: Snapshot, s: Snapshot, p: Lit, b: nat, i: nat, exclude: bool)
    requires Traversing(s0, s, p, b, i, exclude)
    ensures Val(s.t, Neg(p)) == False && Level(s.t, p.v) == CurLevel(s.t)
  {
    assert Val(s0.t, p) == True;
  }

  function Pushed(s: Snapshot, l: Lit, reason: Option<CRef>): Snapshot
    requires |s.t.levels| == |s.t.reasons| == |s.t.pos| == |s.t.vals| && l.v < VarCount(s.t)
  {
    s.(t := Push(s.t, l, reason))
  }

  /** Forcing a literal keeps what has been handled so far. */
  lemma ForcedStep(s0: Snapshot, s: Snapshot, l: Lit, c: CRef, p: Lit, b: nat, i: nat, exclude: bool)
    requires Traversing(s0, s, p, b, i, exclude)
    requires l.v < VarCount(s.t) && Val(s.t, l) == Indet && c in s.reg && Forces(s.t, s.st, c, l)
    requires exclude ==> !LeftOut(s.st, c)
    ensures Traversing(s0, Pushed(s, l, Some(c)), p, b, i, exclude)
    ensures HasTrue(Pushed(s, l, Some(c)).t, Cl(s.st, c), s.stale, CurLevel(s.t))
  {
    hide LeftOut, NoneByLeftOut;
    var s2 := Pushed(s, l, Some(c));
    PushForced(s.t, l, c, s.st, s.reg, s.reg, s.settled, s.skipped, s.stale);
    HandledStays(s.t, s2.t, s.st, s.stale, At(s.wt.long, Neg(p)), i, exclude);
    HandledStays(s.t, s2.t, s.st, s.stale, At(s.wt.binary, Neg(p)), b, false);
    ExtendsTransitive(s0.t, s.t, s2.t);
    if exclude {
      ForcedByOther(s, l, c, |s0.t.lits|);
    }
  }

  lemma ForcedByOther(s: Snapshot, l: Lit, c: CRef, n: nat)
    requires TrailOk(s.t) && l.v < VarCount(s.t) && Val(s.t, l) == Indet && !LeftOut(s.st, c)
    ensures NoneByLeftOut(s, n) ==> NoneByLeftOut(Pushed(s, l, Some(c)), n)
  {
    assert forall i :: 0 <= i < |s.t.lits| ==> Val(s.t, s.t.lits[i]) == True;
  }

  // ---- binary clauses --------------------------------------------------------------

  lemma BinaryAt(s: Snapshot, p: Lit, b: nat)
    requires ListsOk(s.st, s.reg, s.stale, s.wt) && s.wt.dirty == [] && b < |At(s.wt.binary, Neg(p))|
    ensures
      var w := At(s.wt.binary, Neg(p))[b];
      var c := Cl(s.st, w.c);
      && w.c in s.reg && w.k < 2 && |c| == 2 && c[w.k] == Neg(p) && c[1 - w.k] == w.blocker
      && Neg(p) in c && w.blocker in c && (forall x :: x in c ==> x == Neg(p) || x == w.blocker)
  {
  }

  /** The next binary watcher to be looked at. */
  lemma BinaryWatcher(s0: Snapshot, s: Snapshot, p: Lit, b: nat, exclude: bool)
    requires Traversing(s0, s, p, b, 0, exclude) && b < |At(s.wt.binary, Neg(p))|
    ensures
      var w := At(s.wt.binary, Neg(p))[b];
      && w.c in s.reg && w.blocker.v < VarCount(s.t)
      && (Val(s.t, w.blocker) == False ==> Conflicting(s, w.c)) && !LeftOut(s.st, w.c)
      && (Val(s.t, w.blocker) == Indet ==> Forces(s.t, s.st, w.c, w.blocker))
      && (Val(s.t, w.blocker) == True ==> Traversing(s0, s, p, b + 1, 0, exclude))
  {
    hide ListsOk, ReasonsOk, WatchesComplete, SettledOk, Extends, Permuted;
    TraversedLiteral(s0, s, p, b, 0, exclude);
    BinaryAt(s, p, b);
    var w := At(s.wt.binary, Neg(p))[b];
    if Val(s.t, w.blocker) == True {
      LevelOfPos(s.t, w.blocker, 0);
    }
  }

  lemma BinaryForced(s0: Snapshot, s: Snapshot, p: Lit, b: nat, exclude: bool)
    requires Traversing(s0, s, p, b, 0, exclude) && b < |At(s.wt.binary, Neg(p))|
    requires Val(s.t, At(s.wt.binary, Neg(p))[b].blocker) == Indet
    ensures
      var w := At(s.wt.binary, Neg(p))[b];
      && |s.t.levels| == |s.t.reasons| == |s.t.pos| == |s.t.vals| && w.blocker.v < VarCount(s.t)
      && Traversing(s0, Pushed(s, w.blocker, Some(w.c)), p, b + 1, 0, exclude)
  {
    var w := At(s.wt.binary, Neg(p))[b];
    BinaryWatcher(s0, s, p, b, exclude);
    ForcedStep(s0, s, w.blocker, w.c, p, b, 0, exclude);
  }

  // ---- longer clauses --------------------------------------------------------------

  /** The next watcher of a longer clause to be looked at. */
  lemma LongWatcher(s0: Snapshot, s: Snapshot, p: Lit, b: nat, i: nat, exclude: bool)
    requires Traversing(s0, s, p, b, i, exclude) && i < |At(s.wt.long, Neg(p))|
    ensures
      var w := At(s.wt.long, Neg(p))[i];
      var c := Cl(s.st, w.c);
      && w.c in s.reg && w.c < |s.st.lits| && |c| > 2 && w.k < 2 && c[w.k] == Neg(p)
      && c[1 - w.k].v < VarCount(s.t) && DistinctVars(c)
      && LongOk(s.st, s.reg, s.stale, [], Neg(p), w) && (LeftOut(s.st, w.c) ==> w.redundant)
      && ((exclude && w.redundant) || Val(s.t, w.blocker) == True || Val(s.t, c[1 - w.k]) == True ==>
            Traversing(s0, s, p, b, i + 1, exclude))
  {
    hide ReasonsOk, WatchesComplete, SettledOk, Extends, Permuted;
    var w := At(s.wt.long, Neg(p))[i];
    assert LongOk(s.st, s.reg, s.stale, [], Neg(p), w);
    var c := Cl(s.st, w.c);
    if x :| (x == w.blocker || x == c[1 - w.k]) && Val(s.t, x) == True {
      LevelOfPos(s.t, x, 0);
      assert x in c || x in s.stale;
      assert HasTrue(s.t, c, s.stale, CurLevel(s.t));
    }
  }

  lemma TraversingLengths(s0: Snapshot, s: Snapshot, p: Lit, b: nat, i: nat, exclude: bool)
    requires Traversing(s0, s, p, b, i, exclude)
    ensures |s.t.levels| == |s.t.reasons| == |s.t.pos| == |s.t.vals|
  {
  }

  lemma HandledNext(s0: Snapshot, s: Snapshot, p: Lit, b: nat, i: nat, exclude: bool)
    requires Traversing(s0, s, p, b, i, exclude) && i < |At(s.wt.long, Neg(p))|
    requires HasTrue(s.t, Cl(s.st, At(s.wt.long, Neg(p))[i].c), s.stale, CurLevel(s.t))
    ensures Traversing(s0, s, p, b, i + 1, exclude)
  {
    hide Consistent, Progress;
  }

  /** All unwatched literals of the clause are false: it is falsified or forces a literal. */
  lemma NothingElseToWatch(s0: Snapshot, s: Snapshot, p: Lit, b: nat, i: nat, exclude: bool)
    requires Traversing(s0, s, p, b, i, exclude) && i < |At(s.wt.long, Neg(p))|
    requires At(s.wt.long, Neg(p))[i].k < 2 < |Cl(s.st, At(s.wt.long, Neg(p))[i].c)|
    requires exclude ==> !LeftOut(s.st, At(s.wt.long, Neg(p))[i].c)
    requires
      var c := Cl(s.st, At(s.wt.long, Neg(p))[i].c);
      && (forall j :: 2 <= j < |c| ==> Val(s.t, c[j]) == False)
      && Val(s.t, c[1 - At(s.wt.long, Neg(p))[i].k]) != True
    ensures
      var w := At(s.wt.long, Neg(p))[i];
      var other := Cl(s.st, w.c)[1 - w.k];
      && (Val(s.t, other) == False ==> Conflicting(s, w.c))
      && (Val(s.t, other) == Indet ==>
            && |s.t.levels| == |s.t.reasons| == |s.t.pos| == |s.t.vals| && other.v < VarCount(s.t)
            && Traversing(s0, Pushed(s, other, Some(w.c)), p, b, i + 1, exclude))
  {
    hide Traversing, LongOk, DistinctVars;
    LongWatcher(s0, s, p, b, i, exclude);
    TraversedLiteral(s0, s, p, b, i, exclude);
    var w := At(s.wt.long, Neg(p))[i];
    var cl := Cl(s.st, w.c);
    var other := cl[1 - w.k];
    assert cl[w.k] in cl;
    forall x | x in cl && x != other ensures Val(s.t, x) == False {
      var j :| 0 <= j < |cl| && cl[j] == x;
      assert j == w.k || j >= 2;
    }
    if Val(s.t, other) == Indet {
      TraversingLengths(s0, s, p, b, i, exclude);
      ForcedStep(s0, s, other, w.c, p, b, i, exclude);
      HandledNext(s0, Pushed(s, other, Some(w.c)), p, b, i, exclude);
    }
  }

  function MovedWatches(wt: Watches, st: Store, l: Lit, i: nat, j: nat): Watches
    requires i < |At(wt.long, l)| && j < |Cl(st, At(wt.long, l)[i].c)| && Cl(st, At(wt.long, l)[i].c)[j] != l
  {
    DropLong(AddLong(wt, Cl(st, At(wt.long, l)[i].c)[j], At(wt.long, l)[i]), l, i)
  }

  lemma MovedFacts(wt: Watches, st: Store, l: Lit, i: nat, j: nat)
    requires i < |At(wt.long, l)| && j < |Cl(st, At(wt.long, l)[i].c)| && Cl(st, At(wt.long, l)[i].c)[j] != l
    ensures At(MovedWatches(wt, st, l, i, j).long, l) == RemoveAt(At(wt.long, l), i)
    ensures |RemoveAt(At(wt.long, l), i)| == |At(wt.long, l)| - 1
    ensures MovedWatches(wt, st, l, i, j).binary == wt.binary && MovedWatches(wt, st, l, i, j).dirty == wt.dirty
  {
  }

  lemma SwapOnlyMoves(st: Store, reg: set<CRef>, stale: set<Lit>, l: Lit, w: Watcher, j: nat)
    requires LongOk(st, reg, stale, [], l, w) && w.c in reg && w.c < |st.lits| && 2 <= j < |Cl(st, w.c)|
    ensures OnlyMoves(st, SwapIn(st, w.c, w.k, j), w.c, w.k) && |Cl(st, w.c)| > 2
    ensures LongOk(SwapIn(st, w.c, w.k, j), reg, stale, [], Cl(st, w.c)[j], w)
  {
    SwapFacts(Cl(st, w.c), w.k, j);
  }

  lemma MoveLists(st: Store, reg: set<CRef>, wt: Watches, stale: set<Lit>, l: Lit, i: nat, j: nat)
    requires ListsOk(st, reg, stale, wt) && wt.dirty == []
    requires i < |At(wt.long, l)| && LongOk(st, reg, stale, [], l, At(wt.long, l)[i])
    requires At(wt.long, l)[i].c in reg && At(wt.long, l)[i].c < |st.lits|
    requires At(wt.long, l)[i].k < 2 <= j < |Cl(st, At(wt.long, l)[i].c)| && Cl(st, At(wt.long, l)[i].c)[j] != l
    ensures ListsOk(SwapIn(st, At(wt.long, l)[i].c, At(wt.long, l)[i].k, j), reg, stale, MovedWatches(wt, st, l, i, j))
  {
    hide ListsOk, ListsSound, ListsOkBut, LongOk, OnlyMoves, SwapIn, AddLong;
    var w := At(wt.long, l)[i];
    var st2 := SwapIn(st, w.c, w.k, j);
    SwapOnlyMoves(st, reg, stale, l, w, j);
    DropLongFacts(st, reg, stale, wt, l, i);
    MoveStore(st, st2, reg, stale, DropLong(wt, l, i), w.c, w.k);
    AddLongFacts(st2, reg, stale, DropLong(wt, l, i), Cl(st, w.c)[j], w);
    AddDropCommute(wt, l, i, Cl(st, w.c)[j], w);
  }

  function Rewatched(s: Snapshot, l: Lit, i: nat, j: nat): Snapshot
    requires i < |At(s.wt.long, l)| && At(s.wt.long, l)[i].c < |s.st.lits|
    requires At(s.wt.long, l)[i].k < |Cl(s.st, At(s.wt.long, l)[i].c)| && j < |Cl(s.st, At(s.wt.long, l)[i].c)|
    requires Cl(s.st, At(s.wt.long, l)[i].c)[j] != l
  {
    s.(st := SwapIn(s.st, At(s.wt.long, l)[i].c, At(s.wt.long, l)[i].k, j), wt := MovedWatches(s.wt, s.st, l, i, j))
  }

  /** Swapping in a literal which is not false and moving the watcher to its list. */
  lemma MoveStep(s0: Snapshot, s: Snapshot, p: Lit, b: nat, i: nat, j: nat, exclude: bool)
    requires Traversing(s0, s, p, b, i, exclude) && i < |At(s.wt.long, Neg(p))|
    requires At(s.wt.long, Neg(p))[i].k < 2 <= j < |Cl(s.st, At(s.wt.long, Neg(p))[i].c)|
    requires
      var c := Cl(s.st, At(s.wt.long, Neg(p))[i].c);
      Val(s.t, c[1 - At(s.wt.long, Neg(p))[i].k]) != True && Val(s.t, c[j]) != False
    ensures
      var w := At(s.wt.long, Neg(p))[i];
      && w.c < |s.st.lits| && Cl(s.st, w.c)[j] != Neg(p)
      && Traversing(s0, Rewatched(s, Neg(p), i, j), p, b, i, exclude)
      && |At(Rewatched(s, Neg(p), i, j).wt.long, Neg(p))| == |At(s.wt.long, Neg(p))| - 1
      && At(Rewatched(s, Neg(p), i, j).wt.binary, Neg(p)) == At(s.wt.binary, Neg(p))
  {
    hide ListsOk, Permuted, Handled, ReasonsOk, WatchesComplete, SettledOk, ClausesOk, Extends, LongOk;
    hide MovedWatches, RemoveAt, DistinctVars, TrailOk, OnlyMoves, Level;
    LongWatcher(s0, s, p, b, i, exclude);
    TraversedLiteral(s0, s, p, b, i, exclude);
    var w := At(s.wt.long, Neg(p))[i];
    var s2 := Rewatched(s, Neg(p), i, j);
    SwapInFacts(s.t, s.st, s.reg, w.c, w.k, j, s.settled, s.skipped, s.stale);
    PermutedTransitive(s0.st, s.st, s2.st);
    HandledSwap(s.t, s.st, s2.st, s.stale, At(s.wt.long, Neg(p)), i, exclude);
    HandledPermuted(s.t, s.st, s2.st, s.stale, At(s.wt.binary, Neg(p)), b, false);
    MoveLists(s.st, s.reg, s.wt, s.stale, Neg(p), i, j);
    MovedFacts(s.wt, s.st, Neg(p), i, j);
  }

  function Settled(s: Snapshot, p: Lit, exclude: bool): Snapshot {
    s.(settled := s.settled + {Neg(p)}, skipped := if exclude then s.skipped + {Neg(p)} else s.skipped)
  }

  lemma FinishTraversal(s0: Snapshot, s: Snapshot, p: Lit, exclude: bool)
    requires Traversing(s0, s, p, |At(s.wt.binary, Neg(p))|, |At(s.wt.long, Neg(p))|, exclude)
    ensures Consistent(Settled(s, p, exclude)) && Progress(s0, Settled(s, p, exclude))
    ensures exclude ==> NoneByLeftOut(Settled(s, p, exclude), |s0.t.lits|)
  {
    TraversedLiteral(s0, s, p, |At(s.wt.binary, Neg(p))|, |At(s.wt.long, Neg(p))|, exclude);
    FinishLiteral(s.t, s.st, s.reg, s.stale, s.wt, s.settled, s.skipped, Neg(p), exclude);
  }
}
