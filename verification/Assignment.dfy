// The variable assignment: trail, decision levels, reasons and two-watched-literal propagation.

module Assignments {
  import opened Literals
  import opened Trails
  import opened Watching
  import opened PropagationSteps
  import opened Traversal
  import opened Cleanup
  import opened Lifecycle
  import opened ClauseDatabase

  datatype UpMode = ExcludeLemmas | IncludeLemmas

  class Assignment {
    const db: ClauseDB

    var trail: seq<Lit>
    var levelLimits: seq<nat>
    var assignments: seq<TBool>
    var phases: seq<TBool>
    var currentLevel: nat
    var reasons: seq<Option<CRef>>
    var levels: seq<nat>
    var binaryWatchers: WatchLists
    var watchers: WatchLists
    var updateFlags: set<Lit>
    var litsRequiringUpdate: seq<Lit>

    // See the fields of Trail and Snapshot.
    ghost var pos: seq<nat>
    ghost var reg: set<CRef>
    ghost var settled: set<Lit>
    ghost var skipped: set<Lit>
    ghost var stale: set<Lit>

    ghost function T(): Trail
      reads this
    {
      Trail(trail, levelLimits, assignments, levels, reasons, pos)
    }

    ghost function Snap(): Snapshot
      reads this, db
    {
      Snapshot(T(), db.S(), Watches(watchers, binaryWatchers, litsRequiringUpdate), reg, settled, skipped, stale)
    }

    /** The redundant parts of the state agree with each other. */
    ghost predicate Shape()
      reads this, db
    {
      && db.Valid()
      && currentLevel == CurLevel(T())
      && |levels| == |reasons| == |pos| == |phases| == |assignments|
      && (forall l :: l in updateFlags <==> l in litsRequiringUpdate)
    }

    ghost predicate Valid()
      reads this, db
    {
      Shape() && Consistent(Snap())
    }

    constructor (maxVar: nat, db: ClauseDB)
      requires db.Valid()
      ensures Valid() && this.db == db && Fixpoint(Snap())
      ensures VarCount(T()) == |assignments| == maxVar + 1 && trail == [] && currentLevel == 0
      ensures reg == {} && stale == {} && settled == {} && skipped == {}
    {
      this.db := db;
      trail, levelLimits, currentLevel := [], [0], 0;
      assignments := seq(maxVar + 1, _ => Indet);
      phases := seq(maxVar + 1, _ => False);
      reasons := seq(maxVar + 1, _ => None);
      levels := seq(maxVar + 1, _ => 0);
      pos := seq(maxVar + 1, _ => 0);
      watchers, binaryWatchers := map[], map[];
      updateFlags, litsRequiringUpdate := {}, [];
      reg, settled, skipped, stale := {}, {}, {}, {};
    }

    function GetAssignment(l: Lit): (v: TBool)
      reads this
      ensures v == Val(T(), l)
    {
      if l.v >= |assignments| then Indet
      else match assignments[l.v]
        case Indet => Indet
        case True => Polarity(l.pos)
        case False => Polarity(!l.pos)
    }

    function GetLevel(v: nat): (level: nat)
      requires v < |levels|
      reads this
      ensures level == Level(T(), v)
    {
      levels[v]
    }

    function GetReason(v: nat): (reason: Option<CRef>)
      requires v < |reasons|
      reads this
      ensures reason == Reason(T(), v)
    {
      reasons[v]
    }

    method Assign(l: Lit, reason: Option<CRef>)
      requires Shape() && l.v < |assignments|
      modifies this`trail, this`assignments, this`levels, this`reasons, this`pos
      ensures Shape() && Snap() == Pushed(old(Snap()), l, reason)
      ensures |trail| == |old(trail)| + 1
    {
      hide TrailOk, InLevel, Val, ClauseDB.Valid;
      trail, pos, assignments, levels, reasons :=
        trail + [l], pos[l.v := |trail|], assignments[l.v := if l.pos then True else False],
        levels[l.v := currentLevel], reasons[l.v := reason];
    }

    /** Propagates the assignment of `p` through the binary clauses. */
    method PropagateBinaries(p: Lit, ghost exclude: bool) 
      returns (conflict: Option<CRef>, newFacts: nat, ghost b: nat)
      requires Shape() && Traversing(Snap(), Snap(), p, 0, 0, exclude)
      modifies this`trail, this`assignments, this`levels, this`reasons, this`pos
      ensures Shape() && newFacts == |trail| - |old(trail)|
      ensures Traversing(old(Snap()), Snap(), p, b, 0, exclude)
      ensures conflict.Some? ==> Conflicting(Snap(), conflict.value) && !LeftOut(db.S(), conflict.value)
      ensures conflict.None? ==> b == |At(binaryWatchers, Neg(p))|
    {
      hide Traversing, Conflicting, Forces, Val, Shape, Push, LeftOut;
      var negated := Neg(p);
      conflict, newFacts, b := None, 0, 0;
      var i, toTraverse: nat := 0, |At(binaryWatchers, negated)|;
      while toTraverse != 0
        invariant i + toTraverse == |At(binaryWatchers, negated)| && b == i
        invariant Shape() && newFacts == |trail| - |old(trail)|
        invariant Traversing(old(Snap()), Snap(), p, i, 0, exclude)
        decreases toTraverse
      {
        var w := At(binaryWatchers, negated)[i];
        BinaryWatcher(old(Snap()), Snap(), p, i, exclude);
        var value := GetAssignment(w.blocker);
        if value == False {
          conflict := Some(w.c);
          return;
        } else if value == Indet {
          BinaryForced(old(Snap()), Snap(), p, i, exclude);
          newFacts := newFacts + 1;
          Assign(w.blocker, Some(w.c));
        }
        i, toTraverse, b := i + 1, toTraverse - 1, b + 1;
      }
    }

    /** Finds the first literal beyond the watched ones which is not false. */
    method FindWatchable(c: Clause) returns (j: nat)
      requires |c| >= 2
      ensures 2 <= j <= |c| && (j < |c| ==> Val(T(), c[j]) != False)
      ensures forall h :: 2 <= h < j ==> Val(T(), c[h]) == False
    {
      j := 2;
      while j < |c| && GetAssignment(c[j]) == False
        invariant 2 <= j <= |c|
        invariant forall h :: 2 <= h < j ==> Val(T(), c[h]) == False
      {
        j := j + 1;
      }
    }

    /** Exchanges the literal watched by watcher `i` of the list of `l` for the one at index `j`. */
    method Rewatch(l: Lit, i: nat, j: nat)
      requires Shape() && i < |At(watchers, l)| && At(watchers, l)[i].c < |db.lits|
      requires At(watchers, l)[i].k < |db.lits[At(watchers, l)[i].c]| && j < |db.lits[At(watchers, l)[i].c]|
      requires db.lits[At(watchers, l)[i].c][j] != l
      modifies this`watchers, db`lits
      ensures Shape() && Snap() == Rewatched(old(Snap()), l, i, j)
    {
      var w := At(watchers, l)[i];
      var current := db.lits[w.c][j];
      db.lits := db.lits[w.c := Swap(db.lits[w.c], w.k, j)];
      watchers := watchers[current := At(watchers, current) + [w]];
      watchers := watchers[l := RemoveAt(At(watchers, l), i)];
    }

    lemma ShapeLevel()
      requires Shape()
      ensures currentLevel == CurLevel(T())
    {
    }

    /** All clauses watching the negation of `p` have been dealt with. */
    ghost method Settle(p: Lit, exclude: bool)
      requires Shape()
      modifies this`settled, this`skipped
      ensures Shape() && Snap() == Settled(old(Snap()), p, exclude)
    {
      settled, skipped := settled + {Neg(p)}, if exclude then skipped + {Neg(p)} else skipped;
    }

    /** Propagates the assignment of `p` through all clauses, or all but the redundant ones. */
    method Propagate(p: Lit, mode: UpMode) returns (conflict: Option<CRef>, newFacts: nat)
      requires Valid() && litsRequiringUpdate == []
      requires Val(T(), p) == True && Level(T(), p.v) == currentLevel && Neg(p) !in settled
      modifies this`trail, this`assignments, this`levels, this`reasons, this`pos, this`watchers
      modifies this`settled, this`skipped, db`lits
      ensures Valid() && Progress(old(Snap()), Snap()) && newFacts == |trail| - |old(trail)|
      ensures conflict.Some? ==> Conflicting(Snap(), conflict.value)
      ensures conflict.Some? ==> settled == old(settled) && skipped == old(skipped)
      ensures conflict.None? ==> settled == old(settled) + {Neg(p)}
      ensures conflict.None? ==> skipped == old(skipped) + if mode == ExcludeLemmas then {Neg(p)} else {}
      ensures mode == ExcludeLemmas ==> NoneByLeftOut(Snap(), |old(trail)|)
      ensures mode == ExcludeLemmas && conflict.Some? ==> !LeftOut(db.S(), conflict.value)
    {
      hide Traversing, Conflicting, Consistent, Progress, Val, Level, TrailOk, Shape, LeftOut, NoneByLeftOut;
      ghost var exclude := mode == ExcludeLemmas;
      ghost var b, i;
      ShapeLevel();
      StartTraversal(Snap(), p, exclude);
      conflict, newFacts, b := PropagateBinaries(p, exclude);
      if conflict.Some? {
        TraversalKeeps(old(Snap()), Snap(), p, b, 0, exclude);
        return;
      }
      var more;
      conflict, more, i := PropagateLong(p, mode, old(Snap()));
      newFacts := newFacts + more;
      TraversalKeeps(old(Snap()), Snap(), p, b, i, exclude);
      if conflict.None? {
        FinishTraversal(old(Snap()), Snap(), p, exclude);
        Settle(p, exclude);
      }
    }

    /** The part of propagation which deals with clauses of three or more literals. */
    method PropagateLong(p: Lit, mode: UpMode, ghost s0: Snapshot)
      returns (conflict: Option<CRef>, newFacts: nat, ghost i: nat)
      requires Shape()
      requires Traversing(s0, Snap(), p, |At(binaryWatchers, Neg(p))|, 0, mode == ExcludeLemmas)
      modifies this`trail, this`assignments, this`levels, this`reasons, this`pos, this`watchers, db`lits
      ensures Shape() && newFacts == |trail| - |old(trail)|
      ensures Traversing(s0, Snap(), p, |At(binaryWatchers, Neg(p))|, i, mode == ExcludeLemmas)
      ensures At(binaryWatchers, Neg(p)) == old(At(binaryWatchers, Neg(p)))
      ensures conflict.Some? ==> Conflicting(Snap(), conflict.value)
      ensures mode == ExcludeLemmas && conflict.Some? ==> !LeftOut(db.S(), conflict.value)
      ensures conflict.None? ==> i == |At(watchers, Neg(p))|
    {
      hide LeftOut, VarCount, TrailOk, Traversing, Conflicting, Forces, Val, LongOk, Shape, Push, Swap, RemoveAt,
           DistinctVars, At, Pushed;
      conflict, newFacts, i := None, 0, 0;
      var negated := Neg(p);
      ghost var b := |At(binaryWatchers, negated)|;
      var cursor, toTraverse: nat := 0, |At(watchers, negated)|;
      while toTraverse != 0
        invariant conflict == None && cursor == i && i + toTraverse == |At(watchers, negated)|
        invariant Shape() && newFacts == |trail| - |old(trail)|
        invariant Traversing(s0, Snap(), p, b, i, mode == ExcludeLemmas)
        decreases toTraverse
      {
        var w := At(watchers, negated)[cursor];
        LongWatcher(s0, Snap(), p, b, i, mode == ExcludeLemmas);
        // The blocker may be outdated, the clause itself is only looked at if the blocker is not true.
        var other := db.lits[w.c][1 - w.k];
        if (mode == ExcludeLemmas && w.redundant) || GetAssignment(w.blocker) == True || GetAssignment(other) == True {
          cursor, toTraverse, i := cursor + 1, toTraverse - 1, i + 1;
        } else {
          var moved;
          conflict, moved := VisitClause(p, cursor, s0, b, mode == ExcludeLemmas);
          if conflict.Some? {
            return;
          }
          if !moved {
            newFacts := newFacts + 1;
            cursor, i := cursor + 1, i + 1;
          }
          toTraverse := toTraverse - 1;
        }
      }
    }

    /**
     * Looks at the clause of watcher `i`, whose other watched literal is not true. Either another literal is watched
     * from now on, or the clause is falsified, or it forces its other watched literal.
     */
    method VisitClause(p: Lit, i: nat, ghost s0: Snapshot, ghost b: nat, ghost exclude: bool)
      returns (conflict: Option<CRef>, moved: bool)
      requires Shape() && Traversing(s0, Snap(), p, b, i, exclude) && i < |At(watchers, Neg(p))|
      requires At(watchers, Neg(p))[i].c < |db.lits| && At(watchers, Neg(p))[i].k < 2
      requires exclude ==> !LeftOut(db.S(), At(watchers, Neg(p))[i].c)
      requires
        var w := At(watchers, Neg(p))[i];
        var c := db.lits[w.c];
        |c| > 2 && Val(T(), c[1 - w.k]) != True
      modifies this`trail, this`assignments, this`levels, this`reasons, this`pos, this`watchers, db`lits
      ensures Shape() && At(binaryWatchers, Neg(p)) == old(At(binaryWatchers, Neg(p)))
      ensures conflict.Some? ==> Conflicting(Snap(), conflict.value) && trail == old(trail)
      ensures exclude && conflict.Some? ==> !LeftOut(db.S(), conflict.value)
      ensures conflict.Some? ==> Traversing(s0, Snap(), p, b, i, exclude)
      ensures conflict.None? ==>
                && Traversing(s0, Snap(), p, b, if moved then i else i + 1, exclude)
                && |trail| == |old(trail)| + (if moved then 0 else 1)
                && |At(watchers, Neg(p))| == |old(At(watchers, Neg(p)))| - (if moved then 1 else 0)
    {
      hide Traversing, Conflicting, Forces, Val, LongOk, Shape, Push, Swap, RemoveAt, At, Pushed, LeftOut;
      var w := At(watchers, Neg(p))[i];
      var other := db.lits[w.c][1 - w.k];
      LongWatcher(s0, Snap(), p, b, i, exclude);
      conflict, moved := None, false;
      var j := FindWatchable(db.lits[w.c]);
      if j < |db.lits[w.c]| {
        MoveStep(s0, Snap(), p, b, i, j, exclude);
        Rewatch(Neg(p), i, j);
        moved := true;
      } else {
        NothingElseToWatch(s0, Snap(), p, b, i, exclude);
        if GetAssignment(other) == False {
          conflict := Some(w.c);
        } else {
          Assign(other, Some(w.c));
        }
      }
    }

    // ---- cleaning up watch lists ---------------------------------------------------

    /** Brings the watch lists of `l` up to date. */
    method CleanupList(l: Lit, ghost rest: seq<Lit>)
      requires db.Valid() && ClausesOk(db.S(), reg, |assignments|)
      requires Cleaning(db.S(), reg, stale, Watches(watchers, binaryWatchers, []), l, rest, 0, 0)
      modifies this`watchers, this`binaryWatchers, this`updateFlags
      ensures ListsOk(db.S(), reg, stale, Watches(watchers, binaryWatchers, rest))
      ensures updateFlags == old(updateFlags) - {l}
    {
      hide Cleaning, ListsOk;
      var i, toTraverse: nat := 0, |At(watchers, l)|;
      while toTraverse != 0
        invariant i + toTraverse == |At(watchers, l)|
        invariant Cleaning(db.S(), reg, stale, Watches(watchers, binaryWatchers, []), l, rest, i, 0)
        invariant updateFlags == old(updateFlags)
        decreases toTraverse
      {
        var w := At(watchers, l)[i];
        ghost var wt := Watches(watchers, binaryWatchers, []);
        WatcherToClean(db.S(), reg, stale, wt, l, rest, i, |assignments|);
        if w.c < |db.deleted| && db.deleted[w.c] {
          CleanDrop(db.S(), reg, stale, wt, l, rest, i);
          watchers := watchers[l := RemoveAt(At(watchers, l), i)];
        } else {
          var c := db.lits[w.c];
          if |c| == 2 {
            // The clause has become a binary clause: its watcher moves to the binary watchers.
            w := w.(blocker := c[1 - w.k], redundant := false);
            CleanToBinary(db.S(), reg, stale, wt, l, rest, i, w);
            binaryWatchers := binaryWatchers[c[w.k] := At(binaryWatchers, c[w.k]) + [w]];
            watchers := watchers[l := RemoveAt(At(watchers, l), i)];
          } else if c[w.k] != l {
            // The watcher is in the wrong list.
            w := w.(blocker := c[1 - w.k], redundant := db.redundant[w.c]);
            CleanMove(db.S(), reg, stale, wt, l, rest, i, w);
            watchers := watchers[c[w.k] := At(watchers, c[w.k]) + [w]];
            watchers := watchers[l := RemoveAt(At(watchers, l), i)];
          } else {
            i := i + 1;
          }
        }
        toTraverse := toTraverse - 1;
      }
      CleanupBinaryList(l, rest);
      updateFlags := updateFlags - {l};
    }

    method CleanupBinaryList(l: Lit, ghost rest: seq<Lit>)
      requires Cleaning(db.S(), reg, stale, Watches(watchers, binaryWatchers, []), l, rest, |At(watchers, l)|, 0)
      modifies this`binaryWatchers
      ensures ListsOk(db.S(), reg, stale, Watches(watchers, binaryWatchers, rest))
    {
      hide Cleaning, ListsOk;
      var i, toTraverse: nat := 0, |At(binaryWatchers, l)|;
      while toTraverse != 0
        invariant i + toTraverse == |At(binaryWatchers, l)|
        invariant Cleaning(db.S(), reg, stale, Watches(watchers, binaryWatchers, []), l, rest, |At(watchers, l)|, i)
        decreases toTraverse
      {
        var w := At(binaryWatchers, l)[i];
        CleanBinaryDrop(db.S(), reg, stale, Watches(watchers, binaryWatchers, []), l, rest, i);
        if w.c < |db.deleted| && db.deleted[w.c] {
          binaryWatchers := binaryWatchers[l := RemoveAt(At(binaryWatchers, l), i)];
        } else {
          i := i + 1;
        }
        toTraverse := toTraverse - 1;
      }
      FinishCleaning(db.S(), reg, stale, Watches(watchers, binaryWatchers, []), l, rest);
    }

    /** Brings all watch lists up to date which have been marked for it. */
    method CleanupWatchers()
      requires Valid()
      modifies this`watchers, this`binaryWatchers, this`updateFlags, this`litsRequiringUpdate
      ensures Valid() && litsRequiringUpdate == []
    {
      hide ListsOk, ReasonsOk, WatchesComplete, TrailOk, SettledOk, ClausesOk;
      var i := 0;
      while i < |litsRequiringUpdate|
        invariant 0 <= i <= |litsRequiringUpdate| && litsRequiringUpdate == old(litsRequiringUpdate)
        invariant ListsOk(db.S(), reg, stale, Watches(watchers, binaryWatchers, litsRequiringUpdate[i..]))
        invariant forall l :: l in updateFlags ==> l in litsRequiringUpdate[i..]
      {
        var l := litsRequiringUpdate[i];
        assert litsRequiringUpdate[i..] == [l] + litsRequiringUpdate[i + 1..];
        StartCleaning(db.S(), reg, stale, Watches(watchers, binaryWatchers, []), l, litsRequiringUpdate[i + 1..]);
        CleanupList(l, litsRequiringUpdate[i + 1..]);
        i := i + 1;
      }
      assert litsRequiringUpdate[i..] == [];
      litsRequiringUpdate := [];
    }

    // ---- assigning literals --------------------------------------------------------

    /** Propagates the last literal `p` of the trail and all literals forced by it. */
    method PropagateUntilFixpoint(p: Lit, mode: UpMode) returns (conflict: Option<CRef>)
      requires Valid() && |trail| > 0 && trail[|trail| - 1] == p
      requires Level(T(), p.v) == currentLevel && Neg(p) !in settled
      modifies this`trail, this`assignments, this`levels, this`reasons, this`pos, this`watchers, this`binaryWatchers
      modifies this`updateFlags, this`litsRequiringUpdate, this`settled, this`skipped, db`lits
      ensures Valid() && Progress(old(Snap()), Snap()) && litsRequiringUpdate == []
      ensures old(settled) <= settled && old(skipped) <= skipped
      ensures mode == IncludeLemmas ==> skipped == old(skipped)
      ensures conflict.Some? ==> Conflicting(Snap(), conflict.value)
      ensures conflict.None? ==> forall j :: |old(trail)| - 1 <= j < |trail| ==> Neg(trail[j]) in settled
      ensures mode == ExcludeLemmas ==> NoneByLeftOut(Snap(), |old(trail)|)
      ensures mode == ExcludeLemmas && conflict.Some? ==> !LeftOut(db.S(), conflict.value)
    {
      hide Consistent, Progress, Conflicting, Val, Level, LeftOut, NoneByLeftOut;
      if litsRequiringUpdate != [] {
        CleanupWatchers();
      }
      ghost var s := Snap();
      conflict := ProcessQueue(|trail| - 1, mode);
      WatchesOnlyProgress(old(Snap()), s, Snap());
    }

    /** Propagates the trail from index `first`, the index of its last literal, to its end. */
    method ProcessQueue(first: nat, mode: UpMode) returns (conflict: Option<CRef>)
      requires Valid() && litsRequiringUpdate == [] && first + 1 == |trail|
      requires Level(T(), trail[first].v) == currentLevel && Neg(trail[first]) !in settled
      modifies this`trail, this`assignments, this`levels, this`reasons, this`pos, this`watchers
      modifies this`settled, this`skipped, db`lits
      ensures Valid() && Progress(old(Snap()), Snap())
      ensures old(settled) <= settled && old(skipped) <= skipped
      ensures mode == IncludeLemmas ==> skipped == old(skipped)
      ensures conflict.Some? ==> Conflicting(Snap(), conflict.value)
      ensures conflict.None? ==> forall j :: first <= j < |trail| ==> Neg(trail[j]) in settled
      ensures mode == ExcludeLemmas ==> NoneByLeftOut(Snap(), |old(trail)|)
      ensures mode == ExcludeLemmas && conflict.Some? ==> !LeftOut(db.S(), conflict.value)
    {
      hide Consistent, Progress, Conflicting, Queue, Val, Level, TrailOk, Shape, LeftOut, NoneByLeftOut;
      ghost var exclude, n := mode == ExcludeLemmas, |assignments|;
      ShapeLevel();
      QueueStart(Snap(), first, exclude);
      conflict := None;
      // The queue starts with the last literal and grows with each forced one.
      var queueBegin, queueEnd := first, |trail|;
      while queueBegin != queueEnd
        invariant conflict == None && first <= queueBegin <= queueEnd == |trail|
        invariant Shape() && litsRequiringUpdate == [] && Queue(old(Snap()), Snap(), first, queueBegin, exclude)
        decreases n - queueBegin
      {
        ghost var s := Snap();
        QueueNext(old(Snap()), s, first, queueBegin, exclude);
        var newFacts;
        conflict, newFacts := Propagate(trail[queueBegin], mode);
        if conflict.Some? {
          QueueConflict(old(Snap()), s, Snap(), first, queueBegin, exclude);
          return;
        }
        QueueStep(old(Snap()), s, Snap(), first, queueBegin, exclude);
        queueEnd, queueBegin := queueEnd + newFacts, queueBegin + 1;
      }
      QueueFacts(old(Snap()), Snap(), first, queueBegin, exclude);
    }

    /** Assigns `l` and propagates. */
    method Append(l: Lit, mode: UpMode) returns (conflict: Option<CRef>)
      requires Valid() && l.v < |assignments| && Val(T(), l) == Indet
      modifies this`trail, this`assignments, this`levels, this`reasons, this`pos, this`watchers, this`binaryWatchers
      modifies this`updateFlags, this`litsRequiringUpdate, this`settled, this`skipped, db`lits
      ensures Valid() && Progress(Pushed(old(Snap()), l, None), Snap()) && litsRequiringUpdate == []
      ensures old(settled) <= settled && old(skipped) <= skipped
      ensures conflict.Some? ==> Conflicting(Snap(), conflict.value)
      ensures conflict.None? && mode == IncludeLemmas && old(Fixpoint(Snap())) ==> Fixpoint(Snap())
      ensures mode == IncludeLemmas ==> skipped == old(skipped)
      ensures mode == ExcludeLemmas ==> NoneByLeftOut(Snap(), |old(trail)| + 1)
      ensures mode == ExcludeLemmas && conflict.Some? ==> !LeftOut(db.S(), conflict.value)
    {
      hide Consistent, Progress, Conflicting, Fixpoint, LeftOut, NoneByLeftOut;
      AssignFacts(Snap(), l);
      Assign(l, None);
      conflict := PropagateUntilFixpoint(l, mode);
      AppendFixpoint(old(Snap()), Pushed(old(Snap()), l, None), Snap());
    }

    /** Registers a clause none of whose literals is assigned. */
    method RegisterClause(c: CRef)
      requires Valid() && Registrable(Snap(), c) && forall x :: x in db.lits[c] ==> Val(T(), x) == Indet
      modifies this`watchers, this`binaryWatchers, this`reg
      ensures Valid() && Snap() == Registered(old(Snap()), c)
    {
      hide Consistent;
      RegisterUnassigned(Snap(), c);
      AddWatchers(c);
    }

    /** Adds watchers for the first two literals of clause `c`. */
    method AddWatchers(c: CRef)
      requires Shape() && c < |db.lits| && |db.lits[c]| >= 2
      modifies this`watchers, this`binaryWatchers, this`reg
      ensures Shape() && Snap() == Registered(old(Snap()), c)
    {
      var lit0, lit1 := db.lits[c][0], db.lits[c][1];
      var watcher1 := Watcher(c, lit0, 1, db.redundant[c]);
      var watcher2 := Watcher(c, lit1, 0, db.redundant[c]);
      if |db.lits[c]| <= 2 {
        binaryWatchers := binaryWatchers[lit0 := At(binaryWatchers, lit0) + [watcher2]];
        binaryWatchers := binaryWatchers[lit1 := At(binaryWatchers, lit1) + [watcher1]];
      } else {
        watchers := watchers[lit0 := At(watchers, lit0) + [watcher2]];
        watchers := watchers[lit1 := At(watchers, lit1) + [watcher1]];
      }
      reg := reg + {c};
    }

    /** Registers a clause which forces its first literal, assigns that literal and propagates. */
    method RegisterLemma(c: CRef) returns (conflict: Option<CRef>)
      requires Valid() && Registrable(Snap(), c) && Asserting(Snap(), c)
      modifies this`trail, this`assignments, this`levels, this`reasons, this`pos, this`watchers, this`binaryWatchers
      modifies this`updateFlags, this`litsRequiringUpdate, this`settled, this`skipped, this`reg, db`lits
      ensures Valid() && old(db.lits[c][0]).v < |assignments| && litsRequiringUpdate == []
      ensures Progress(Pushed(Registered(old(Snap()), c), old(db.lits[c][0]), Some(c)), Snap())
      ensures old(settled) <= settled && skipped == old(skipped)
      ensures conflict.Some? ==> Conflicting(Snap(), conflict.value)
      ensures conflict.None? && old(Fixpoint(Snap())) ==> Fixpoint(Snap())
    {
      hide Consistent, Progress, Conflicting, Fixpoint, Registrable;
      ghost var s := Snap();
      RegisterAsserting(s, c);
      AssertingFacts(s, c);
      var assertingLit := db.lits[c][0];
      AddWatchers(c);
      Assign(assertingLit, Some(c));
      ghost var s2 := Snap();
      PushedFacts(s, s2, assertingLit);
      conflict := PropagateUntilFixpoint(assertingLit, IncludeLemmas);
      AppendFixpoint(s, s2, Snap());
    }

    // ---- levels --------------------------------------------------------------------

    method NewLevel()
      requires Valid()
      modifies this`levelLimits, this`currentLevel
      ensures Valid() && Snap() == WithLevel(old(Snap())) && currentLevel == old(currentLevel) + 1
    {
      hide Consistent;
      OpenLevelKeeps(Snap());
      levelLimits := levelLimits + [|trail|];
      currentLevel := currentLevel + 1;
    }

    /** Drops all assignments from trail index `cut` on, remembering them as phases. */
    method Unassign(cut: nat)
      requires Shape() && TrailOk(T()) && cut <= |trail|
      modifies this`assignments, this`phases
      ensures |assignments| == |phases| == |old(assignments)|
      ensures forall v :: 0 <= v < |assignments| ==>
                assignments[v] == if pos[v] >= cut then Indet else old(assignments[v])
      ensures forall v :: 0 <= v < |assignments| ==>
                phases[v] == if pos[v] >= cut && old(assignments[v]) != Indet then old(assignments[v]) else old(phases[v])
    {
      hide InLevel;
      ghost var t := T();
      assert forall j :: 0 <= j < |trail| ==> Val(t, trail[j]) == True && Pos(t, trail[j].v) == j;
      var i := cut;
      while i < |trail|
        invariant cut <= i <= |trail|
        invariant |assignments| == |phases| == |old(assignments)|
        invariant forall v :: 0 <= v < |assignments| ==>
                    assignments[v] == if cut <= pos[v] < i then Indet else old(assignments[v])
        invariant forall v :: 0 <= v < |assignments| ==>
                    phases[v] == if cut <= pos[v] < i && old(assignments[v]) != Indet then old(assignments[v])
                    else old(phases[v])
      {
        var v := trail[i].v;
        assert Val(t, trail[i]) == True && Pos(t, v) == i;
        OneAtPos(t, i);
        phases := phases[v := assignments[v]];
        assignments := assignments[v := Indet];
        i := i + 1;
      }
      NoneBeyond(t);
    }

    /** Cuts the trail where the level above `level` begins. */
    method CutTrail(level: nat)
      requires Shape() && TrailOk(T()) && level < currentLevel && levelLimits[level + 1] <= |trail|
      modifies this`trail, this`levelLimits, this`assignments, this`phases, this`currentLevel
      ensures Shape() && T() == UndoTo(old(T()), level) && currentLevel == level && |phases| == |old(phases)|
      ensures forall v :: 0 <= v < |phases| ==>
                phases[v] == if pos[v] >= old(levelLimits)[level + 1] && old(assignments[v]) != Indet
                then old(assignments[v]) else old(phases[v])
    {
      hide TrailOk, UndoTo, CutAt;
      ghost var t := T();
      Unassign(levelLimits[level + 1]);
      trail := trail[..levelLimits[level + 1]];
      levelLimits := levelLimits[..level + 1];
      currentLevel := level;
      UndoToIs(t, level, T());
    }

    /** Undoes all assignments on levels higher than `level`. */
    method UndoToLevel(level: nat)
      requires Valid() && level < currentLevel
      modifies this`trail, this`levelLimits, this`assignments, this`phases, this`currentLevel
      modifies this`settled, this`skipped
      ensures Valid() && Snap() == Undone(old(Snap()), level) && currentLevel == level
      ensures |phases| == |old(phases)|
      ensures forall v :: 0 <= v < |phases| ==>
                phases[v] == if old(assignments[v]) != Indet && levels[v] > level then old(assignments[v])
                else old(phases[v])
    {
      hide Consistent, UndoTo, CutAt, TrailOk, Val, Level, InLevel;
      UndoKeeps(Snap(), level);
      UndoCut(Snap(), level);
      CutTrail(level);
      settled, skipped := StillFalse(T(), settled), StillFalse(T(), skipped);
    }

    /** Undoes all assignments. */
    method UndoAll()
      requires Valid()
      modifies this`trail, this`levelLimits, this`assignments, this`phases, this`currentLevel
      modifies this`settled, this`skipped
      ensures Valid() && Snap() == Emptied(old(Snap())) && currentLevel == 0 && trail == []
      ensures |phases| == |old(phases)|
      ensures forall v :: 0 <= v < |phases| ==>
                phases[v] == if old(assignments[v]) != Indet then old(assignments[v]) else old(phases[v])
      ensures Fixpoint(Snap()) && forall l :: Val(T(), l) == Indet
    {
      hide Consistent, TrailOk, Val, CutAt;
      EmptiedFacts(Snap());
      ClearTrail();
      settled, skipped := {}, {};
    }

    /** Drops the whole trail. */
    method ClearTrail()
      requires Shape() && TrailOk(T())
      modifies this`trail, this`levelLimits, this`assignments, this`phases, this`currentLevel
      ensures Shape() && T() == CutAt(old(T()), 0, 1) && |phases| == |old(phases)|
      ensures forall v :: 0 <= v < |phases| ==>
                phases[v] == if old(assignments[v]) != Indet then old(assignments[v]) else old(phases[v])
    {
      hide TrailOk, CutAt;
      ghost var t := T();
      TrailStart(t);
      Unassign(0);
      trail, levelLimits, currentLevel := [], levelLimits[..1], 0;
      EmptiedIs(t, T());
    }

    /** The trail literals of the given level. */
    function GetLevelAssignments(level: nat): (lits: seq<Lit>)
      requires Valid()
      reads this, db
      ensures forall i :: 0 <= i < |lits| ==> Val(T(), lits[i]) == True && Level(T(), lits[i].v) == level
      ensures forall l :: Val(T(), l) == True && Level(T(), l.v) == level ==> l in lits
    {
      LevelRange(T(), level);
      if level >= |levelLimits| then []
      else trail[levelLimits[level]..if level + 1 == |levelLimits| then |trail| else levelLimits[level + 1]]
    }

    /**
     * Whether clause `c` forced an assignment of one of its first two literals. Reasons are not cleared
     * when assignments are undone, so the answer may also be true for a former reason.
     */
    method IsReason(c: CRef) returns (r: bool)
      requires Valid() && c in reg
      ensures (exists l :: Val(T(), l) == True && Reason(T(), l.v) == Some(c)) ==> r
      ensures r ==> trail != [] && exists k :: 0 <= k < 2 && Reason(T(), db.lits[c][k].v) == Some(c) &&
                                               Level(T(), db.lits[c][k].v) <= currentLevel
    {
      hide WatchesComplete, ListsOk, SettledOk;
      ReasonOfTrue(Snap(), c);
      var v0, v1 := db.lits[c][0].v, db.lits[c][1].v;
      assert db.lits[c][0] in db.lits[c] && db.lits[c][1] in db.lits[c];
      r := trail != [] &&
           ((reasons[v0] == Some(c) && levels[v0] <= currentLevel) || (reasons[v1] == Some(c) && levels[v1] <= currentLevel));
      assert r ==> Reason(T(), db.lits[c][0].v) == Some(c) || Reason(T(), db.lits[c][1].v) == Some(c);
    }

    // ---- the set of clauses and variables ------------------------------------------

    /**
     * Marks the watch lists of the first two literals of clause `c` for a cleanup. The clause has been marked for
     * deletion, or the literals `removed` have been taken out of it.
     */
    method RegisterClauseModification(c: CRef, ghost removed: set<Lit>)
      requires Shape() && c < |db.lits| && |db.lits[c]| >= 2
      modifies this`updateFlags, this`litsRequiringUpdate, this`reg, this`stale
      ensures Shape() && (Once(old(litsRequiringUpdate)) ==> Once(litsRequiringUpdate))
      ensures forall l :: l in litsRequiringUpdate <==> l in old(litsRequiringUpdate) || l in db.lits[c][..2]
      ensures stale == old(stale) + removed && reg == if db.deleted[c] then old(reg) - {c} else old(reg)
    {
      stale := stale + removed;
      reg := if db.deleted[c] then reg - {c} else reg;
      assert db.lits[c][..2] == [db.lits[c][0], db.lits[c][1]];
      RequireUpdate(db.lits[c][0]);
      RequireUpdate(db.lits[c][1]);
    }

    /** Marks the watch lists of `l`, unless they are marked already. */
    method RequireUpdate(l: Lit)
      requires forall x :: x in updateFlags <==> x in litsRequiringUpdate
      modifies this`updateFlags, this`litsRequiringUpdate
      ensures forall x :: x in litsRequiringUpdate <==> x in old(litsRequiringUpdate) || x == l
      ensures Once(old(litsRequiringUpdate)) ==> Once(litsRequiringUpdate)
      ensures forall x :: x in updateFlags <==> x in litsRequiringUpdate
    {
      if l !in updateFlags {
        updateFlags := updateFlags + {l};
        litsRequiringUpdate := litsRequiringUpdate + [l];
      }
    }

    /** Unregisters all clauses. The invariants hold afterwards exactly if no clause is a reason any more. */
    method ClearClauses()
      requires Shape() && TrailOk(T()) && SettledOk(T(), settled, skipped)
      modifies this`watchers, this`binaryWatchers, this`reg, this`stale
      ensures Shape() && watchers == map[] && binaryWatchers == map[] && reg == {} && stale == {}
      ensures Valid() <==> forall i :: 0 <= i < |trail| ==> Reason(T(), trail[i].v).None?
    {
      hide TrailOk, SettledOk, CurLevel;
      watchers, binaryWatchers := map[], map[];
      reg, stale := {}, {};
      NothingRegistered(Snap());
    }

    method IncreaseMaxVar(maxVar: nat)
      requires Valid() && maxVar + 1 >= |assignments|
      modifies this`assignments, this`phases, this`levels, this`reasons, this`pos
      ensures Valid() && |assignments| == maxVar + 1
      ensures forall l :: Val(T(), l) == old(Val(T(), l))
      ensures |old(phases)| <= maxVar + 1 && phases == Padded(old(phases), maxVar + 1, False)
      ensures Snap() == old(Snap()).(t := Grown(old(T()), maxVar + 1))
    {
      hide Consistent, Val, Padded, ClauseDB.Valid, TrailOk;
      GrowKeeps(Snap(), maxVar + 1);
      ConsistentTrail(Snap());
      var n := maxVar + 1;
      assignments, phases, levels, reasons, pos :=
        Padded(assignments, n, Indet), Padded(phases, n, False), Padded(levels, n, 0), Padded(reasons, n, None),
        Padded(pos, n, 0);
    }

    /** The literals forming a registered binary clause together with `l`. */
    function BinariesOf(l: Lit): (blockers: seq<Lit>)
      requires Valid() && litsRequiringUpdate == []
      reads this, db
      ensures forall m :: m in blockers <==> Partners(Snap(), l, m)
    {
      BlockersAreBinaries(Snap(), l);
      Blockers(At(binaryWatchers, l))
    }
  }
}
