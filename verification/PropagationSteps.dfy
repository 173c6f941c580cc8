// The single steps of unit propagation and what each of them keeps.

module PropagationSteps {
  import opened Literals
  import opened Trails
  import opened Watching
  import opened ListMoves

  /** `t2` continues the current level of `t` with forced literals. */
  ghost predicate Extends(t: Trail, t2: Trail) {
    && t2.limits == t.limits && VarCount(t2) == VarCount(t) && t.lits <= t2.lits
    && (forall l :: Val(t, l) != Indet ==>
          Val(t2, l) == Val(t, l) && Level(t2, l.v) == Level(t, l.v) && Reason(t2, l.v) == Reason(t, l.v) &&
          Pos(t2, l.v) == Pos(t, l.v))
    && (forall i :: |t.lits| <= i < |t2.lits| ==>
          Level(t2, t2.lits[i].v) == CurLevel(t) && Reason(t2, t2.lits[i].v).Some?)
  }

  lemma ExtendsTransitive(t: Trail, t2: Trail, t3: Trail)
    requires Extends(t, t2) && Extends(t2, t3) && TrailOk(t2)
    ensures Extends(t, t3)
  {
  }

  /** The clauses of `st2` are those of `st` with their literals permuted. */
  ghost predicate Permuted(st: Store, st2: Store) {
    && |st2.lits| == |st.lits| && st2.redundant == st.redundant && st2.deleted == st.deleted
    && (forall c :: 0 <= c < |st.lits| ==>
          multiset(st2.lits[c]) == multiset(st.lits[c]) && |st2.lits[c]| == |st.lits[c]| &&
          SameLits(st2.lits[c], st.lits[c]))
  }

  lemma PermutedTransitive(st: Store, st2: Store, st3: Store)
    requires Permuted(st, st2) && Permuted(st2, st3)
    ensures Permuted(st, st3)
  {
  }

  /** The first `i` watchers of the list have been dealt with on the current level. */
  ghost predicate Handled(t: Trail, st: Store, stale: set<Lit>, ws: seq<Watcher>, i: nat, exclude: bool) {
    forall j :: 0 <= j < i && j < |ws| ==>
      (exclude && ws[j].redundant) || HasTrue(t, Cl(st, ws[j].c), stale, CurLevel(t))
  }

  // ---- forcing a literal -----------------------------------------------------------

  lemma WatchesStayComplete(t: Trail, t2: Trail, st: Store, reg: set<CRef>, settled: set<Lit>, skipped: set<Lit>,
                            stale: set<Lit>)
    requires Extends(t, t2) && SettledOk(t, settled, skipped)
    requires WatchesComplete(t, st, reg, settled, skipped, stale)
    ensures SettledOk(t2, settled, skipped) && WatchesComplete(t2, st, reg, settled, skipped, stale)
  {
  }

  lemma ReasonsStay(t: Trail, l: Lit, reason: Option<CRef>, st: Store, reg: set<CRef>)
    requires TrailOk(t) && ReasonsOk(t, st, reg) && l.v < VarCount(t) && Val(t, l) == Indet
    ensures
      var t2 := Push(t, l, reason);
      forall i :: 0 <= i < |t.lits| && Reason(t2, t2.lits[i].v).Some? ==>
        ReasonFits(t2, st, reg, i, Reason(t2, t2.lits[i].v).value)
  {
  }

  /** Assigning a literal without a reason. */
  lemma PushUnforced(t: Trail, l: Lit, st: Store, reg: set<CRef>, settled: set<Lit>, skipped: set<Lit>,
                     stale: set<Lit>)
    requires TrailOk(t) && ReasonsOk(t, st, reg) && SettledOk(t, settled, skipped)
    requires WatchesComplete(t, st, reg, settled, skipped, stale)
    requires l.v < VarCount(t) && Val(t, l) == Indet
    ensures
      var t2 := Push(t, l, None);
      TrailOk(t2) && ReasonsOk(t2, st, reg) && SettledOk(t2, settled, skipped) &&
      WatchesComplete(t2, st, reg, settled, skipped, stale)
  {
    var t2 := Push(t, l, None);
    PushFacts(t, l, None);
    ReasonsStay(t, l, None, st, reg);
    assert t2.lits[|t.lits|] == l;
    forall c, k | c in reg && 0 <= k < 2 && k < |Cl(st, c)| && Visited(st, c, Cl(st, c)[k], settled, skipped)
      ensures HasTrue(t2, Cl(st, c), stale, Level(t2, Cl(st, c)[k].v))
    {
      assert HasTrue(t, Cl(st, c), stale, Level(t, Cl(st, c)[k].v));
      var x :| (x in Cl(st, c) || x in stale) && Val(t, x) == True && Level(t, x.v) <= Level(t, Cl(st, c)[k].v);
      assert Val(t2, x) == True && Level(t2, x.v) == Level(t, x.v);
    }
  }

  /** Clause `c` forces `l`: all its other literals are false, one of them on the current level. */
  ghost predicate Forces(t: Trail, st: Store, c: CRef, l: Lit) {
    && |Cl(st, c)| >= 2 && (Cl(st, c)[0] == l || Cl(st, c)[1] == l)
    && (forall x :: x in Cl(st, c) && x != l ==> Val(t, x) == False)
    && (exists x :: x in Cl(st, c) && x != l && Level(t, x.v) == CurLevel(t))
  }

  lemma PushForced(t: Trail, l: Lit, c: CRef, st: Store, reg: set<CRef>, watched: set<CRef>,
                   settled: set<Lit>, skipped: set<Lit>, stale: set<Lit>)
    requires TrailOk(t) && ReasonsOk(t, st, reg) && SettledOk(t, settled, skipped)
    requires WatchesComplete(t, st, watched, settled, skipped, stale)
    requires l.v < VarCount(t) && Val(t, l) == Indet && c in reg && Forces(t, st, c, l)
    ensures
      var t2 := Push(t, l, Some(c));
      TrailOk(t2) && Extends(t, t2) && ReasonsOk(t2, st, reg) && SettledOk(t2, settled, skipped) &&
      WatchesComplete(t2, st, watched, settled, skipped, stale) && HasTrue(t2, Cl(st, c), stale, CurLevel(t2))
  {
    var t2 := Push(t, l, Some(c));
    PushFacts(t, l, Some(c));
    ReasonsStay(t, l, Some(c), st, reg);
    assert t2.lits[|t.lits|] == l;
    assert Extends(t, t2);
    assert ReasonFits(t2, st, reg, |t.lits|, c) by {
      forall x | x in Cl(st, c) && x != l ensures FalseBefore(t2, x, |t.lits|) {
        LevelOfPos(t, x, 0);
        var p := if Val(t, x) == True then x else Neg(x);
        assert Val(t, p) == True;
      }
      var x :| x in Cl(st, c) && x != l && Level(t, x.v) == CurLevel(t);
      assert Val(t, x) == False;
      assert Level(t2, x.v) == Level(t2, l.v);
    }
    WatchesStayComplete(t, t2, st, watched, settled, skipped, stale);
    assert l in Cl(st, c) && Val(t2, l) == True;
  }

  lemma HandledStays(t: Trail, t2: Trail, st: Store, stale: set<Lit>, ws: seq<Watcher>, i: nat, exclude: bool)
    requires Extends(t, t2) && Handled(t, st, stale, ws, i, exclude)
    ensures Handled(t2, st, stale, ws, i, exclude)
  {
  }

  // ---- watching another literal ----------------------------------------------------

  function SwapIn(st: Store, c: CRef, i: nat, j: nat): Store
    requires c < |st.lits| && i < |st.lits[c]| && j < |st.lits[c]|
  {
    st.(lits := st.lits[c := Swap(st.lits[c], i, j)])
  }

  /** A clause whose first two literals are not true is no reason. */
  lemma SwapKeepsReasons(t: Trail, st: Store, reg: set<CRef>, c: CRef, k: nat, j: nat)
    requires TrailOk(t) && ReasonsOk(t, st, reg) && c < |st.lits| && k < 2 <= j < |Cl(st, c)|
    requires Val(t, Cl(st, c)[k]) != True && Val(t, Cl(st, c)[1 - k]) != True
    ensures ReasonsOk(t, SwapIn(st, c, k, j), reg)
  {
    var st2 := SwapIn(st, c, k, j);
    forall i | 0 <= i < |t.lits| && Reason(t, t.lits[i].v).Some?
      ensures ReasonFits(t, st2, reg, i, Reason(t, t.lits[i].v).value)
    {
      var d := Reason(t, t.lits[i].v).value;
      assert ReasonFits(t, st, reg, i, d);
      assert Val(t, t.lits[i]) == True;
      assert d != c;
    }
  }

  lemma SwapInFacts(t: Trail, st: Store, reg: set<CRef>, c: CRef, k: nat, j: nat, settled: set<Lit>,
                    skipped: set<Lit>, stale: set<Lit>)
    requires TrailOk(t) && ClausesOk(st, reg, VarCount(t)) && ReasonsOk(t, st, reg) && SettledOk(t, settled, skipped)
    requires WatchesComplete(t, st, reg, settled, skipped, stale)
    requires c in reg && c < |st.lits| && k < 2 <= j < |Cl(st, c)|
    requires Val(t, Cl(st, c)[k]) == False && Val(t, Cl(st, c)[1 - k]) != True && Val(t, Cl(st, c)[j]) != False
    ensures
      var st2 := SwapIn(st, c, k, j);
      Permuted(st, st2) && ClausesOk(st2, reg, VarCount(t)) && ReasonsOk(t, st2, reg) &&
      WatchesComplete(t, st2, reg, settled, skipped, stale) && OnlyMoves(st, st2, c, k)
  {
    var st2 := SwapIn(st, c, k, j);
    SwapFacts(Cl(st, c), k, j);
    SwapKeepsReasons(t, st, reg, c, k, j);
    forall d, h | d in reg && 0 <= h < 2 && h < |Cl(st2, d)| && Visited(st2, d, Cl(st2, d)[h], settled, skipped)
      ensures HasTrue(t, Cl(st2, d), stale, Level(t, Cl(st2, d)[h].v))
    {
      assert d == c ==> h != k;
      assert Cl(st2, d)[h] == Cl(st, d)[h];
      assert Visited(st, d, Cl(st, d)[h], settled, skipped);
      var x :| (x in Cl(st, d) || x in stale) && Val(t, x) == True && Level(t, x.v) <= Level(t, Cl(st, d)[h].v);
      assert x in Cl(st2, d) || x in stale;
    }
  }

  lemma HandledSwap(t: Trail, st: Store, st2: Store, stale: set<Lit>, ws: seq<Watcher>, i: nat, exclude: bool)
    requires Permuted(st, st2) && Handled(t, st, stale, ws, i, exclude) && i < |ws|
    ensures Handled(t, st2, stale, RemoveAt(ws, i), i, exclude)
  {
  }

  lemma HandledPermuted(t: Trail, st: Store, st2: Store, stale: set<Lit>, ws: seq<Watcher>, i: nat, exclude: bool)
    requires Permuted(st, st2) && Handled(t, st, stale, ws, i, exclude)
    ensures Handled(t, st2, stale, ws, i, exclude)
  {
  }

  // ---- finishing a literal ---------------------------------------------------------

  /** All watchers of the falsified literal `l` have been handled. */
  lemma FinishLiteral(t: Trail, st: Store, reg: set<CRef>, stale: set<Lit>, wt: Watches, settled: set<Lit>,
                      skipped: set<Lit>, l: Lit, exclude: bool)
    requires TrailOk(t) && ListsOk(st, reg, stale, wt) && wt.dirty == [] && SettledOk(t, settled, skipped)
    requires WatchesComplete(t, st, reg, settled, skipped, stale)
    requires Val(t, l) == False && Level(t, l.v) == CurLevel(t)
    requires Handled(t, st, stale, At(wt.long, l), |At(wt.long, l)|, exclude)
    requires Handled(t, st, stale, At(wt.binary, l), |At(wt.binary, l)|, false)
    requires !exclude ==> l !in skipped
    ensures SettledOk(t, settled + {l}, if exclude then skipped + {l} else skipped)
    ensures WatchesComplete(t, st, reg, settled + {l}, if exclude then skipped + {l} else skipped, stale)
  {
    var skipped' := if exclude then skipped + {l} else skipped;
    forall c, k | c in reg && 0 <= k < 2 && k < |Cl(st, c)| && Visited(st, c, Cl(st, c)[k], settled + {l}, skipped')
      ensures HasTrue(t, Cl(st, c), stale, Level(t, Cl(st, c)[k].v))
    {
      if Cl(st, c)[k] == l {
        CleanLists(st, reg, stale, wt, c, k);
        if |Cl(st, c)| > 2 {
          var i :| 0 <= i < |At(wt.long, l)| && At(wt.long, l)[i].c == c && At(wt.long, l)[i].k == k;
          assert LongOk(st, reg, stale, wt.dirty, l, At(wt.long, l)[i]);
        } else {
          var i :| 0 <= i < |At(wt.binary, l)| && At(wt.binary, l)[i].c == c && At(wt.binary, l)[i].k == k;
        }
      } else {
        assert Visited(st, c, Cl(st, c)[k], settled, skipped);
      }
    }
  }
}
