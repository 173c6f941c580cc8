// Bringing watch lists up to date after clauses have been deleted, shortened or rearranged.

module Cleanup {
  import opened Literals
  import opened Trails
  import opened Watching
  import opened ListMoves

  /**
   * The lists of `l` are being cleaned up: the first `i` watchers of the long list and the first
   * `b` of the binary list are in order. The lists of `rest` still need a cleanup.
   */
  ghost predicate Cleaning(st: Store, reg: set<CRef>, stale: set<Lit>, wt: Watches, l: Lit, rest: seq<Lit>,
                           i: nat, b: nat)
  {
    && ListsOk(st, reg, stale, wt.(dirty := [l] + rest))
    && (forall j :: 0 <= j < i && j < |At(wt.long, l)| ==> LongOk(st, reg, stale, rest, l, At(wt.long, l)[j]))
    && (forall j :: 0 <= j < b && j < |At(wt.binary, l)| ==> BinaryOk(st, reg, rest, l, At(wt.binary, l)[j]))
  }

  lemma StartCleaning(st: Store, reg: set<CRef>, stale: set<Lit>, wt: Watches, l: Lit, rest: seq<Lit>)
    requires ListsOk(st, reg, stale, wt.(dirty := [l] + rest))
    ensures Cleaning(st, reg, stale, wt, l, rest, 0, 0)
  {
  }

  /** What the watcher at the cursor of the long list may look like. */
  lemma WatcherToClean(st: Store, reg: set<CRef>, stale: set<Lit>, wt: Watches, l: Lit, rest: seq<Lit>, i: nat,
                       n: nat)
    requires Cleaning(st, reg, stale, wt, l, rest, i, 0) && i < |At(wt.long, l)|
    requires StoreOk(st) && ClausesOk(st, reg, n)
    ensures
      var w := At(wt.long, l)[i];
      && w.k < 2
      && (IsDeleted(st, w.c) <==> w.c !in reg)
      && (w.c in reg ==> w.c < |st.lits| && w.c < |st.redundant| && |Cl(st, w.c)| >= 2)
      && (w.c in reg && |Cl(st, w.c)| != 2 && Cl(st, w.c)[w.k] == l ==> Cleaning(st, reg, stale, wt, l, rest, i + 1, 0))
  {
  }

  lemma CleanDrop(st: Store, reg: set<CRef>, stale: set<Lit>, wt: Watches, l: Lit, rest: seq<Lit>, i: nat)
    requires Cleaning(st, reg, stale, wt, l, rest, i, 0) && i < |At(wt.long, l)| && At(wt.long, l)[i].c !in reg
    ensures Cleaning(st, reg, stale, DropLong(wt, l, i), l, rest, i, 0)
  {
    hide ListsSound, LongOk, BinaryOk;
    var wd := wt.(dirty := [l] + rest);
    DropLongFacts(st, reg, stale, wd, l, i);
    assert DropLong(wt, l, i).(dirty := [l] + rest) == DropLong(wd, l, i);
  }

  lemma CleanToBinary(st: Store, reg: set<CRef>, stale: set<Lit>, wt: Watches, l: Lit, rest: seq<Lit>, i: nat,
                      w: Watcher)
    requires Cleaning(st, reg, stale, wt, l, rest, i, 0) && i < |At(wt.long, l)|
    requires At(wt.long, l)[i].c in reg && At(wt.long, l)[i].k < 2 && |Cl(st, At(wt.long, l)[i].c)| == 2
    requires w.c == At(wt.long, l)[i].c && w.k == At(wt.long, l)[i].k && w.blocker == Cl(st, w.c)[1 - w.k]
    ensures Cleaning(st, reg, stale, DropLong(AddBinary(wt, Cl(st, w.c)[w.k], w), l, i), l, rest, i, 0)
  {
    var wd := wt.(dirty := [l] + rest);
    var m := Cl(st, w.c)[w.k];
    assert BinaryOk(st, reg, [l] + rest, m, w);
    hide ListsSound, LongOk, BinaryOk, ListsOkBut;
    DropLongFacts(st, reg, stale, wd, l, i);
    AddBinaryFacts(st, reg, stale, DropLong(wd, l, i), m, w);
    assert DropLong(AddBinary(wt, m, w), l, i).(dirty := [l] + rest) == AddBinary(DropLong(wd, l, i), m, w);
  }

  lemma AddDropPrefix(wt: Watches, l: Lit, i: nat, m: Lit, w: Watcher)
    requires i < |At(wt.long, l)| && m != l
    ensures At(AddLong(DropLong(wt, l, i), m, w).long, l) == RemoveAt(At(wt.long, l), i)
    ensures AddLong(DropLong(wt, l, i), m, w).binary == wt.binary
  {
  }

  lemma CleanMove(st: Store, reg: set<CRef>, stale: set<Lit>, wt: Watches, l: Lit, rest: seq<Lit>, i: nat, w: Watcher)
    requires Cleaning(st, reg, stale, wt, l, rest, i, 0) && i < |At(wt.long, l)|
    requires At(wt.long, l)[i].c in reg && At(wt.long, l)[i].k < 2 && |Cl(st, At(wt.long, l)[i].c)| > 2
    requires w.c == At(wt.long, l)[i].c && w.k == At(wt.long, l)[i].k && w.blocker == Cl(st, w.c)[1 - w.k]
    requires w.redundant == IsRedundant(st, w.c) && Cl(st, w.c)[w.k] != l
    ensures At(AddLong(wt, Cl(st, w.c)[w.k], w).long, l) == At(wt.long, l)
    ensures Cleaning(st, reg, stale, DropLong(AddLong(wt, Cl(st, w.c)[w.k], w), l, i), l, rest, i, 0)
  {
    var wd := wt.(dirty := [l] + rest);
    var m := Cl(st, w.c)[w.k];
    assert LongOk(st, reg, stale, [l] + rest, m, w);
    hide ListsSound, LongOk, BinaryOk, ListsOkBut;
    DropLongFacts(st, reg, stale, wd, l, i);
    AddLongFacts(st, reg, stale, DropLong(wd, l, i), m, w);
    AddDropCommute(wt, l, i, m, w);
    assert AddLong(DropLong(wt, l, i), m, w).(dirty := [l] + rest) == AddLong(DropLong(wd, l, i), m, w);
    AddDropPrefix(wt, l, i, m, w);
  }

  lemma CleanBinaryDrop(st: Store, reg: set<CRef>, stale: set<Lit>, wt: Watches, l: Lit, rest: seq<Lit>, b: nat)
    requires Cleaning(st, reg, stale, wt, l, rest, |At(wt.long, l)|, b) && b < |At(wt.binary, l)|
    ensures
      var c := At(wt.binary, l)[b].c;
      && (IsDeleted(st, c) <==> c !in reg)
      && (c !in reg ==>
            Cleaning(st, reg, stale, DropBinary(wt, l, b), l, rest, |At(wt.long, l)|, b))
      && (c in reg ==> Cleaning(st, reg, stale, wt, l, rest, |At(wt.long, l)|, b + 1))
  {
    var wd := wt.(dirty := [l] + rest);
    var c := At(wt.binary, l)[b].c;
    assert BinaryOk(st, reg, [l] + rest, l, At(wt.binary, l)[b]);
    if c !in reg {
      DropBinaryFacts(st, reg, stale, wd, l, b);
      assert DropBinary(wt, l, b).(dirty := [l] + rest) == DropBinary(wd, l, b);
    }
  }

  lemma FinishCleaning(st: Store, reg: set<CRef>, stale: set<Lit>, wt: Watches, l: Lit, rest: seq<Lit>)
    requires Cleaning(st, reg, stale, wt, l, rest, |At(wt.long, l)|, |At(wt.binary, l)|)
    ensures ListsOk(st, reg, stale, wt.(dirty := rest))
  {
    var wd := wt.(dirty := [l] + rest);
    forall x, i | 0 <= i < |At(wt.long, x)| ensures LongOk(st, reg, stale, rest, x, At(wt.long, x)[i]) {
      assert LongOk(st, reg, stale, wd.dirty, x, At(wd.long, x)[i]);
    }
    forall x, i | 0 <= i < |At(wt.binary, x)| ensures BinaryOk(st, reg, rest, x, At(wt.binary, x)[i]) {
      assert BinaryOk(st, reg, wd.dirty, x, At(wd.binary, x)[i]);
    }
    forall c, k | c in reg && 0 <= k < 2 ensures Watched(wt.(dirty := rest), c, k) {
      assert Watched(wd, c, k);
    }
  }
}
