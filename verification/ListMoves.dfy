// How adding, moving and removing watchers affects the watch list invariants.

module ListMoves {
  import opened Literals
  import opened Trails
  import opened Watching

  function DropLong(wt: Watches, l: Lit, i: nat): Watches
    requires i < |At(wt.long, l)|
  {
    wt.(long := wt.long[l := RemoveAt(At(wt.long, l), i)])
  }

  function DropBinary(wt: Watches, l: Lit, i: nat): Watches
    requires i < |At(wt.binary, l)|
  {
    wt.(binary := wt.binary[l := RemoveAt(At(wt.binary, l), i)])
  }

  function AddLong(wt: Watches, l: Lit, w: Watcher): Watches {
    wt.(long := wt.long[l := At(wt.long, l) + [w]])
  }

  function AddBinary(wt: Watches, l: Lit, w: Watcher): Watches {
    wt.(binary := wt.binary[l := At(wt.binary, l) + [w]])
  }

  lemma AddDropCommute(wt: Watches, l: Lit, i: nat, m: Lit, w: Watcher)
    requires i < |At(wt.long, l)| && m != l
    ensures At(AddLong(wt, m, w).long, l) == At(wt.long, l)
    ensures DropLong(AddLong(wt, m, w), l, i) == AddLong(DropLong(wt, l, i), m, w)
  {
  }

  lemma AddLongSound(st: Store, reg: set<CRef>, stale: set<Lit>, wt: Watches, l: Lit, w: Watcher)
    requires ListsSound(st, reg, stale, wt) && LongOk(st, reg, stale, wt.dirty, l, w) && !Watched(wt, w.c, w.k)
    ensures ListsSound(st, reg, stale, AddLong(wt, l, w))
    ensures forall c, k :: Watched(AddLong(wt, l, w), c, k) <==> Watched(wt, c, k) || (c == w.c && k == w.k)
  {
    hide LongOk, BinaryOk;
    var ws := At(wt.long, l);
    var wt' := AddLong(wt, l, w);
    AppendFacts(ws, w);
    forall x ensures At(wt'.long, x) == if x == l then ws + [w] else At(wt.long, x) {}
    assert forall x, c, k :: Holds(At(wt'.long, x), c, k) <==>
                             Holds(At(wt.long, x), c, k) || (x == l && c == w.c && k == w.k);
    assert Holds(At(wt'.long, l), w.c, w.k);
  }

  lemma AddBinarySound(st: Store, reg: set<CRef>, stale: set<Lit>, wt: Watches, l: Lit, w: Watcher)
    requires ListsSound(st, reg, stale, wt) && BinaryOk(st, reg, wt.dirty, l, w) && !Watched(wt, w.c, w.k)
    ensures ListsSound(st, reg, stale, AddBinary(wt, l, w))
    ensures forall c, k :: Watched(AddBinary(wt, l, w), c, k) <==> Watched(wt, c, k) || (c == w.c && k == w.k)
  {
    hide LongOk, BinaryOk;
    var ws := At(wt.binary, l);
    var wt' := AddBinary(wt, l, w);
    AppendFacts(ws, w);
    forall x ensures At(wt'.binary, x) == if x == l then ws + [w] else At(wt.binary, x) {}
    assert forall x, c, k :: Holds(At(wt'.binary, x), c, k) <==>
                             Holds(At(wt.binary, x), c, k) || (x == l && c == w.c && k == w.k);
    assert Holds(At(wt'.binary, l), w.c, w.k);
  }

  lemma DropLongSound(st: Store, reg: set<CRef>, stale: set<Lit>, wt: Watches, l: Lit, i: nat)
    requires ListsSound(st, reg, stale, wt) && i < |At(wt.long, l)|
    ensures ListsSound(st, reg, stale, DropLong(wt, l, i))
    ensures forall c, k :: Watched(DropLong(wt, l, i), c, k) <==>
                           Watched(wt, c, k) && !(c == At(wt.long, l)[i].c && k == At(wt.long, l)[i].k)
  {
    hide LongOk, BinaryOk;
    var ws := At(wt.long, l);
    var wt' := DropLong(wt, l, i);
    RemoveAtFacts(ws, i);
    assert Holds(ws, ws[i].c, ws[i].k);
    forall x ensures At(wt'.long, x) == if x == l then RemoveAt(ws, i) else At(wt.long, x) {}
    assert forall x, c, k :: Holds(At(wt'.long, x), c, k) <==>
                             Holds(At(wt.long, x), c, k) && !(c == ws[i].c && k == ws[i].k);
  }

  lemma DropBinarySound(st: Store, reg: set<CRef>, stale: set<Lit>, wt: Watches, l: Lit, i: nat)
    requires ListsSound(st, reg, stale, wt) && i < |At(wt.binary, l)|
    ensures ListsSound(st, reg, stale, DropBinary(wt, l, i))
    ensures forall c, k :: Watched(wt, c, k) && c != At(wt.binary, l)[i].c ==> Watched(DropBinary(wt, l, i), c, k)
  {
    hide LongOk, BinaryOk;
    var ws := At(wt.binary, l);
    var wt' := DropBinary(wt, l, i);
    RemoveAtFacts(ws, i);
    forall x ensures At(wt'.binary, x) == if x == l then RemoveAt(ws, i) else At(wt.binary, x) {}
    assert forall x, c, k :: Holds(At(wt.binary, x), c, k) && c != ws[i].c ==> Holds(At(wt'.binary, x), c, k);
  }

  /** The lists are in order, except that the watcher for position `k` of `c` is missing. */
  ghost predicate ListsOkBut(st: Store, reg: set<CRef>, stale: set<Lit>, wt: Watches, c: CRef, k: nat) {
    && ListsSound(st, reg, stale, wt)
    && (forall d, j :: d in reg && 0 <= j < 2 ==> Watched(wt, d, j) || (d == c && j == k))
    && !Watched(wt, c, k)
  }

  lemma DropLongFacts(st: Store, reg: set<CRef>, stale: set<Lit>, wt: Watches, l: Lit, i: nat)
    requires ListsOk(st, reg, stale, wt) && i < |At(wt.long, l)|
    ensures ListsOkBut(st, reg, stale, DropLong(wt, l, i), At(wt.long, l)[i].c, At(wt.long, l)[i].k)
  {
    hide ListsSound, Watched;
    DropLongSound(st, reg, stale, wt, l, i);
  }

  lemma DropBinaryFacts(st: Store, reg: set<CRef>, stale: set<Lit>, wt: Watches, l: Lit, i: nat)
    requires ListsOk(st, reg, stale, wt) && i < |At(wt.binary, l)| && At(wt.binary, l)[i].c !in reg
    ensures ListsOk(st, reg, stale, DropBinary(wt, l, i))
  {
    hide ListsSound, Watched;
    DropBinarySound(st, reg, stale, wt, l, i);
  }

  lemma AddLongFacts(st: Store, reg: set<CRef>, stale: set<Lit>, wt: Watches, l: Lit, w: Watcher)
    requires ListsOkBut(st, reg, stale, wt, w.c, w.k) && LongOk(st, reg, stale, wt.dirty, l, w)
    ensures ListsOk(st, reg, stale, AddLong(wt, l, w))
  {
    hide ListsSound, LongOk, Watched;
    AddLongSound(st, reg, stale, wt, l, w);
  }

  lemma AddBinaryFacts(st: Store, reg: set<CRef>, stale: set<Lit>, wt: Watches, l: Lit, w: Watcher)
    requires ListsOkBut(st, reg, stale, wt, w.c, w.k) && BinaryOk(st, reg, wt.dirty, l, w)
    ensures ListsOk(st, reg, stale, AddBinary(wt, l, w))
  {
    hide ListsSound, BinaryOk, Watched;
    AddBinarySound(st, reg, stale, wt, l, w);
  }

  /** The only effect of the step from `st` to `st2` on the watchers concerns position `k` of `c`. */
  ghost predicate OnlyMoves(st: Store, st2: Store, c: CRef, k: nat) {
    && (forall d :: d != c ==> Cl(st2, d) == Cl(st, d))
    && |Cl(st2, c)| == |Cl(st, c)| && SameLits(Cl(st2, c), Cl(st, c))
    && (forall j :: 0 <= j < 2 && j != k && j < |Cl(st, c)| ==> Cl(st2, c)[j] == Cl(st, c)[j])
    && st2.redundant == st.redundant && st2.deleted == st.deleted
  }

  lemma MoveStore(st: Store, st2: Store, reg: set<CRef>, stale: set<Lit>, wt: Watches, c: CRef, k: nat)
    requires ListsOkBut(st, reg, stale, wt, c, k) && OnlyMoves(st, st2, c, k)
    requires c in reg && |Cl(st, c)| > 2
    ensures ListsOkBut(st2, reg, stale, wt, c, k)
  {
  }

  /** In lists without pending cleanup, each clause is in the lists of its first two literals. */
  lemma CleanLists(st: Store, reg: set<CRef>, stale: set<Lit>, wt: Watches, c: CRef, k: nat)
    requires ListsOk(st, reg, stale, wt) && wt.dirty == [] && c in reg && k < 2
    ensures |Cl(st, c)| >= 2
    ensures |Cl(st, c)| > 2 ==> Holds(At(wt.long, Cl(st, c)[k]), c, k)
    ensures |Cl(st, c)| == 2 ==> Holds(At(wt.binary, Cl(st, c)[k]), c, k)
  {
    assert Watched(wt, c, k);
    if l :| Holds(At(wt.long, l), c, k) {
      var i :| 0 <= i < |At(wt.long, l)| && At(wt.long, l)[i].c == c && At(wt.long, l)[i].k == k;
      assert LongOk(st, reg, stale, wt.dirty, l, At(wt.long, l)[i]);
    } else {
      var l :| Holds(At(wt.binary, l), c, k);
      var i :| 0 <= i < |At(wt.binary, l)| && At(wt.binary, l)[i].c == c && At(wt.binary, l)[i].k == k;
      assert BinaryOk(st, reg, wt.dirty, l, At(wt.binary, l)[i]);
    }
  }
}
