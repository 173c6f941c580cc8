// Clause snapshots, watch lists and the invariants tying them to the trail.

module Watching {
  import opened Literals
  import opened Trails

  /** A snapshot of the clause database: literals and flags of each clause. */
  datatype Store = Store(lits: seq<Clause>, redundant: seq<bool>, deleted: seq<bool>)

  function Cl(st: Store, c: CRef): Clause {
    if c < |st.lits| then st.lits[c] else []
  }

  function IsRedundant(st: Store, c: CRef): bool {
    c < |st.redundant| && st.redundant[c]
  }

  function IsDeleted(st: Store, c: CRef): bool {
    c < |st.deleted| && st.deleted[c]
  }

  /** A watcher: it watches the literal at position `k` (0 or 1) of clause `c`. */
  datatype Watcher = Watcher(c: CRef, blocker: Lit, k: nat, redundant: bool)

  type WatchLists = map<Lit, seq<Watcher>>

  function At(m: WatchLists, l: Lit): seq<Watcher> {
    if l in m then m[l] else []
  }

  /** Watch lists of long and binary clauses, and the literals whose lists need a cleanup. */
  datatype Watches = Watches(long: WatchLists, binary: WatchLists, dirty: seq<Lit>)

  // ---- clauses and reasons ---------------------------------------------------------

  ghost predicate StoreOk(st: Store) {
    |st.lits| == |st.redundant| == |st.deleted|
  }

  /** Every registered clause has two or more literals over distinct variables below `n`. */
  ghost predicate ClausesOk(st: Store, reg: set<CRef>, n: nat) {
    forall c :: c in reg ==>
      c < |st.lits| && |Cl(st, c)| >= 2 && DistinctVars(Cl(st, c)) && Bounded(Cl(st, c), n)
  }

  ghost predicate FalseBefore(t: Trail, x: Lit, i: nat) {
    Val(t, x) == False && Pos(t, x.v) < i
  }

  /** Clause `c` forced trail literal `i`: it is one of the first two literals, all other literals
      are false and earlier on the trail, and one of them is on the same level. */
  ghost predicate ReasonFits(t: Trail, st: Store, reg: set<CRef>, i: nat, c: CRef)
    requires i < |t.lits|
  {
    && c in reg && |Cl(st, c)| >= 2
    && (Cl(st, c)[0] == t.lits[i] || Cl(st, c)[1] == t.lits[i])
    && (forall x :: x in Cl(st, c) && x != t.lits[i] ==> FalseBefore(t, x, i))
    && (exists x :: x in Cl(st, c) && x != t.lits[i] && Level(t, x.v) == Level(t, t.lits[i].v))
  }

  ghost predicate ReasonsOk(t: Trail, st: Store, reg: set<CRef>) {
    forall i :: 0 <= i < |t.lits| && Reason(t, t.lits[i].v).Some? ==>
      ReasonFits(t, st, reg, i, Reason(t, t.lits[i].v).value)
  }

  // ---- watch completeness ----------------------------------------------------------

  /** Some literal of `c`, or some stale literal, is true and was assigned on `level` or below. */
  ghost predicate HasTrue(t: Trail, c: Clause, stale: set<Lit>, level: nat) {
    exists x :: (x in c || x in stale) && Val(t, x) == True && Level(t, x.v) <= level
  }

  /** The falsity of literal `l` has been propagated through clause `c`. */
  ghost predicate Visited(st: Store, c: CRef, l: Lit, settled: set<Lit>, skipped: set<Lit>) {
    l in settled && !(l in skipped && IsRedundant(st, c) && |Cl(st, c)| > 2)
  }

  /** Each watched literal whose falsity has been propagated is accompanied by a true literal
      which does not get unassigned earlier. */
  ghost predicate WatchesComplete(t: Trail, st: Store, reg: set<CRef>, settled: set<Lit>, skipped: set<Lit>,
                                  stale: set<Lit>)
  {
    forall c, k :: c in reg && 0 <= k < 2 && k < |Cl(st, c)| && Visited(st, c, Cl(st, c)[k], settled, skipped) ==>
      HasTrue(t, Cl(st, c), stale, Level(t, Cl(st, c)[k].v))
  }

  ghost predicate SettledOk(t: Trail, settled: set<Lit>, skipped: set<Lit>) {
    && (forall l :: l in settled ==> Val(t, l) == False)
    && skipped <= settled
  }

  // ---- watch lists -----------------------------------------------------------------

  ghost predicate Holds(ws: seq<Watcher>, c: CRef, k: nat) {
    exists i :: 0 <= i < |ws| && ws[i].c == c && ws[i].k == k
  }

  ghost predicate NoDup(ws: seq<Watcher>) {
    forall i, j :: 0 <= i < j < |ws| ==> ws[i].c != ws[j].c || ws[i].k != ws[j].k
  }

  /** Watcher `w` belongs into the long list of `l`. Lists marked dirty may also hold watchers of
      clauses which have been deleted, moved or shortened to two literals. */
  ghost predicate LongOk(st: Store, reg: set<CRef>, stale: set<Lit>, dirty: seq<Lit>, l: Lit, w: Watcher) {
    && w.k < 2
    && (if w.c in reg then
          && (w.blocker in Cl(st, w.c) || w.blocker in stale)
          && w.redundant == IsRedundant(st, w.c)
          && ((|Cl(st, w.c)| > 2 && Cl(st, w.c)[w.k] == l) || l in dirty)
        else IsDeleted(st, w.c) && l in dirty)
  }

  ghost predicate BinaryOk(st: Store, reg: set<CRef>, dirty: seq<Lit>, l: Lit, w: Watcher) {
    && w.k < 2
    && (if w.c in reg then |Cl(st, w.c)| == 2 && Cl(st, w.c)[w.k] == l && w.blocker == Cl(st, w.c)[1 - w.k]
        else IsDeleted(st, w.c) && l in dirty)
  }

  /** The watcher for position `k` of clause `c` is in some list. */
  ghost predicate Watched(wt: Watches, c: CRef, k: nat) {
    || (exists l :: Holds(At(wt.long, l), c, k))
    || (exists l :: Holds(At(wt.binary, l), c, k))
  }

  /** Each watcher is in a list it belongs to, and there is at most one for each position of a
      clause. */
  ghost predicate ListsSound(st: Store, reg: set<CRef>, stale: set<Lit>, wt: Watches) {
    && (forall c :: c in reg ==> !IsDeleted(st, c))
    && (forall l, i :: 0 <= i < |At(wt.long, l)| ==> LongOk(st, reg, stale, wt.dirty, l, At(wt.long, l)[i]))
    && (forall l, i :: 0 <= i < |At(wt.binary, l)| ==> BinaryOk(st, reg, wt.dirty, l, At(wt.binary, l)[i]))
    && (forall l :: NoDup(At(wt.long, l)) && NoDup(At(wt.binary, l)))
    && (forall l, m, c, k :: Holds(At(wt.long, l), c, k) && Holds(At(wt.long, m), c, k) ==> l == m)
    && (forall l, m, c, k :: Holds(At(wt.long, l), c, k) ==> !Holds(At(wt.binary, m), c, k))
  }

  /** Each registered clause is watched exactly once at position 0 and once at position 1. */
  ghost predicate ListsOk(st: Store, reg: set<CRef>, stale: set<Lit>, wt: Watches) {
    && ListsSound(st, reg, stale, wt)
    && (forall c, k :: c in reg && 0 <= k < 2 ==> Watched(wt, c, k))
  }

  function RemoveAt(ws: seq<Watcher>, i: nat): seq<Watcher>
    requires i < |ws|
  {
    ws[i := ws[|ws| - 1]][..|ws| - 1]
  }

  lemma RemoveAtFacts(ws: seq<Watcher>, i: nat)
    requires i < |ws| && NoDup(ws)
    ensures |RemoveAt(ws, i)| == |ws| - 1 && NoDup(RemoveAt(ws, i))
    ensures forall j :: 0 <= j < |ws| - 1 ==> RemoveAt(ws, i)[j] == if j == i then ws[|ws| - 1] else ws[j]
    ensures forall c, k :: Holds(RemoveAt(ws, i), c, k) <==> Holds(ws, c, k) && !(c == ws[i].c && k == ws[i].k)
  {
  }

  lemma AppendFacts(ws: seq<Watcher>, w: Watcher)
    requires NoDup(ws) && !Holds(ws, w.c, w.k)
    ensures NoDup(ws + [w])
    ensures forall c, k :: Holds(ws + [w], c, k) <==> Holds(ws, c, k) || (c == w.c && k == w.k)
  {
    var us := ws + [w];
    forall c, k
      ensures Holds(us, c, k) <==> Holds(ws, c, k) || (c == w.c && k == w.k)
    {
      if Holds(ws, c, k) {
        var j :| 0 <= j < |ws| && ws[j].c == c && ws[j].k == k;
        assert us[j] == ws[j];
      }
      assert us[|ws|] == w;
    }
  }
}
