// The clause database as the solver sees it: clauses with their flags, in order of creation.

module ClauseDatabase {
  import opened Literals
  import opened Trails
  import opened Watching
  import Storage = IterableClauseDBs

  /** The store after adding a clause. */
  function WithNew(st: Store, c: Clause, redundant: bool): Store {
    Store(st.lits + [c], st.redundant + [redundant], st.deleted + [false])
  }

  /** Those of the first `k` clauses which are not marked for deletion, in the same order. */
  function Surviving(st: Store, k: nat): Store
    requires StoreOk(st) && k <= |st.lits|
  {
    if k == 0 then Store([], [], [])
    else
      var s := Surviving(st, k - 1);
      if st.deleted[k - 1] then s else WithNew(s, st.lits[k - 1], st.redundant[k - 1])
  }

  /** Those of the first `k` elements whose clauses are not marked for deletion. */
  function Undeleted<T>(xs: seq<T>, deleted: seq<bool>, k: nat): seq<T>
    requires k <= |xs| && k <= |deleted|
  {
    if k == 0 then [] else Undeleted(xs, deleted, k - 1) + if deleted[k - 1] then [] else [xs[k - 1]]
  }

  // ---- the storage behind it ---------------------------------------------------------

  /** The store holding the given clauses. */
  function StoreOf(cs: seq<Storage.ClauseData>): Store {
    Store(seq(|cs|, i requires 0 <= i < |cs| => cs[i].lits), seq(|cs|, i requires 0 <= i < |cs| => cs[i].redundant),
          seq(|cs|, i requires 0 <= i < |cs| => cs[i].scheduledForDeletion))
  }

  function ModifiedOf(cs: seq<Storage.ClauseData>): seq<bool> {
    seq(|cs|, i requires 0 <= i < |cs| => cs[i].modified)
  }

  /** Creating a clause in the storage creates it in the store. */
  lemma CreateRefines(cs: seq<Storage.ClauseData>, c: Clause)
    ensures StoreOf(cs + [Storage.ClauseData(c, 0, false, false, false)]) == WithNew(StoreOf(cs), c, false)
    ensures ModifiedOf(cs + [Storage.ClauseData(c, 0, false, false, false)]) == ModifiedOf(cs) + [false]
  {
  }

  /** Compressing the storage compresses the store. */
  lemma {:induction false} CompressRefines(cs: seq<Storage.ClauseData>, k: nat)
    requires k <= |cs|
    ensures StoreOk(StoreOf(cs)) && Surviving(StoreOf(cs), k) == StoreOf(Storage.Remaining(cs[..k]))
    ensures Undeleted(ModifiedOf(cs), StoreOf(cs).deleted, k) == ModifiedOf(Storage.Remaining(cs[..k]))
  {
    if k > 0 {
      CompressRefines(cs, k - 1);
      assert cs[..k][..k - 1] == cs[..k - 1];
    }
  }

  ghost predicate IsLive(st: Store, c: CRef) {
    c < |st.lits| && !IsDeleted(st, c)
  }

  /** Clause `c` of `st` equals clause `d` of `st2`. */
  ghost predicate SameClause(st: Store, c: CRef, st2: Store, d: CRef) {
    Cl(st, c) == Cl(st2, d) && IsRedundant(st, c) == IsRedundant(st2, d)
  }

  /** Each clause which is left was a live clause before. */
  lemma {:induction false} SurvivingFrom(st: Store, k: nat, d: CRef)
    requires StoreOk(st) && k <= |st.lits|
    ensures StoreOk(Surviving(st, k)) && !IsDeleted(Surviving(st, k), d)
    ensures IsLive(Surviving(st, k), d) ==>
              exists c: CRef :: c < k && IsLive(st, c) && SameClause(st, c, Surviving(st, k), d)
  {
    if k > 0 {
      SurvivingFrom(st, k - 1, d);
      var s, s2 := Surviving(st, k - 1), Surviving(st, k);
      if d < |s.lits| {
        var c: CRef :| c < k - 1 && IsLive(st, c) && SameClause(st, c, s, d);
        assert SameClause(st, c, s2, d);
      } else if IsLive(s2, d) {
        assert SameClause(st, k - 1, s2, d) && IsLive(st, k - 1);
      }
    }
  }

  /** Each live clause is still there. */
  lemma {:induction false} SurvivingHas(st: Store, k: nat, c: CRef) returns (d: CRef)
    requires StoreOk(st) && k <= |st.lits| && c < k && IsLive(st, c)
    ensures StoreOk(Surviving(st, k)) && IsLive(Surviving(st, k), d) && SameClause(st, c, Surviving(st, k), d)
  {
    SurvivingFrom(st, k - 1, 0);
    if c < k - 1 {
      d := SurvivingHas(st, k - 1, c);
    } else {
      d := |Surviving(st, k - 1).lits|;
    }
  }

  /** Clauses are referenced by their index. The three flags are those of the clause class. */
  class ClauseDB {
    var lits: seq<Clause>
    var redundant: seq<bool>
    var deleted: seq<bool>
    var modified: seq<bool>

    ghost function S(): Store
      reads this
    {
      Store(lits, redundant, deleted)
    }

    ghost predicate Valid()
      reads this
    {
      |redundant| == |deleted| == |modified| == |lits|
    }

    constructor ()
      ensures Valid() && lits == []
    {
      lits, redundant, deleted, modified := [], [], [], [];
    }

    /** Drops all clauses marked for deletion. */
    method Compress()
      requires Valid()
      modifies this
      ensures Valid() && S() == Surviving(old(S()), |old(lits)|)
      ensures modified == Undeleted(old(modified), old(deleted), |old(modified)|)
    {
      var l, r, d, m := [], [], [], [];
      for c := 0 to |lits|
        invariant Store(l, r, d) == Surviving(S(), c) && m == Undeleted(modified, deleted, c)
        invariant |l| == |r| == |d| == |m|
      {
        if !deleted[c] {
          l, r, d, m := l + [lits[c]], r + [redundant[c]], d + [false], m + [modified[c]];
        }
      }
      lits, redundant, deleted, modified := l, r, d, m;
    }

    /** Adds a clause with the given literals and cleared flags. */
    method CreateClause(c: Clause) returns (r: CRef)
      requires Valid()
      modifies this
      ensures Valid() && r == |old(lits)|
      ensures lits == old(lits) + [c] && redundant == old(redundant) + [false]
      ensures deleted == old(deleted) + [false] && modified == old(modified) + [false]
      ensures S() == WithNew(old(S()), c, false)
    {
      r := |lits|;
      lits, redundant := lits + [c], redundant + [false];
      deleted, modified := deleted + [false], modified + [false];
    }
  }
}
