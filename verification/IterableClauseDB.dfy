// The storage behind the clause database: clauses live in regions of fixed size, and compressing the database moves
// the remaining clauses together.

module IterableClauseDBs {
  import opened Literals

  /** What a clause holds, apart from its place in memory. */
  datatype ClauseData = ClauseData(lits: Clause, lbd: nat, redundant: bool, scheduledForDeletion: bool, modified: bool)

  /** A clause in a region. It occupies the space for its initial size, even if it has been shortened. */
  datatype Stored = Stored(data: ClauseData, initialSize: nat)

  /** A region: the clauses allocated in it, one behind the other. */
  type Region = seq<Stored>

  const HEADER_SIZE := 20

  /** The space taken up by a clause of the given size. */
  function AllocationSize(size: nat): nat {
    HEADER_SIZE + 4 * size
  }

  function UsedSize(r: Region): nat {
    if r == [] then 0 else UsedSize(r[..|r| - 1]) + AllocationSize(r[|r| - 1].initialSize)
  }

  /** All clauses, in the order of iteration. */
  function Flat(regions: seq<Region>): seq<ClauseData> {
    if regions == [] then [] else Flat(regions[..|regions| - 1]) + Datas(regions[|regions| - 1])
  }

  function Datas(r: Region): seq<ClauseData> {
    if r == [] then [] else Datas(r[..|r| - 1]) + [r[|r| - 1].data]
  }

  /** The clauses which are not scheduled for deletion, in the same order. */
  function Remaining(cs: seq<ClauseData>): seq<ClauseData> {
    if cs == [] then []
    else Remaining(cs[..|cs| - 1]) + if cs[|cs| - 1].scheduledForDeletion then [] else [cs[|cs| - 1]]
  }

  ghost predicate RegionOk(r: Region, regionSize: nat) {
    UsedSize(r) <= regionSize && forall c :: c in r ==> |c.data.lits| <= c.initialSize
  }

  ghost predicate AllOk(regions: seq<Region>, regionSize: nat) {
    forall r :: r in regions ==> RegionOk(r, regionSize)
  }

  ghost predicate AllEmpty(regions: seq<Region>) {
    forall k :: 0 <= k < |regions| ==> regions[k] == []
  }

  // ---- properties of the functions -------------------------------------------------

  lemma {:induction false} RemainingConcat(a: seq<ClauseData>, b: seq<ClauseData>)
    ensures Remaining(a + b) == Remaining(a) + Remaining(b)
  {
    if b == [] {
      assert a + b == a;
    } else {
      assert (a + b)[..|a + b| - 1] == a + b[..|b| - 1];
      RemainingConcat(a, b[..|b| - 1]);
    }
  }

  lemma {:induction false} FlatConcat(a: seq<Region>, b: seq<Region>)
    ensures Flat(a + b) == Flat(a) + Flat(b)
  {
    if b == [] {
      assert a + b == a;
    } else {
      assert (a + b)[..|a + b| - 1] == a + b[..|b| - 1];
      FlatConcat(a, b[..|b| - 1]);
    }
  }

  lemma FlatOne(r: Region)
    ensures Flat([r]) == Datas(r)
  {
  }

  lemma {:induction false} FlatEmpty(rs: seq<Region>)
    requires AllEmpty(rs)
    ensures Flat(rs) == []
  {
    if rs != [] {
      FlatEmpty(rs[..|rs| - 1]);
    }
  }

  lemma Nothing()
    ensures Flat([]) == [] && Datas([]) == [] && Remaining([]) == [] && UsedSize([]) == 0
  {
  }

  lemma AppendStored(r: Region, c: Stored)
    ensures UsedSize(r + [c]) == UsedSize(r) + AllocationSize(c.initialSize)
    ensures Datas(r + [c]) == Datas(r) + [c.data]
  {
  }

  /** A clause fits into the space which it and the clauses behind it take up. */
  lemma {:induction false} UsedSizePrefix(r: Region, j: nat)
    requires j < |r|
    ensures UsedSize(r[..j]) + AllocationSize(r[j].initialSize) <= UsedSize(r)
  {
    if j < |r| - 1 {
      UsedSizePrefix(r[..|r| - 1], j);
      assert r[..|r| - 1][..j] == r[..j];
    }
  }

  lemma RemainingStep(r: Region, j: nat)
    requires j < |r|
    ensures Remaining(Datas(r[..j + 1])) ==
            Remaining(Datas(r[..j])) + if r[j].data.scheduledForDeletion then [] else [r[j].data]
  {
    assert r[..j + 1] == r[..j] + [r[j]];
    AppendStored(r[..j], r[j]);
    var before := Datas(r[..j]);
    assert (before + [r[j].data])[..|before|] == before;
  }

  // ---- compressing -----------------------------------------------------------------

  /**
   * Region `idx` of the original regions `old0` is being read, up to clause `j`. The regions below `swapIn` have been
   * filled with remaining clauses, `spare` is being filled, the regions between are empty.
   */
  ghost predicate Compressing(old0: seq<Region>, regions: seq<Region>, spare: Region, swapIn: nat, idx: nat, j: nat,
                              regionSize: nat)
  {
    && AllOk(old0, regionSize) && |regions| == |old0| && idx < |old0| && j <= |old0[idx]| && swapIn <= idx
    && Flat(regions[..swapIn]) + Datas(spare) == Remaining(Flat(old0[..idx])) + Remaining(Datas(old0[idx][..j]))
    && (forall k :: swapIn <= k < idx ==> regions[k] == [])
    && (forall k :: idx <= k < |regions| ==> regions[k] == old0[k])
    && AllOk(regions, regionSize) && RegionOk(spare, regionSize)
    // The region being read is only replaced after all of its clauses have found a place.
    && (swapIn == idx ==> UsedSize(spare) <= UsedSize(old0[idx][..j]))
  }

  /** The clauses which have been moved are those which have been read and not deleted, none of them twice. */
  lemma SkipDeleted(old0: seq<Region>, regions: seq<Region>, spare: Region, swapIn: nat, idx: nat, j: nat, regionSize: nat)
    requires Compressing(old0, regions, spare, swapIn, idx, j, regionSize) && j < |old0[idx]|
    requires old0[idx][j].data.scheduledForDeletion
    ensures Compressing(old0, regions, spare, swapIn, idx, j + 1, regionSize)
  {
    hide Flat, Datas, Remaining, UsedSize, RegionOk;
    RemainingStep(old0[idx], j);
    assert old0[idx][..j + 1] == old0[idx][..j] + [old0[idx][j]];
    AppendStored(old0[idx][..j], old0[idx][j]);
  }

  /** A copy of clause `c`, which takes up no more space than necessary. */
  function CopyOf(c: Stored): Stored {
    Stored(c.data, |c.data.lits|)
  }

  lemma ClauseFits(old0: seq<Region>, regions: seq<Region>, spare: Region, swapIn: nat, idx: nat, j: nat, regionSize: nat)
    requires Compressing(old0, regions, spare, swapIn, idx, j, regionSize) && j < |old0[idx]|
    ensures AllocationSize(|old0[idx][j].data.lits|) <= AllocationSize(old0[idx][j].initialSize) <= regionSize
    ensures swapIn == idx ==> UsedSize(spare) + AllocationSize(|old0[idx][j].data.lits|) <= regionSize
  {
    assert old0[idx] in old0 && RegionOk(old0[idx], regionSize) && old0[idx][j] in old0[idx];
    UsedSizePrefix(old0[idx], j);
  }

  lemma CopyClause(old0: seq<Region>, regions: seq<Region>, spare: Region, swapIn: nat, idx: nat, j: nat, regionSize: nat)
    requires Compressing(old0, regions, spare, swapIn, idx, j, regionSize) && j < |old0[idx]|
    requires !old0[idx][j].data.scheduledForDeletion
    requires UsedSize(spare) + AllocationSize(|old0[idx][j].data.lits|) <= regionSize
    ensures Compressing(old0, regions, spare + [CopyOf(old0[idx][j])], swapIn, idx, j + 1, regionSize)
  {
    hide Flat, Datas, Remaining, UsedSize;
    ClauseFits(old0, regions, spare, swapIn, idx, j, regionSize);
    RemainingStep(old0[idx], j);
    assert old0[idx][..j + 1] == old0[idx][..j] + [old0[idx][j]];
    AppendStored(old0[idx][..j], old0[idx][j]);
    AppendStored(spare, CopyOf(old0[idx][j]));
    assert Flat(regions[..swapIn]) + Datas(spare + [CopyOf(old0[idx][j])]) ==
           (Flat(regions[..swapIn]) + Datas(spare)) + [old0[idx][j].data];
    assert RegionOk(spare + [CopyOf(old0[idx][j])], regionSize);
  }

  /** The full spare region takes the place of an empty one. */
  lemma SwapIn(old0: seq<Region>, regions: seq<Region>, spare: Region, swapIn: nat, idx: nat, j: nat, regionSize: nat)
    requires Compressing(old0, regions, spare, swapIn, idx, j, regionSize) && swapIn < idx
    ensures regions[swapIn] == []
    ensures Compressing(old0, regions[swapIn := spare], [], swapIn + 1, idx, j, regionSize)
  {
    var regions2 := regions[swapIn := spare];
    assert regions2[..swapIn + 1] == regions[..swapIn] + [spare];
    FlatConcat(regions[..swapIn], [spare]);
    FlatOne(spare);
    assert Flat(regions2[..swapIn + 1]) + Datas([]) == Flat(regions[..swapIn]) + Datas(spare);
  }

  /** All clauses of a region have been moved, and the next one follows. */
  lemma NextRegion(old0: seq<Region>, regions: seq<Region>, spare: Region, swapIn: nat, idx: nat, regionSize: nat)
    requires idx + 1 < |old0| && Compressing(old0, regions, spare, swapIn, idx, |old0[idx]|, regionSize)
    ensures Compressing(old0, regions[idx := []], spare, swapIn, idx + 1, 0, regionSize)
  {
    hide RegionOk, UsedSize, Datas, Flat, Remaining;
    var regions2 := regions[idx := []];
    assert old0[idx][..|old0[idx]|] == old0[idx] && old0[..idx + 1] == old0[..idx] + [old0[idx]];
    FlatConcat(old0[..idx], [old0[idx]]);
    FlatOne(old0[idx]);
    RemainingConcat(Flat(old0[..idx]), Datas(old0[idx]));
    assert regions2[..swapIn] == regions[..swapIn] && old0[idx + 1][..0] == [];
    Nothing();
    EmptyOk(regions, idx, regionSize);
  }

  lemma EmptyOk(regions: seq<Region>, idx: nat, regionSize: nat)
    requires AllOk(regions, regionSize) && idx < |regions|
    ensures AllOk(regions[idx := []], regionSize)
  {
  }

  lemma OneMoreOk(regions: seq<Region>, k: nat, r: Region, regionSize: nat)
    requires AllOk(regions, regionSize) && k < |regions| && RegionOk(r, regionSize)
    ensures AllOk(regions[k := r], regionSize)
  {
  }

  /** After the last region, the spare region is put in its place, and everything behind it is empty. */
  lemma LastRegion(old0: seq<Region>, regions: seq<Region>, spare: Region, swapIn: nat, idx: nat, regionSize: nat)
    requires idx + 1 == |old0| && Compressing(old0, regions, spare, swapIn, idx, |old0[idx]|, regionSize)
    ensures
      var regions2 := regions[idx := []];
      && swapIn < |regions2| && regions2[swapIn] == []
      && Flat(regions2[swapIn := spare]) == Remaining(Flat(old0)) && AllOk(regions2[swapIn := spare], regionSize)
      && (forall k :: swapIn < k < |regions2| ==> regions2[k] == [])
  {
    hide RegionOk, UsedSize, Datas, Flat, Remaining;
    var regions2 := regions[idx := []];
    var regions3 := regions2[swapIn := spare];
    assert old0[idx][..|old0[idx]|] == old0[idx] && old0 == old0[..idx] + [old0[idx]];
    FlatConcat(old0[..idx], [old0[idx]]);
    FlatOne(old0[idx]);
    RemainingConcat(Flat(old0[..idx]), Datas(old0[idx]));
    assert regions3 == (regions[..swapIn] + [spare]) + regions3[swapIn + 1..];
    FlatConcat(regions[..swapIn] + [spare], regions3[swapIn + 1..]);
    FlatConcat(regions[..swapIn], [spare]);
    FlatOne(spare);
    FlatEmpty(regions3[swapIn + 1..]);
    EmptyOk(regions, idx, regionSize);
    OneMoreOk(regions2, swapIn, spare, regionSize);
  }

  // ---- the database ----------------------------------------------------------------

  class IterableClauseDB {
    const regionSize: nat

    var activeRegions: seq<Region>
    var spareRegions: seq<Region>

    /** Spare regions are empty, and while there are clauses, one of them is left for compressing. */
    ghost predicate Valid()
      reads this
    {
      && AllOk(activeRegions, regionSize)
      && AllEmpty(spareRegions)
      && (activeRegions != [] ==> spareRegions != [])
    }

    /** The clauses in the order of iteration. */
    function Clauses(): seq<ClauseData>
      reads this
    {
      Flat(activeRegions)
    }

    constructor (regionSize: nat)
      ensures Valid() && Clauses() == [] && this.regionSize == regionSize
    {
      this.regionSize := regionSize;
      activeRegions, spareRegions := [], [];
    }

    method CreateActiveRegion()
      requires Valid()
      modifies this
      ensures Valid() && activeRegions == old(activeRegions) + [[]]
    {
      var i := |spareRegions|;
      while i <= 2
        invariant i >= |old(spareRegions)| && i == |spareRegions| && AllEmpty(spareRegions)
        invariant activeRegions == old(activeRegions)
        decreases 3 - i
      {
        spareRegions := spareRegions + [[]];
        i := i + 1;
      }
      activeRegions := activeRegions + [spareRegions[|spareRegions| - 1]];
      spareRegions := spareRegions[..|spareRegions| - 1];
    }

    /** Places a clause in the last region, if there is enough space. */
    method AllocateInLast(lits: Clause) returns (ok: bool)
      requires Valid() && activeRegions != []
      modifies this`activeRegions
      ensures Valid() && activeRegions != []
      ensures ok <==> UsedSize(old(activeRegions)[|old(activeRegions)| - 1]) + AllocationSize(|lits|) <= regionSize
      ensures Clauses() == old(Clauses()) + if ok then [ClauseData(lits, 0, false, false, false)] else []
      ensures !ok ==> activeRegions == old(activeRegions)
    {
      var last := |activeRegions| - 1;
      var region := activeRegions[last];
      assert RegionOk(region, regionSize);
      ok := regionSize - UsedSize(region) >= AllocationSize(|lits|);
      if ok {
        var c := Stored(ClauseData(lits, 0, false, false, false), |lits|);
        AppendStored(region, c);
        assert activeRegions[last := region + [c]][..last] == activeRegions[..last];
        activeRegions := activeRegions[last := region + [c]];
      }
    }

    /** Stores a new clause behind all others. Fails only if the clause is too large for any region. */
    method CreateClause(lits: Clause) returns (ok: bool)
      requires Valid()
      modifies this
      ensures Valid() && (ok <==> AllocationSize(|lits|) <= regionSize)
      ensures Clauses() == old(Clauses()) + if ok then [ClauseData(lits, 0, false, false, false)] else []
    {
      if AllocationSize(|lits|) > regionSize {
        return false;
      }
      if activeRegions == [] {
        CreateActiveRegion();
        FlatOne([]);
      }
      ok := AllocateInLast(lits);
      if !ok {
        ghost var before := activeRegions;
        CreateActiveRegion();
        FlatConcat(before, [[]]);
        FlatOne([]);
        ok := AllocateInLast(lits);
      }
    }

    /** Moves the clauses of region `idx` which are not scheduled for deletion. */
    method MoveClauses(ghost old0: seq<Region>, idx: nat, spare0: Region, swapIn0: nat) returns (spare: Region, swapIn: nat)
      requires Compressing(old0, activeRegions, spare0, swapIn0, idx, 0, regionSize)
      modifies this`activeRegions
      ensures Compressing(old0, activeRegions, spare, swapIn, idx, |old0[idx]|, regionSize)
    {
      hide Compressing, AllOk, RegionOk, Flat, UsedSize, Remaining, Datas;
      spare, swapIn := spare0, swapIn0;
      RegionAt(old0, activeRegions, spare, swapIn, idx, 0);
      var region := activeRegions[idx];
      for j := 0 to |region|
        invariant region == old0[idx] && Compressing(old0, activeRegions, spare, swapIn, idx, j, regionSize)
        invariant idx < |old0|
      {
        var c := region[j];
        RegionAt(old0, activeRegions, spare, swapIn, idx, j);
        if c.data.scheduledForDeletion {
          SkipDeleted(old0, activeRegions, spare, swapIn, idx, j, regionSize);
        } else {
          ClauseFits(old0, activeRegions, spare, swapIn, idx, j, regionSize);
          if regionSize - UsedSize(spare) < AllocationSize(|c.data.lits|) {
            // The spare region is full. The region at the swap-in index has been emptied before.
            SwapIn(old0, activeRegions, spare, swapIn, idx, j, regionSize);
            spare, activeRegions := activeRegions[swapIn], activeRegions[swapIn := spare];
            swapIn := swapIn + 1;
            NoneUsed();
          }
          CopyClause(old0, activeRegions, spare, swapIn, idx, j, regionSize);
          spare := spare + [CopyOf(c)];
        }
      }
    }

    lemma NoneUsed()
      ensures UsedSize([]) == 0
    {
    }

    lemma RegionAt(old0: seq<Region>, regions: seq<Region>, spare: Region, swapIn: nat, idx: nat, j: nat)
      requires Compressing(old0, regions, spare, swapIn, idx, j, regionSize)
      ensures idx < |old0| == |regions| && regions[idx] == old0[idx] && UsedSize(spare) <= regionSize && swapIn <= idx
    {
    }

    lemma StartCompressing(regions: seq<Region>)
      requires AllOk(regions, regionSize) && regions != []
      ensures Compressing(regions, regions, [], 0, 0, 0, regionSize)
    {
    }

    /** Removes the clauses scheduled for deletion. All others are kept, in the same order. */
    method Compress()
      requires Valid()
      modifies this
      ensures Valid() && Clauses() == Remaining(old(Clauses()))
      ensures (forall c :: c in Clauses() ==> !c.scheduledForDeletion)
    {
      hide Compressing, RegionOk, UsedSize, Datas, Flat, Remaining;
      if activeRegions == [] {
        NoClauses();
        return;
      }
      ghost var old0 := activeRegions;
      NoneDeleted(Flat(old0));
      var spare: Region := spareRegions[|spareRegions| - 1];
      spareRegions := spareRegions[..|spareRegions| - 1];
      var swapIn: nat := 0;
      StartCompressing(activeRegions);
      for idx := 0 to |activeRegions|
        invariant |activeRegions| == |old0| && AllEmpty(spareRegions)
        invariant idx < |old0| ==> Compressing(old0, activeRegions, spare, swapIn, idx, 0, regionSize)
        invariant idx == |old0| ==>
                    && swapIn < |old0| && activeRegions[swapIn] == []
                    && Flat(activeRegions[swapIn := spare]) == Remaining(Flat(old0))
                    && AllOk(activeRegions[swapIn := spare], regionSize)
      {
        spare, swapIn := MoveClauses(old0, idx, spare, swapIn);
        RegionAt(old0, activeRegions, spare, swapIn, idx, |old0[idx]|);
        if idx + 1 < |old0| {
          NextRegion(old0, activeRegions, spare, swapIn, idx, regionSize);
        } else {
          LastRegion(old0, activeRegions, spare, swapIn, idx, regionSize);
        }
        activeRegions := activeRegions[idx := []];
      }
      spare, activeRegions := activeRegions[swapIn], activeRegions[swapIn := spare];
      spareRegions := spareRegions + [spare];
      RetireRegions();
    }

    /** Collects empty regions at the end for reuse. */
    method RetireRegions()
      requires Valid() && activeRegions != []
      modifies this
      ensures Valid() && Clauses() == old(Clauses()) && activeRegions != []
      ensures |activeRegions| > 1 ==> UsedSize(activeRegions[|activeRegions| - 1]) != 0
    {
      while |activeRegions| > 1 && UsedSize(activeRegions[|activeRegions| - 1]) == 0
        invariant Valid() && Clauses() == old(Clauses()) && activeRegions != []
        decreases |activeRegions|
      {
        UnusedIsEmpty(activeRegions[|activeRegions| - 1]);
        spareRegions := spareRegions + [activeRegions[|activeRegions| - 1]];
        activeRegions := activeRegions[..|activeRegions| - 1];
      }
    }

    lemma UnusedIsEmpty(r: Region)
      requires UsedSize(r) == 0
      ensures r == []
    {
    }

    lemma NoClauses()
      ensures Flat([]) == [] && Remaining([]) == []
    {
    }
  }

  lemma {:induction false} NoneDeleted(cs: seq<ClauseData>)
    ensures forall c :: c in Remaining(cs) ==> !c.scheduledForDeletion
  {
    if cs != [] {
      NoneDeleted(cs[..|cs| - 1]);
    }
  }
}
