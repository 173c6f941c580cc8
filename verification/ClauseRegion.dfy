// Clauses in memory: they are placed one behind the other, and the place of the next clause is computed from the initial
// size of the one before it, which is hidden behind the literals of clauses which have been shortened.

module ClauseRegions {
  import opened Literals

  /** The cells in front of the literals of a clause: its size, and whether it has been resized. */
  const HEADER: nat := 2

  function AllocationSize(size: nat): nat {
    HEADER + size
  }

  /** The raw value of the positive literal of a variable. */
  function RawPositive(v: nat): nat {
    Raw(Lit(v, true))
  }

  function RawVariable(raw: nat): nat {
    raw / 2
  }

  // ---- the layout ------------------------------------------------------------------

  /** Where clause number `i` begins if the clauses have the given initial sizes. */
  function Offset(sizes: seq<nat>, i: nat): nat
    requires i <= |sizes|
  {
    if i == 0 then 0 else Offset(sizes, i - 1) + AllocationSize(sizes[i - 1])
  }

  lemma {:induction false} OffsetGrows(sizes: seq<nat>, i: nat, j: nat)
    requires i < j <= |sizes|
    ensures Offset(sizes, i) + AllocationSize(sizes[i]) <= Offset(sizes, j)
  {
    if i < j - 1 {
      OffsetGrows(sizes, i, j - 1);
    }
  }

  lemma {:induction false} OffsetOfMore(sizes: seq<nat>, n: nat, i: nat)
    requires i <= |sizes|
    ensures Offset(sizes + [n], i) == Offset(sizes, i)
  {
    if i > 0 {
      OffsetOfMore(sizes, n, i - 1);
    }
  }

  lemma OffsetNext(sizes: seq<nat>, i: nat)
    requires i < |sizes|
    ensures Offset(sizes, i + 1) == Offset(sizes, i) + AllocationSize(sizes[i])
  {
  }

  /** At `p`, there is a clause which has been allocated with `n` literals. */
  ghost predicate ClauseAt(m: seq<nat>, p: nat, n: nat) {
    && p + AllocationSize(n) <= |m| && m[p] <= n
    && if m[p + 1] == 0 then m[p] == n else m[p] < n && m[p + HEADER + m[p]] == RawPositive(n)
  }

  /** The current literals (as raw values) of the clause at `p`. */
  function RawLits(m: seq<nat>, p: nat): seq<nat> {
    if p < |m| && p + HEADER + m[p] <= |m| then m[p + HEADER..p + HEADER + m[p]] else []
  }

  /** The memory consists of clauses with the given initial sizes. */
  ghost predicate Layout(m: seq<nat>, sizes: seq<nat>) {
    forall i :: 0 <= i < |sizes| ==> sizes[i] >= 1 && ClauseAt(m, Offset(sizes, i), sizes[i])
  }

  /** The memory has only changed within the clause with number `i`. */
  ghost predicate OnlyClause(m: seq<nat>, m2: seq<nat>, sizes: seq<nat>, i: nat)
    requires i < |sizes|
  {
    && |m2| == |m|
    && forall k :: 0 <= k < |m| && !(Offset(sizes, i) <= k < Offset(sizes, i) + AllocationSize(sizes[i])) ==> m2[k] == m[k]
  }

  /** Changing one clause changes no other. */
  lemma OthersUnchanged(m: seq<nat>, m2: seq<nat>, sizes: seq<nat>, i: nat, j: nat)
    requires i < |sizes| && j < |sizes| && i != j && OnlyClause(m, m2, sizes, i)
    requires ClauseAt(m, Offset(sizes, j), sizes[j])
    ensures ClauseAt(m2, Offset(sizes, j), sizes[j])
    ensures RawLits(m2, Offset(sizes, j)) == RawLits(m, Offset(sizes, j))
  {
    hide Offset;
    var p, q := Offset(sizes, i), Offset(sizes, j);
    if i < j {
      OffsetGrows(sizes, i, j);
    } else {
      OffsetGrows(sizes, j, i);
    }
    assert forall k :: q <= k < q + AllocationSize(sizes[j]) ==> m2[k] == m[k];
  }

  /** Changing one clause keeps the layout and all other clauses. */
  lemma LayoutUpdated(m: seq<nat>, m2: seq<nat>, sizes: seq<nat>, i: nat)
    requires Layout(m, sizes) && i < |sizes| && OnlyClause(m, m2, sizes, i) && ClauseAt(m2, Offset(sizes, i), sizes[i])
    ensures Layout(m2, sizes)
    ensures forall j :: 0 <= j < |sizes| && j != i ==> RawLits(m2, Offset(sizes, j)) == RawLits(m, Offset(sizes, j))
  {
    hide ClauseAt, RawLits, Offset, OnlyClause;
    forall j | 0 <= j < |sizes| && j != i
      ensures ClauseAt(m2, Offset(sizes, j), sizes[j])
      ensures RawLits(m2, Offset(sizes, j)) == RawLits(m, Offset(sizes, j))
    {
      OthersUnchanged(m, m2, sizes, i, j);
    }
  }

  /** A clause is placed behind all others. */
  lemma LayoutOfMore(m: seq<nat>, m2: seq<nat>, sizes: seq<nat>, n: nat)
    requires Layout(m, sizes) && |m2| == |m| && Offset(sizes, |sizes|) + AllocationSize(n) <= |m| && n >= 1
    requires forall k :: 0 <= k < Offset(sizes, |sizes|) ==> m2[k] == m[k]
    requires m2[Offset(sizes, |sizes|)] == n && m2[Offset(sizes, |sizes|) + 1] == 0
    ensures Layout(m2, sizes + [n])
    ensures Offset(sizes + [n], |sizes|) == Offset(sizes, |sizes|)
    ensures Offset(sizes + [n], |sizes| + 1) == Offset(sizes, |sizes|) + AllocationSize(n)
    ensures |RawLits(m2, Offset(sizes, |sizes|))| == n && ClauseAt(m2, Offset(sizes, |sizes|), n)
    ensures forall j :: 0 <= j < |sizes| ==>
              && ClauseAt(m2, Offset(sizes, j), sizes[j]) && ClauseAt(m, Offset(sizes, j), sizes[j])
              && Offset(sizes + [n], j) == Offset(sizes, j)
              && RawLits(m2, Offset(sizes, j)) == RawLits(m, Offset(sizes, j))
  {
    hide Offset, ClauseAt, RawLits;
    NewClause(m2, Offset(sizes, |sizes|), n);
    forall j | 0 <= j < |sizes|
      ensures
        && ClauseAt(m2, Offset(sizes, j), sizes[j]) && ClauseAt(m, Offset(sizes, j), sizes[j])
        && Offset(sizes + [n], j) == Offset(sizes, j)
        && RawLits(m2, Offset(sizes, j)) == RawLits(m, Offset(sizes, j))
    {
      OffsetOfMore(sizes, n, j);
      OffsetGrows(sizes, j, |sizes|);
      PrefixClause(m, m2, Offset(sizes, j), sizes[j], Offset(sizes, |sizes|));
    }
    OffsetOfMore(sizes, n, |sizes|);
    OffsetNext(sizes + [n], |sizes|);
  }

  lemma NewClause(m: seq<nat>, p: nat, n: nat)
    requires p + AllocationSize(n) <= |m| && m[p] == n && m[p + 1] == 0
    ensures ClauseAt(m, p, n) && |RawLits(m, p)| == n
  {
  }

  lemma PrefixClause(m: seq<nat>, m2: seq<nat>, p: nat, n: nat, end: nat)
    requires ClauseAt(m, p, n) && p + AllocationSize(n) <= end <= |m| == |m2|
    requires forall k :: 0 <= k < end ==> m2[k] == m[k]
    ensures ClauseAt(m2, p, n) && RawLits(m2, p) == RawLits(m, p)
  {
  }

  class Region {
    const memory: array<nat>
    var nextFreeCell: nat

    // The initial sizes of the clauses in this region.
    ghost var sizes: seq<nat>

    ghost predicate Valid()
      reads this, memory
    {
      && Layout(memory[..], sizes)
      && nextFreeCell == Offset(sizes, |sizes|) <= memory.Length
    }

    /** The literals of clause number `i`. */
    ghost function LitsOf(i: nat): seq<nat>
      requires Valid() && i < |sizes|
      reads this, memory
    {
      RawLits(memory[..], Offset(sizes, i))
    }

    /** Clause number `i` begins at cell `p`. */
    ghost predicate IsClause(i: nat, p: nat)
      requires Valid()
      reads this, memory
    {
      i < |sizes| && p == Offset(sizes, i)
    }

    constructor (size: nat)
      ensures Valid() && sizes == [] && fresh(memory) && memory.Length == size
    {
      memory := new nat[size];
      nextFreeCell, sizes := 0, [];
    }

    function GetUsedSize(): (used: nat)
      requires Valid()
      reads this, memory
      ensures used == 0 <==> sizes == []
    {
      assert sizes != [] ==> Offset(sizes, |sizes|) > 0;
      nextFreeCell
    }

    lemma ClauseBounds(i: nat, p: nat)
      requires Valid() && IsClause(i, p)
      ensures p + AllocationSize(sizes[i]) <= nextFreeCell && sizes[i] >= 1 && ClauseAt(memory[..], p, sizes[i])
      ensures p + AllocationSize(sizes[i]) == if i + 1 < |sizes| then Offset(sizes, i + 1) else nextFreeCell
    {
      hide Offset, ClauseAt;
      OffsetNext(sizes, i);
      OffsetGrows(sizes, i, |sizes|);
    }

    /** Allocates a clause behind all others. Fails if there is not enough space left. */
    method Allocate(numLiterals: nat) returns (clause: Option<nat>)
      requires Valid() && numLiterals >= 1
      modifies this, memory
      ensures Valid()
      ensures clause.None? <==> old(nextFreeCell) + AllocationSize(numLiterals) > memory.Length
      ensures clause.None? ==> sizes == old(sizes)
      ensures clause.Some? ==> sizes == old(sizes) + [numLiterals] && IsClause(|old(sizes)|, clause.value)
      ensures clause.Some? ==> |LitsOf(|old(sizes)|)| == numLiterals
      ensures forall j :: 0 <= j < |old(sizes)| ==> LitsOf(j) == old(LitsOf(j))
    {
      hide Offset, ClauseAt, RawLits;
      if memory.Length - nextFreeCell < AllocationSize(numLiterals) {
        return None;
      }
      var p := nextFreeCell;
      ghost var m, sizes0 := memory[..], sizes;
      nextFreeCell := nextFreeCell + AllocationSize(numLiterals);
      memory[p], memory[p + 1] := numLiterals, 0;
      LayoutOfMore(m, memory[..], sizes, numLiterals);
      sizes := sizes + [numLiterals];
      forall j | 0 <= j < |sizes0| ensures LitsOf(j) == old(LitsOf(j)) {
        assert ClauseAt(memory[..], Offset(sizes, j), sizes[j]);
      }
      clause := Some(p);
    }

    /** The initial size of the clause at `p`. */
    method InitialSize(p: nat, ghost i: nat) returns (size: nat)
      requires Valid() && IsClause(i, p)
      ensures size == sizes[i]
    {
      hide Layout, Offset;
      ClauseBounds(i, p);
      if memory[p + 1] == 0 {
        return memory[p];
      }
      var pastEnd := memory[p + HEADER + memory[p]];
      assert memory[..][p + HEADER + memory[p]] == pastEnd;
      size := RawVariable(pastEnd);
    }

    /** Shortens the clause at `p`, storing its initial size behind its literals. */
    method Resize(p: nat, newSize: nat, ghost i: nat)
      requires Valid() && IsClause(i, p) && newSize <= |LitsOf(i)|
      modifies memory
      ensures Valid() && LitsOf(i) == old(LitsOf(i))[..newSize]
      ensures forall j :: 0 <= j < |sizes| && j != i ==> LitsOf(j) == old(LitsOf(j))
    {
      hide Layout, Offset;
      ClauseBounds(i, p);
      if newSize == memory[p] {
        assert LitsOf(i)[..newSize] == LitsOf(i);
        return;
      }
      ghost var m := memory[..];
      var initSize := InitialSize(p, i);
      memory[p] := newSize;
      memory[p + HEADER + newSize] := RawPositive(initSize);
      memory[p + 1] := 1;
      ghost var m2 := memory[..];
      assert OnlyClause(m, m2, sizes, i) && ClauseAt(m2, p, sizes[i]);
      assert RawLits(m2, p) == RawLits(m, p)[..newSize];
      LayoutUpdated(m, m2, sizes, i);
    }

    /** Replaces the literal at index `k` by the last one and drops that. */
    method Erase(p: nat, k: nat, ghost i: nat)
      requires Valid() && IsClause(i, p) && k < |LitsOf(i)|
      modifies memory
      ensures Valid()
      ensures
        var lits := old(LitsOf(i));
        LitsOf(i) == lits[k := lits[|lits| - 1]][..|lits| - 1]
      ensures forall j :: 0 <= j < |sizes| && j != i ==> LitsOf(j) == old(LitsOf(j))
    {
      hide Layout, Offset;
      ClauseBounds(i, p);
      ghost var m, lits := memory[..], LitsOf(i);
      var last := memory[p] - 1;
      memory[p + HEADER + k] := memory[p + HEADER + last];
      ghost var m2 := memory[..];
      assert m2[p] == m[p] && m2[p + 1] == m[p + 1];
      assert OnlyClause(m, m2, sizes, i) && ClauseAt(m2, p, sizes[i]);
      assert RawLits(m2, p) == lits[k := lits[|lits| - 1]];
      LayoutUpdated(m, m2, sizes, i);
      Resize(p, last, i);
    }

    method GetFirstClause() returns (clause: Option<nat>)
      requires Valid()
      ensures clause == if sizes == [] then None else Some(Offset(sizes, 0))
    {
      if GetUsedSize() == 0 {
        return None;
      }
      clause := Some(0);
    }

    /** The clause behind the one at `p`. */
    method GetNextClause(p: nat, ghost i: nat) returns (clause: Option<nat>)
      requires Valid() && IsClause(i, p)
      ensures clause == if i + 1 < |sizes| then Some(Offset(sizes, i + 1)) else None
    {
      hide Layout, Offset, ClauseAt;
      ClauseBounds(i, p);
      var initialSize := InitialSize(p, i);
      if p == nextFreeCell - AllocationSize(initialSize) {
        if i + 1 < |sizes| {
          OffsetGrows(sizes, i + 1, |sizes|);
        }
        return None;
      }
      clause := Some(p + AllocationSize(initialSize));
    }

    /** Visits all clauses from the first to the last: exactly those which have been allocated, in order. */
    method Walk() returns (visited: seq<nat>)
      requires Valid()
      ensures |visited| == |sizes| && forall i :: 0 <= i < |sizes| ==> visited[i] == Offset(sizes, i)
    {
      hide Layout, Offset;
      visited := [];
      var current := GetFirstClause();
      while current.Some?
        invariant |visited| <= |sizes| && forall i :: 0 <= i < |visited| ==> visited[i] == Offset(sizes, i)
        invariant current == if |visited| < |sizes| then Some(Offset(sizes, |visited|)) else None
        decreases |sizes| - |visited|
      {
        ghost var i := |visited|;
        visited := visited + [current.value];
        current := GetNextClause(current.value, i);
      }
    }

    /** Drops all clauses. */
    method Clear()
      requires Valid()
      modifies this
      ensures Valid() && sizes == []
    {
      nextFreeCell, sizes := 0, [];
    }
  }
}
