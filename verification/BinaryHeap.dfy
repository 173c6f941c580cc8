// An indexed binary heap: each element knows its place, so that its position can be updated.

module BinaryHeaps {
  import opened Trails

  function Parent(i: nat): nat {
    if i == 0 then 0 else (i - 1) / 2
  }

  /** The first `n` cells of the heap hold different elements, and `indices` tells where (or that it is nowhere: -1). */
  ghost predicate Indexed(heap: seq<nat>, indices: seq<int>, n: nat) {
    && n <= |heap| == |indices|
    && (forall i :: 0 <= i < n ==> heap[i] < |indices| && indices[heap[i]] == i)
    && (forall v :: 0 <= v < |indices| ==> -1 <= indices[v] < n && (indices[v] >= 0 ==> heap[indices[v]] == v))
  }

  ghost predicate InBounds(heap: seq<nat>, activity: seq<real>, n: nat) {
    n <= |heap| && forall i :: 0 <= i < n ==> heap[i] < |activity|
  }

  /** Element `i` is not greater than its parent. */
  ghost predicate BelowParent(heap: seq<nat>, activity: seq<real>, n: nat, i: nat)
    requires InBounds(heap, activity, n) && i < n
  {
    activity[heap[i]] <= activity[heap[Parent(i)]]
  }

  ghost predicate Ordered(heap: seq<nat>, activity: seq<real>, n: nat)
    requires InBounds(heap, activity, n)
  {
    forall i :: 0 <= i < n ==> BelowParent(heap, activity, n, i)
  }

  /** The children of `c` are not greater than the parent of `c`. */
  ghost predicate ChildrenFit(heap: seq<nat>, activity: seq<real>, n: nat, c: nat)
    requires InBounds(heap, activity, n) && c < n
  {
    forall i :: 0 < i < n && Parent(i) == c && c > 0 ==> activity[heap[i]] <= activity[heap[Parent(c)]]
  }

  /** The heap is ordered, but the element at `c` may be too great for its place. */
  ghost predicate OrderedButUp(heap: seq<nat>, activity: seq<real>, n: nat, c: nat)
    requires InBounds(heap, activity, n) && c < n
  {
    (forall i :: 0 <= i < n && i != c ==> BelowParent(heap, activity, n, i)) && ChildrenFit(heap, activity, n, c)
  }

  /** The heap is ordered, but the element at `c` may be too small for its place. */
  ghost predicate OrderedButDown(heap: seq<nat>, activity: seq<real>, n: nat, c: nat)
    requires InBounds(heap, activity, n) && c < n
  {
    (forall i :: 0 <= i < n && (i == 0 || Parent(i) != c) ==> BelowParent(heap, activity, n, i)) &&
    ChildrenFit(heap, activity, n, c)
  }

  function Exchange(heap: seq<nat>, i: nat, j: nat): seq<nat>
    requires i < |heap| && j < |heap|
  {
    heap[i := heap[j]][j := heap[i]]
  }

  function Reindex(heap: seq<nat>, indices: seq<int>, i: nat, j: nat): seq<int>
    requires i < |heap| && j < |heap| && heap[i] < |indices| && heap[j] < |indices|
  {
    indices[heap[j] := i][heap[i] := j]
  }

  /** While it moves, `element` is in no cell: `h` and `x` are heap and indices with `element` put at the cursor. */
  ghost predicate Hole(heap: seq<nat>, indices: seq<int>, h: seq<nat>, x: seq<int>, n: nat, cursor: nat, element: nat) {
    && Indexed(h, x, n) && cursor < n && |heap| == |h| && |indices| == |x| && element < |x|
    && heap == h[cursor := heap[cursor]] && h[cursor] == element
    && indices == x[element := indices[element]] && x[element] == cursor
  }

  ghost predicate SameMembers(indices: seq<int>, indices2: seq<int>) {
    |indices| == |indices2| && forall v :: 0 <= v < |indices| ==> (indices[v] >= 0 <==> indices2[v] >= 0)
  }

  lemma HoleFacts(heap: seq<nat>, indices: seq<int>, h: seq<nat>, x: seq<int>, a: seq<real>, n: nat, c: nat, element: nat)
    requires Hole(heap, indices, h, x, n, c, element) && |a| == |x|
    ensures c < n <= |heap| == |h| == |indices| == |x| && h[c] == element < |a| && InBounds(h, a, n)
    ensures heap[c := element] == h && indices[element := c] == x && Indexed(h, x, n)
    ensures forall i :: 0 <= i < n && i != c ==> heap[i] == h[i] && heap[i] < |a|
  {
  }

  /** What is in cell `d` moves to the cursor, and the cursor moves to `d`. */
  lemma HoleMoves(heap: seq<nat>, indices: seq<int>, h: seq<nat>, x: seq<int>, n: nat, c: nat, element: nat, d: nat)
    requires Hole(heap, indices, h, x, n, c, element) && d < n && d != c
    ensures d < |heap| == |h| && c < |heap| && heap[d] < |indices| && h[c] < |x| && h[d] < |x|
    ensures
      Hole(heap[c := heap[d]], indices[heap[d] := c], Exchange(h, c, d), Reindex(h, x, c, d), n, d, element)
    ensures forall y :: SameMembers(x, y) ==> SameMembers(Reindex(h, x, c, d), y)
  {
  }

  /** The element at `c` changes places with its smaller parent. */
  lemma SiftUp(heap: seq<nat>, activity: seq<real>, n: nat, c: nat)
    requires InBounds(heap, activity, n) && 0 < c < n && OrderedButUp(heap, activity, n, c)
    requires activity[heap[c]] >= activity[heap[Parent(c)]]
    ensures InBounds(Exchange(heap, c, Parent(c)), activity, n)
    ensures OrderedButUp(Exchange(heap, c, Parent(c)), activity, n, Parent(c))
  {
    var p := Parent(c);
    var heap2 := Exchange(heap, c, p);
    forall i | 0 <= i < n && i != p ensures BelowParent(heap2, activity, n, i) {
      assert i != c ==> BelowParent(heap, activity, n, i);
    }
    forall i | 0 < i < n && Parent(i) == p && p > 0 ensures activity[heap2[i]] <= activity[heap2[Parent(p)]] {
      assert BelowParent(heap, activity, n, p);
      assert i != c ==> BelowParent(heap, activity, n, i);
    }
  }

  /** The element at `c` changes places with the greatest of its children, which is greater. */
  lemma SiftDown(heap: seq<nat>, activity: seq<real>, n: nat, c: nat, d: nat)
    requires InBounds(heap, activity, n) && c < n && 0 < d < n && Parent(d) == c && OrderedButDown(heap, activity, n, c)
    requires forall i :: 0 < i < n && Parent(i) == c ==> activity[heap[i]] <= activity[heap[d]]
    requires activity[heap[c]] < activity[heap[d]]
    ensures InBounds(Exchange(heap, c, d), activity, n) && OrderedButDown(Exchange(heap, c, d), activity, n, d)
  {
  }

  /** The root is a greatest element. */
  lemma {:induction false} RootIsGreatest(heap: seq<nat>, activity: seq<real>, n: nat, i: nat)
    requires InBounds(heap, activity, n) && Ordered(heap, activity, n) && i < n
    ensures activity[heap[i]] <= activity[heap[0]]
  {
    assert BelowParent(heap, activity, n, i);
    if i > 0 {
      RootIsGreatest(heap, activity, n, Parent(i));
    }
  }

  class BinaryMaxHeap {
    var indices: seq<int>
    var heap: seq<nat>
    var size: nat
    // The order of the elements.
    var activity: seq<real>

    ghost predicate Valid()
      reads this
    {
      |activity| == |indices| && Indexed(heap, indices, size) && Ordered(heap, activity, size)
    }

    function Contains(v: nat): bool
      requires v < |indices|
      reads this
    {
      indices[v] >= 0
    }

    /** The elements of the heap. */
    ghost function Elements(): set<nat>
      reads this
    {
      set v | 0 <= v < |indices| && indices[v] >= 0
    }

    constructor (maxElement: nat)
      ensures Valid() && Elements() == {} && size == 0 && |indices| == maxElement + 1
      ensures activity == seq(maxElement + 1, _ => 0.0)
    {
      indices := seq(maxElement + 1, _ => -1);
      heap := seq(maxElement + 1, _ => 0);
      activity := seq(maxElement + 1, _ => 0.0);
      size := 0;
    }

    method IncreaseMaxSizeTo(newMaxElement: nat)
      requires Valid() && newMaxElement + 1 >= |heap|
      modifies this
      ensures Valid() && Elements() == old(Elements()) && |indices| == newMaxElement + 1
      ensures activity[..|old(activity)|] == old(activity)
      ensures forall v :: |old(activity)| <= v < |activity| ==> activity[v] == 0.0
    {
      var more := newMaxElement + 1 - |heap|;
      heap := heap + seq(more, _ => 0);
      indices := indices + seq(more, _ => -1);
      activity := activity + seq(more, _ => 0.0);
      assert forall i :: 0 <= i < size ==> heap[i] == old(heap)[i] && BelowParent(old(heap), old(activity), size, i);
    }

    /** Moves an element up which may have become greater. */
    method IncreasingUpdate(element: nat)
      requires |activity| == |indices| && Indexed(heap, indices, size)
      requires element < |indices| && indices[element] >= 0 && OrderedButUp(heap, activity, size, indices[element])
      modifies this`heap, this`indices
      ensures Valid() && Elements() == old(Elements()) && |indices| == |old(indices)|
    {
      hide Indexed, OrderedButUp, Exchange, Reindex, Hole, InBounds, Ordered;
      var cursor := indices[element];
      ghost var h: seq<nat>, x: seq<int> := heap, indices;
      CursorFits(heap, indices, activity, size, element);
      if cursor == 0 {
        UpDone(heap, activity, size, 0);
        return;
      }
      while cursor != 0 && !(activity[element] < activity[heap[Parent(cursor)]])
        invariant 0 <= cursor < size && |indices| == |old(indices)| && InBounds(h, activity, size)
        invariant Hole(heap, indices, h, x, size, cursor, element) && OrderedButUp(h, activity, size, cursor)
        invariant cursor > 0 ==>
                    && Parent(cursor) < |heap| && Parent(cursor) < |h|
                    && heap[Parent(cursor)] == h[Parent(cursor)] < |activity|
        invariant SameMembers(x, old(indices))
        decreases cursor
      {
        var parentIndex := Parent(cursor);
        var parent := heap[parentIndex];
        HoleFacts(heap, indices, h, x, activity, size, cursor, element);
        SiftUp(h, activity, size, cursor);
        HoleMoves(heap, indices, h, x, size, cursor, element, parentIndex);
        heap := heap[cursor := parent];
        indices := indices[parent := cursor];
        h, x := Exchange(h, cursor, parentIndex), Reindex(h, x, cursor, parentIndex);
        cursor := parentIndex;
        ParentOutside(heap, indices, h, x, activity, size, cursor, element);
      }
      HoleFacts(heap, indices, h, x, activity, size, cursor, element);
      heap := heap[cursor := element];
      indices := indices[element := cursor];
      UpDone(h, activity, size, cursor);
    }

    lemma CursorFits(h: seq<nat>, x: seq<int>, a: seq<real>, n: nat, element: nat)
      requires Indexed(h, x, n) && |a| == |x| && element < |x| && x[element] >= 0
      ensures x[element] < n && InBounds(h, a, n) && Hole(h, x, h, x, n, x[element], element) && SameMembers(x, x)
      ensures x[element] > 0 ==> Parent(x[element]) < |h| && h[Parent(x[element])] < |a|
    {
    }

    lemma ParentOutside(hp: seq<nat>, idx: seq<int>, h: seq<nat>, x: seq<int>, a: seq<real>, n: nat, c: nat, element: nat)
      requires Hole(hp, idx, h, x, n, c, element) && |a| == |x|
      ensures InBounds(h, a, n)
      ensures c > 0 ==> Parent(c) < |hp| && Parent(c) < |h| && hp[Parent(c)] == h[Parent(c)] < |a|
    {
    }

    lemma UpDone(h: seq<nat>, a: seq<real>, n: nat, c: nat)
      requires InBounds(h, a, n) && c < n && OrderedButUp(h, a, n, c)
      requires c == 0 || a[h[c]] < a[h[Parent(c)]]
      ensures Ordered(h, a, n)
    {
    }
  
    /** Moves an element down which may have become smaller. */
    method DecreasingUpdate(element: nat)
      requires |activity| == |indices| && Indexed(heap, indices, size)
      requires element < |indices| && indices[element] >= 0 && OrderedButDown(heap, activity, size, indices[element])
      modifies this`heap, this`indices
      ensures Valid() && Elements() == old(Elements()) && |indices| == |old(indices)|
    {
      hide Indexed, OrderedButDown, Exchange, Reindex, Hole, Ordered;
      var cursor := indices[element];
      ghost var h: seq<nat>, x: seq<int> := heap, indices;
      CursorFits(heap, indices, activity, size, element);
      var done := false;
      while !done && 2 * cursor + 1 < size
        invariant 0 <= cursor < size && |indices| == |old(indices)| && InBounds(h, activity, size)
        invariant Hole(heap, indices, h, x, size, cursor, element) && OrderedButDown(h, activity, size, cursor)
        invariant SameMembers(x, old(indices))
        invariant done ==> forall i :: 0 < i < size && Parent(i) == cursor ==> activity[h[i]] <= activity[element]
        decreases !done, size - cursor
      {
        var left, right := 2 * cursor + 1, 2 * cursor + 2;
        HoleFacts(heap, indices, h, x, activity, size, cursor, element);
        var maxChild := if right < size && activity[heap[left]] < activity[heap[right]] then right else left;
        GreatestChild(h, activity, size, cursor, maxChild);
        var child := heap[maxChild];
        if activity[element] < activity[child] {
          SiftDown(h, activity, size, cursor, maxChild);
          HoleMoves(heap, indices, h, x, size, cursor, element, maxChild);
          heap := heap[cursor := child];
          indices := indices[child := cursor];
          h, x := Exchange(h, cursor, maxChild), Reindex(h, x, cursor, maxChild);
          cursor := maxChild;
        } else {
          done := true;
        }
      }
      HoleFacts(heap, indices, h, x, activity, size, cursor, element);
      heap := heap[cursor := element];
      indices := indices[element := cursor];
      DownDone(h, activity, size, cursor);
    }

    lemma GreatestChild(h: seq<nat>, a: seq<real>, n: nat, c: nat, d: nat)
      requires InBounds(h, a, n) && 2 * c + 1 < n
      requires d == if 2 * c + 2 < n && a[h[2 * c + 1]] < a[h[2 * c + 2]] then 2 * c + 2 else 2 * c + 1
      ensures 0 < d < n && Parent(d) == c
      ensures forall i :: 0 < i < n && Parent(i) == c ==> a[h[i]] <= a[h[d]]
    {
    }

    lemma DownDone(h: seq<nat>, a: seq<real>, n: nat, c: nat)
      requires InBounds(h, a, n) && c < n && OrderedButDown(h, a, n, c)
      requires forall i :: 0 < i < n && Parent(i) == c ==> a[h[i]] <= a[h[c]]
      ensures Ordered(h, a, n)
    {
    }

    /** Inserts an element, unless it is in the heap already. */
    method Insert(element: nat)
      requires Valid() && element < |indices|
      modifies this
      ensures Valid() && Elements() == old(Elements()) + {element}
      ensures |indices| == |old(indices)| && activity == old(activity)
    {
      hide Ordered;
      if Contains(element) {
        return;
      }
      NotFull(heap, indices, size, element);
      InsertFits(heap, indices, activity, size, element);
      heap := heap[size := element];
      indices := indices[element := size];
      size := size + 1;
      assert Elements() == old(Elements()) + {element};
      IncreasingUpdate(element);
    }

    /** There is a free cell as long as an element is missing. */
    lemma NotFull(h: seq<nat>, x: seq<int>, n: nat, element: nat)
      requires Indexed(h, x, n) && element < |x| && x[element] == -1
      ensures n < |h|
    {
      if n == |h| {
        var i := FullHeap(h, x, n, element);
      }
    }

    lemma InsertFits(h: seq<nat>, x: seq<int>, a: seq<real>, n: nat, element: nat)
      requires Indexed(h, x, n) && |a| == |x| && Ordered(h, a, n) && n < |h| && element < |x| && x[element] == -1
      ensures Indexed(h[n := element], x[element := n], n + 1) && OrderedButUp(h[n := element], a, n + 1, n)
    {
      var h2, n2 := h[n := element], n + 1;
      forall i | 0 <= i < n ensures BelowParent(h2, a, n2, i) {
        assert BelowParent(h, a, n, i);
      }
    }

    /** Removes a greatest element. */
    method RemoveMax() returns (result: nat)
      requires Valid() && size > 0
      modifies this
      ensures Valid() && |indices| == |old(indices)| && activity == old(activity)
      ensures result in old(Elements()) && Elements() == old(Elements()) - {result} && size == old(size) - 1
      ensures forall v :: v in old(Elements()) ==> v < |activity| && activity[v] <= activity[result]
    {
      hide Ordered;
      result := heap[0];
      AllBelowRoot(heap, indices, activity, size);
      RemovalFits(heap, indices, activity, size);
      indices := indices[result := -1];
      if size > 1 {
        var replacement := heap[size - 1];
        heap := heap[0 := replacement];
        indices := indices[replacement := 0];
        size := size - 1;
        assert Elements() == old(Elements()) - {result};
        DecreasingUpdate(replacement);
      } else {
        size := 0;
        assert Elements() == old(Elements()) - {result};
      }
    }

    lemma AllBelowRoot(h: seq<nat>, x: seq<int>, a: seq<real>, n: nat)
      requires Indexed(h, x, n) && |a| == |x| && Ordered(h, a, n) && n > 0
      ensures forall v :: 0 <= v < |x| && x[v] >= 0 ==> a[v] <= a[h[0]]
    {
      forall v | 0 <= v < |x| && x[v] >= 0 ensures a[v] <= a[h[0]] {
        RootIsGreatest(h, a, n, x[v]);
      }
    }

    lemma RemovalFits(h: seq<nat>, x: seq<int>, a: seq<real>, n: nat)
      requires Indexed(h, x, n) && |a| == |x| && Ordered(h, a, n) && n > 0
      ensures n > 1 ==> Indexed(h[0 := h[n - 1]], x[h[0] := -1][h[n - 1] := 0], n - 1)
      ensures n > 1 ==> OrderedButDown(h[0 := h[n - 1]], a, n - 1, 0)
      ensures n == 1 ==> Indexed(h, x[h[0] := -1], 0) && Ordered(h, a, 0)
    {
      var h2 := h[0 := h[n - 1]];
      forall i | 0 < i < n - 1 && Parent(i) != 0 ensures BelowParent(h2, a, n - 1, i) {
        assert BelowParent(h, a, n, i);
      }
    }

    /** Forgets all elements without clearing their indices: the result is only a proper heap if it was empty. */
    method Clear()
      requires Valid()
      modifies this`size
      ensures size == 0 && (Valid() <==> old(size) == 0)
    {
      if size > 0 {
        assert indices[heap[0]] == 0;
      }
      size := 0;
    }
  }

  /** If no cell is free, all elements are in the heap. */
  lemma FullHeap(h: seq<nat>, x: seq<int>, n: nat, v: nat) returns (i: nat)
    requires Indexed(h, x, n) && n == |h| && v < |x|
    ensures i < n && h[i] == v
  {
    var used := set i | 0 <= i < n :: h[i];
    UsedSize(h, x, n, n);
    forall w | w in used ensures w in Below(n) {}
    SubsetSize(used, Below(n));
    assert v in Below(n);
    i :| 0 <= i < n && h[i] == v;
  }

  lemma {:induction false} UsedSize(h: seq<nat>, x: seq<int>, n: nat, k: nat)
    requires Indexed(h, x, n) && k <= n
    ensures |set i | 0 <= i < k :: h[i]| == k
  {
    if k > 0 {
      UsedSize(h, x, n, k - 1);
      var before := set i | 0 <= i < k - 1 :: h[i];
      assert (set i | 0 <= i < k :: h[i]) == before + {h[k - 1]};
      assert forall i :: 0 <= i < n ==> x[h[i]] == i;
    }
  }
}
