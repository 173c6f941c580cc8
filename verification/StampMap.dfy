// Stamp maps (cheaply clearable sets of indices) and over-approximating sets.

module StampMaps {

  /** The greatest 16-bit stamp. */
  const MAX_STAMP := 0xFFFF

  class StampMap {
    var stamps: seq<nat>
    var currentStamp: nat
    var contextActive: bool

    ghost predicate Valid()
      reads this
    {
      && 1 <= currentStamp <= MAX_STAMP
      && forall i :: 0 <= i < |stamps| ==> stamps[i] <= currentStamp && (!contextActive ==> stamps[i] < currentStamp)
    }

    /** The indices stamped in the current context. */
    ghost function Stamped(): set<nat>
      reads this
    {
      set i | 0 <= i < |stamps| && stamps[i] == currentStamp
    }

    constructor (maxIdx: nat)
      ensures Valid() && !contextActive && |stamps| == maxIdx + 1
    {
      stamps := seq(maxIdx + 1, _ => 0);
      currentStamp, contextActive := 1, false;
    }

    method IncreaseSizeTo(maxIdx: nat)
      requires Valid() && |stamps| <= maxIdx + 1
      modifies this`stamps
      ensures Valid() && |stamps| == maxIdx + 1
      ensures Stamped() == old(Stamped())
    {
      stamps := stamps + seq(maxIdx + 1 - |stamps|, _ => 0);
    }

    /** Opens a context, in which nothing is stamped yet. */
    method CreateContext() returns (stamp: nat)
      requires Valid() && !contextActive
      modifies this`contextActive
      ensures Valid() && contextActive && stamp == currentStamp && Stamped() == {}
    {
      contextActive := true;
      stamp := currentStamp;
    }

    method SetStamped(index: nat, stamp: nat, stamped: bool)
      requires Valid() && contextActive && stamp == currentStamp && index < |stamps|
      modifies this`stamps
      ensures Valid() && |stamps| == |old(stamps)|
      ensures Stamped() == if stamped then old(Stamped()) + {index} else old(Stamped()) - {index}
    {
      stamps := stamps[index := if stamped then stamp else 0];
    }

    function IsStamped(index: nat, stamp: nat): (r: bool)
      requires Valid() && stamp == currentStamp && index < |stamps|
      reads this
      ensures r <==> index in Stamped()
    {
      stamps[index] == stamp
    }

    /** Closes the context. When the stamps are used up, all of them are erased. */
    method Clear()
      requires Valid()
      modifies this
      ensures Valid() && !contextActive && |stamps| == |old(stamps)|
    {
      if currentStamp == MAX_STAMP {
        var i := 0;
        while i < |stamps|
          invariant i <= |stamps| == |old(stamps)|
          invariant forall j :: 0 <= j < i ==> stamps[j] == 0
        {
          stamps := stamps[i := 0];
          i := i + 1;
        }
        currentStamp := 0;
      }
      currentStamp := currentStamp + 1;
      contextActive := false;
    }
  }

  /** The set bits of an over-approximating set of numbers with the given number of bits. */
  type Approximation = set<nat>

  const APPROXIMATION_BITS := 64

  function Insert(a: Approximation, x: nat): Approximation {
    a + {x % APPROXIMATION_BITS}
  }

  predicate MightContain(a: Approximation, x: nat) {
    x % APPROXIMATION_BITS in a
  }
}
