// The literal block distance (LBD) of a clause: on how many levels its literals have been assigned.

module LiteralBlockDistances {
  import opened Literals
  import opened Trails
  import opened StampMaps
  import opened Assignments

  /** The levels of the variables of the clause. */
  function LevelsOf(t: Trail, c: Clause): set<nat> {
    set x | x in c :: Level(t, x.v)
  }

  /** The number of different levels of the variables of the clause. */
  method GetLbd(lits: Clause, assignment: Assignment, tempStamps: StampMap) returns (lbd: nat)
    requires tempStamps.Valid() && !tempStamps.contextActive
    requires forall x :: x in lits ==> x.v < |assignment.levels| && Level(assignment.T(), x.v) < |tempStamps.stamps|
    modifies tempStamps
    ensures tempStamps.Valid() && !tempStamps.contextActive && |tempStamps.stamps| == |old(tempStamps.stamps)|
    ensures lbd == |LevelsOf(assignment.T(), lits)|
  {
    hide StampMap.Stamped, StampMap.Valid, Level;
    ghost var t := assignment.T();
    var stamp := tempStamps.CreateContext();
    lbd := 0;
    for i := 0 to |lits|
      invariant tempStamps.Valid() && tempStamps.contextActive && stamp == tempStamps.currentStamp
      invariant |tempStamps.stamps| == |old(tempStamps.stamps)|
      invariant tempStamps.Stamped() == LevelsOf(t, lits[..i]) && lbd == |LevelsOf(t, lits[..i])|
    {
      assert lits[i] in lits && lits[..i + 1] == lits[..i] + [lits[i]];
      var level := assignment.GetLevel(lits[i].v);
      assert LevelsOf(t, lits[..i + 1]) == LevelsOf(t, lits[..i]) + {level};
      if !tempStamps.IsStamped(level, stamp) {
        tempStamps.SetStamped(level, stamp, true);
        lbd := lbd + 1;
      }
    }
    assert lits[..|lits|] == lits;
    tempStamps.Clear();
  }
}
