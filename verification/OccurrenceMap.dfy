// A map from literals to the clauses containing them, which is brought up to date only when it is read.

module OccurrenceMaps {
  import opened Literals
  import opened Trails
  import opened ClauseDatabase

  /** What the map stands for: the elements of each container which has been inserted and not removed. */
  type Contents = map<CRef, set<Lit>>

  /** The state of the map: occurrence lists, literals whose list has to be updated, and pending removals. */
  datatype Occurrences = Occurrences(lists: map<Lit, seq<CRef>>, requiresUpdate: set<Lit>, pending: map<CRef, set<Lit>>)

  function ListIn(lists: map<Lit, seq<CRef>>, l: Lit): seq<CRef> {
    if l in lists then lists[l] else []
  }

  function ListAt(o: Occurrences, l: Lit): seq<CRef> {
    ListIn(o.lists, l)
  }

  ghost predicate Pending(o: Occurrences, c: CRef, l: Lit) {
    c in o.pending && l in o.pending[c]
  }

  predicate Flagged(flags: seq<bool>, c: CRef) {
    c < |flags| && flags[c]
  }

  ghost predicate Distinct(cs: seq<CRef>) {
    forall i, j :: 0 <= i < j < |cs| ==> cs[i] != cs[j]
  }

  /** The list of `l` holds what it should, and maybe containers which will be dropped by the next update. */
  ghost predicate ListFits(o: Occurrences, contents: Contents, deleted: seq<bool>, l: Lit) {
    && Distinct(ListAt(o, l))
    && (forall c :: c in contents ==> (c in ListAt(o, l) <==> l in contents[c] || Pending(o, c, l)))
    && (forall c :: c in contents && Pending(o, c, l) ==> l in o.requiresUpdate && l !in contents[c])
    && (forall c :: c !in contents && c in ListAt(o, l) ==> Flagged(deleted, c) && l in o.requiresUpdate)
  }

  /** The flags of the containers agree with the state of the map. */
  ghost predicate FlagsFit(o: Occurrences, contents: Contents, deleted: seq<bool>, modified: seq<bool>) {
    && (forall c :: c in contents ==> c < |deleted| && !deleted[c])
    && (forall c :: c in o.pending ==>
          if c in contents then Flagged(modified, c) && o.pending[c] != {} else Flagged(deleted, c))
  }

  /** The same, but all pending removals of clause `c` may have been revoked. */
  ghost predicate FlagsFitBut(o: Occurrences, contents: Contents, deleted: seq<bool>, modified: seq<bool>, c: CRef) {
    && (forall d :: d in contents ==> d < |deleted| && !deleted[d])
    && (c in o.pending ==> Flagged(modified, c))
    && (forall d :: d in o.pending && d != c ==>
          if d in contents then Flagged(modified, d) && o.pending[d] != {} else Flagged(deleted, d))
  }

  ghost predicate ListsFit(o: Occurrences, contents: Contents, deleted: seq<bool>) {
    forall l :: ListFits(o, contents, deleted, l)
  }

  ghost predicate Represents(o: Occurrences, contents: Contents, deleted: seq<bool>, modified: seq<bool>) {
    FlagsFit(o, contents, deleted, modified) && ListsFit(o, contents, deleted)
  }

  function Elements(c: Clause): set<Lit> {
    set l | l in c
  }

  /** The containers in which `l` occurs. */
  ghost predicate Occurring(contents: Contents, l: Lit, cs: seq<CRef>) {
    Distinct(cs) && forall c :: c in cs <==> c in contents && l in contents[c]
  }

  // ---- insertions --------------------------------------------------------------------

  function WithOccurrence(o: Occurrences, c: CRef, l: Lit): Occurrences {
    o.(lists := o.lists[l := ListAt(o, l) + [c]])
  }

  lemma WithOccurrenceFits(o: Occurrences, contents: Contents, deleted: seq<bool>, c: CRef, l: Lit, els: set<Lit>)
    requires c in contents && contents[c] == els && l !in els && !Pending(o, c, l)
    requires ListsFit(o, contents, deleted)
    ensures ListsFit(WithOccurrence(o, c, l), contents[c := els + {l}], deleted)
  {
    var o2, contents2 := WithOccurrence(o, c, l), contents[c := els + {l}];
    forall x ensures ListFits(o2, contents2, deleted, x) {
      assert ListFits(o, contents, deleted, x);
      assert ListAt(o2, x) == if x == l then ListAt(o, l) + [c] else ListAt(o, x);
    }
  }

  /** A container without elements occurs nowhere. */
  lemma EmptyFits(o: Occurrences, contents: Contents, deleted: seq<bool>, modified: seq<bool>, c: CRef)
    requires Represents(o, contents, deleted, modified) && c !in contents && c < |deleted| && !deleted[c]
    ensures Represents(o, contents[c := {}], deleted, modified)
  {
    var contents2 := contents[c := {}];
    forall l ensures ListFits(o, contents2, deleted, l) {
      assert ListFits(o, contents, deleted, l);
    }
  }

  // ---- removals ----------------------------------------------------------------------

  /** Container `c` has been marked for deletion, and all lists with it for an update. */
  lemma RemovedFits(o: Occurrences, contents: Contents, deleted: seq<bool>, modified: seq<bool>, c: CRef,
                    upd: set<Lit>)
    requires Represents(o, contents, deleted, modified) && c in contents
    requires upd == o.requiresUpdate + contents[c]
    ensures Represents(o.(requiresUpdate := upd), contents - {c}, deleted[c := true], modified)
  {
    var o2 := o.(requiresUpdate := upd);
    var contents2, deleted2 := contents - {c}, deleted[c := true];
    forall l ensures ListFits(o2, contents2, deleted2, l) {
      assert ListFits(o, contents, deleted, l);
      assert ListAt(o2, l) == ListAt(o, l);
    }
  }

  /** An element is added again while its removal is pending. */
  lemma RemovalRevoked(o: Occurrences, contents: Contents, deleted: seq<bool>, c: CRef, l: Lit)
    requires c in contents && Pending(o, c, l) && ListsFit(o, contents, deleted)
    ensures
      ListsFit(o.(pending := o.pending[c := o.pending[c] - {l}]), contents[c := contents[c] + {l}], deleted)
  {
    var o2 := o.(pending := o.pending[c := o.pending[c] - {l}]);
    var contents2 := contents[c := contents[c] + {l}];
    forall x ensures ListFits(o2, contents2, deleted, x) {
      assert ListFits(o, contents, deleted, x);
      assert ListAt(o2, x) == ListAt(o, x);
    }
  }

  // ---- updates -----------------------------------------------------------------------

  /** Without pending removals, a container needs no entry. */
  function WithoutPending(o: Occurrences, c: CRef, l: Lit): Occurrences
    requires c in o.pending
  {
    var p := o.pending[c] - {l};
    o.(pending := if p == {} then o.pending - {c} else o.pending[c := p])
  }

  /** The list of `l` is being updated: `kept` is what remains of its first `i` entries. */
  ghost predicate Updating(o: Occurrences, contents: Contents, deleted: seq<bool>, modified: seq<bool>, l: Lit, i: nat,
                           kept: seq<CRef>)
  {
    && i <= |ListAt(o, l)| && Distinct(ListAt(o, l)) && Distinct(kept) && FlagsFit(o, contents, deleted, modified)
    && (forall x :: x != l ==> ListFits(o, contents, deleted, x))
    && (forall c :: c in kept ==> c in ListAt(o, l)[..i])
    && (forall c :: c in contents && l in contents[c] ==> c in ListAt(o, l) && !Pending(o, c, l))
    && (forall c :: c in kept <==> c in ListAt(o, l)[..i] && c in contents && l in contents[c])
    && (forall c :: c in ListAt(o, l)[i..] && c in contents ==> l in contents[c] || Pending(o, c, l))
    && (forall c :: c in ListAt(o, l) && c !in contents ==> Flagged(deleted, c))
    && (forall c :: c in contents && Pending(o, c, l) ==> c in ListAt(o, l)[i..])
  }

  lemma StartUpdate(o: Occurrences, contents: Contents, deleted: seq<bool>, modified: seq<bool>, l: Lit)
    requires Represents(o, contents, deleted, modified)
    ensures Updating(o, contents, deleted, modified, l, 0, [])
  {
    assert ListFits(o, contents, deleted, l);
  }

  /** An entry which stays, or one of a deleted container. */
  lemma UpdateStep(o: Occurrences, contents: Contents, deleted: seq<bool>, modified: seq<bool>, l: Lit, i: nat,
                   kept: seq<CRef>)
    requires Updating(o, contents, deleted, modified, l, i, kept) && i < |ListAt(o, l)|
    ensures
      var c := ListAt(o, l)[i];
      && (Flagged(deleted, c) ==> Updating(o, contents, deleted, modified, l, i + 1, kept))
      && (!Flagged(deleted, c) && !Pending(o, c, l) ==> Updating(o, contents, deleted, modified, l, i + 1, kept + [c]))
  {
  }

  /** An entry whose removal is pending. */
  lemma UpdatePending(o: Occurrences, contents: Contents, deleted: seq<bool>, modified: seq<bool>, l: Lit, i: nat,
                      kept: seq<CRef>, modified2: seq<bool>)
    requires Updating(o, contents, deleted, modified, l, i, kept) && i < |ListAt(o, l)|
    requires !Flagged(deleted, ListAt(o, l)[i]) && Pending(o, ListAt(o, l)[i], l)
    requires |modified2| == |modified|
    requires forall d :: d != ListAt(o, l)[i] && Flagged(modified, d) ==> Flagged(modified2, d)
    requires ListAt(o, l)[i] in WithoutPending(o, ListAt(o, l)[i], l).pending ==> modified2 == modified
    ensures Flagged(modified, ListAt(o, l)[i]) && ListAt(o, l)[i] in contents
    ensures Updating(WithoutPending(o, ListAt(o, l)[i], l), contents, deleted, modified2, l, i + 1, kept)
  {
    var list := ListAt(o, l);
    var c := list[i];
    var o2 := WithoutPending(o, c, l);
    assert c in list && c in contents;
    assert list[..i + 1] == list[..i] + [c] && list[i..] == [c] + list[i + 1..];
    assert c !in list[..i] && c !in list[i + 1..];
    assert forall x :: x in o.pending[c] ==> x == l || x in o.pending[c] - {l};
    assert forall d, x :: Pending(o2, d, x) <==> Pending(o, d, x) && !(d == c && x == l);
    forall x | x != l ensures ListFits(o2, contents, deleted, x) {
      assert ListFits(o, contents, deleted, x);
      assert ListAt(o2, x) == ListAt(o, x);
    }
    assert ListAt(o2, l) == list;
  }

  lemma FinishUpdate(o: Occurrences, contents: Contents, deleted: seq<bool>, modified: seq<bool>, l: Lit, kept: seq<CRef>)
    requires Updating(o, contents, deleted, modified, l, |ListAt(o, l)|, kept)
    ensures
      var o2 := o.(lists := o.lists[l := kept], requiresUpdate := o.requiresUpdate - {l});
      Represents(o2, contents, deleted, modified) && Occurring(contents, l, kept)
  {
    var o2 := o.(lists := o.lists[l := kept], requiresUpdate := o.requiresUpdate - {l});
    var list := ListAt(o, l);
    assert list[..|list|] == list;
    forall x ensures ListFits(o2, contents, deleted, x) {
      assert ListAt(o2, x) == if x == l then kept else ListAt(o, x);
      if x != l {
        assert ListFits(o, contents, deleted, x);
      }
    }
  }

  /** A list which needs no update is up to date. */
  lemma UpToDate(o: Occurrences, contents: Contents, deleted: seq<bool>, modified: seq<bool>, l: Lit)
    requires Represents(o, contents, deleted, modified) && l !in o.requiresUpdate
    ensures Occurring(contents, l, ListAt(o, l))
  {
    assert ListFits(o, contents, deleted, l);
  }

  class OccurrenceMap {
    // The containers are the clauses of this database; its flags tell which of them are deleted or modified.
    const db: ClauseDB

    var lists: map<Lit, seq<CRef>>
    var requiresUpdate: set<Lit>
    var pending: map<CRef, set<Lit>>

    ghost var contents: Contents

    ghost function O(): Occurrences
      reads this
    {
      Occurrences(lists, requiresUpdate, pending)
    }

    ghost predicate Valid()
      reads this, db
    {
      db.Valid() && Represents(O(), contents, db.deleted, db.modified)
    }

    constructor (db: ClauseDB)
      requires db.Valid()
      ensures Valid() && this.db == db && contents == map[] && pending == map[]
    {
      this.db := db;
      lists, requiresUpdate, pending, contents := map[], {}, map[], map[];
    }

    /** Adds clause `c`, unless it is marked for deletion. */
    method Insert(c: CRef)
      requires Valid() && c < |db.lits| && c !in contents && (!db.deleted[c] ==> DistinctVars(db.lits[c]))
      modifies this
      ensures Valid() && pending == old(pending)
      ensures contents == if db.deleted[c] then old(contents) else old(contents)[c := Elements(db.lits[c])]
    {
      hide Represents, ListFits, DistinctVars;
      if db.deleted[c] {
        return;
      }
      var lits := db.lits[c];
      StartInsert(lits);
      NothingPending(O(), contents, c);
      EmptyFits(O(), contents, db.deleted, db.modified, c);
      contents := contents[c := {}];
      assert Elements(lits[..0]) == {};
      for i := 0 to |lits|
        invariant Valid() && c in contents && contents == old(contents)[c := Elements(lits[..i])]
        invariant c !in pending && pending == old(pending)
      {
        assert lits[..i + 1] == lits[..i] + [lits[i]];
        assert Elements(lits[..i + 1]) == Elements(lits[..i]) + {lits[i]};
        InsertStep(O(), contents, c, lits[i]);
        lists := lists[lits[i] := ListIn(lists, lits[i]) + [c]];
        contents := contents[c := contents[c] + {lits[i]}];
      }
      assert lits[..|lits|] == lits;
    }

    lemma StartInsert(lits: Clause)
      requires DistinctVars(lits)
      ensures forall i :: 0 <= i < |lits| ==> lits[i] !in lits[..i]
    {
    }

    lemma NothingPending(o: Occurrences, before: Contents, c: CRef)
      requires Represents(o, before, db.deleted, db.modified) && c !in before && c < |db.deleted| && !db.deleted[c]
      ensures c !in o.pending
    {
    }

    lemma InsertStep(o: Occurrences, before: Contents, c: CRef, l: Lit)
      requires Represents(o, before, db.deleted, db.modified) && c in before && l !in before[c] && c !in o.pending
      ensures Represents(WithOccurrence(o, c, l), before[c := before[c] + {l}], db.deleted, db.modified)
    {
      WithOccurrenceFits(o, before, db.deleted, c, l, before[c]);
    }
  
    /** Forgets clause `c`, which has just been marked for deletion. */
    method Remove(c: CRef)
      requires db.Valid() && c in contents && c < |db.deleted| && db.deleted[c] && Elements(db.lits[c]) == contents[c]
      requires Represents(O(), contents, db.deleted[c := false], db.modified)
      modifies this
      ensures Valid() && contents == old(contents) - {c} && pending == old(pending)
    {
      hide Represents;
      var lits := db.lits[c];
      assert Elements(lits[..0]) == {};
      for i := 0 to |lits|
        invariant requiresUpdate == old(requiresUpdate) + Elements(lits[..i])
        modifies this`requiresUpdate
      {
        assert lits[..i + 1] == lits[..i] + [lits[i]];
        requiresUpdate := requiresUpdate + {lits[i]};
      }
      assert lits[..|lits|] == lits && db.deleted[c := false][c := true] == db.deleted;
      RemovedFits(old(O()), contents, db.deleted[c := false], db.modified, c, requiresUpdate);
      contents := contents - {c};
    }

    /** Clause `c` has been given new elements. */
    method AddElements(c: CRef, additions: seq<Lit>)
      requires Valid() && c in contents && (forall i, j :: 0 <= i < j < |additions| ==> additions[i] != additions[j])
      requires forall l :: l in additions ==> l !in contents[c]
      modifies this`lists, this`pending, this`contents
      ensures db.Valid() && ListsFit(O(), contents, db.deleted)
      ensures contents == old(contents)[c := old(contents)[c] + Elements(additions)]
      ensures (c in pending <==> old(c in pending)) && forall d :: d != c ==> (d in pending <==> d in old(pending))
      ensures forall d :: d in pending && d != c ==> pending[d] == old(pending)[d]
    {
      hide ListFits;
      assert Elements(additions[..0]) == {} && contents[c] + {} == contents[c] && contents == contents[c := contents[c]];
      for i := 0 to |additions|
        invariant c in contents && contents == old(contents)[c := old(contents)[c] + Elements(additions[..i])]
        invariant ListsFit(O(), contents, db.deleted)
        invariant (c in pending <==> old(c in pending)) && forall d :: d != c ==> (d in pending <==> d in old(pending))
        invariant forall d :: d in pending && d != c ==> pending[d] == old(pending)[d]
      {
        var l := additions[i];
        assert additions[..i + 1] == additions[..i] + [l] && l !in additions[..i];
        assert old(contents)[c] + Elements(additions[..i + 1]) == contents[c] + {l};
        if c in pending && l in pending[c] {
          RemovalRevoked(O(), contents, db.deleted, c, l);
          pending := pending[c := pending[c] - {l}];
        } else {
          WithOccurrenceFits(O(), contents, db.deleted, c, l, contents[c]);
          lists := lists[l := ListIn(lists, l) + [c]];
        }
        contents := contents[c := contents[c] + {l}];
      }
      assert additions[..|additions|] == additions;
    }

    /**
     * Takes note of the elements added to and removed from clause `c`, which has been marked as modified.
     * Its mark is cleared as soon as no removal is pending any more.
     */
    method SetModified(c: CRef, additions: seq<Lit>, removals: set<Lit>)
      requires Valid() && c in contents && Flagged(db.modified, c)
      requires forall i, j :: 0 <= i < j < |additions| ==> additions[i] != additions[j]
      requires (forall l :: l in additions ==> l !in contents[c]) && removals <= contents[c]
      modifies this, db`modified
      ensures Valid() && contents == old(contents)[c := old(contents)[c] + Elements(additions) - removals]
    {
      hide ListsFit, FlagsFit, FlagsFitBut;
      FlagsBut(O(), contents, db.deleted, db.modified, c);
      AddElements(c, additions);
      FlagsAfter(old(O()), O(), old(contents), contents, db.deleted, db.modified, c);
      if removals == {} {
        assert old(contents)[c] + Elements(additions) - removals == old(contents)[c] + Elements(additions);
        ClearIfNothingPending(c);
      } else {
        NoteRemovals(c, removals);
      }
    }

    /** Clears the mark of clause `c` if no removal is pending any more. */
    method ClearIfNothingPending(c: CRef)
      requires db.Valid() && ListsFit(O(), contents, db.deleted) && c in contents
      requires FlagsFitBut(O(), contents, db.deleted, db.modified, c)
      modifies this`pending, db`modified
      ensures Valid()
    {
      hide ListFits;
      if c in pending && pending[c] == {} {
        DropEmpty(O(), contents, db.deleted, c);
        pending := pending - {c};
        db.modified := db.modified[c := false];
      } else if c !in pending {
        db.modified := db.modified[c := false];
      }
    }

    /** Takes note of the elements removed from clause `c`. */
    method NoteRemovals(c: CRef, removals: set<Lit>)
      requires db.Valid() && ListsFit(O(), contents, db.deleted) && c in contents
      requires FlagsFitBut(O(), contents, db.deleted, db.modified, c)
      requires removals <= contents[c] && removals != {} && Flagged(db.modified, c)
      modifies this`pending, this`requiresUpdate, this`contents
      ensures Valid() && contents == old(contents)[c := old(contents)[c] - removals]
    {
      hide ListFits;
      PendingAgain(O(), contents, db.deleted, c, removals);
      pending := pending[c := (if c in pending then pending[c] else {}) + removals];
      requiresUpdate := requiresUpdate + removals;
      contents := contents[c := contents[c] - removals];
    }

    /** Brings the list of `l` up to date. */
    method Update(l: Lit)
      requires Valid()
      modifies this`lists, this`requiresUpdate, this`pending, db`modified
      ensures Valid() && Occurring(contents, l, ListAt(O(), l)) && requiresUpdate == old(requiresUpdate) - {l}
      ensures forall c :: c in pending ==> c in old(pending) && pending[c] <= old(pending[c])
      ensures forall c :: c in old(pending) && c !in contents ==> c in pending
      ensures forall c :: c in contents ==> !Pending(O(), c, l)
    {
      hide Updating, Represents, Occurring;
      var list := ListIn(lists, l);
      var kept: seq<CRef> := [];
      StartUpdate(O(), contents, db.deleted, db.modified, l);
      for i := 0 to |list|
        invariant db.Valid() && ListIn(lists, l) == list
        invariant Updating(O(), contents, db.deleted, db.modified, l, i, kept)
        invariant forall c :: c in pending ==> c in old(pending) && pending[c] <= old(pending[c])
        invariant forall c :: c in old(pending) && c !in contents ==> c in pending
        modifies this`pending, db`modified
      {
        var c := list[i];
        UpdateStep(O(), contents, db.deleted, db.modified, l, i, kept);
        if Flagged(db.deleted, c) {
          // Dropped.
        } else if Flagged(db.modified, c) && c in pending && l in pending[c] {
          ghost var o, modified0 := O(), db.modified;
          pending := pending[c := pending[c] - {l}];
          if pending[c] == {} {
            db.modified := db.modified[c := false];
            pending := pending - {c};
          }
          assert pending == WithoutPending(o, c, l).pending;
          UpdatePending(o, contents, db.deleted, modified0, l, i, kept, db.modified);
        } else {
          NotPending(O(), i, kept, l);
          kept := kept + [c];
        }
      }
      FinishUpdate(O(), contents, db.deleted, db.modified, l, kept);
      lists := lists[l := kept];
      requiresUpdate := requiresUpdate - {l};
      NonePending(O(), contents, l);
    }

    /** The clauses in which `l` occurs, each of them once. */
    method Lookup(l: Lit) returns (list: seq<CRef>)
      requires Valid()
      modifies this`lists, this`requiresUpdate, this`pending, db`modified
      ensures Valid() && Occurring(contents, l, list)
    {
      hide Represents;
      if l in requiresUpdate {
        Update(l);
      } else {
        UpToDate(O(), contents, db.deleted, db.modified, l);
      }
      list := ListIn(lists, l);
    }

    /**
     * Brings all lists up to date which are affected by removals. Afterwards nothing is expected to be pending:
     * this is true exactly if no removal was pending for a clause which has been deleted since.
     */
    method ResolveModifications()
      requires Valid()
      modifies this`lists, this`requiresUpdate, this`pending, db`modified
      ensures Valid() && forall c :: c in old(pending) ==> !Flagged(db.modified, c)
      ensures pending == map[] <==> old(pending.Keys) <= contents.Keys
    {
      hide Represents, Occurring;
      var toUpdate := set c, l | c in pending && l in pending[c] :: l;
      var toClear := pending.Keys;
      while toUpdate != {}
        invariant Valid() && pending.Keys <= old(pending.Keys)
        invariant forall c, l :: c in contents && Pending(O(), c, l) ==> l in toUpdate
        invariant forall c :: c in old(pending) && c !in contents ==> c in pending
        modifies this`lists, this`requiresUpdate, this`pending, db`modified
        decreases |toUpdate|
      {
        var l :| l in toUpdate;
        if l in requiresUpdate {
          Update(l);
        } else {
          NonePending(O(), contents, l);
        }
        toUpdate := toUpdate - {l};
      }
      NoneLeft(O(), contents);
      ClearModified(toClear);
      assert pending == map[] <==> pending.Keys == {};
    }

    /** Clears the modification marks of the given clauses. */
    method ClearModified(clauses: set<CRef>)
      requires Valid() && forall c :: c in contents ==> c !in pending
      modifies db`modified
      ensures Valid() && forall c :: c in clauses ==> !Flagged(db.modified, c)
    {
      hide Represents;
      var toClear := clauses;
      while toClear != {}
        invariant Valid() && forall c :: c in clauses && c !in toClear ==> !Flagged(db.modified, c)
        decreases |toClear|
      {
        var c :| c in toClear;
        ClearFits(O(), contents, db.deleted, db.modified, c);
        if c < |db.modified| {
          db.modified := db.modified[c := false];
        }
        toClear := toClear - {c};
      }
    }

    lemma NoneLeft(o: Occurrences, now: Contents)
      requires Represents(o, now, db.deleted, db.modified)
      requires forall c, l :: c in now ==> !Pending(o, c, l)
      ensures forall c :: c in now ==> c !in o.pending
    {
      forall c | c in now ensures c !in o.pending {
        if c in o.pending {
          var l :| l in o.pending[c];
          assert Pending(o, c, l);
        }
      }
    }

    lemma NotPending(o: Occurrences, i: nat, kept: seq<CRef>, l: Lit)
      requires Updating(o, contents, db.deleted, db.modified, l, i, kept) && i < |ListAt(o, l)|
      requires !Flagged(db.deleted, ListAt(o, l)[i])
      requires !Flagged(db.modified, ListAt(o, l)[i]) || !Pending(o, ListAt(o, l)[i], l)
      ensures !Pending(o, ListAt(o, l)[i], l)
    {
    }

    lemma NonePending(o: Occurrences, now: Contents, l: Lit)
      requires Represents(o, now, db.deleted, db.modified) && l !in o.requiresUpdate
      ensures forall c :: c in now ==> !Pending(o, c, l)
    {
      assert ListFits(o, now, db.deleted, l);
    }
  }

  lemma ClearFits(o: Occurrences, contents: Contents, deleted: seq<bool>, modified: seq<bool>, c: CRef)
    requires Represents(o, contents, deleted, modified) && forall d :: d in contents ==> d !in o.pending
    ensures c < |modified| ==> Represents(o, contents, deleted, modified[c := false])
  {
  }

  lemma FlagsBut(o: Occurrences, contents: Contents, deleted: seq<bool>, modified: seq<bool>, c: CRef)
    requires FlagsFit(o, contents, deleted, modified) && c in contents
    ensures FlagsFitBut(o, contents, deleted, modified, c)
  {
  }

  /** Only the elements of `c` have changed. */
  lemma FlagsAfter(o: Occurrences, o2: Occurrences, contents: Contents, contents2: Contents, deleted: seq<bool>,
                   modified: seq<bool>, c: CRef)
    requires FlagsFitBut(o, contents, deleted, modified, c) && contents2.Keys == contents.Keys
    requires (c in o2.pending <==> c in o.pending) && forall d :: d != c ==> (d in o2.pending <==> d in o.pending)
    requires forall d :: d in o2.pending && d != c ==> o2.pending[d] == o.pending[d]
    ensures FlagsFitBut(o2, contents2, deleted, modified, c)
  {
  }

  /** All pending removals of `c` have been revoked. */
  lemma DropEmpty(o: Occurrences, contents: Contents, deleted: seq<bool>, c: CRef)
    requires ListsFit(o, contents, deleted) && c in o.pending && o.pending[c] == {}
    ensures ListsFit(o.(pending := o.pending - {c}), contents, deleted)
  {
    var o2 := o.(pending := o.pending - {c});
    forall l ensures ListFits(o2, contents, deleted, l) {
      assert ListFits(o, contents, deleted, l) && ListAt(o2, l) == ListAt(o, l);
      assert forall d :: Pending(o2, d, l) <==> Pending(o, d, l);
    }
  }

  /** The removals are pending until the lists are updated. */
  lemma PendingAgain(o: Occurrences, contents: Contents, deleted: seq<bool>, c: CRef, removals: set<Lit>)
    requires ListsFit(o, contents, deleted) && c in contents && removals <= contents[c]
    ensures
      var p := (if c in o.pending then o.pending[c] else {}) + removals;
      ListsFit(o.(pending := o.pending[c := p], requiresUpdate := o.requiresUpdate + removals),
               contents[c := contents[c] - removals], deleted)
  {
    var p := (if c in o.pending then o.pending[c] else {}) + removals;
    var o2 := o.(pending := o.pending[c := p], requiresUpdate := o.requiresUpdate + removals);
    var contents2 := contents[c := contents[c] - removals];
    forall l ensures ListFits(o2, contents2, deleted, l) {
      assert ListFits(o, contents, deleted, l) && ListAt(o2, l) == ListAt(o, l);
    }
  }
}
