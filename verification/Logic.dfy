// Models, entailment and unit propagation, independent of any data structure of the solver.

module Logic {
  import opened Literals

  /** A total assignment, given as the set of its true variables. */
  type Model = iset<nat>

  type Formula = seq<Clause>

  ghost predicate LitHolds(m: Model, l: Lit) {
    (l.v in m) == l.pos
  }

  ghost predicate ClauseHolds(m: Model, c: Clause) {
    exists l :: l in c && LitHolds(m, l)
  }

  ghost predicate FormulaHolds(m: Model, f: Formula) {
    forall c :: c in f ==> ClauseHolds(m, c)
  }

  ghost predicate Entails(f: Formula, c: Clause) {
    forall m: Model :: FormulaHolds(m, f) ==> ClauseHolds(m, c)
  }

  ghost predicate Satisfiable(f: Formula) {
    exists m: Model :: FormulaHolds(m, f)
  }

  /** The unit clauses forcing the given literals. */
  function Units(lits: seq<Lit>): Formula {
    seq(|lits|, i requires 0 <= i < |lits| => [lits[i]])
  }

  // ---- unit propagation ------------------------------------------------------------

  /** `s` contains every literal which unit propagation through `c` forces from `s`. */
  ghost predicate ClosedUnder(s: iset<Lit>, c: Clause) {
    forall l :: l in c && (forall x :: x in c && x != l ==> Neg(x) in s) ==> l in s
  }

  ghost predicate Falsified(s: iset<Lit>, c: Clause) {
    forall x :: x in c ==> Neg(x) in s
  }

  /** `s` is closed under unit propagation through the clauses of `f`. */
  ghost predicate UpClosed(s: iset<Lit>, f: Formula) {
    forall c :: c in f ==> ClosedUnder(s, c)
  }

  ghost predicate UpConflict(s: iset<Lit>, f: Formula) {
    exists c :: c in f && Falsified(s, c)
  }

  /** `s` contains the negation of every literal of `c`. */
  ghost predicate Refutes(s: iset<Lit>, c: Clause) {
    forall l :: l in c ==> Neg(l) in s
  }

  /**
   * `c` is an asymmetric tautology with respect to `f`: assuming the negation of `c`, unit
   * propagation through `f` derives a conflict. The propagation result is the least closed set
   * containing the assumed literals, so it falsifies a clause exactly if all closed sets do.
   */
  ghost predicate AsymmetricTautology(f: Formula, c: Clause) {
    forall s: iset<Lit> :: UpClosed(s, f) && Refutes(s, c) ==> UpConflict(s, f)
  }

  /** The literals true in a model. */
  ghost function TrueLits(m: Model): iset<Lit> {
    iset l: Lit | LitHolds(m, l)
  }

  lemma ModelIsClosed(m: Model, f: Formula)
    requires FormulaHolds(m, f)
    ensures UpClosed(TrueLits(m), f) && !UpConflict(TrueLits(m), f)
  {
  }

  /** Unit propagation is sound: asymmetric tautologies are consequences. */
  lemma AsymmetricTautologyIsEntailed(f: Formula, c: Clause)
    requires AsymmetricTautology(f, c)
    ensures Entails(f, c)
  {
    forall m: Model | FormulaHolds(m, f)
      ensures ClauseHolds(m, c)
    {
      ModelIsClosed(m, f);
      assert !ClauseHolds(m, c) ==> Refutes(TrueLits(m), c);
    }
  }
}
