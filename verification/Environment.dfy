// What the search does not decide by itself: heuristic policies, and requests to stop.

module Environments {

  /**
   * Is a restart due? Has a request to stop been made? Is it time to simplify the clauses, or to delete redundant
   * ones? If so, is the next redundant clause to be deleted?
   */
  datatype Question = RestartDue | StopRequested | SimplifyNow | ReduceNow | DeleteNext

  datatype Answer = Answer(question: Question, affirmed: bool)

  /** Since the answers `log0`, the question has been answered in the affirmative. */
  ghost predicate Affirmed(log0: seq<Answer>, log: seq<Answer>, question: Question) {
    log0 <= log && Answer(question, true) in log[|log0|..]
  }

  lemma AffirmedSince(log0: seq<Answer>, log1: seq<Answer>, log2: seq<Answer>, question: Question)
    requires log0 <= log1 <= log2
    ensures Affirmed(log0, log2, question) <==> Affirmed(log0, log1, question) || Affirmed(log1, log2, question)
  {
    assert log2[|log0|..] == log1[|log0|..] + log2[|log1|..];
  }

  /** The answers number `first` to `first + n - 1`. */
  function AnswersFrom(log: seq<Answer>, first: nat, n: nat): (a: seq<bool>)
    requires first + n <= |log|
    ensures |a| == n
  {
    seq(n, i requires 0 <= i < n => log[first + i].affirmed)
  }

  /** Answers the questions of the solver, arbitrarily: so do policies and users. All answers are remembered. */
  class Environment {
    var log: seq<Answer>

    constructor ()
      ensures log == []
    {
      log := [];
    }

    method Ask(question: Question) returns (affirmed: bool)
      modifies this
      ensures log == old(log) + [Answer(question, affirmed)]
      ensures forall log0, q :: log0 <= old(log) ==>
                (Affirmed(log0, log, q) <==> Affirmed(log0, old(log), q) || (q == question && affirmed))
    {
      affirmed := *;
      log := log + [Answer(question, affirmed)];
      forall log0: seq<Answer>, q | log0 <= old(log)
        ensures Affirmed(log0, log, q) <==> Affirmed(log0, old(log), q) || (q == question && affirmed)
      {
        AffirmedSince(log0, old(log), log, q);
      }
    }
  }
}
