// The binary DRAT encoding of proofs, and the certificate which writes it.

module DratCertificates {
  import opened Literals
  import opened FirstUip

  type Byte = x: int | 0 <= x < 256

  /** A proof step: a clause is added or deleted. */
  datatype Step = Step(added: bool, clause: Clause)

  ghost predicate Regular(c: Clause) {
    forall l :: l in c ==> l.v < UNDEFINED_LIT.v
  }

  // ---- the format ------------------------------------------------------------------

  /** The number standing for a literal: variables are counted from 1, and the lowest bit is 0 for positive ones. */
  function DratNumber(l: Lit): nat {
    2 * (l.v + 1) + if l.pos then 0 else 1
  }

  /** The number in groups of 7 bits, least significant group first. All but the last one have the highest bit set. */
  function NumberBytes(x: nat): seq<Byte> {
    if x < 128 then [x] else [128 + x % 128] + NumberBytes(x / 128)
  }

  /** The clause with its literal at index `i` moved to the front. */
  function PivotFirst(c: Clause, i: nat): Clause
    requires i < |c|
  {
    [c[i]] + c[..i] + c[i + 1..]
  }

  function LiteralBytes(c: Clause): seq<Byte> {
    if c == [] then [] else LiteralBytes(c[..|c| - 1]) + NumberBytes(DratNumber(c[|c| - 1]))
  }

  function StepBytes(s: Step): seq<Byte> {
    [if s.added then 0x61 else 0x64] + LiteralBytes(s.clause) + [0]
  }

  function ProofBytes(steps: seq<Step>): seq<Byte> {
    if steps == [] then [] else ProofBytes(steps[..|steps| - 1]) + StepBytes(steps[|steps| - 1])
  }

  // ---- reading it ------------------------------------------------------------------

  /** Something read from the beginning of a sequence of bytes, and what follows it. */
  datatype Parsed<T> = Failure | Parsed(value: T, rest: seq<Byte>)

  function ReadNumber(bs: seq<Byte>): (r: Parsed<nat>)
    ensures r.Parsed? ==> |r.rest| < |bs|
  {
    if bs == [] then Failure
    else if bs[0] < 128 then Parsed(bs[0], bs[1..])
    else
      match ReadNumber(bs[1..])
      case Failure => Failure
      case Parsed(x, rest) => Parsed(bs[0] - 128 + 128 * x, rest)
  }

  /** The literals up to the next zero. */
  function ReadLiterals(bs: seq<Byte>): (r: Parsed<Clause>)
    ensures r.Parsed? ==> |r.rest| < |bs|
    decreases |bs|
  {
    if bs == [] then Failure
    else if bs[0] == 0 then Parsed([], bs[1..])
    else
      match ReadNumber(bs)
      case Failure => Failure
      case Parsed(x, rest) =>
        if x < 2 then Failure
        else
          match ReadLiterals(rest)
          case Failure => Failure
          case Parsed(c, rest2) => Parsed([Lit(x / 2 - 1, x % 2 == 0)] + c, rest2)
  }

  function ReadProof(bs: seq<Byte>): Option<seq<Step>>
    decreases |bs|
  {
    if bs == [] then Some([])
    else if bs[0] != 0x61 && bs[0] != 0x64 then None
    else
      match ReadLiterals(bs[1..])
      case Failure => None
      case Parsed(c, rest) =>
        match ReadProof(rest)
        case None => None
        case Some(steps) => Some([Step(bs[0] == 0x61, c)] + steps)
  }

  // ---- round trips -----------------------------------------------------------------

  lemma {:induction false} NumberRead(x: nat, rest: seq<Byte>)
    ensures ReadNumber(NumberBytes(x) + rest) == Parsed(x, rest)
  {
    var bs := NumberBytes(x) + rest;
    if x >= 128 {
      NumberRead(x / 128, rest);
      assert bs[1..] == NumberBytes(x / 128) + rest;
    } else {
      assert bs[1..] == rest;
    }
  }

  lemma {:induction false} NumberNotZero(x: nat)
    requires x > 0
    ensures |NumberBytes(x)| >= 1 && 0 !in NumberBytes(x)
  {
    if x >= 128 {
      NumberNotZero(x / 128);
    }
  }

  lemma LiteralRead(l: Lit, d: Clause, bs: seq<Byte>, rest: seq<Byte>)
    requires ReadLiterals(bs) == Parsed(d, rest)
    ensures ReadLiterals(NumberBytes(DratNumber(l)) + bs) == Parsed([l] + d, rest)
  {
    hide NumberBytes, ReadNumber;
    var number := NumberBytes(DratNumber(l));
    NumberRead(DratNumber(l), bs);
    NumberNotZero(DratNumber(l));
    assert (number + bs)[0] == number[0] && number[0] in number;
  }

  /** The literals of `c` followed by those of `d` and a zero. */
  lemma {:induction false} LiteralsRead(c: Clause, d: Clause, bs: seq<Byte>, rest: seq<Byte>)
    requires ReadLiterals(bs) == Parsed(d, rest)
    ensures ReadLiterals(LiteralBytes(c) + bs) == Parsed(c + d, rest)
    decreases |c|
  {
    hide ReadLiterals, NumberBytes, DratNumber;
    if c == [] {
      assert LiteralBytes(c) + bs == bs && c + d == d;
    } else {
      var l := c[|c| - 1];
      var number := NumberBytes(DratNumber(l));
      LiteralRead(l, d, bs, rest);
      LiteralsRead(c[..|c| - 1], [l] + d, number + bs, rest);
      assert LiteralBytes(c) + bs == LiteralBytes(c[..|c| - 1]) + (number + bs);
      assert c + d == c[..|c| - 1] + ([l] + d);
    }
  }

  /** Reading a step yields that step, whatever follows. */
  lemma StepRead(s: Step, rest: seq<Byte>)
    ensures ReadLiterals((StepBytes(s) + rest)[1..]) == Parsed(s.clause, rest)
  {
    assert (StepBytes(s) + rest)[1..] == LiteralBytes(s.clause) + ([0] + rest);
    assert ([0] + rest)[1..] == rest;
    assert ReadLiterals([0] + rest) == Parsed([], rest);
    LiteralsRead(s.clause, [], [0] + rest, rest);
    assert s.clause + [] == s.clause;
  }

  lemma StepThenProofRead(s: Step, bs: seq<Byte>, more: seq<Step>)
    requires ReadProof(bs) == Some(more)
    ensures ReadProof(StepBytes(s) + bs) == Some([s] + more)
  {
    hide ReadLiterals, LiteralBytes;
    StepRead(s, bs);
  }

  lemma {:induction false} ProofReadBefore(steps: seq<Step>, bs: seq<Byte>, more: seq<Step>)
    requires ReadProof(bs) == Some(more)
    ensures ReadProof(ProofBytes(steps) + bs) == Some(steps + more)
    decreases |steps|
  {
    hide ReadProof, StepBytes;
    if steps == [] {
      assert ProofBytes(steps) + bs == bs && steps + more == more;
    } else {
      var s := steps[|steps| - 1];
      StepThenProofRead(s, bs, more);
      ProofReadBefore(steps[..|steps| - 1], StepBytes(s) + bs, [s] + more);
      assert ProofBytes(steps) + bs == ProofBytes(steps[..|steps| - 1]) + (StepBytes(s) + bs);
      assert steps + more == steps[..|steps| - 1] + ([s] + more);
    }
  }

  /** A written proof can be read again: every sequence of steps is recovered from its bytes. */
  lemma ProofRead(steps: seq<Step>)
    ensures ReadProof(ProofBytes(steps)) == Some(steps)
  {
    ProofReadBefore(steps, [], []);
    assert ProofBytes(steps) + [] == ProofBytes(steps) && steps + [] == steps;
  }

  // ---- sizes -----------------------------------------------------------------------

  /** A literal takes at most 5 bytes. */
  lemma NumberSize(l: Lit)
    requires l.v < UNDEFINED_LIT.v
    ensures 1 <= |NumberBytes(DratNumber(l))| <= 5
  {
    var x := DratNumber(l);
    assert x / 128 / 128 / 128 / 128 < 128;
    assert |NumberBytes(x / 128 / 128 / 128 / 128)| == 1;
    assert 1 <= |NumberBytes(x / 128 / 128 / 128)| <= 2;
    assert 1 <= |NumberBytes(x / 128 / 128)| <= 3;
    assert 1 <= |NumberBytes(x / 128)| <= 4;
  }

  lemma {:induction false} LiteralBytesConcat(c: Clause, d: Clause)
    ensures LiteralBytes(c + d) == LiteralBytes(c) + LiteralBytes(d)
  {
    hide NumberBytes, DratNumber;
    if d == [] {
      assert c + d == c;
    } else {
      assert (c + d)[..|c + d| - 1] == c + d[..|d| - 1];
      LiteralBytesConcat(c, d[..|d| - 1]);
    }
  }

  lemma RegularParts(c: Clause, i: nat)
    requires Regular(c) && i < |c|
    ensures Regular(c[i..i + 1]) && Regular(c[..i]) && Regular(c[i + 1..])
    ensures PivotFirst(c, i) == c[i..i + 1] + c[..i] + c[i + 1..]
  {
  }

  // ---- the encoder -----------------------------------------------------------------

  lemma NumberStep(x: nat)
    ensures |NumberBytes(x)| >= 1
    ensures NumberBytes(x) == if x < 128 then [x] else [128 + x % 128] + NumberBytes(x / 128)
    ensures x >= 128 ==> |NumberBytes(x / 128)| >= 1 && x / 128 > 0
  {
  }

  /** Writes the bytes of a literal to `target`, beginning at `start`. */
  method EncodeLiteral(l: Lit, target: array<Byte>, start: nat) returns (end: nat)
    requires l.v < UNDEFINED_LIT.v && start + 5 <= target.Length
    modifies target
    ensures start <= end <= start + 5 && target[start..end] == NumberBytes(DratNumber(l))
    ensures target[..start] == old(target[..start])
  {
    hide NumberBytes;
    var rawValue: nat := Raw(l) + 2;
    // Flips the lowest bit.
    rawValue := if rawValue % 2 == 0 then rawValue + 1 else rawValue - 1;
    ghost var number := NumberBytes(rawValue);
    assert rawValue == DratNumber(l);
    NumberSize(l);
    end := start;
    var more := true;
    while more
      invariant start <= end && target[..start] == old(target[..start])
      invariant more ==> end - start + |NumberBytes(rawValue)| <= 5 && target[start..end] + NumberBytes(rawValue) == number
      invariant !more ==> end <= start + 5 && target[start..end] == number
      decreases more, rawValue
    {
      NumberStep(rawValue);
      var leastSignificant := rawValue % 128;
      var mask := if rawValue / 128 != 0 then 0x80 else 0;
      ghost var before := target[start..end];
      target[end] := leastSignificant + mask;
      assert target[start..end] == before && target[start..end + 1] == before + [leastSignificant + mask];
      assert target[..start] == old(target[..start]);
      assert rawValue >= 128 ==>
          before + NumberBytes(rawValue) == (before + [leastSignificant + mask]) + NumberBytes(rawValue / 128);
      rawValue := rawValue / 128;
      end := end + 1;
      more := rawValue != 0;
    }
  }

  /** Writes the bytes of all literals to `target`, beginning at `start`. */
  method EncodeBinaryDrat(lits: Clause, target: array<Byte>, start: nat) returns (size: nat)
    requires Regular(lits) && start + 5 * |lits| <= target.Length
    modifies target
    ensures size <= 5 * |lits| && target[start..start + size] == LiteralBytes(lits)
    ensures target[..start] == old(target[..start])
  {
    var output := start;
    for i := 0 to |lits|
      invariant start <= output <= start + 5 * i && target[..start] == old(target[..start])
      invariant target[start..output] == LiteralBytes(lits[..i])
    {
      assert lits[i] in lits && lits[..i + 1][..i] == lits[..i];
      ghost var before := target[..output];
      var end := EncodeLiteral(lits[i], target, output);
      assert target[start..output] == before[start..] && target[..start] == before[..start];
      assert target[start..end] == target[start..output] + target[output..end];
      output := end;
    }
    assert lits[..|lits|] == lits;
    size := output - start;
  }

  /** A certificate; `file` are the bytes written so far. */
  class DratCertificate {
    var buffer: array<Byte>
    var file: seq<Byte>

    ghost var steps: seq<Step>

    /** The file contains the proof, in the order in which the steps have been added. */
    ghost predicate Valid()
      reads this
    {
      buffer.Length >= 1 && file == ProofBytes(steps)
    }

    constructor ()
      ensures Valid() && fresh(buffer) && steps == []
    {
      buffer := new Byte[1];
      file, steps := [], [];
    }

    method EnsureBufferLargeEnough(numLits: nat)
      modifies this`buffer
      ensures buffer.Length >= 5 * numLits + 2 && (buffer == old(buffer) || fresh(buffer))
    {
      var required := 5 * numLits + 2;
      if buffer.Length < required {
        var larger := new Byte[required];
        var smaller := buffer;
        for i := 0 to smaller.Length {
          larger[i] := smaller[i];
        }
        buffer := larger;
      }
    }

    method WriteLiterals(clause: Clause, added: bool)
      requires Valid() && Regular(clause)
      modifies this, buffer
      ensures Valid() && (buffer == old(buffer) || fresh(buffer)) && steps == old(steps) + [Step(added, clause)]
    {
      EnsureBufferLargeEnough(|clause|);
      buffer[0] := if added then 0x61 else 0x64;
      var encodingLen := EncodeBinaryDrat(clause, buffer, 1);
      assert buffer[..1][0] == buffer[0];
      encodingLen := encodingLen + 1;
      buffer[encodingLen] := 0;
      assert buffer[..encodingLen + 1] == [buffer[0]] + buffer[1..encodingLen] + [0];
      file := file + buffer[..encodingLen + 1];
      AddStep(Step(added, clause));
      steps := steps + [Step(added, clause)];
    }

    /** Encodes the literal at `pivotIdx` first. */
    method EncodePivotFirst(clause: Clause, pivotIdx: nat) returns (encodingLen: nat)
      requires Regular(clause) && pivotIdx < |clause| && buffer.Length >= 5 * |clause| + 2
      modifies buffer
      ensures 1 <= encodingLen <= 5 * |clause| + 1 && buffer[0] == old(buffer[0])
      ensures buffer[1..encodingLen] == LiteralBytes(PivotFirst(clause, pivotIdx))
    {
      hide LiteralBytes, Regular;
      var pivot, before, after := clause[pivotIdx..pivotIdx + 1], clause[..pivotIdx], clause[pivotIdx + 1..];
      RegularParts(clause, pivotIdx);
      encodingLen := EncodeBinaryDrat(pivot, buffer, 1);
      encodingLen := encodingLen + 1;
      assert buffer[..1][0] == buffer[0];
      ghost var first := buffer[..encodingLen];
      assert first[1..] == LiteralBytes(pivot);
      var more := EncodeBinaryDrat(before, buffer, encodingLen);
      ghost var second := buffer[..encodingLen + more];
      assert second == first + buffer[encodingLen..encodingLen + more];
      assert second[1..] == first[1..] + LiteralBytes(before);
      encodingLen := encodingLen + more;
      more := EncodeBinaryDrat(after, buffer, encodingLen);
      ghost var third := buffer[..encodingLen + more];
      assert third == second + buffer[encodingLen..encodingLen + more];
      assert third[1..] == second[1..] + LiteralBytes(after);
      encodingLen := encodingLen + more;
      assert buffer[1..encodingLen] == third[1..];
      assert buffer[1..encodingLen] == LiteralBytes(pivot) + LiteralBytes(before) + LiteralBytes(after);
      assert buffer[0] == second[0] == first[0];
      LiteralBytesConcat(pivot, before);
      LiteralBytesConcat(pivot + before, after);
    }

    /** Writes a step with the literal at `pivotIdx` first. */
    method WriteLiteralsPivotFirst(clause: Clause, added: bool, pivotIdx: nat)
      requires Valid() && Regular(clause) && pivotIdx < |clause|
      modifies this, buffer
      ensures Valid() && (buffer == old(buffer) || fresh(buffer))
      ensures steps == old(steps) + [Step(added, PivotFirst(clause, pivotIdx))]
    {
      hide LiteralBytes, PivotFirst, ProofBytes, Regular;
      EnsureBufferLargeEnough(|clause|);
      buffer[0] := if added then 0x61 else 0x64;
      var encodingLen := EncodePivotFirst(clause, pivotIdx);
      ghost var s := Step(added, PivotFirst(clause, pivotIdx));
      buffer[encodingLen] := 0;
      assert buffer[..encodingLen + 1] == [buffer[0]] + buffer[1..encodingLen] + [0];
      file := file + buffer[..encodingLen + 1];
      AddStep(s);
      steps := steps + [s];
    }

    /** All steps can be read from the file again. */
    lemma Recovered()
      requires Valid()
      ensures ReadProof(file) == Some(steps)
    {
      ProofRead(steps);
    }

    lemma AddStep(s: Step)
      ensures ProofBytes(steps) + StepBytes(s) == ProofBytes(steps + [s])
    {
    }

    method AddAtClause(clause: Clause)
      requires Valid() && Regular(clause)
      modifies this, buffer
      ensures Valid() && (buffer == old(buffer) || fresh(buffer)) && steps == old(steps) + [Step(true, clause)]
    {
      WriteLiterals(clause, true);
    }

    /** Adds a clause whose pivot literal has to come first. */
    method AddRatClause(clause: Clause, pivotIdx: nat)
      requires Valid() && Regular(clause) && (pivotIdx == 0 || pivotIdx < |clause|)
      modifies this, buffer
      ensures Valid() && (buffer == old(buffer) || fresh(buffer))
      ensures |steps| == |old(steps)| + 1 && steps[..|old(steps)|] == old(steps)
      ensures
        var s := steps[|old(steps)|];
        s.added && multiset(s.clause) == multiset(clause) && (clause != [] ==> s.clause[0] == clause[pivotIdx])
    {
      if pivotIdx == 0 {
        WriteLiterals(clause, true);
      } else {
        assert clause == clause[..pivotIdx] + [clause[pivotIdx]] + clause[pivotIdx + 1..];
        WriteLiteralsPivotFirst(clause, true, pivotIdx);
        assert PivotFirst(clause, pivotIdx)[0] == clause[pivotIdx];
      }
    }

    method DeleteClause(clause: Clause)
      requires Valid() && Regular(clause)
      modifies this, buffer
      ensures Valid() && (buffer == old(buffer) || fresh(buffer)) && steps == old(steps) + [Step(false, clause)]
    {
      WriteLiterals(clause, false);
    }
  }
}
