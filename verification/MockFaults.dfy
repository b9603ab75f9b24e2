/** The fault that a test arms in the mock provider: a result to answer at one point, a number of times. */
module MockFaults {
  import opened Statuses

  datatype FaultPoint =
    | NoFault | OtherFault
    | InferenceSubmit | InferenceSynchronize | AccessibilityRequest | AccessibilitySynchronize

  datatype Fault = Fault(point: FaultPoint, result: Status, remaining: nat)

  /** What the fault answers at this point, OK when it does not fire there. */
  function FaultResult(f: Fault, point: FaultPoint): Status {
    if f.point != point || f.remaining == 0 then Ok else f.result
  }

  /** What is left of the fault afterwards. */
  function FaultAfter(f: Fault, point: FaultPoint): Fault {
    if f.point != point || f.remaining == 0 then f
    else if f.remaining == 1 then Fault(NoFault, Ok, 0) else f.(remaining := f.remaining - 1)
  }

  /** The result of n calls in a row at the fault's point. */
  function Answers(f: Fault, point: FaultPoint, n: nat): (answers: seq<Status>)
    ensures |answers| == n
    decreases n
  {
    if n == 0 then [] else [FaultResult(f, point)] + Answers(FaultAfter(f, point), point, n - 1)
  }

  /** An armed fault answers its own point exactly as many times as it was armed for, then never again. */
  lemma {:induction false} FaultFiresExactly(f: Fault, point: FaultPoint, n: nat, k: nat)
    requires f.point == point != NoFault && k < n
    ensures Answers(f, point, n)[k] == if k < f.remaining then f.result else Ok
    decreases n
  {
    if k > 0 {
      if f.remaining == 1 {
        SpentFault(FaultAfter(f, point), point, n - 1, k - 1);
      } else {
        FaultFiresExactly(FaultAfter(f, point), point, n - 1, k - 1);
      }
    }
  }

  lemma {:induction false} SpentFault(f: Fault, point: FaultPoint, n: nat, k: nat)
    requires f.remaining == 0 && k < n
    ensures Answers(f, point, n)[k] == Ok
    decreases n
  {
    if k > 0 {
      SpentFault(f, point, n - 1, k - 1);
    }
  }

  /** At any other point the fault neither answers nor wears off. */
  lemma OtherPointsAreSpared(f: Fault, point: FaultPoint)
    requires f.point != point
    ensures FaultResult(f, point) == Ok && FaultAfter(f, point) == f
  {
  }
}
