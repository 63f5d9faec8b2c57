/**
 The gate between an executor and a commit: a task result is accepted only when
 its record, task, attempt, payload count and every payload's length and digest
 agree (result_verification.cpp).

 BLAKE3 is a parameter: nothing here depends on which function it is.
 */
module ResultVerification {
  import opened Basics

  type Digest = seq<byte>

  datatype ArtifactRef = ArtifactRef(bytes: nat, blake3: Digest)

  /** The two digests a result is checked against. */
  datatype Hashing = Hashing(payload: seq<byte> -> Digest, outputs: seq<ArtifactRef> -> Digest)

  datatype TaskStatus = Succeeded | Failed

  datatype TaskError = TaskError(code: string, message: string, retryable: bool)

  /** `fieldsValid` stands for the identifier, diagnostics, execution, error-code and
      artifact-reference syntax checks, whose rules play no part in scheduling. */
  datatype TaskResult = TaskResult(
    taskId: string,
    attempt: nat,
    status: TaskStatus,
    outputs: seq<ArtifactRef>,
    outputDigest: Digest,
    error: Option<TaskError>,
    fieldsValid: bool)

  datatype AttemptOutput = AttemptOutput(result: TaskResult, payloads: seq<seq<byte>>)

  datatype Defect =
    | RecordRejected
    | WrongTask
    | WrongAttempt
    | PayloadCount
    | PayloadMismatch(index: nat)

  /** A result and the executor that produced it. */
  datatype CommittedResult = CommittedResult(output: AttemptOutput, executorId: string)

  predicate StatusConsistent(r: TaskResult) {
    match r.status
    case Succeeded => r.error.None?
    case Failed => r.error.Some? && r.outputs == []
  }

  predicate ValidTaskResult(h: Hashing, r: TaskResult) {
    && r.fieldsValid
    && r.attempt != 0
    && StatusConsistent(r)
    && h.outputs(r.outputs) == r.outputDigest
  }

  predicate PayloadMatches(h: Hashing, payload: seq<byte>, ref: ArtifactRef) {
    |payload| == ref.bytes && h.payload(payload) == ref.blake3
  }

  /** First payload from `from` on that does not match its reference. */
  function FirstMismatch(h: Hashing, payloads: seq<seq<byte>>, outputs: seq<ArtifactRef>, from: nat): (index: Option<nat>)
    requires |payloads| == |outputs|
    ensures index.None? ==> forall i :: from <= i < |outputs| ==> PayloadMatches(h, payloads[i], outputs[i])
    ensures index.Some? ==>
              && from <= index.value < |outputs|
              && !PayloadMatches(h, payloads[index.value], outputs[index.value])
              && forall i :: from <= i < index.value ==> PayloadMatches(h, payloads[i], outputs[i])
    decreases |outputs| - from
  {
    if from >= |outputs| then None
    else if !PayloadMatches(h, payloads[from], outputs[from]) then Some(from)
    else FirstMismatch(h, payloads, outputs, from + 1)
  }

  function FindResultDefect(h: Hashing, taskId: string, attempt: nat, output: AttemptOutput): Option<Defect> {
    var r := output.result;
    if !ValidTaskResult(h, r) then Some(RecordRejected)
    else if r.taskId != taskId then Some(WrongTask)
    else if r.attempt != attempt then Some(WrongAttempt)
    else if |output.payloads| != |r.outputs| then Some(PayloadCount)
    else
      match FirstMismatch(h, output.payloads, r.outputs, 0)
      case Some(index) => Some(PayloadMismatch(index))
      case None => None
  }

  /** Everything a committed result must satisfy, with no order between the checks: a record in which all fields agree,
      for this task and this attempt, with a payload for each output, of its length and its digest. */
  ghost predicate Verified(h: Hashing, taskId: string, attempt: nat, output: AttemptOutput) {
    var r := output.result;
    && r.fieldsValid && r.taskId == taskId && r.attempt == attempt && attempt > 0
    && (r.status == Succeeded <==> r.error.None?)
    && (r.status == Failed ==> r.outputs == [])
    && r.outputDigest == h.outputs(r.outputs)
    && |output.payloads| == |r.outputs|
    && forall i :: 0 <= i < |r.outputs| ==>
         |output.payloads[i]| == r.outputs[i].bytes && h.payload(output.payloads[i]) == r.outputs[i].blake3
  }

  /** The gate passes exactly the verified results, and of the rest says the first thing wrong: an invalid record, another
      task, another attempt, a missing or extra payload, or the first payload that is not the one referred to. */
  lemma GateIsExact(h: Hashing, taskId: string, attempt: nat, output: AttemptOutput)
    ensures FindResultDefect(h, taskId, attempt, output).None? <==> Verified(h, taskId, attempt, output)
    ensures var r, defect := output.result, FindResultDefect(h, taskId, attempt, output);
            && (defect == Some(RecordRejected) <==> !ValidTaskResult(h, r))
            && (defect == Some(WrongTask) <==> ValidTaskResult(h, r) && r.taskId != taskId)
            && (defect == Some(WrongAttempt) <==> ValidTaskResult(h, r) && r.taskId == taskId && r.attempt != attempt)
            && (defect == Some(PayloadCount) <==>
                  ValidTaskResult(h, r) && r.taskId == taskId && r.attempt == attempt && |output.payloads| != |r.outputs|)
    ensures forall i: nat :: FindResultDefect(h, taskId, attempt, output) == Some(PayloadMismatch(i)) ==>
                          && i < |output.payloads| == |output.result.outputs|
                          && !PayloadMatches(h, output.payloads[i], output.result.outputs[i])
                          && forall j :: 0 <= j < i ==> PayloadMatches(h, output.payloads[j], output.result.outputs[j])
  {
    if |output.payloads| == |output.result.outputs| {
      var mismatch := FirstMismatch(h, output.payloads, output.result.outputs, 0);
      if mismatch.Some? {
        assert !PayloadMatches(h, output.payloads[mismatch.value], output.result.outputs[mismatch.value]);
      }
    }
  }

  /** What the scheduler does with an attempt's output. */
  datatype Verdict = Invalid | Success(digest: Digest) | Retryable | Permanent

  function Judge(h: Hashing, taskId: string, attempt: nat, output: AttemptOutput): Verdict {
    if FindResultDefect(h, taskId, attempt, output).Some? then Invalid
    else
      match output.result.status
      case Succeeded => Success(output.result.outputDigest)
      case Failed => if output.result.error.value.retryable then Retryable else Permanent
  }

  /** An output is a success or a failure only if it passes every check; a failure is retried exactly if it says so. */
  lemma VerdictIsExact(h: Hashing, taskId: string, attempt: nat, output: AttemptOutput)
    ensures var verdict, verified := Judge(h, taskId, attempt, output), Verified(h, taskId, attempt, output);
            && (verdict.Invalid? <==> !verified)
            && (verdict.Success? <==> verified && output.result.status == Succeeded)
            && (verdict.Success? ==> verdict.digest == output.result.outputDigest)
            && (verdict.Retryable? <==> verified && output.result.status == Failed && output.result.error.value.retryable)
            && (verdict.Permanent? <==> verified && output.result.status == Failed && !output.result.error.value.retryable)
  {
    GateIsExact(h, taskId, attempt, output);
  }

  /** No two of the byte strings and artifact lists of these outputs that differ share a digest. */
  ghost predicate TellsApart(h: Hashing, a: AttemptOutput, b: AttemptOutput) {
    && (h.outputs(a.result.outputs) == h.outputs(b.result.outputs) ==> a.result.outputs == b.result.outputs)
    && forall i, j :: 0 <= i < |a.payloads| && 0 <= j < |b.payloads| && h.payload(a.payloads[i]) == h.payload(b.payloads[j]) ==>
                        a.payloads[i] == b.payloads[j]
  }

  /** One output digest fixes every payload byte, so results that agree on the digest agree on their content. */
  lemma EqualDigestsEqualPayloads(h: Hashing, task: string, first: nat, a: AttemptOutput, second: nat, b: AttemptOutput)
    requires TellsApart(h, a, b)
    requires Judge(h, task, first, a).Success? && Judge(h, task, second, b).Success?
    requires a.result.outputDigest == b.result.outputDigest
    ensures a.payloads == b.payloads
  {
    GateIsExact(h, task, first, a);
    GateIsExact(h, task, second, b);
    assert a.result.outputs == b.result.outputs;
    forall i | 0 <= i < |a.payloads|
      ensures a.payloads[i] == b.payloads[i]
    {
      assert PayloadMatches(h, a.payloads[i], a.result.outputs[i]);
      assert PayloadMatches(h, b.payloads[i], b.result.outputs[i]);
    }
  }
}
