/** The confidence stage, `Filter.removeFalsePositive`. */
module Confidence {
  import opened Wrappers
  import opened Detections

  /** Decode attempts with an error estimate at or above this are rejected. */
  const FalsePositiveThreshold: real := 0.2

  /** One attempt passes when its error is not a number or is below the threshold. */
  predicate Trusted(a: DecodeAttempt) {
    a.error.None? || a.error.value < FalsePositiveThreshold
  }

  /** `Array.prototype.every` with `Trusted`, scanning left to right. */
  function Every(attempts: seq<DecodeAttempt>): (b: bool)
    ensures b <==> forall i :: 0 <= i < |attempts| ==> Trusted(attempts[i])
  {
    if attempts == [] then true
    else Trusted(attempts[0]) && Every(attempts[1..])
  }

  /** Returns the detection itself when every attempt is trusted, `None` otherwise. */
  function RemoveFalsePositive(data: Detection): (r: Option<Detection>)
    ensures r == Some(data) || r == None
    ensures r.Some? <==>
      forall i :: 0 <= i < |data.decodedCodes| ==>
        data.decodedCodes[i].error.None? || data.decodedCodes[i].error.value < 0.2
    ensures r.None? <==>
      exists i :: 0 <= i < |data.decodedCodes| &&
        data.decodedCodes[i].error.Some? && data.decodedCodes[i].error.value >= 0.2
  {
    if Every(data.decodedCodes) then Some(data) else None
  }

  /** A detection without any decode attempt is accepted. */
  lemma AcceptsNoAttempts(code: string)
    ensures RemoveFalsePositive(Detection(code, [])) == Some(Detection(code, []))
  {
  }

  /** One attempt at or above the threshold rejects, wherever it sits and whatever the others are. */
  lemma OneBadAttemptRejects(data: Detection, i: nat, e: real)
    requires i < |data.decodedCodes| && data.decodedCodes[i].error == Some(e)
    requires e >= FalsePositiveThreshold
    ensures RemoveFalsePositive(data) == None
  {
  }
}
