/**
 * The part of a decoder result object that the scanner's filters look at:
 * the decoded code string and, per decoded module, an optional error
 * estimate.  `None` stands for an `error` field that is not a number.
 */
module Detections {
  import opened Wrappers

  datatype DecodeAttempt = DecodeAttempt(error: Option<real>)

  datatype Detection = Detection(code: string, decodedCodes: seq<DecodeAttempt>)
}
