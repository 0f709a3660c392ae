/** Failure codes carried by the failure-information sub-TLV. RAP defines
    none of its own, so the implementation borrows a subset of the MSRP
    reservation failure codes of IEEE 802.1Q, Table 35-6. */
module FailureCodes {
  import opened Wrappers
  import opened Bytes

  datatype FailureCode =
    | Error
    | InsufficientBandwidth
    | InsufficientBridgeResources
    | InsufficientBandwidthForTrafficClass
    | StreamIdInUse
    | StreamDestinationInUse
    | StreamPreemptedByRank
    | PriorityNotAnRaClass
    | RaClassPriorityMismatch
    | MacLatencyExceeded

  /** The integer value of each member. */
  function Code(f: FailureCode): Byte {
    match f
    case Error => 0
    case InsufficientBandwidth => 1
    case InsufficientBridgeResources => 2
    case InsufficientBandwidthForTrafficClass => 3
    case StreamIdInUse => 4
    case StreamDestinationInUse => 5
    case StreamPreemptedByRank => 6
    case PriorityNotAnRaClass => 13
    case RaClassPriorityMismatch => 19
    case MacLatencyExceeded => 21
  }

  /** `Failure_code(n)`: the member with value n; any other value raises
      ValueError. */
  function FromCode(n: int): (r: Result<FailureCode>)
    ensures r.Ok? ==> Code(r.value) == n
    ensures r.Err? <==> n !in {0, 1, 2, 3, 4, 5, 6, 13, 19, 21}
    ensures r.Err? ==> r.error.ValueError?
  {
    match n
    case 0 => Ok(Error)
    case 1 => Ok(InsufficientBandwidth)
    case 2 => Ok(InsufficientBridgeResources)
    case 3 => Ok(InsufficientBandwidthForTrafficClass)
    case 4 => Ok(StreamIdInUse)
    case 5 => Ok(StreamDestinationInUse)
    case 6 => Ok(StreamPreemptedByRank)
    case 13 => Ok(PriorityNotAnRaClass)
    case 19 => Ok(RaClassPriorityMismatch)
    case 21 => Ok(MacLatencyExceeded)
    case _ => Err(ValueError("is not a valid Failure_code"))
  }

  /** Every member is recovered from its value. */
  lemma FromCodeCode(f: FailureCode)
    ensures FromCode(Code(f)) == Ok(f)
  {
  }
}
