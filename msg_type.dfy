/** Tags of the messages the tasks exchange over their queues. */
module MsgTypes {
  datatype MsgType =
    | LrpAssociatePortalReq
    | LrpRecordWrittenInd
    | LrpDeleteRecordReq
    | LrpLocalTargetPortReq
    | LrpNeighbourTargetPortReq
    | LrpFirstHelloInd
    | LrpPortalStatusInd
    | RpsiDeclareReq
    | RpsiWithdrawReq
    | RpsiRegisterInd
    | RpsiDeregisterInd
    | PcRegTalkerRequirementInd
    | PcRegListenerRequirementInd
    | PcDeregTalkerRequirementInd
    | PcDeregListenerRequirementInd
    | SmStreamStatusInd
    | CcAddStreamReq
    | CcUpdateStreamReq
    | CcRemoveStreamReq
    | CcAddListenerReq
    | CcRemListenerReq
    | CcUpdateListenerReq
    | CcReservationResultInd
    | WhhGetHookAddrReq
    | WhhGetHookAddrInd
    | WhhResultInd

  /** The integer value of each tag: the high nibble names the task that
      owns the message. */
  function Code(m: MsgType): nat {
    match m
    case LrpAssociatePortalReq => 0x1000
    case LrpRecordWrittenInd => 0x1001
    case LrpDeleteRecordReq => 0x1002
    case LrpLocalTargetPortReq => 0x1003
    case LrpNeighbourTargetPortReq => 0x1004
    case LrpFirstHelloInd => 0x1005
    case LrpPortalStatusInd => 0x1006
    case RpsiDeclareReq => 0x2000
    case RpsiWithdrawReq => 0x2001
    case RpsiRegisterInd => 0x2002
    case RpsiDeregisterInd => 0x2003
    case PcRegTalkerRequirementInd => 0x3000
    case PcRegListenerRequirementInd => 0x3001
    case PcDeregTalkerRequirementInd => 0x3002
    case PcDeregListenerRequirementInd => 0x3003
    case SmStreamStatusInd => 0x4000
    case CcAddStreamReq => 0x5000
    case CcUpdateStreamReq => 0x5001
    case CcRemoveStreamReq => 0x5002
    case CcAddListenerReq => 0x5003
    case CcRemListenerReq => 0x5004
    case CcUpdateListenerReq => 0x5005
    case CcReservationResultInd => 0x5006
    case WhhGetHookAddrReq => 0x6000
    case WhhGetHookAddrInd => 0x6001
    case WhhResultInd => 0x6002
  }

  /** The requests the stream-management task sends to the CNC connector. */
  predicate IsCncRequest(m: MsgType) {
    Code(m) / 0x1000 == 5
  }
}
