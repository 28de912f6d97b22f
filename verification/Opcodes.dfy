/**
 The message types, the two dispatch tables and the two packet filters.
 */
module Opcodes {
  datatype Opcode =
    | MsgNullAction
    | CmsgPing
    | SmsgPing
    | SmsgQueuePosition
    | SmsgSystemMessage
    | CmsgMessage
    | SmsgMessage
    | CmsgWhisp
    | SmsgWhisp
    | CmsgCreateChannel
    | CmsgJoinChannel
    | SmsgJoinChannel
    | CmsgLeaveChannel
    | SmsgLeaveChannel
    | CmsgChannelList
    | CmsgChannelInfo
    | CmsgLogin
    | SmsgLogin
    | CmsgRefreshKey
    | SmsgRefreshKey
    | CmsgUsersChannelList
    | SmsgUsersChannelList

  /** When the dispatcher lets a packet reach its handler. */
  datatype Requirement = Logging | Logged | Never

  /** Where a packet may be processed. */
  datatype Processing = InPlace | ThreadUnsafe | ThreadSafe

  function ServerRequirement(op: Opcode): Requirement {
    match op
    case MsgNullAction => Never
    case SmsgQueuePosition | CmsgLogin | SmsgLogin | CmsgRefreshKey | SmsgRefreshKey
       | CmsgUsersChannelList | SmsgUsersChannelList => Logging
    case _ => Logged
  }

  function ServerProcessing(op: Opcode): Processing {
    match op
    case CmsgJoinChannel | CmsgLeaveChannel | CmsgLogin => ThreadUnsafe
    case _ => InPlace
  }

  /** The number of a message type on the wire. */
  function Code(op: Opcode): (n: nat)
    ensures n < 22
  {
    match op
    case MsgNullAction => 0
    case CmsgPing => 1
    case SmsgPing => 2
    case SmsgQueuePosition => 3
    case SmsgSystemMessage => 4
    case CmsgMessage => 5
    case SmsgMessage => 6
    case CmsgWhisp => 7
    case SmsgWhisp => 8
    case CmsgCreateChannel => 9
    case CmsgJoinChannel => 10
    case SmsgJoinChannel => 11
    case CmsgLeaveChannel => 12
    case SmsgLeaveChannel => 13
    case CmsgChannelList => 14
    case CmsgChannelInfo => 15
    case CmsgLogin => 16
    case SmsgLogin => 17
    case CmsgRefreshKey => 18
    case SmsgRefreshKey => 19
    case CmsgUsersChannelList => 20
    case SmsgUsersChannelList => 21
  }

  /** The message types in the order of their numbers. */
  const Types: seq<Opcode> := [
    MsgNullAction, CmsgPing, SmsgPing, SmsgQueuePosition, SmsgSystemMessage, CmsgMessage, SmsgMessage, CmsgWhisp, SmsgWhisp,
    CmsgCreateChannel, CmsgJoinChannel, SmsgJoinChannel, CmsgLeaveChannel, SmsgLeaveChannel, CmsgChannelList, CmsgChannelInfo,
    CmsgLogin, SmsgLogin, CmsgRefreshKey, SmsgRefreshKey, CmsgUsersChannelList, SmsgUsersChannelList]

  /** A number on the wire stands for one type only. */
  lemma {:induction false} OneTypeEach(op: Opcode)
    ensures Types[Code(op)] == op
  {
  }
}
