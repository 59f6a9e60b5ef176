/** Identifiers, acknowledgement statuses and dispatch results of the protocol (CanProtocolDefinitions.hpp). */
module CanProtocol {
  import opened CanTypes

  const SYSTEM_CATEGORY: byte := 0x00
  const HEARTBEAT_TYPE: byte := 0x01
  const COMMAND_ACK_TYPE: byte := 0x02
  const LAST_COMMAND_TYPE := 0x7F
  const BROADCAST := 0x000
  const ACK_SIZE := 4

  datatype AckStatus =
    | Success | UnknownCommand | InvalidPayload | InvalidState
    | SequenceError | RateLimited | NotImplemented | CategoryError

  datatype Ack = Ack(category: byte, messageType: byte, status: AckStatus, expectedSequence: byte)

  const SEQUENCE_ERROR: byte := 4

  function StatusCode(status: AckStatus): byte {
    match status
    case Success => 0
    case UnknownCommand => 1
    case InvalidPayload => 2
    case InvalidState => 3
    case SequenceError => SEQUENCE_ERROR
    case RateLimited => 5
    case NotImplemented => 6
    case CategoryError => 7
  }

  /** The bytes of an acknowledgement frame. */
  function AckPayload(a: Ack): seq<byte> {
    [a.category, a.messageType, StatusCode(a.status), a.expectedSequence]
  }

  /** Different statuses have different codes, all below eight, and only the sequence error has its own. */
  lemma StatusesDiffer(a: AckStatus, b: AckStatus)
    ensures StatusCode(a) == StatusCode(b) <==> a == b
    ensures StatusCode(a) < 8 && (StatusCode(a) == SEQUENCE_ERROR <==> a == SequenceError)
  {
  }

  datatype DispatchResult = Handled | Rejected | UnknownMessageType

  /** The parts of a 29-bit identifier. */
  datatype Address = Address(priority: nat, category: nat, messageType: nat, nodeId: nat)

  predicate IsAddress(a: Address) {
    a.priority < 0x20 && a.category < 0x10 && a.messageType < 0x100 && a.nodeId < 0x1000
  }

  function MakeCanId(a: Address): nat
    requires IsAddress(a)
  {
    ((a.priority * 0x10 + a.category) * 0x100 + a.messageType) * 0x1000 + a.nodeId
  }

  function Extract(raw: nat): (a: Address)
    ensures IsAddress(a)
  {
    Address(raw / 0x1000 / 0x100 / 0x10 % 0x20, raw / 0x1000 / 0x100 % 0x10, raw / 0x1000 % 0x100, raw % 0x1000)
  }

  /** The parts put into an identifier are the parts taken out of it. */
  lemma CanIdRoundTrip(a: Address)
    requires IsAddress(a)
    ensures Extract(MakeCanId(a)) == a
  {
    var id := MakeCanId(a);
    assert id / 0x1000 == (a.priority * 0x10 + a.category) * 0x100 + a.messageType;
    assert id / 0x1000 / 0x100 == a.priority * 0x10 + a.category;
    assert id / 0x1000 / 0x100 / 0x10 == a.priority;
  }

  predicate IsEmergencyAddress(a: Address) {
    a.priority == 0
  }

  predicate IsCommandType(messageType: nat) {
    messageType <= LAST_COMMAND_TYPE
  }
}
