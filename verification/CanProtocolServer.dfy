/**
 The server's command pipeline (CanProtocolServer.cpp): address filter, rate
 budgets, category lookup, sequence check, dispatch, liveness.

 What a category's handler decides about a payload is a parameter of the step.
 Acknowledgements and notifications sent are what a step returns.
 */
module CanProtocolServer {
  import opened CanTypes
  import opened CanProtocol

  /** A registered category: its identifier and whether its commands carry sequence numbers. */
  datatype Category = Category(id: nat, validated: bool)

  datatype Config = Config(nodeId: nat, maxMessages: nat, maxEmergencies: nat)

  datatype Counters = Counters(rateLimited: nat, emergencyRateLimited: nat, invalidFrames: nat, emergencyAdmitted: nat)

  datatype Server = Server(
    config: Config, categories: seq<Category>, used: nat, emergencyUsed: nat, counters: Counters,
    last: byte, initialized: bool, online: bool, livenessTimer: bool)

  datatype Notice = Online | Offline

  datatype Step = Step(s: Server, ack: Option<Ack>, notice: Option<Notice>)

  function Quiet(s: Server): Step {
    Step(s, None, None)
  }

  predicate Addressed(s: Server, a: Address) {
    a.nodeId == s.config.nodeId || a.nodeId == BROADCAST
  }

  /** Whether the budget of this kind of frame has room; the server after charging it or counting the refusal. */
  function Charge(s: Server, emergency: bool): (bool, Server) {
    if emergency then
      if s.emergencyUsed >= s.config.maxEmergencies
      then (false, s.(counters := s.counters.(emergencyRateLimited := Tick(s.counters.emergencyRateLimited))))
      else (true, s.(emergencyUsed := s.emergencyUsed + 1))
    else
      if s.used >= s.config.maxMessages
      then (false, s.(counters := s.counters.(rateLimited := Tick(s.counters.rateLimited))))
      else (true, s.(used := s.used + 1))
  }

  function FindCategory(categories: seq<Category>, id: nat): Option<Category> {
    if categories == [] then None
    else if categories[0].id == id then Some(categories[0])
    else FindCategory(categories[1..], id)
  }

  function Expected(s: Server): byte {
    Next8(s.last)
  }

  predicate IsExpected(s: Server, sequence: byte) {
    !s.initialized || sequence == Expected(s)
  }

  datatype Admission = Discard | Refuse(status: AckStatus, expected: byte) | Admit(category: Category)

  function AdmissionOf(s: Server, a: Address, payload: seq<byte>): Admission {
    var category := if IsCommandType(a.messageType) then FindCategory(s.categories, a.category) else None;
    if category.None? then Discard
    else if !category.value.validated then Admit(category.value)
    else if payload == [] then Refuse(InvalidPayload, 0)
    else if !IsEmergencyAddress(a) && !IsExpected(s, payload[0]) then Refuse(SequenceError, Expected(s))
    else Admit(category.value)
  }

  function CountInvalid(s: Server): Server {
    s.(counters := s.counters.(invalidFrames := Tick(s.counters.invalidFrames)))
  }

  function RejectCommand(s: Server, a: Address, status: AckStatus, expected: byte): Step
    requires IsAddress(a)
  {
    Step(CountInvalid(s), Some(Ack(a.category, a.messageType, status, expected)), None)
  }

  /** An admitted command that its handler took: the sequence moves on and the client is alive. */
  function AcceptCommand(s: Server, a: Address, category: Category, payload: seq<byte>): Step
    requires category.validated ==> payload != []
  {
    var s1 := if category.validated then s.(last := payload[0], initialized := true) else s;
    var s2 := if IsEmergencyAddress(a) then s1.(counters := s1.counters.(emergencyAdmitted := Tick(s1.counters.emergencyAdmitted))) else s1;
    Step(s2.(online := true, livenessTimer := true), None, if s.online then None else Some(Online))
  }

  function Conclude(s: Server, a: Address, category: Category, payload: seq<byte>, verdict: DispatchResult): Step
    requires IsAddress(a) && (category.validated ==> payload != [])
  {
    match verdict
    case Handled => AcceptCommand(s, a, category, payload)
    case Rejected => RejectCommand(s, a, InvalidPayload, 0)
    case UnknownMessageType => RejectCommand(s, a, UnknownCommand, 0)
  }

  /** The part of the pipeline a single frame and a reassembled PDU share. */
  function Dispatch(s: Server, a: Address, payload: seq<byte>, verdict: DispatchResult): Step
    requires IsAddress(a)
  {
    match AdmissionOf(s, a, payload)
    case Discard => Quiet(CountInvalid(s))
    case Refuse(status, expected) => RejectCommand(s, a, status, expected)
    case Admit(category) => Conclude(s, a, category, payload, verdict)
  }

  datatype Event =
    | Frame(a: Address, data: Message, claimed: bool, verdict: DispatchResult)
    | Pdu(a: Address, payload: seq<byte>, verdict: DispatchResult)
    | RatePeriodEnds
    | ClientTimeout

  predicate CanHappen(s: Server, e: Event) {
    match e
    case Frame(a, _, _, _) => IsAddress(a)
    case Pdu(a, _, _) => IsAddress(a)
    case RatePeriodEnds => true
    case ClientTimeout => s.livenessTimer
  }

  function React(s: Server, e: Event): Step
    requires CanHappen(s, e)
  {
    match e
    case Frame(a, data, claimed, verdict) =>
      if !Addressed(s, a) then Quiet(s)
      else
        var (room, s1) := Charge(s, IsEmergencyAddress(a));
        if !room || claimed then Quiet(s1) else Dispatch(s1, a, data, verdict)
    case Pdu(a, data, verdict) =>
      if !Addressed(s, a) then Quiet(s) else Dispatch(s, a, data, verdict)
    case RatePeriodEnds => Quiet(s.(used := 0, emergencyUsed := 0))
    case ClientTimeout => Step(s.(online := false, livenessTimer := false), None, if s.online then Some(Offline) else None)
  }

  /* ---- The object ---- */

  class CanProtocolServer {
    const config: Config
    var categories: seq<Category>
    var messageCountThisPeriod: nat
    var emergencyMessageCountThisPeriod: nat
    var counters: Counters
    var lastSequenceNumber: byte
    var sequenceInitialized: bool
    var clientOnline: bool
    var clientLivenessTimer: bool

    var acks: seq<Ack>
    var notices: seq<Notice>

    constructor (config: Config)
      requires config.nodeId != BROADCAST
      ensures Abs() == Server(config, [Category(SYSTEM_CATEGORY, false)], 0, 0, Counters(0, 0, 0, 0), 0, false, false, false)
      ensures acks == [] && notices == []
    {
      this.config := config;
      categories := [Category(SYSTEM_CATEGORY, false)];
      messageCountThisPeriod, emergencyMessageCountThisPeriod, counters := 0, 0, Counters(0, 0, 0, 0);
      lastSequenceNumber, sequenceInitialized, clientOnline, clientLivenessTimer := 0, false, false, false;
      acks, notices := [], [];
    }

    ghost function Abs(): Server
      reads this
    {
      Server(config, categories, messageCountThisPeriod, emergencyMessageCountThisPeriod, counters,
             lastSequenceNumber, sequenceInitialized, clientOnline, clientLivenessTimer)
    }

    twostate predicate Did(step: Step)
      reads this
    {
      && Abs() == step.s
      && acks == old(acks) + (if step.ack.Some? then [step.ack.value] else [])
      && notices == old(notices) + (if step.notice.Some? then [step.notice.value] else [])
    }

    /** `claimed` says whether the attached segmentation layer takes the frame, `verdict` what the handler decides. */
    method ProcessReceivedMessage(raw: nat, data: Message, claimed: bool, verdict: DispatchResult)
      modifies this
      ensures Did(React(old(Abs()), Frame(Extract(raw), data, claimed, verdict)))
    {
      var a := Extract(raw);
      if !(a.nodeId == config.nodeId || a.nodeId == BROADCAST) {
        return;
      }
      var room := CheckAndIncrementRate(a);
      if !room || claimed {
        return;
      }
      RunPipeline(a, data, verdict);
    }

    method DispatchPdu(raw: nat, pdu: seq<byte>, verdict: DispatchResult)
      modifies this
      ensures Did(React(old(Abs()), Pdu(Extract(raw), pdu, verdict)))
    {
      var a := Extract(raw);
      if !(a.nodeId == config.nodeId || a.nodeId == BROADCAST) {
        return;
      }
      RunPipeline(a, pdu, verdict);
    }

    method CheckAndIncrementRate(a: Address) returns (room: bool)
      modifies this
      ensures (room, Abs()) == Charge(old(Abs()), IsEmergencyAddress(a))
      ensures acks == old(acks) && notices == old(notices)
    {
      if IsEmergencyAddress(a) {
        if emergencyMessageCountThisPeriod >= config.maxEmergencies {
          counters := counters.(emergencyRateLimited := Tick(counters.emergencyRateLimited));
          return false;
        }
        emergencyMessageCountThisPeriod := emergencyMessageCountThisPeriod + 1;
        return true;
      }
      if messageCountThisPeriod >= config.maxMessages {
        counters := counters.(rateLimited := Tick(counters.rateLimited));
        return false;
      }
      messageCountThisPeriod := messageCountThisPeriod + 1;
      return true;
    }

    /** The commands of ProcessReceivedMessage and DispatchPdu that follow the gates: the sequence number is committed
        before the handler runs, and put back unless the handler takes the command. */
    method RunPipeline(a: Address, payload: seq<byte>, verdict: DispatchResult)
      requires IsAddress(a)
      modifies this
      ensures Did(Dispatch(old(Abs()), a, payload, verdict))
    {
      var category := AdmitCommand(a, payload);
      if category.None? {
        return;
      }
      var lastBefore, initializedBefore := lastSequenceNumber, sequenceInitialized;
      if category.value.validated {
        lastSequenceNumber, sequenceInitialized := payload[0], true;
      }
      match verdict {
        case Handled =>
          if IsEmergencyAddress(a) {
            counters := counters.(emergencyAdmitted := Tick(counters.emergencyAdmitted));
          }
          MarkClientAlive();
        case Rejected =>
          lastSequenceNumber, sequenceInitialized := lastBefore, initializedBefore;
          SendRejection(a, InvalidPayload, 0);
        case UnknownMessageType =>
          lastSequenceNumber, sequenceInitialized := lastBefore, initializedBefore;
          SendRejection(a, UnknownCommand, 0);
      }
    }

    method AdmitCommand(a: Address, payload: seq<byte>) returns (category: Option<Category>)
      requires IsAddress(a)
      modifies this
      ensures match AdmissionOf(old(Abs()), a, payload)
              case Admit(c) => category == Some(c) && Abs() == old(Abs()) && acks == old(acks) && notices == old(notices)
              case Discard => category.None? && Did(Quiet(CountInvalid(old(Abs()))))
              case Refuse(status, expected) => category.None? && Did(RejectCommand(old(Abs()), a, status, expected))
    {
      if IsCommandType(a.messageType) {
        category := LookUp(a.category);
      } else {
        category := None;
      }
      if category.None? {
        counters := counters.(invalidFrames := Tick(counters.invalidFrames));
        return;
      }
      if !category.value.validated {
        return;
      }
      if payload == [] {
        SendRejection(a, InvalidPayload, 0);
        return None;
      }
      if !IsEmergencyAddress(a) && !(!sequenceInitialized || payload[0] == Next8(lastSequenceNumber)) {
        SendRejection(a, SequenceError, Next8(lastSequenceNumber));
        return None;
      }
    }

    method LookUp(id: nat) returns (category: Option<Category>)
      ensures category == FindCategory(categories, id)
    {
      for i := 0 to |categories|
        invariant FindCategory(categories, id) == FindCategory(categories[i..], id)
      {
        if categories[i].id == id {
          return Some(categories[i]);
        }
      }
      return None;
    }

    method SendRejection(a: Address, status: AckStatus, expected: byte)
      requires IsAddress(a)
      modifies this
      ensures Did(RejectCommand(old(Abs()), a, status, expected))
    {
      counters := counters.(invalidFrames := Tick(counters.invalidFrames));
      acks := acks + [Ack(a.category, a.messageType, status, expected)];
    }

    method MarkClientAlive()
      modifies this
      ensures Did(Step(old(Abs()).(online := true, livenessTimer := true), None, if old(clientOnline) then None else Some(Online)))
    {
      clientLivenessTimer := true;
      if clientOnline {
        return;
      }
      clientOnline := true;
      notices := notices + [Online];
    }

    method HandleClientTimeout()
      requires clientLivenessTimer
      modifies this
      ensures Did(React(old(Abs()), ClientTimeout))
    {
      clientLivenessTimer := false;
      if !clientOnline {
        return;
      }
      clientOnline := false;
      notices := notices + [Offline];
    }

    method ResetRateCounter()
      modifies this
      ensures Did(React(old(Abs()), RatePeriodEnds))
    {
      messageCountThisPeriod, emergencyMessageCountThisPeriod := 0, 0;
    }
  }
}
