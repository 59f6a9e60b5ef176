/**
 Sending a command (CanCategory.cpp): a sequence number is reserved, put in front
 of the payload, and given up again if the transport refuses the frame.

 The callback of a command's frame returns the number when the send failed.
 */
module CanCategory {
  import opened CanTypes
  import opened CanProtocol
  import Client = CanProtocolClient
  import Runs = CanProtocolClientRuns
  import Transport = CanFrameTransport

  datatype Callback = GiveBack(nodeId: nat, sequence: byte) | NoCallback

  datatype Command = Command(target: nat, category: byte, messageType: byte, payload: Message, priority: nat)

  predicate IsCommand(c: Command) {
    IsAddress(AddressOf(c))
  }

  function AddressOf(c: Command): Address {
    Address(c.priority, c.category, c.messageType, c.target)
  }

  /** The writer takes the number and the payload only if both fit a frame. */
  predicate Fits(c: Command) {
    |c.payload| + 1 <= 8
  }

  function FrameOf(c: Command, sequence: byte): Transport.Frame<Callback>
    requires IsCommand(c) && Fits(c)
  {
    Transport.Pending(Transport.Extended(MakeCanId(AddressOf(c))), [sequence] + c.payload, GiveBack(c.target, sequence))
  }

  /** What running a callback does to the sequence numbers. */
  function Ran(t: Client.Table, report: Option<Transport.Report<Callback>>): Client.Table {
    if report.Some? && !report.value.success && report.value.frame.onDone.GiveBack?
    then Client.Return(t, report.value.frame.onDone.nodeId, report.value.frame.onDone.sequence) else t
  }

  datatype Sent = Sent(table: Client.Table, step: Transport.Step<Callback>)

  function Sending(t: Client.Table, q: Transport.Transport<Callback>, c: Command, deadline: nat): Sent
    requires Client.Valid(t) && IsCommand(c)
  {
    var reserved := Client.Reserve(t, c.target, c.category, c.messageType, deadline);
    var sequence := reserved.last.value.sequence;
    Client.CancelUndoesReserve(t, c.target, c.category, c.messageType, deadline);
    var step := if Fits(c) then Transport.Offer(q, FrameOf(c, sequence)) else Transport.Refuse(q, q.counters);
    if step.taken then Sent(Ran(reserved, step.report), step)
    else Sent(Client.Cancel(reserved, c.target, sequence), step)
  }

  /** A refused command leaves no trace: nothing is queued, sent or called back, and the table is what it was, an
      evicted server and its deadline included. */
  lemma RefusedCommandLeavesNoTrace(t: Client.Table, q: Transport.Transport<Callback>, c: Command, deadline: nat)
    requires Client.Valid(t) && IsCommand(c) && !Sending(t, q, c, deadline).step.taken
    ensures var sent := Sending(t, q, c, deadline);
            && sent.table == t.(last := None)
            && sent.step.report.None? && sent.step.transmitted.None?
            && sent.step.t == q.(counters := sent.step.t.counters)
  {
    Client.CancelUndoesReserve(t, c.target, c.category, c.messageType, deadline);
  }

  /** The frame a command's number went out in carries it in front, to the node it is counted for. */
  predicate Labelled(f: Transport.Frame<Callback>) {
    f.onDone.GiveBack? ==>
      && f.data != [] && f.data[0] == f.onDone.sequence
      && f.id.Extended? && Extract(f.id.raw).nodeId == f.onDone.nodeId
  }

  lemma CommandFrameIsLabelled(c: Command, sequence: byte)
    requires IsCommand(c) && Fits(c)
    ensures Labelled(FrameOf(c, sequence)) && FrameOf(c, sequence).priority == c.priority
    ensures FrameOf(c, sequence).data[1..] == c.payload
  {
    CanIdRoundTrip(AddressOf(c));
    PriorityIsPart(MakeCanId(AddressOf(c)));
  }

  lemma PriorityIsPart(raw: nat)
    ensures Transport.PriorityOf(Transport.Extended(raw)) == Extract(raw).priority
  {
    assert raw / 0x1000 / 0x100 / 0x10 == raw / 0x100_0000;
  }

  /** Frames with an 11-bit identifier have the priority of commands, and are never emergencies. */
  lemma StandardIsCommand(raw: nat, data: Message, onDone: Callback)
    ensures var f := Transport.Pending(Transport.Standard(raw), data, onDone); f.priority == 4 && !Transport.IsEmergency(f)
  {
  }

  /** A command and the eviction it causes are, for the numbers, a command and a give-back. */
  function EventOf(c: Command, deadline: nat, taken: bool): Runs.Event {
    Runs.Command(c.target, c.category, c.messageType, deadline, taken)
  }

  function LedgerOfReport(l: Runs.Ledger, report: Option<Transport.Report<Callback>>): Runs.Ledger {
    if report.Some? && !report.value.success && report.value.frame.onDone.GiveBack?
    then Runs.Record(l, Runs.GiveBack(report.value.frame.onDone.nodeId, report.value.frame.onDone.sequence)) else l
  }

  lemma RanAgrees(t: Client.Table, l: Runs.Ledger, report: Option<Transport.Report<Callback>>)
    requires Client.Valid(t) && Runs.Agrees(t, l)
    ensures Client.Valid(Ran(t, report)) && Runs.Agrees(Ran(t, report), LedgerOfReport(l, report))
  {
    if report.Some? && !report.value.success && report.value.frame.onDone.GiveBack? {
      Client.ReturnKeepsValid(t, report.value.frame.onDone.nodeId, report.value.frame.onDone.sequence);
      Runs.ReturnAgrees(t, l, report.value.frame.onDone.nodeId, report.value.frame.onDone.sequence);
    }
  }

  /** While at most eight servers are used, sending a command through the transport keeps the slots and the unbounded
      ledger the same: a new number for a taken frame, the evicted frame's number returned, nothing for a refused one. */
  lemma SendCommandAgrees(t: Client.Table, l: Runs.Ledger, q: Transport.Transport<Callback>, c: Command, deadline: nat)
    requires Client.Valid(t) && IsCommand(c) && Runs.Agrees(t, l)
    requires |l.entries.Keys + {c.target}| <= Client.MAX_SERVERS
    ensures var sent := Sending(t, q, c, deadline);
            && Client.Valid(sent.table)
            && Runs.Agrees(sent.table, LedgerOfReport(Runs.Record(l, EventOf(c, deadline, sent.step.taken)), sent.step.report))
  {
    var sent := Sending(t, q, c, deadline);
    var e := EventOf(c, deadline, sent.step.taken);
    Runs.CommandAgrees(t, l, e);
    Client.ReserveKeepsValid(t, c.target, c.category, c.messageType, deadline);
    if sent.step.taken {
      RanAgrees(Runs.Commanded(t, e), Runs.Record(l, e), sent.step.report);
    } else {
      RefusedCommandLeavesNoTrace(t, q, c, deadline);
    }
  }

  /** The number of a command that this one evicts is given out again, if it was the last one of its server. */
  lemma EvictedNumberIsReused(t: Client.Table, q: Transport.Transport<Callback>, c: Command, deadline: nat, node: nat, number: byte)
    requires Client.Valid(t) && IsCommand(c)
    requires var step := Sending(t, q, c, deadline).step;
             step.taken && step.report.Some? && step.report.value.frame.onDone == GiveBack(node, number)
    requires var entry := Runs.Lookup(Client.Reserve(t, c.target, c.category, c.messageType, deadline).states, node);
             entry.Some? && entry.value.counter == Next8(number)
    ensures var sent := Sending(t, q, c, deadline);
            && !sent.step.report.value.success
            && Client.Valid(sent.table)
            && forall category: byte, messageType: byte, later: nat ::
                 Client.Reserve(sent.table, node, category, messageType, later).last.value.sequence == number
  {
    var reserved := Client.Reserve(t, c.target, c.category, c.messageType, deadline);
    Client.ReserveKeepsValid(t, c.target, c.category, c.messageType, deadline);
    ReturnedIsGivenOut(reserved, node, number);
  }

  lemma ReturnedIsGivenOut(t: Client.Table, node: nat, number: byte)
    requires Client.Valid(t) && Runs.Lookup(t.states, node).Some? && Runs.Lookup(t.states, node).value.counter == Next8(number)
    ensures Client.Valid(Client.Return(t, node, number))
    ensures forall category: byte, messageType: byte, deadline: nat ::
              Client.Reserve(Client.Return(t, node, number), node, category, messageType, deadline).last.value.sequence == number
  {
    var returned, i := Client.Return(t, node, number), Client.SlotOf(t.states, node);
    Client.ReturnKeepsValid(t, node, number);
    Client.SlotFound(t.states, node);
    Client.OnlySlot(returned.states, node, i);
  }

  /** A transport with nothing to send takes a command exactly if its payload leaves room for the number, and sends it at
      once. */
  lemma IdleTransportTakesWhatFits(t: Client.Table, q: Transport.Transport<Callback>, c: Command, deadline: nat)
    requires Client.Valid(t) && IsCommand(c) && q.current.None?
    ensures var step := Sending(t, q, c, deadline).step;
            && (step.taken <==> |c.payload| <= 7)
            && (step.taken ==> step.transmitted.Some? && Labelled(step.transmitted.value)
                               && step.transmitted.value.data[1..] == c.payload && step.transmitted.value.priority == c.priority)
  {
    if Fits(c) {
      CommandFrameIsLabelled(c, Client.Reserve(t, c.target, c.category, c.messageType, deadline).last.value.sequence);
    }
  }

  /** A command that fails to go out before the next one to its server gives its number to that next one. */
  lemma FailedCommandNumberIsReused(t: Client.Table, node: nat, category: byte, messageType: byte, deadline: nat)
    requires Client.Valid(t)
    ensures var reserved := Client.Reserve(t, node, category, messageType, deadline);
            var number := reserved.last.value.sequence;
            var returned := Client.Return(reserved, node, number);
            Client.Valid(returned) && Client.Reserve(returned, node, category, messageType, deadline).last.value.sequence == number
  {
    var reserved := Client.Reserve(t, node, category, messageType, deadline);
    var i := Client.Claim(t, node).0;
    Client.ClaimedSlot(t, node);
    Client.ReserveKeepsValid(t, node, category, messageType, deadline);
    Client.OnlySlot(reserved.states, node, i);
    var returned := Client.Return(reserved, node, reserved.last.value.sequence);
    Client.ReturnKeepsValid(reserved, node, reserved.last.value.sequence);
    Client.OnlySlot(returned.states, node, i);
  }

  /** What sending comes to, after the reservation and its number. */
  lemma ReservedFor(t: Client.Table, q: Transport.Transport<Callback>, c: Command, deadline: nat)
    returns (reserved: Client.Table, number: byte)
    requires Client.Valid(t) && IsCommand(c)
    ensures reserved == Client.Reserve(t, c.target, c.category, c.messageType, deadline)
    ensures reserved.last.Some? && number == reserved.last.value.sequence && Client.Cancellable(reserved, c.target, number)
    ensures var step := if Fits(c) then Transport.Offer(q, FrameOf(c, number)) else Transport.Refuse(q, q.counters);
            Sending(t, q, c, deadline) ==
            Sent(if step.taken then Ran(reserved, step.report) else Client.Cancel(reserved, c.target, number), step)
  {
    reserved := Client.Reserve(t, c.target, c.category, c.messageType, deadline);
    number := reserved.last.value.sequence;
    Client.CancelUndoesReserve(t, c.target, c.category, c.messageType, deadline);
  }

  /* ---- The object ---- */

  class CanCategoryClient {
    const id: byte
    const transport: Transport.CanFrameTransport<Callback>
    const sequenceSource: Client.CanProtocolClient

    constructor (id: byte, transport: Transport.CanFrameTransport<Callback>, sequenceSource: Client.CanProtocolClient)
      ensures this.id == id && this.transport == transport && this.sequenceSource == sequenceSource
    {
      this.id, this.transport, this.sequenceSource := id, transport, sequenceSource;
    }

    method SendCommand(targetNodeId: nat, messageType: byte, payload: Message, priority: nat, now: nat) returns (sent: bool)
      requires Client.Valid(sequenceSource.Abs()) && Transport.Valid(transport.Abs())
      requires IsCommand(Command(targetNodeId, id, messageType, payload, priority))
      modifies sequenceSource, sequenceSource.serverStates, transport
      ensures var result := old(Sending(sequenceSource.Abs(), transport.Abs(),
                                  Command(targetNodeId, id, messageType, payload, priority),
                                  now + sequenceSource.commandAckTimeout));
              && sent == result.step.taken
              && sequenceSource.Abs() == result.table
              && transport.Abs() == result.step.t
              && transport.transmitted == old(transport.transmitted) + (if result.step.transmitted.Some? then [result.step.transmitted.value] else [])
              && transport.reports == old(transport.reports) + (if result.step.report.Some? then [result.step.report.value] else [])
    {
      ghost var c := Command(targetNodeId, id, messageType, payload, priority);
      ghost var reserved, number := ReservedFor(sequenceSource.Abs(), transport.Abs(), c, now + sequenceSource.commandAckTimeout);
      var sequence := sequenceSource.ReserveSequence(targetNodeId, id, messageType, now);
      assert sequenceSource.Abs() == reserved && sequence == number;
      if 1 + |payload| <= 8 {
        sent := Transmit(targetNodeId, messageType, payload, priority, sequence);
        if sent {
          return;
        }
      }
      sequenceSource.CancelReservation(targetNodeId, sequence);
      return false;
    }

    /** Hands over the frame; the callback of a frame evicted by it runs before the call returns. */
    method Transmit(targetNodeId: nat, messageType: byte, payload: Message, priority: nat, sequence: byte) returns (sent: bool)
      requires Client.Valid(sequenceSource.Abs()) && Transport.Valid(transport.Abs())
      requires IsCommand(Command(targetNodeId, id, messageType, payload, priority)) && 1 + |payload| <= 8
      modifies sequenceSource, sequenceSource.serverStates, transport
      ensures var step := old(Transport.Offer(transport.Abs(), FrameOf(Command(targetNodeId, id, messageType, payload, priority), sequence)));
              && sent == step.taken && transport.Abs() == step.t
              && sequenceSource.Abs() == Ran(old(sequenceSource.Abs()), step.report)
              && transport.transmitted == old(transport.transmitted) + (if step.transmitted.Some? then [step.transmitted.value] else [])
              && transport.reports == old(transport.reports) + (if step.report.Some? then [step.report.value] else [])
    {
      var before := |transport.reports|;
      sent := transport.SendRawFrame(Transport.Extended(MakeCanId(Address(priority, id, messageType, targetNodeId))),
                                     [sequence] + payload, GiveBack(targetNodeId, sequence));
      if |transport.reports| > before {
        RunCallback(transport.reports[before]);
      }
    }

    method RunCallback(report: Transport.Report<Callback>)
      requires Client.Valid(sequenceSource.Abs())
      modifies sequenceSource, sequenceSource.serverStates
      ensures sequenceSource.Abs() == Ran(old(sequenceSource.Abs()), Some(report)) && Client.Valid(sequenceSource.Abs())
    {
      if !report.success && report.frame.onDone.GiveBack? {
        sequenceSource.ReturnSequence(report.frame.onDone.nodeId, report.frame.onDone.sequence);
      }
    }
  }
}
