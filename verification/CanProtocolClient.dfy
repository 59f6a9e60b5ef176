/**
 The client's sequence numbers (CanProtocolClient.cpp): one slot a server, eight
 slots, replaced in turn when a ninth server is addressed.

 `Table` is the value of the fields, `CanProtocolClient` the object. Time is a
 number; a deadline is kept only because a cancelled reservation restores it.
 */
module CanProtocolClient {
  import opened CanTypes
  import opened CanProtocol
  import opened Slots

  const MAX_SERVERS := 8

  datatype SequenceRecord = SequenceRecord(
    nodeId: nat, counter: byte, occupied: bool, awaiting: bool, category: byte, messageType: byte)

  /** A single-shot timer and the node its callback was given. */
  datatype Timer = Off | Armed(deadline: nat, nodeId: nat)

  datatype ServerState = ServerState(record: SequenceRecord, timer: Timer)

  datatype Reservation = Reservation(
    index: nat, sequence: byte, previous: SequenceRecord, previousDeadline: nat, previousEvictIndex: nat)

  datatype Table = Table(states: seq<ServerState>, evictIndex: nat, last: Option<Reservation>)

  /** An unacknowledged command that the application is told about. */
  datatype Timeout = Timeout(nodeId: nat, category: byte, messageType: byte)

  const FREE := ServerState(SequenceRecord(0, 0, false, false, 0, 0), Off)

  predicate Holds(s: ServerState, node: nat) {
    s.record.occupied && s.record.nodeId == node
  }

  /** The first slot that holds `node`; the number of slots if none does. */
  function SlotOf(states: seq<ServerState>, node: nat): nat {
    FirstWhere(states, (s: ServerState) => Holds(s, node))
  }

  function FreeSlot(states: seq<ServerState>): nat {
    FirstWhere(states, (s: ServerState) => !s.record.occupied)
  }

  lemma SlotFound(states: seq<ServerState>, node: nat)
    ensures SlotOf(states, node) <= |states|
    ensures SlotOf(states, node) < |states| ==> Holds(states[SlotOf(states, node)], node)
    ensures forall i :: 0 <= i < SlotOf(states, node) ==> !Holds(states[i], node)
  {
    FirstWhereFound(states, (s: ServerState) => Holds(s, node));
  }

  lemma FreeFound(states: seq<ServerState>)
    ensures FreeSlot(states) <= |states|
    ensures FreeSlot(states) < |states| ==> !states[FreeSlot(states)].record.occupied
    ensures forall i :: 0 <= i < FreeSlot(states) ==> states[i].record.occupied
  {
    FirstWhereFound(states, (s: ServerState) => !s.record.occupied);
  }

  /* ---- What every operation keeps ---- */

  /** The acknowledgement timer runs exactly while a command awaits its acknowledgement, for the slot's own node. */
  predicate TimerOk(s: ServerState) {
    && (s.timer.Armed? <==> s.record.awaiting)
    && (s.record.awaiting ==> s.record.occupied && s.timer.nodeId == s.record.nodeId)
  }

  predicate Distinct(states: seq<ServerState>) {
    forall i, j :: 0 <= i < j < |states| && states[i].record.occupied && states[j].record.occupied ==>
      states[i].record.nodeId != states[j].record.nodeId
  }

  predicate SlotsOk(states: seq<ServerState>) {
    |states| == MAX_SERVERS && Distinct(states) && (forall i :: 0 <= i < |states| ==> TimerOk(states[i]))
  }

  predicate Valid(t: Table) {
    SlotsOk(t.states) && t.evictIndex < MAX_SERVERS
  }

  /* ---- The operations ---- */

  function Successor(evictIndex: nat): nat {
    if evictIndex + 1 == MAX_SERVERS then 0 else evictIndex + 1
  }

  /** The slot a command to `node` uses, and the eviction index afterwards. */
  function Claim(t: Table, node: nat): (nat, nat) {
    if SlotOf(t.states, node) < |t.states| then (SlotOf(t.states, node), t.evictIndex)
    else if FreeSlot(t.states) < |t.states| then (FreeSlot(t.states), t.evictIndex)
    else (t.evictIndex, Successor(t.evictIndex))
  }

  function NextTrigger(timer: Timer): nat {
    if timer.Armed? then timer.deadline else 0
  }

  function Fresh(s: ServerState, node: nat): SequenceRecord {
    if Holds(s, node) then s.record else SequenceRecord(node, 0, true, false, 0, 0)
  }

  function Reserve(t: Table, node: nat, category: byte, messageType: byte, deadline: nat): Table
    requires Valid(t)
  {
    var (i, evictIndex) := Claim(t, node);
    var record := Fresh(t.states[i], node);
    Table(t.states[i := ServerState(
                record.(counter := Next8(record.counter), awaiting := true, category := category, messageType := messageType),
                Armed(deadline, node))],
          evictIndex,
          Some(Reservation(i, record.counter, t.states[i].record, NextTrigger(t.states[i].timer), t.evictIndex)))
  }

  /** The reservation still stands for this node and number. */
  predicate Cancellable(t: Table, node: nat, sequence: byte) {
    && t.last.Some? && t.last.value.index < |t.states|
    && t.states[t.last.value.index].record.nodeId == node && t.last.value.sequence == sequence
  }

  function Cancel(t: Table, node: nat, sequence: byte): Table
    requires Cancellable(t, node, sequence)
  {
    var r := t.last.value;
    Table(t.states[r.index := ServerState(
                r.previous, if r.previous.awaiting then Armed(r.previousDeadline, r.previous.nodeId) else Off)],
          r.previousEvictIndex, None)
  }

  function Update(t: Table, i: nat, s: ServerState): Table
    requires i < |t.states|
  {
    t.(states := t.states[i := s])
  }

  function Return(t: Table, node: nat, sequence: byte): Table {
    var i := SlotOf(t.states, node);
    if i < |t.states| && t.states[i].record.counter == Next8(sequence)
    then Update(t, i, t.states[i].(record := t.states[i].record.(counter := sequence))) else t
  }

  function ClearAwaiting(t: Table, node: nat, category: byte, messageType: byte): Table {
    var i := SlotOf(t.states, node);
    if i < |t.states| && t.states[i].record.awaiting && t.states[i].record.category == category && t.states[i].record.messageType == messageType
    then Update(t, i, ServerState(t.states[i].record.(awaiting := false), Off)) else t
  }

  function Resync(t: Table, node: nat, expected: byte): Table {
    var i := SlotOf(t.states, node);
    if i < |t.states| then Update(t, i, t.states[i].(record := t.states[i].record.(counter := expected))) else t
  }

  /** A frame of the system category with the acknowledgement type arrives from `node`. */
  function Acknowledge(t: Table, node: nat, payload: seq<byte>): Table {
    if |payload| < ACK_SIZE || node == 0 then t
    else
      var cleared := ClearAwaiting(t, node, payload[0], payload[1]);
      if payload[2] == SEQUENCE_ERROR then Resync(cleared, node, payload[3]) else cleared
  }

  predicate CanExpire(t: Table, node: nat) {
    SlotOf(t.states, node) < |t.states| && t.states[SlotOf(t.states, node)].timer.Armed?
  }

  function Expire(t: Table, node: nat): (Table, Timeout)
    requires CanExpire(t, node)
  {
    var i := SlotOf(t.states, node);
    var record := t.states[i].record;
    (Update(t, i, ServerState(record.(awaiting := false), Off)), Timeout(node, record.category, record.messageType))
  }

  /* ---- Invariant and inverse ---- */

  /** Nothing but slot `i` may hold the node put into it. */
  lemma SetKeepsSlotsOk(states: seq<ServerState>, i: nat, s: ServerState)
    requires SlotsOk(states) && i < |states| && TimerOk(s)
    requires s.record.occupied ==> forall j :: 0 <= j < |states| && j != i ==> !Holds(states[j], s.record.nodeId)
    ensures SlotsOk(states[i := s])
  {
    var after := states[i := s];
    forall a, b | 0 <= a < b < |after| && after[a].record.occupied && after[b].record.occupied
      ensures after[a].record.nodeId != after[b].record.nodeId
    {
      if a != i && b != i {
        assert states[a].record.nodeId != states[b].record.nodeId;
      } else if a == i {
        assert !Holds(states[b], s.record.nodeId);
      } else {
        assert !Holds(states[a], s.record.nodeId);
      }
    }
  }

  /** Where a node is, it is nowhere else. */
  lemma OnlySlot(states: seq<ServerState>, node: nat, i: nat)
    requires SlotsOk(states) && i < |states| && Holds(states[i], node)
    ensures SlotOf(states, node) == i
    ensures forall j :: 0 <= j < |states| && j != i ==> !Holds(states[j], node)
  {
    SlotFound(states, node);
  }

  lemma ClaimedSlot(t: Table, node: nat)
    requires Valid(t)
    ensures Claim(t, node).0 < |t.states| && Claim(t, node).1 < MAX_SERVERS
    ensures forall j :: 0 <= j < |t.states| && j != Claim(t, node).0 ==> !Holds(t.states[j], node)
    ensures Holds(t.states[Claim(t, node).0], node) <==> SlotOf(t.states, node) < |t.states|
  {
    SlotFound(t.states, node);
    FreeFound(t.states);
    if SlotOf(t.states, node) < |t.states| {
      OnlySlot(t.states, node, SlotOf(t.states, node));
    }
  }

  lemma ReserveKeepsValid(t: Table, node: nat, category: byte, messageType: byte, deadline: nat)
    requires Valid(t)
    ensures Valid(Reserve(t, node, category, messageType, deadline))
  {
    var i := Claim(t, node).0;
    ClaimedSlot(t, node);
    SetKeepsSlotsOk(t.states, i, Reserve(t, node, category, messageType, deadline).states[i]);
  }

  /** Cancelling right after reserving restores slots, evicted server, deadline and eviction index exactly. */
  lemma CancelUndoesReserve(t: Table, node: nat, category: byte, messageType: byte, deadline: nat)
    requires Valid(t)
    ensures var after := Reserve(t, node, category, messageType, deadline);
            && Cancellable(after, node, after.last.value.sequence)
            && Cancel(after, node, after.last.value.sequence) == t.(last := None)
  {
    var i := Claim(t, node).0;
    ClaimedSlot(t, node);
    assert TimerOk(t.states[i]);
    var after := Reserve(t, node, category, messageType, deadline);
    assert Cancel(after, node, after.last.value.sequence).states[i] == t.states[i];
    assert after.states[i := t.states[i]] == t.states;
  }

  /** Changing a held slot without changing its node keeps the table in order. */
  lemma UpdateKeepsValid(t: Table, node: nat, s: ServerState)
    requires Valid(t) && SlotOf(t.states, node) < |t.states|
    requires TimerOk(s) && Holds(s, node)
    ensures Valid(Update(t, SlotOf(t.states, node), s))
  {
    var i := SlotOf(t.states, node);
    SlotFound(t.states, node);
    OnlySlot(t.states, node, i);
    SetKeepsSlotsOk(t.states, i, s);
  }

  lemma ReturnKeepsValid(t: Table, node: nat, sequence: byte)
    requires Valid(t)
    ensures Valid(Return(t, node, sequence))
  {
    SlotFound(t.states, node);
    if Return(t, node, sequence) != t {
      UpdateKeepsValid(t, node, Return(t, node, sequence).states[SlotOf(t.states, node)]);
    }
  }

  lemma ClearKeepsValid(t: Table, node: nat, category: byte, messageType: byte)
    requires Valid(t)
    ensures Valid(ClearAwaiting(t, node, category, messageType))
  {
    SlotFound(t.states, node);
    if ClearAwaiting(t, node, category, messageType) != t {
      UpdateKeepsValid(t, node, ClearAwaiting(t, node, category, messageType).states[SlotOf(t.states, node)]);
    }
  }

  lemma ResyncKeepsValid(t: Table, node: nat, expected: byte)
    requires Valid(t)
    ensures Valid(Resync(t, node, expected))
  {
    SlotFound(t.states, node);
    if SlotOf(t.states, node) < |t.states| {
      UpdateKeepsValid(t, node, Resync(t, node, expected).states[SlotOf(t.states, node)]);
    }
  }

  lemma AcknowledgeKeepsValid(t: Table, node: nat, payload: seq<byte>)
    requires Valid(t)
    ensures Valid(Acknowledge(t, node, payload))
  {
    if |payload| >= ACK_SIZE && node != 0 {
      ClearKeepsValid(t, node, payload[0], payload[1]);
      ResyncKeepsValid(ClearAwaiting(t, node, payload[0], payload[1]), node, payload[3]);
    }
  }

  lemma ExpireKeepsValid(t: Table, node: nat)
    requires Valid(t) && CanExpire(t, node)
    ensures Valid(Expire(t, node).0)
  {
    SlotFound(t.states, node);
    UpdateKeepsValid(t, node, Expire(t, node).0.states[SlotOf(t.states, node)]);
  }

  /* ---- The object ---- */

  class CanProtocolClient {
    const serverStates: array<ServerState>
    const commandAckTimeout: nat
    var nextSequenceEvictIndex: nat
    var lastReservation: Option<Reservation>

    /** Notifications sent, oldest first. */
    var timeouts: seq<Timeout>

    constructor (commandAckTimeout: nat)
      ensures Abs() == Table(seq(MAX_SERVERS, i => FREE), 0, None) && Valid(Abs())
      ensures fresh(serverStates) && timeouts == []
    {
      serverStates := new ServerState[MAX_SERVERS](i => FREE);
      this.commandAckTimeout := commandAckTimeout;
      nextSequenceEvictIndex, lastReservation, timeouts := 0, None, [];
    }

    ghost function Abs(): Table
      reads this, serverStates
    {
      Table(serverStates[..], nextSequenceEvictIndex, lastReservation)
    }

    method FindServer(nodeId: nat) returns (i: nat)
      ensures i == SlotOf(serverStates[..], nodeId)
    {
      i := 0;
      while i < serverStates.Length && !Holds(serverStates[i], nodeId)
        invariant i <= serverStates.Length
        invariant SlotOf(serverStates[..], nodeId) == i + SlotOf(serverStates[i..], nodeId)
      {
        i := i + 1;
      }
    }

    method ClaimSequenceSlot(nodeId: nat) returns (i: nat)
      requires Valid(Abs())
      modifies this`nextSequenceEvictIndex
      ensures (i, nextSequenceEvictIndex) == Claim(old(Abs()), nodeId)
    {
      i := FindServer(nodeId);
      if i < serverStates.Length {
        return;
      }
      i := 0;
      while i < serverStates.Length && serverStates[i].record.occupied
        invariant i <= serverStates.Length
        invariant FreeSlot(serverStates[..]) == i + FreeSlot(serverStates[i..])
      {
        i := i + 1;
      }
      if i < serverStates.Length {
        return;
      }
      i := nextSequenceEvictIndex;
      nextSequenceEvictIndex := (nextSequenceEvictIndex + 1) % MAX_SERVERS;
    }

    method ReserveSequence(nodeId: nat, category: byte, messageType: byte, now: nat) returns (sequence: byte)
      requires Valid(Abs())
      modifies this, serverStates
      ensures Abs() == Reserve(old(Abs()), nodeId, category, messageType, now + commandAckTimeout)
      ensures sequence == lastReservation.value.sequence && Valid(Abs()) && timeouts == old(timeouts)
    {
      ReserveKeepsValid(Abs(), nodeId, category, messageType, now + commandAckTimeout);
      ClaimedSlot(Abs(), nodeId);
      var previousEvictIndex := nextSequenceEvictIndex;
      var i := ClaimSequenceSlot(nodeId);
      var state := serverStates[i];
      var record := state.record;
      if !record.occupied || record.nodeId != nodeId {
        record := SequenceRecord(nodeId, 0, true, false, 0, 0);
      }
      sequence := record.counter;
      lastReservation := Some(Reservation(i, sequence, state.record, NextTrigger(state.timer), previousEvictIndex));
      record := record.(counter := Next8(sequence), awaiting := true, category := category, messageType := messageType);
      serverStates[i] := ServerState(record, Armed(now + commandAckTimeout, record.nodeId));
    }

    method CancelReservation(nodeId: nat, sequence: byte)
      requires Cancellable(Abs(), nodeId, sequence)
      modifies this, serverStates
      ensures Abs() == Cancel(old(Abs()), nodeId, sequence) && timeouts == old(timeouts)
    {
      var r := lastReservation.value;
      nextSequenceEvictIndex := r.previousEvictIndex;
      serverStates[r.index] := ServerState(r.previous, Off);
      if r.previous.awaiting {
        serverStates[r.index] := ServerState(r.previous, Armed(r.previousDeadline, r.previous.nodeId));
      }
      lastReservation := None;
    }

    method ReturnSequence(nodeId: nat, sequence: byte)
      requires Valid(Abs())
      modifies serverStates
      ensures Abs() == Return(old(Abs()), nodeId, sequence) && Valid(Abs())
    {
      ReturnKeepsValid(Abs(), nodeId, sequence);
      var i := FindServer(nodeId);
      if i < serverStates.Length && serverStates[i].record.counter == Next8(sequence) {
        serverStates[i] := serverStates[i].(record := serverStates[i].record.(counter := sequence));
      }
    }

    method ClearAwaitingAck(nodeId: nat, category: byte, messageType: byte)
      requires Valid(Abs())
      modifies serverStates
      ensures Abs() == ClearAwaiting(old(Abs()), nodeId, category, messageType) && Valid(Abs())
    {
      ClearKeepsValid(Abs(), nodeId, category, messageType);
      var i := FindServer(nodeId);
      if i < serverStates.Length {
        var record := serverStates[i].record;
        if record.awaiting && record.category == category && record.messageType == messageType {
          serverStates[i] := ServerState(record.(awaiting := false), Off);
        }
      }
    }

    method ResyncSequence(nodeId: nat, expectedSequence: byte)
      requires Valid(Abs())
      modifies serverStates
      ensures Abs() == Resync(old(Abs()), nodeId, expectedSequence) && Valid(Abs())
    {
      ResyncKeepsValid(Abs(), nodeId, expectedSequence);
      var i := FindServer(nodeId);
      if i < serverStates.Length {
        serverStates[i] := serverStates[i].(record := serverStates[i].record.(counter := expectedSequence));
      }
    }

    /** A frame or PDU with these identifier parts: only acknowledgements from a real node concern the table. */
    method HandleCommandAckFrame(a: Address, payload: seq<byte>)
      requires Valid(Abs())
      modifies serverStates
      ensures Abs() == if a.category == SYSTEM_CATEGORY && a.messageType == COMMAND_ACK_TYPE
                       then Acknowledge(old(Abs()), a.nodeId, payload) else old(Abs())
      ensures Valid(Abs())
    {
      if a.category != SYSTEM_CATEGORY || a.messageType != COMMAND_ACK_TYPE {
        return;
      }
      if |payload| < ACK_SIZE || a.nodeId == 0 {
        return;
      }
      ClearAwaitingAck(a.nodeId, payload[0], payload[1]);
      if payload[2] == SEQUENCE_ERROR {
        ResyncSequence(a.nodeId, payload[3]);
      }
    }

    /** The timer of slot `i` fires. */
    method AckTimerFires(i: nat)
      requires Valid(Abs()) && i < serverStates.Length && serverStates[i].timer.Armed?
      modifies this`timeouts, serverStates
      ensures old(CanExpire(Abs(), serverStates[i].timer.nodeId))
      ensures var (t, timeout) := Expire(old(Abs()), old(serverStates[i].timer.nodeId));
              Abs() == t && timeouts == old(timeouts) + [timeout]
      ensures Valid(Abs())
    {
      var nodeId := serverStates[i].timer.nodeId;
      assert TimerOk(serverStates[..][i]);
      OnlySlot(serverStates[..], nodeId, i);
      ExpireKeepsValid(Abs(), nodeId);
      ghost var before := serverStates[..];
      serverStates[i] := serverStates[i].(timer := Off);
      HandleCommandAckTimeout(nodeId, i);
      assert serverStates[..] == before[i := ServerState(before[i].record.(awaiting := false), Off)];
    }

    /** Only slot `owner` can hold the node. */
    method HandleCommandAckTimeout(nodeId: nat, ghost owner: nat)
      requires owner < serverStates.Length && Holds(serverStates[owner], nodeId) && serverStates[owner].record.awaiting
      requires forall j :: 0 <= j < serverStates.Length && j != owner ==> !Holds(serverStates[j], nodeId)
      modifies this`timeouts, serverStates
      ensures serverStates[..] == old(serverStates[..])[owner := old(serverStates[owner]).(record := old(serverStates[owner].record).(awaiting := false))]
      ensures timeouts == old(timeouts) + [Timeout(nodeId, old(serverStates[owner].record.category), old(serverStates[owner].record.messageType))]
    {
      var i := 0;
      while i < serverStates.Length && !(Holds(serverStates[i], nodeId) && serverStates[i].record.awaiting)
        invariant 0 <= i <= owner
      {
        i := i + 1;
      }
      var record := serverStates[i].record;
      serverStates[i] := serverStates[i].(record := record.(awaiting := false));
      timeouts := timeouts + [Timeout(nodeId, record.category, record.messageType)];
    }
  }
}
