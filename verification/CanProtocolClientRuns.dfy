/**
 Runs of the client's sequence table, against a ledger without slots: a map from
 server to counter and outstanding command. While commands are sent to at most
 eight servers the table cannot be told from the ledger.
 */
module CanProtocolClientRuns {
  import opened CanTypes
  import opened CanProtocol
  import opened CanProtocolClient

  /** What happens to the table. A command is `sent`, or refused and its reservation cancelled. */
  datatype Event =
    | Command(node: nat, category: byte, messageType: byte, deadline: nat, sent: bool)
    | GiveBack(node: nat, sequence: byte)
    | AckArrives(node: nat, payload: seq<byte>)
    | AckTimeout(node: nat)

  /** `numbers` are the sequence numbers given out, `timeouts` the notifications. */
  datatype Run = Run(t: Table, numbers: seq<byte>, timeouts: seq<Timeout>)

  predicate Enabled(r: Run, e: Event) {
    e.AckTimeout? ==> CanExpire(r.t, e.node)
  }

  function Commanded(t: Table, e: Event): Table
    requires Valid(t) && e.Command?
  {
    var reserved := Reserve(t, e.node, e.category, e.messageType, e.deadline);
    if e.sent then reserved else t.(last := None)
  }

  function Next(r: Run, e: Event): Run
    requires Valid(r.t) && Enabled(r, e)
  {
    match e
    case Command(node, category, messageType, deadline, sent) =>
      r.(t := Commanded(r.t, e),
         numbers := r.numbers + [Reserve(r.t, node, category, messageType, deadline).last.value.sequence])
    case GiveBack(node, sequence) => r.(t := Return(r.t, node, sequence))
    case AckArrives(node, payload) => r.(t := Acknowledge(r.t, node, payload))
    case AckTimeout(node) => r.(t := Expire(r.t, node).0, timeouts := r.timeouts + [Expire(r.t, node).1])
  }

  /** A refused command is a reservation and its cancellation. */
  lemma RefusedIsCancelled(t: Table, e: Event)
    requires Valid(t) && e.Command? && !e.sent
    ensures var reserved := Reserve(t, e.node, e.category, e.messageType, e.deadline);
            Cancellable(reserved, e.node, reserved.last.value.sequence)
            && Commanded(t, e) == Cancel(reserved, e.node, reserved.last.value.sequence)
  {
    CancelUndoesReserve(t, e.node, e.category, e.messageType, e.deadline);
  }

  lemma NextKeepsValid(r: Run, e: Event)
    requires Valid(r.t) && Enabled(r, e)
    ensures Valid(Next(r, e).t)
  {
    match e {
      case Command(node, category, messageType, deadline, _) => ReserveKeepsValid(r.t, node, category, messageType, deadline);
      case GiveBack(node, sequence) => ReturnKeepsValid(r.t, node, sequence);
      case AckArrives(node, payload) => AcknowledgeKeepsValid(r.t, node, payload);
      case AckTimeout(node) => ExpireKeepsValid(r.t, node);
    }
  }

  function Initial(): Run {
    Run(Table(seq(MAX_SERVERS, i => FREE), 0, None), [], [])
  }

  function After(es: seq<Event>): (r: Option<Run>)
    ensures r.Some? ==> Valid(r.value.t)
    decreases |es|
  {
    if es == [] then Some(Initial())
    else
      var before := After(es[..|es| - 1]);
      var e := es[|es| - 1];
      if before.Some? && Enabled(before.value, e) then
        NextKeepsValid(before.value, e);
        Some(Next(before.value, e))
      else None
  }

  /* ---- The ledger ---- */

  /** A command that is not acknowledged, and when its timer runs out. */
  datatype Outstanding = Outstanding(category: byte, messageType: byte, deadline: nat)

  datatype Entry = Entry(counter: byte, awaiting: Option<Outstanding>)

  datatype Ledger = Ledger(entries: map<nat, Entry>, numbers: seq<byte>, timeouts: seq<Timeout>)

  function CounterOf(l: Ledger, node: nat): byte {
    if node in l.entries then l.entries[node].counter else 0
  }

  function ClearEntry(x: Entry, category: byte, messageType: byte): Entry {
    if x.awaiting.Some? && x.awaiting.value.category == category && x.awaiting.value.messageType == messageType
    then x.(awaiting := None) else x
  }

  function AckEntry(x: Entry, payload: seq<byte>): Entry {
    if |payload| < 4 then x
    else
      var cleared := ClearEntry(x, payload[0], payload[1]);
      if payload[2] == 4 then cleared.(counter := payload[3]) else cleared
  }

  function Record(l: Ledger, e: Event): Ledger {
    match e
    case Command(node, category, messageType, deadline, sent) =>
      var number := CounterOf(l, node);
      var entry := Entry(Next8(number), Some(Outstanding(category, messageType, deadline)));
      l.(entries := if sent then l.entries[node := entry] else l.entries,
         numbers := l.numbers + [number])
    case GiveBack(node, sequence) =>
      if node in l.entries && l.entries[node].counter == Next8(sequence)
      then l.(entries := l.entries[node := l.entries[node].(counter := sequence)]) else l
    case AckArrives(node, payload) =>
      if node in l.entries && node != 0
      then l.(entries := l.entries[node := AckEntry(l.entries[node], payload)]) else l
    case AckTimeout(node) =>
      if node in l.entries && l.entries[node].awaiting.Some? then
        var x := l.entries[node].awaiting.value;
        l.(entries := l.entries[node := l.entries[node].(awaiting := None)],
           timeouts := l.timeouts + [Timeout(node, x.category, x.messageType)])
      else l
  }

  function LedgerAfter(es: seq<Event>): Ledger {
    if es == [] then Ledger(map[], [], []) else Record(LedgerAfter(es[..|es| - 1]), es[|es| - 1])
  }

  /** The servers to which commands were sent. */
  function Servers(es: seq<Event>): set<nat> {
    if es == [] then {}
    else
      var e := es[|es| - 1];
      Servers(es[..|es| - 1]) + if e.Command? && e.sent then {e.node} else {}
  }

  /* ---- What the table says about a server ---- */

  function EntryOf(s: ServerState): Entry {
    Entry(s.record.counter,
          if s.timer.Armed? then Some(Outstanding(s.record.category, s.record.messageType, s.timer.deadline)) else None)
  }

  function Lookup(states: seq<ServerState>, node: nat): Option<Entry> {
    SlotFound(states, node);
    if SlotOf(states, node) < |states| then Some(EntryOf(states[SlotOf(states, node)])) else None
  }

  function EntryAt(l: Ledger, node: nat): Option<Entry> {
    if node in l.entries then Some(l.entries[node]) else None
  }

  ghost predicate Agrees(t: Table, l: Ledger) {
    forall node: nat :: Lookup(t.states, node) == EntryAt(l, node)
  }

  ghost predicate SameRun(r: Run, l: Ledger) {
    Valid(r.t) && Agrees(r.t, l) && r.numbers == l.numbers && r.timeouts == l.timeouts
  }

  lemma LookupNone(states: seq<ServerState>, node: nat)
    requires forall j :: 0 <= j < |states| ==> !Holds(states[j], node)
    ensures Lookup(states, node) == None
  {
    SlotFound(states, node);
  }

  lemma LookupAt(states: seq<ServerState>, node: nat, i: nat)
    requires SlotsOk(states) && i < |states| && Holds(states[i], node)
    ensures Lookup(states, node) == Some(EntryOf(states[i]))
  {
    OnlySlot(states, node, i);
  }

  /** Changing slot `i` leaves what is said about the nodes it neither held nor holds. */
  lemma LookupElsewhere(states: seq<ServerState>, i: nat, s: ServerState, node: nat)
    requires i < |states| && SlotsOk(states) && SlotsOk(states[i := s])
    requires !Holds(states[i], node) && !Holds(s, node)
    ensures Lookup(states[i := s], node) == Lookup(states, node)
  {
    SlotFound(states, node);
    var k := SlotOf(states, node);
    if k < |states| {
      LookupAt(states, node, k);
      LookupAt(states[i := s], node, k);
    } else {
      LookupNone(states, node);
      LookupNone(states[i := s], node);
    }
  }

  /** A slot may be changed together with its server's entry. */
  lemma SetAgrees(t: Table, l: Ledger, i: nat, s: ServerState, t': Table, l': Ledger)
    requires SlotsOk(t.states) && i < |t.states| && SlotsOk(t.states[i := s]) && Agrees(t, l)
    requires s.record.occupied && (t.states[i].record.occupied ==> Holds(t.states[i], s.record.nodeId))
    requires t'.states == t.states[i := s] && l'.entries == l.entries[s.record.nodeId := EntryOf(s)]
    ensures Agrees(t', l')
  {
    forall node: nat
      ensures Lookup(t'.states, node) == EntryAt(l', node)
    {
      if node == s.record.nodeId {
        LookupAt(t'.states, node, i);
      } else {
        LookupElsewhere(t.states, i, s, node);
        assert Lookup(t.states, node) == EntryAt(l, node);
      }
    }
  }

  lemma SameEntries(t: Table, l: Ledger, t': Table, l': Ledger)
    requires Agrees(t, l) && t'.states == t.states && l'.entries == l.entries
    ensures Agrees(t', l')
  {
    forall node: nat
      ensures Lookup(t'.states, node) == EntryAt(l', node)
    {
      assert Lookup(t.states, node) == EntryAt(l, node);
    }
  }

  /** The slot that the table changes for `node`, if it holds the node, and the node's entry. */
  lemma Located(t: Table, l: Ledger, node: nat)
    requires Valid(t) && Agrees(t, l)
    ensures SlotOf(t.states, node) < |t.states| <==> node in l.entries
    ensures node in l.entries ==> Holds(t.states[SlotOf(t.states, node)], node) && l.entries[node] == EntryOf(t.states[SlotOf(t.states, node)])
    ensures node in l.entries ==> TimerOk(t.states[SlotOf(t.states, node)])
  {
    SlotFound(t.states, node);
    assert Lookup(t.states, node) == EntryAt(l, node);
  }

  lemma UpdateAgrees(t: Table, l: Ledger, node: nat, s: ServerState, l': Ledger)
    requires Valid(t) && Agrees(t, l) && node in l.entries && TimerOk(s) && Holds(s, node)
    requires SlotOf(t.states, node) < |t.states|
    requires l'.entries == l.entries[node := EntryOf(s)]
    ensures Agrees(Update(t, SlotOf(t.states, node), s), l')
  {
    Located(t, l, node);
    UpdateKeepsValid(t, node, s);
    SetAgrees(t, l, SlotOf(t.states, node), s, Update(t, SlotOf(t.states, node), s), l');
  }

  lemma ReturnAgrees(t: Table, l: Ledger, node: nat, sequence: byte)
    requires Valid(t) && Agrees(t, l)
    ensures Agrees(Return(t, node, sequence), Record(l, GiveBack(node, sequence)))
  {
    Located(t, l, node);
    if node in l.entries && l.entries[node].counter == Next8(sequence) {
      var i := SlotOf(t.states, node);
      UpdateAgrees(t, l, node, t.states[i].(record := t.states[i].record.(counter := sequence)), Record(l, GiveBack(node, sequence)));
    }
  }

  lemma ExpireAgrees(t: Table, l: Ledger, node: nat)
    requires Valid(t) && Agrees(t, l) && CanExpire(t, node)
    ensures Agrees(Expire(t, node).0, Record(l, AckTimeout(node)))
    ensures Record(l, AckTimeout(node)).timeouts == l.timeouts + [Expire(t, node).1]
  {
    Located(t, l, node);
    var i := SlotOf(t.states, node);
    UpdateAgrees(t, l, node, ServerState(t.states[i].record.(awaiting := false), Off), Record(l, AckTimeout(node)));
  }

  lemma ClearAgrees(t: Table, l: Ledger, node: nat, category: byte, messageType: byte, l': Ledger)
    requires Valid(t) && Agrees(t, l)
    requires node in l.entries ==> l'.entries == l.entries[node := ClearEntry(l.entries[node], category, messageType)]
    requires node !in l.entries ==> l'.entries == l.entries
    ensures Agrees(ClearAwaiting(t, node, category, messageType), l')
  {
    Located(t, l, node);
    if node in l.entries && ClearEntry(l.entries[node], category, messageType) != l.entries[node] {
      var i := SlotOf(t.states, node);
      UpdateAgrees(t, l, node, ServerState(t.states[i].record.(awaiting := false), Off), l');
    } else {
      SameEntries(t, l, t, l');
    }
  }

  lemma ResyncAgrees(t: Table, l: Ledger, node: nat, expected: byte, l': Ledger)
    requires Valid(t) && Agrees(t, l)
    requires node in l.entries ==> l'.entries == l.entries[node := l.entries[node].(counter := expected)]
    requires node !in l.entries ==> l'.entries == l.entries
    ensures Agrees(Resync(t, node, expected), l')
  {
    Located(t, l, node);
    if node in l.entries {
      var i := SlotOf(t.states, node);
      UpdateAgrees(t, l, node, t.states[i].(record := t.states[i].record.(counter := expected)), l');
    } else {
      SameEntries(t, l, t, l');
    }
  }

  lemma AckAgrees(t: Table, l: Ledger, node: nat, payload: seq<byte>)
    requires Valid(t) && Agrees(t, l)
    ensures Agrees(Acknowledge(t, node, payload), Record(l, AckArrives(node, payload)))
  {
    var l' := Record(l, AckArrives(node, payload));
    if |payload| < ACK_SIZE || node == 0 {
      SameEntries(t, l, t, l');
    } else {
      var cleared := ClearAwaiting(t, node, payload[0], payload[1]);
      var l1 := if node in l.entries
                then l.(entries := l.entries[node := ClearEntry(l.entries[node], payload[0], payload[1])]) else l;
      ClearAgrees(t, l, node, payload[0], payload[1], l1);
      ClearKeepsValid(t, node, payload[0], payload[1]);
      if payload[2] == SEQUENCE_ERROR {
        ResyncAgrees(cleared, l1, node, payload[3], l');
      } else {
        SameEntries(cleared, l1, cleared, l');
      }
    }
  }

  /* ---- Eight servers fit ---- */

  function NodesIn(states: seq<ServerState>): set<nat> {
    if states == [] then {} else NodesIn(states[..|states| - 1]) + {states[|states| - 1].record.nodeId}
  }

  lemma {:induction false} NodeIsListed(states: seq<ServerState>, node: nat)
    requires node in NodesIn(states)
    ensures exists i :: 0 <= i < |states| && states[i].record.nodeId == node
  {
    if node != states[|states| - 1].record.nodeId {
      NodeIsListed(states[..|states| - 1], node);
      var i :| 0 <= i < |states| - 1 && states[..|states| - 1][i].record.nodeId == node;
      assert states[i].record.nodeId == node;
    } else {
      assert states[|states| - 1].record.nodeId == node;
    }
  }

  lemma {:induction false} NodeIsNotListed(states: seq<ServerState>, node: nat)
    requires forall i :: 0 <= i < |states| ==> states[i].record.nodeId != node
    ensures node !in NodesIn(states)
  {
    if states != [] { NodeIsNotListed(states[..|states| - 1], node); }
  }

  lemma {:induction false} FullTableHasAsManyNodes(states: seq<ServerState>)
    requires Distinct(states) && forall i :: 0 <= i < |states| ==> states[i].record.occupied
    ensures |NodesIn(states)| == |states|
  {
    if states != [] {
      var init, last := states[..|states| - 1], states[|states| - 1];
      FullTableHasAsManyNodes(init);
      forall i | 0 <= i < |init|
        ensures init[i].record.nodeId != last.record.nodeId
      {
        assert states[i].record.nodeId != states[|states| - 1].record.nodeId;
      }
      NodeIsNotListed(init, last.record.nodeId);
    }
  }

  lemma SubsetIsNoLarger(a: set<nat>, b: set<nat>)
    requires a <= b
    ensures |a| <= |b|
  {
    assert b == a + (b - a);
  }

  lemma FullTableFillsLedger(t: Table, l: Ledger)
    requires Valid(t) && Agrees(t, l) && FreeSlot(t.states) == |t.states|
    ensures |l.entries.Keys| >= MAX_SERVERS
  {
    FreeFound(t.states);
    FullTableHasAsManyNodes(t.states);
    forall node | node in NodesIn(t.states)
      ensures node in l.entries
    {
      NodeIsListed(t.states, node);
      var i :| 0 <= i < |t.states| && t.states[i].record.nodeId == node;
      LookupAt(t.states, node, i);
      assert Lookup(t.states, node) == EntryAt(l, node);
    }
    SubsetIsNoLarger(NodesIn(t.states), l.entries.Keys);
  }

  lemma ShortLedgerLeavesRoom(t: Table, l: Ledger)
    requires Valid(t) && Agrees(t, l) && |l.entries.Keys| < MAX_SERVERS
    ensures FreeSlot(t.states) < |t.states|
  {
    FreeFound(t.states);
    if FreeSlot(t.states) == |t.states| {
      FullTableFillsLedger(t, l);
    }
  }

  /** Unless it would be a ninth server, no slot is taken from another server. */
  lemma ClaimTakesNoOthers(t: Table, l: Ledger, node: nat)
    requires Valid(t) && Agrees(t, l) && |l.entries.Keys + {node}| <= MAX_SERVERS
    ensures var i := Claim(t, node).0;
            i < |t.states| && (t.states[i].record.occupied <==> node in l.entries)
            && (node in l.entries ==> Holds(t.states[i], node) && EntryOf(t.states[i]) == l.entries[node])
  {
    Located(t, l, node);
    FreeFound(t.states);
    if node !in l.entries {
      assert |l.entries.Keys + {node}| == |l.entries.Keys| + 1;
      ShortLedgerLeavesRoom(t, l);
    }
  }

  lemma ReserveAgrees(t: Table, l: Ledger, e: Event)
    requires Valid(t) && Agrees(t, l) && e.Command? && e.sent && |l.entries.Keys + {e.node}| <= MAX_SERVERS
    ensures Agrees(Commanded(t, e), Record(l, e))
  {
    ClaimTakesNoOthers(t, l, e.node);
    ReserveKeepsValid(t, e.node, e.category, e.messageType, e.deadline);
    var i := Claim(t, e.node).0;
    SetAgrees(t, l, i, Commanded(t, e).states[i], Commanded(t, e), Record(l, e));
  }

  /** The number given out is the ledger's, whether or not the command is then sent. */
  lemma NumberAgrees(t: Table, l: Ledger, e: Event)
    requires Valid(t) && Agrees(t, l) && e.Command?
    ensures Reserve(t, e.node, e.category, e.messageType, e.deadline).last.value.sequence == CounterOf(l, e.node)
  {
    Located(t, l, e.node);
    ClaimedSlot(t, e.node);
    if e.node in l.entries {
      OnlySlot(t.states, e.node, SlotOf(t.states, e.node));
    }
  }

  lemma CommandAgrees(t: Table, l: Ledger, e: Event)
    requires Valid(t) && Agrees(t, l) && e.Command? && (e.sent ==> |l.entries.Keys + {e.node}| <= MAX_SERVERS)
    ensures Agrees(Commanded(t, e), Record(l, e))
  {
    if e.sent {
      ReserveAgrees(t, l, e);
    } else {
      SameEntries(t, l, Commanded(t, e), Record(l, e));
    }
  }

  lemma NextKeepsSameRun(r: Run, l: Ledger, e: Event)
    requires SameRun(r, l) && Enabled(r, e)
    requires e.Command? && e.sent ==> |l.entries.Keys + {e.node}| <= MAX_SERVERS
    ensures SameRun(Next(r, e), Record(l, e))
  {
    NextKeepsValid(r, e);
    match e {
      case Command(_, _, _, _, _) =>
        CommandAgrees(r.t, l, e);
        NumberAgrees(r.t, l, e);
      case GiveBack(node, sequence) => ReturnAgrees(r.t, l, node, sequence);
      case AckArrives(node, payload) => AckAgrees(r.t, l, node, payload);
      case AckTimeout(node) => ExpireAgrees(r.t, l, node);
    }
  }

  lemma EmptyTableAgrees()
    ensures SameRun(Initial(), LedgerAfter([]))
  {
    forall node: nat
      ensures Lookup(Initial().t.states, node) == None
    {
      LookupNone(Initial().t.states, node);
    }
  }

  /** Entries are only ever made for servers to which a command was sent. */
  lemma {:induction false} EntriesAreServers(es: seq<Event>)
    ensures LedgerAfter(es).entries.Keys <= Servers(es)
  {
    if es != [] {
      EntriesAreServers(es[..|es| - 1]);
    }
  }

  /** While commands are sent to at most eight servers, the eight slots behave as a slot for every server: the same
      numbers are given out and the same timeouts reported, and a timer runs exactly for what the ledger awaits. */
  lemma {:induction false} TableRefinesLedger(es: seq<Event>)
    requires After(es).Some? && |Servers(es)| <= 8
    ensures SameRun(After(es).value, LedgerAfter(es))
  {
    if es == [] {
      EmptyTableAgrees();
    } else {
      var before, e := es[..|es| - 1], es[|es| - 1];
      SubsetIsNoLarger(Servers(before), Servers(es));
      TableRefinesLedger(before);
      EntriesAreServers(before);
      if e.Command? && e.sent {
        SubsetIsNoLarger(LedgerAfter(before).entries.Keys + {e.node}, Servers(es));
      }
      NextKeepsSameRun(After(before).value, LedgerAfter(before), e);
    }
  }

  /** An acknowledgement timer can fire exactly when the ledger has a command outstanding for the server. */
  lemma TimerRunsWhileAwaiting(es: seq<Event>, node: nat)
    requires After(es).Some? && |Servers(es)| <= MAX_SERVERS
    ensures CanExpire(After(es).value.t, node) <==> node in LedgerAfter(es).entries && LedgerAfter(es).entries[node].awaiting.Some?
  {
    TableRefinesLedger(es);
    Located(After(es).value.t, LedgerAfter(es), node);
  }

  /** After a sent command its server's timer runs out exactly at the deadline given, whatever it was before; a server that
      keeps its slot keeps its counter, its outstanding command and its deadline. */
  lemma SentCommandArmsItsTimer(t: Table, e: Event)
    requires Valid(t) && e.Command? && e.sent
    ensures var after, known := Commanded(t, e), Lookup(t.states, e.node);
            && Lookup(after.states, e.node) ==
                 Some(Entry(Next8(if known.Some? then known.value.counter else 0),
                            Some(Outstanding(e.category, e.messageType, e.deadline))))
            && CanExpire(after, e.node)
            && (forall other: nat :: other != e.node && Lookup(after.states, other).Some? ==>
                  Lookup(after.states, other) == Lookup(t.states, other))
  {
    var after, i := Commanded(t, e), Claim(t, e.node).0;
    ClaimedSlot(t, e.node);
    SlotFound(t.states, e.node);
    ReserveKeepsValid(t, e.node, e.category, e.messageType, e.deadline);
    LookupAt(after.states, e.node, i);
    OnlySlot(after.states, e.node, i);
    if Holds(t.states[i], e.node) { LookupAt(t.states, e.node, i); }
    forall other: nat | other != e.node && Lookup(after.states, other).Some?
      ensures Lookup(after.states, other) == Lookup(t.states, other)
    {
      var k := SlotOf(after.states, other);
      SlotFound(after.states, other);
      LookupAt(after.states, other, k);
      LookupAt(t.states, other, k);
    }
  }

  /** A ninth server takes the slot whose turn it is: that server's counter is lost and starts again at zero, and the turn
      passes to the next slot. */
  lemma NinthServerEvicts(t: Table, node: nat, category: byte, messageType: byte, deadline: nat)
    requires Valid(t) && SlotOf(t.states, node) == |t.states| && FreeSlot(t.states) == |t.states|
    ensures var after := Reserve(t, node, category, messageType, deadline);
            var gone := t.states[t.evictIndex].record.nodeId;
            && after.last.value.sequence == 0
            && Lookup(after.states, node) == Some(Entry(1, Some(Outstanding(category, messageType, deadline))))
            && after.evictIndex == (t.evictIndex + 1) % MAX_SERVERS
            && Lookup(after.states, gone) == None
            && forall other: nat :: other != node && other != gone ==> Lookup(after.states, other) == Lookup(t.states, other)
  {
    var after := Reserve(t, node, category, messageType, deadline);
    var i, gone := t.evictIndex, t.states[t.evictIndex].record.nodeId;
    FreeFound(t.states);
    SlotFound(t.states, node);
    ReserveKeepsValid(t, node, category, messageType, deadline);
    LookupAt(after.states, node, i);
    OnlySlot(t.states, gone, i);
    LookupNone(after.states, gone);
    forall other: nat | other != node && other != gone
      ensures Lookup(after.states, other) == Lookup(t.states, other)
    {
      LookupElsewhere(t.states, i, after.states[i], other);
    }
  }
}
