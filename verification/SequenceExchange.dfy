/**
 Client and server together: complete exchanges of a command and its
 acknowledgements, from any counter and any server state.

 The handler's verdict and the acknowledgement it sends itself are parameters.
 */
module SequenceExchange {
  import opened CanTypes
  import opened CanProtocol
  import opened CanCategory
  import Client = CanProtocolClient
  import Runs = CanProtocolClientRuns
  import Server = CanProtocolServer
  import ServerRuns = CanProtocolServerRuns

  /** A command of a validated category of the server, a verdict for when it is admitted, and what the handler sends. */
  datatype Order = Order(command: Command, verdict: DispatchResult, reply: Option<AckStatus>, deadline: nat)

  /** Lossless, and within the budget of its kind; handlers leave sequence errors to the server. */
  predicate Deliverable(s: Server.Server, o: Order) {
    var c := o.command;
    && IsCommand(c) && Fits(c) && IsCommandType(c.messageType)
    && c.target == s.config.nodeId && c.target != BROADCAST
    && Server.FindCategory(s.categories, c.category).Some? && Server.FindCategory(s.categories, c.category).value.validated
    && ServerRuns.HasRoom(s, IsEmergencyAddress(AddressOf(c)))
    && o.reply != Some(SequenceError)
  }

  function CounterOf(t: Client.Table, node: nat): byte {
    var entry := Runs.Lookup(t.states, node);
    if entry.Some? then entry.value.counter else 0
  }

  function FrameEvent(c: Command, number: byte, verdict: DispatchResult): Server.Event
    requires Fits(c)
  {
    Server.Frame(AddressOf(c), [number] + c.payload, false, verdict)
  }

  function Received(t: Client.Table, node: nat, ack: Option<Ack>): Client.Table {
    if ack.Some? then Client.Acknowledge(t, node, AckPayload(ack.value)) else t
  }

  /** The handler's own acknowledgement, which it sends only if it runs. */
  function HandlerAck(s: Server.Server, o: Order, number: byte): Option<Ack> {
    if Server.AdmissionOf(s, AddressOf(o.command), [number] + o.command.payload).Admit? && o.reply.Some?
    then Some(Ack(o.command.category, o.command.messageType, o.reply.value, 0)) else None
  }

  datatype Exchanged = Exchanged(t: Client.Table, s: Server.Server, number: byte, accepted: bool)

  function Exchange(t: Client.Table, s: Server.Server, o: Order): (x: Exchanged)
    requires Client.Valid(t) && Deliverable(s, o)
    ensures Client.Valid(x.t)
  {
    var c := o.command;
    var reserved := Client.Reserve(t, c.target, c.category, c.messageType, o.deadline);
    var number := reserved.last.value.sequence;
    var e := FrameEvent(c, number, o.verdict);
    var step := Server.React(s, e);
    ReserveCounts(t, c.target, c.category, c.messageType, o.deadline);
    AckCounts(reserved, c.target, HandlerAck(s, o, number));
    AckCounts(Received(reserved, c.target, HandlerAck(s, o, number)), c.target, step.ack);
    var t' := Received(Received(reserved, c.target, HandlerAck(s, o, number)), c.target, step.ack);
    Exchanged(t', step.s, number, ServerRuns.Accepted(s, e).Some?)
  }

  /** The client's next number for the server is one that the server takes. */
  predicate InStep(t: Client.Table, s: Server.Server) {
    s.initialized ==> CounterOf(t, s.config.nodeId) == Server.Expected(s)
  }

  /* ---- The client's side ---- */

  lemma ReserveCounts(t: Client.Table, node: nat, category: byte, messageType: byte, deadline: nat)
    requires Client.Valid(t)
    ensures var after := Client.Reserve(t, node, category, messageType, deadline);
            && Client.Valid(after) && after.last.value.sequence == CounterOf(t, node)
            && Runs.Lookup(after.states, node).Some? && CounterOf(after, node) == Next8(CounterOf(t, node))
  {
    var after := Client.Reserve(t, node, category, messageType, deadline);
    var i := Client.Claim(t, node).0;
    Client.ReserveKeepsValid(t, node, category, messageType, deadline);
    Client.ClaimedSlot(t, node);
    Client.SlotFound(t.states, node);
    Runs.LookupAt(after.states, node, i);
    if Client.Holds(t.states[i], node) {
      Runs.LookupAt(t.states, node, i);
    }
  }

  /** Changing the slot of `node` in place changes what is known of it. */
  lemma UpdateCounts(t: Client.Table, node: nat, s: Client.ServerState)
    requires Client.Valid(t) && Client.SlotOf(t.states, node) < |t.states| && Client.TimerOk(s) && Client.Holds(s, node)
    ensures var after := Client.Update(t, Client.SlotOf(t.states, node), s);
            Client.Valid(after) && Runs.Lookup(after.states, node) == Some(Runs.EntryOf(s))
  {
    var i := Client.SlotOf(t.states, node);
    Client.SlotFound(t.states, node);
    Client.UpdateKeepsValid(t, node, s);
    Runs.LookupAt(Client.Update(t, i, s).states, node, i);
  }

  lemma ClearCounts(t: Client.Table, node: nat, category: byte, messageType: byte)
    requires Client.Valid(t) && Runs.Lookup(t.states, node).Some?
    ensures var after := Client.ClearAwaiting(t, node, category, messageType);
            && Client.Valid(after) && Runs.Lookup(after.states, node).Some?
            && CounterOf(after, node) == CounterOf(t, node)
  {
    var after := Client.ClearAwaiting(t, node, category, messageType);
    Client.SlotFound(t.states, node);
    if after != t {
      UpdateCounts(t, node, after.states[Client.SlotOf(t.states, node)]);
    }
  }

  lemma ResyncCounts(t: Client.Table, node: nat, expected: byte)
    requires Client.Valid(t) && Runs.Lookup(t.states, node).Some?
    ensures var after := Client.Resync(t, node, expected);
            && Client.Valid(after) && Runs.Lookup(after.states, node).Some? && CounterOf(after, node) == expected
  {
    Client.SlotFound(t.states, node);
    UpdateCounts(t, node, Client.Resync(t, node, expected).states[Client.SlotOf(t.states, node)]);
  }

  /** Only a sequence error moves the counter, to the number it names. */
  lemma AckCounts(t: Client.Table, node: nat, ack: Option<Ack>)
    requires Client.Valid(t) && Runs.Lookup(t.states, node).Some? && node != BROADCAST
    ensures var after := Received(t, node, ack);
            && Client.Valid(after) && Runs.Lookup(after.states, node).Some?
            && CounterOf(after, node) ==
               (if ack.Some? && ack.value.status.SequenceError? then ack.value.expectedSequence else CounterOf(t, node))
  {
    if ack.Some? {
      var payload := AckPayload(ack.value);
      ClearCounts(t, node, payload[0], payload[1]);
      ResyncCounts(Client.ClearAwaiting(t, node, payload[0], payload[1]), node, payload[3]);
    }
  }

  /* ---- The server's side ---- */

  /** What a deliverable command with this number does to the sequence, and what the server answers. */
  predicate Answered(s: Server.Server, o: Order, number: byte, step: Server.Step, accepted: bool) {
    var fits := IsEmergencyAddress(AddressOf(o.command)) || Server.IsExpected(s, number);
    && step.s.config == s.config && step.s.categories == s.categories
    && (accepted <==> fits && o.verdict == Handled)
    && (accepted ==> step.s.last == number && step.s.initialized && step.ack.None?)
    && (!accepted ==> step.s.last == s.last && step.s.initialized == s.initialized && step.ack.Some?)
    && (!fits ==> step.ack.value.status.SequenceError? && step.ack.value.expectedSequence == Server.Expected(s))
    && (fits && !accepted ==> !step.ack.value.status.SequenceError?)
  }

  /** Admission does not look at the budgets. */
  lemma DispatchCharged(s: Server.Server, charged: Server.Server, o: Order, number: byte)
    requires Deliverable(s, o) && charged == s.(used := charged.used, emergencyUsed := charged.emergencyUsed)
    ensures var a, payload := AddressOf(o.command), [number] + o.command.payload;
            Answered(s, o, number, Server.Dispatch(charged, a, payload, o.verdict), ServerRuns.AcceptedOf(s, a, payload, o.verdict).Some?)
  {
  }

  lemma ServerAnswers(s: Server.Server, o: Order, number: byte)
    requires Deliverable(s, o)
    ensures var e := FrameEvent(o.command, number, o.verdict);
            Answered(s, o, number, Server.React(s, e), ServerRuns.Accepted(s, e).Some?)
  {
    DispatchCharged(s, Server.Charge(s, IsEmergencyAddress(AddressOf(o.command))).1, o, number);
  }

  /* ---- One exchange ---- */

  /** The handler's acknowledgement is not a sequence error, so the counter follows the server's answer alone. */
  lemma ExchangeCounts(t: Client.Table, s: Server.Server, o: Order)
    requires Client.Valid(t) && Deliverable(s, o)
    ensures var x := Exchange(t, s, o);
            var e := FrameEvent(o.command, x.number, o.verdict);
            var node := s.config.nodeId;
            && Client.Valid(x.t) && x.number == CounterOf(t, node)
            && x.s == Server.React(s, e).s
            && Answered(s, o, x.number, Server.React(s, e), x.accepted)
            && CounterOf(x.t, node) == (if Server.React(s, e).ack.Some? && Server.React(s, e).ack.value.status.SequenceError?
                                        then Server.React(s, e).ack.value.expectedSequence else Next8(x.number))
  {
    var c := o.command;
    var reserved := Client.Reserve(t, c.target, c.category, c.messageType, o.deadline);
    var number := reserved.last.value.sequence;
    ReserveCounts(t, c.target, c.category, c.messageType, o.deadline);
    AckCounts(reserved, c.target, HandlerAck(s, o, number));
    AckCounts(Received(reserved, c.target, HandlerAck(s, o, number)), c.target, Server.React(s, FrameEvent(c, number, o.verdict)).ack);
    ServerAnswers(s, o, number);
  }

  /** When one complete exchange leaves the client in step with the server: always, except that a handler turned down
      a command whose number the server had let through. */
  predicate LeavesInStep(s: Server.Server, o: Order, number: byte) {
    || o.verdict == Handled
    || !s.initialized
    || (if IsEmergencyAddress(AddressOf(o.command)) then number == s.last else number != Server.Expected(s))
  }

  /** The same in the server's terms, `counter` being where the client ends up. */
  lemma AnswerResynchronises(s: Server.Server, o: Order, number: byte, step: Server.Step, accepted: bool, counter: byte)
    requires Answered(s, o, number, step, accepted)
    requires counter == if step.ack.Some? && step.ack.value.status.SequenceError? then step.ack.value.expectedSequence else Next8(number)
    ensures (step.s.initialized ==> counter == Server.Expected(step.s)) <==> LeavesInStep(s, o, number)
  {
  }

  lemma ExchangeResynchronises(t: Client.Table, s: Server.Server, o: Order)
    requires Client.Valid(t) && Deliverable(s, o)
    ensures var x := Exchange(t, s, o);
            InStep(x.t, x.s) <==> LeavesInStep(s, o, CounterOf(t, s.config.nodeId))
  {
    var x := Exchange(t, s, o);
    ExchangeCounts(t, s, o);
    AnswerResynchronises(s, o, x.number, Server.React(s, FrameEvent(o.command, x.number, o.verdict)), x.accepted,
                         CounterOf(x.t, s.config.nodeId));
  }

  /** A command in step that its handler takes is accepted; one out of step never is, unless it is an emergency. */
  lemma AcceptedExactlyInStep(t: Client.Table, s: Server.Server, o: Order)
    requires Client.Valid(t) && Deliverable(s, o)
    ensures Exchange(t, s, o).accepted <==>
              o.verdict == Handled && (InStep(t, s) || IsEmergencyAddress(AddressOf(o.command)))
  {
    ExchangeCounts(t, s, o);
  }

  /* ---- What the client still waits for ---- */

  /** The command of `node` that the table has outstanding. */
  predicate Awaits(t: Client.Table, node: nat, c: Command) {
    var entry := Runs.Lookup(t.states, node);
    && entry.Some? && entry.value.awaiting.Some?
    && entry.value.awaiting.value.category == c.category && entry.value.awaiting.value.messageType == c.messageType
  }

  predicate Settled(t: Client.Table, node: nat) {
    var entry := Runs.Lookup(t.states, node);
    entry.Some? && entry.value.awaiting.None?
  }

  lemma ReserveAwaits(t: Client.Table, c: Command, deadline: nat)
    requires Client.Valid(t) && IsCommand(c)
    ensures var after := Client.Reserve(t, c.target, c.category, c.messageType, deadline);
            Client.Valid(after) && Awaits(after, c.target, c)
  {
    var after := Client.Reserve(t, c.target, c.category, c.messageType, deadline);
    Client.ReserveKeepsValid(t, c.target, c.category, c.messageType, deadline);
    Client.ClaimedSlot(t, c.target);
    Runs.LookupAt(after.states, c.target, Client.Claim(t, c.target).0);
  }

  lemma ClearSettles(t: Client.Table, node: nat, c: Command)
    requires Client.Valid(t) && IsCommand(c) && (Awaits(t, node, c) || Settled(t, node))
    ensures var after := Client.ClearAwaiting(t, node, c.category, c.messageType);
            Client.Valid(after) && Settled(after, node)
  {
    var after := Client.ClearAwaiting(t, node, c.category, c.messageType);
    Client.SlotFound(t.states, node);
    if after != t {
      UpdateCounts(t, node, after.states[Client.SlotOf(t.states, node)]);
    }
  }

  lemma ResyncKeepsSettled(t: Client.Table, node: nat, expected: byte)
    requires Client.Valid(t) && Settled(t, node)
    ensures var after := Client.Resync(t, node, expected);
            Client.Valid(after) && Settled(after, node)
  {
    Client.SlotFound(t.states, node);
    UpdateCounts(t, node, Client.Resync(t, node, expected).states[Client.SlotOf(t.states, node)]);
  }

  /** An acknowledgement that names the command settles it, whatever its status. */
  lemma AckSettles(t: Client.Table, c: Command, ack: Ack)
    requires Client.Valid(t) && IsCommand(c) && c.target != BROADCAST && (Awaits(t, c.target, c) || Settled(t, c.target))
    requires ack.category == c.category && ack.messageType == c.messageType
    ensures Client.Valid(Received(t, c.target, Some(ack))) && Settled(Received(t, c.target, Some(ack)), c.target)
  {
    ClearSettles(t, c.target, c);
    ResyncKeepsSettled(Client.ClearAwaiting(t, c.target, c.category, c.messageType), c.target, ack.expectedSequence);
  }

  lemma ServerAckNamesCommand(s: Server.Server, o: Order, number: byte)
    requires Deliverable(s, o)
    ensures var ack := Server.React(s, FrameEvent(o.command, number, o.verdict)).ack;
            ack.Some? ==> ack.value.category == o.command.category && ack.value.messageType == o.command.messageType
  {
  }

  /** After an exchange the acknowledgement timer runs exactly for an accepted command whose handler sent nothing. */
  lemma TimerLeftExactlyForSilence(t: Client.Table, s: Server.Server, o: Order)
    requires Client.Valid(t) && Deliverable(s, o)
    ensures var x := Exchange(t, s, o);
            Client.CanExpire(x.t, s.config.nodeId) <==> x.accepted && o.reply.None?
  {
    var c := o.command;
    var reserved := Client.Reserve(t, c.target, c.category, c.messageType, o.deadline);
    var number := reserved.last.value.sequence;
    var own, ack := HandlerAck(s, o, number), Server.React(s, FrameEvent(c, number, o.verdict)).ack;
    ReserveAwaits(t, c, o.deadline);
    ServerAnswers(s, o, number);
    ServerAckNamesCommand(s, o, number);
    if ServerRuns.Accepted(s, FrameEvent(c, number, o.verdict)).Some? { AdmittedWhenAccepted(s, o, number); }
    if own.Some? { AckSettles(reserved, c, own.value); }
    var middle := Received(reserved, c.target, own);
    if ack.Some? { AckSettles(middle, c, ack.value); }
    TimerRunsWhileUnsettled(Received(middle, c.target, ack), c);
  }

  lemma AdmittedWhenAccepted(s: Server.Server, o: Order, number: byte)
    requires Deliverable(s, o) && ServerRuns.Accepted(s, FrameEvent(o.command, number, o.verdict)).Some?
    ensures Server.AdmissionOf(s, AddressOf(o.command), [number] + o.command.payload).Admit?
  {
  }

  lemma TimerRunsWhileUnsettled(t: Client.Table, c: Command)
    requires Client.Valid(t) && (Awaits(t, c.target, c) || Settled(t, c.target))
    ensures Client.CanExpire(t, c.target) <==> Awaits(t, c.target, c)
  {
    Client.SlotFound(t.states, c.target);
    assert Client.TimerOk(t.states[Client.SlotOf(t.states, c.target)]);
  }

  /** Whatever the counter, the server state and the verdicts: of two ordinary exchanges, one leaves client and server in step. */
  lemma TwoExchangesSuffice(t: Client.Table, s: Server.Server, o1: Order, o2: Order)
    requires Client.Valid(t) && Deliverable(s, o1) && Deliverable(Exchange(t, s, o1).s, o2)
    requires !IsEmergencyAddress(AddressOf(o1.command)) && !IsEmergencyAddress(AddressOf(o2.command))
    ensures var x := Exchange(t, s, o1);
            var y := Exchange(x.t, x.s, o2);
            InStep(x.t, x.s) || InStep(y.t, y.s)
  {
    var x := Exchange(t, s, o1);
    ExchangeResynchronises(t, s, o1);
    ExchangeCounts(t, s, o1);
    ExchangeResynchronises(x.t, x.s, o2);
  }

  /* ---- One refusal, concretely ---- */

  /** A command to node 5 in the validated category 1, with this verdict. */
  function OrderTo5(verdict: DispatchResult): Order {
    Order(Command(5, 1, 2, [7], 16), verdict, None, 100)
  }

  /** Node 5 before it has received anything. */
  function NewServer(): Server.Server {
    Server.Server(Server.Config(5, 50, 10), [Server.Category(0, false), Server.Category(1, true)],
                  0, 0, Server.Counters(0, 0, 0, 0), 0, false, false, false)
  }

  lemma NewTableIsValid()
    ensures Client.Valid(Runs.Initial().t)
  {
    assert Runs.After([]) == Some(Runs.Initial());
  }

  lemma FirstIsDeliverable()
    ensures Deliverable(NewServer(), OrderTo5(Handled))
  {
    assert Server.FindCategory(NewServer().categories, 1) == Some(Server.Category(1, true));
  }

  /** A server that has received nothing takes whatever number comes. */
  lemma FirstIsTaken(t: Client.Table, s: Server.Server)
    requires Client.Valid(t) && Deliverable(s, OrderTo5(Handled)) && !s.initialized
    ensures var x := Exchange(t, s, OrderTo5(Handled));
            Client.Valid(x.t) && x.accepted && InStep(x.t, x.s) && x.s.initialized
            && x.s.config == s.config && x.s.categories == s.categories && x.s.used == s.used + 1
  {
    ExchangeCounts(t, s, OrderTo5(Handled));
    AcceptedExactlyInStep(t, s, OrderTo5(Handled));
    ExchangeResynchronises(t, s, OrderTo5(Handled));
  }

  /** In step, a command that the handler turns down leaves the client's next number one too high. */
  lemma RefusalInStep(t: Client.Table, s: Server.Server)
    requires Client.Valid(t) && Deliverable(s, OrderTo5(Rejected)) && s.initialized && InStep(t, s)
    ensures var y := Exchange(t, s, OrderTo5(Rejected));
            !y.accepted && !InStep(y.t, y.s) && CounterOf(y.t, 5) == Next8(Server.Expected(y.s))
  {
    ExchangeCounts(t, s, OrderTo5(Rejected));
    ExchangeResynchronises(t, s, OrderTo5(Rejected));
  }

  /** From a new client and a new server: after one command the handler takes, both are in step; after one that it turns
      down, they are not. */
  lemma RefusalLeavesBehind()
    ensures var t, s := Runs.Initial().t, NewServer();
            && Client.Valid(t) && Deliverable(s, OrderTo5(Handled))
            && var x := Exchange(t, s, OrderTo5(Handled));
               && x.accepted && InStep(x.t, x.s) && Deliverable(x.s, OrderTo5(Rejected))
               && var y := Exchange(x.t, x.s, OrderTo5(Rejected));
                  !y.accepted && !InStep(y.t, y.s) && CounterOf(y.t, 5) == Next8(Server.Expected(y.s))
  {
    var x := TakenFirst();
    RefusalInStep(x.t, x.s);
  }

  lemma TakenFirst() returns (x: Exchanged)
    ensures var t, s := Runs.Initial().t, NewServer();
            Client.Valid(t) && Deliverable(s, OrderTo5(Handled)) && x == Exchange(t, s, OrderTo5(Handled))
    ensures Client.Valid(x.t) && x.accepted && InStep(x.t, x.s) && x.s.initialized && Deliverable(x.s, OrderTo5(Rejected))
  {
    NewTableIsValid();
    FirstIsDeliverable();
    FirstIsTaken(Runs.Initial().t, NewServer());
    x := Exchange(Runs.Initial().t, NewServer(), OrderTo5(Handled));
    assert Server.FindCategory(x.s.categories, 1) == Some(Server.Category(1, true));
  }

  /* ---- Forever ---- */

  /** Between exchanges: time passes at the server, and the client talks to others or has timers run out. */
  datatype Item = Do(order: Order) | AtServer(e: Server.Event) | AtClient(input: Runs.Event)

  datatype World = World(t: Client.Table, s: Server.Server, numbers: seq<byte>, accepted: nat, exchanges: nat)

  /** Events at the client that concern other servers and do not evict this one's slot, or its own timeout. */
  predicate Harmless(t: Client.Table, node: nat, e: Runs.Event) {
    && Runs.Enabled(Runs.Run(t, [], []), e)
    && (e.node == node ==> e.AckTimeout?)
    && (e.Command? && e.sent ==> Client.SlotOf(t.states, node) != Client.Claim(t, e.node).0)
  }

  predicate Possible(w: World, i: Item) {
    match i
    case Do(order) => Deliverable(w.s, order) && order.verdict == Handled
    case AtServer(e) => (e.RatePeriodEnds? || e.ClientTimeout?) && Server.CanHappen(w.s, e)
    case AtClient(e) => Harmless(w.t, w.s.config.nodeId, e)
  }

  function Next(w: World, i: Item): World
    requires Client.Valid(w.t) && Possible(w, i)
  {
    match i
    case Do(order) =>
      var x := Exchange(w.t, w.s, order);
      World(x.t, x.s, w.numbers + [x.number], w.accepted + (if x.accepted then 1 else 0), w.exchanges + 1)
    case AtServer(e) => w.(s := Server.React(w.s, e).s)
    case AtClient(e) => w.(t := Runs.Next(Runs.Run(w.t, [], []), e).t)
  }

  predicate Good(w: World) {
    && Client.Valid(w.t) && InStep(w.t, w.s) && w.accepted == w.exchanges == |w.numbers|
    && (w.numbers != [] ==> CounterOf(w.t, w.s.config.nodeId) == Next8(w.numbers[|w.numbers| - 1]))
    && (forall i :: 0 < i < |w.numbers| ==> w.numbers[i] == Next8(w.numbers[i - 1]))
  }

  lemma LookupOfUpdate(t: Client.Table, other: nat, s: Client.ServerState, node: nat)
    requires Client.Valid(t) && Client.SlotOf(t.states, other) < |t.states| && other != node
    requires Client.TimerOk(s) && Client.Holds(s, other)
    ensures CounterOf(Client.Update(t, Client.SlotOf(t.states, other), s), node) == CounterOf(t, node)
  {
    Client.SlotFound(t.states, other);
    Client.UpdateKeepsValid(t, other, s);
    Runs.LookupElsewhere(t.states, Client.SlotOf(t.states, other), s, node);
  }

  lemma ReserveElsewhere(t: Client.Table, e: Runs.Event, node: nat)
    requires Client.Valid(t) && e.Command? && e.node != node && Harmless(t, node, e)
    ensures CounterOf(Runs.Commanded(t, e), node) == CounterOf(t, node)
  {
    if e.sent {
      var i := Client.Claim(t, e.node).0;
      Client.ClaimedSlot(t, e.node);
      Client.ReserveKeepsValid(t, e.node, e.category, e.messageType, e.deadline);
      if Client.Holds(t.states[i], node) {
        Client.OnlySlot(t.states, node, i);
      }
      Runs.LookupElsewhere(t.states, i, Runs.Commanded(t, e).states[i], node);
    }
  }

  lemma ReturnElsewhere(t: Client.Table, other: nat, sequence: byte, node: nat)
    requires Client.Valid(t) && other != node
    ensures CounterOf(Client.Return(t, other, sequence), node) == CounterOf(t, node)
  {
    var i := Client.SlotOf(t.states, other);
    Client.SlotFound(t.states, other);
    if Client.Return(t, other, sequence) != t {
      LookupOfUpdate(t, other, t.states[i].(record := t.states[i].record.(counter := sequence)), node);
    }
  }

  lemma AckElsewhere(t: Client.Table, other: nat, payload: seq<byte>, node: nat)
    requires Client.Valid(t) && other != node
    ensures CounterOf(Client.Acknowledge(t, other, payload), node) == CounterOf(t, node)
  {
    if |payload| >= ACK_SIZE && other != 0 {
      var i := Client.SlotOf(t.states, other);
      var cleared := Client.ClearAwaiting(t, other, payload[0], payload[1]);
      Client.SlotFound(t.states, other);
      Client.ClearKeepsValid(t, other, payload[0], payload[1]);
      if cleared != t {
        LookupOfUpdate(t, other, cleared.states[i], node);
      }
      Client.SlotFound(cleared.states, other);
      if Client.SlotOf(cleared.states, other) < |cleared.states| {
        var j := Client.SlotOf(cleared.states, other);
        LookupOfUpdate(cleared, other, cleared.states[j].(record := cleared.states[j].record.(counter := payload[3])), node);
      }
    }
  }

  lemma ExpireCounts(t: Client.Table, other: nat, node: nat)
    requires Client.Valid(t) && Client.CanExpire(t, other)
    ensures CounterOf(Client.Expire(t, other).0, node) == CounterOf(t, node)
  {
    var i := Client.SlotOf(t.states, other);
    var s := Client.ServerState(t.states[i].record.(awaiting := false), Client.Off);
    Client.SlotFound(t.states, other);
    if other == node {
      UpdateCounts(t, node, s);
    } else {
      LookupOfUpdate(t, other, s, node);
    }
  }

  lemma HarmlessKeepsCounter(t: Client.Table, node: nat, e: Runs.Event)
    requires Client.Valid(t) && Harmless(t, node, e)
    ensures var t' := Runs.Next(Runs.Run(t, [], []), e).t;
            Client.Valid(t') && CounterOf(t', node) == CounterOf(t, node)
  {
    Runs.NextKeepsValid(Runs.Run(t, [], []), e);
    match e {
      case Command(_, _, _, _, _) => ReserveElsewhere(t, e, node);
      case GiveBack(other, sequence) => ReturnElsewhere(t, other, sequence, node);
      case AckArrives(other, payload) => AckElsewhere(t, other, payload, node);
      case AckTimeout(other) => ExpireCounts(t, other, node);
    }
  }

  lemma DoKeepsGood(w: World, o: Order)
    requires Good(w) && Possible(w, Do(o))
    ensures Good(Next(w, Do(o)))
  {
    ExchangeCounts(w.t, w.s, o);
    AcceptedExactlyInStep(w.t, w.s, o);
    ExchangeResynchronises(w.t, w.s, o);
  }

  lemma NextKeepsGood(w: World, i: Item)
    requires Good(w) && Possible(w, i)
    ensures Good(Next(w, i))
  {
    match i {
      case Do(order) => DoKeepsGood(w, order);
      case AtServer(_) =>
      case AtClient(e) => HarmlessKeepsCounter(w.t, w.s.config.nodeId, e);
    }
  }

  ghost predicate Follows(ws: seq<World>, items: seq<Item>) {
    && |ws| == |items| + 1
    && forall k :: 0 <= k < |items| ==> Client.Valid(ws[k].t) && Possible(ws[k], items[k]) && ws[k + 1] == Next(ws[k], items[k])
  }

  /** Once in step, every command its handler takes is accepted, however many follow: the numbers run on and wrap. */
  lemma {:induction false} InStepForever(ws: seq<World>, items: seq<Item>)
    requires Follows(ws, items) && Good(ws[0])
    ensures Good(ws[|items|])
    decreases |items|
  {
    if items != [] {
      var n := |items| - 1;
      assert Follows(ws[..n + 1], items[..n]) by {
        forall k | 0 <= k < n
          ensures Possible(ws[..n + 1][k], items[..n][k]) && ws[..n + 1][k + 1] == Next(ws[..n + 1][k], items[..n][k])
        {
          assert ws[k + 1] == Next(ws[k], items[k]);
        }
      }
      InStepForever(ws[..n + 1], items[..n]);
      assert ws[n + 1] == Next(ws[n], items[n]);
      NextKeepsGood(ws[n], items[n]);
    }
  }
}
