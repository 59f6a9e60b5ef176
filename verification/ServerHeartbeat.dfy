/**
 Heartbeats of the server (SendHeartbeat in CanProtocolServer.cpp) together with
 its transport: a heartbeat is not sent while another is still on its way.
 */
module ServerHeartbeat {
  import opened CanTypes
  import opened CanProtocol
  import opened CanFrameTransport
  import opened SendQueueRefinement

  const PROTOCOL_VERSION: byte := 1
  const HEARTBEAT_PRIORITY := 16

  datatype Callback = ClearPending | NoCallback

  datatype State = State(pending: bool, transport: Transport<Callback>)

  function HeartbeatId(nodeId: nat): CanId
    requires nodeId < 0x1000
  {
    Extended(MakeCanId(Address(HEARTBEAT_PRIORITY, SYSTEM_CATEGORY, HEARTBEAT_TYPE, nodeId)))
  }

  function Heartbeat(nodeId: nat): Frame<Callback>
    requires nodeId < 0x1000
  {
    Pending(HeartbeatId(nodeId), [PROTOCOL_VERSION], ClearPending)
  }

  /** `heartbeatPending` after the transport's step has run its callback. */
  function PendingAfter(pending: bool, report: Option<Report<Callback>>): bool {
    if report.Some? && report.value.frame.onDone.ClearPending? then false else pending
  }

  datatype Event =
    | HeartbeatDue
    | Send(id: CanId, data: Message)
    | Complete(success: bool)

  predicate Enabled(s: State, e: Event) {
    e.Complete? ==> s.transport.current.Some?
  }

  function StepOf(s: State, nodeId: nat, e: Event): Step<Callback>
    requires Enabled(s, e) && nodeId < 0x1000
  {
    match e
    case HeartbeatDue =>
      if s.pending then Refuse(s.transport, s.transport.counters) else Offer(s.transport, Heartbeat(nodeId))
    case Send(id, data) => Offer(s.transport, Pending(id, data, NoCallback))
    case Complete(success) => Completed(s.transport, success)
  }

  function Next(s: State, nodeId: nat, e: Event): State
    requires Enabled(s, e) && nodeId < 0x1000
  {
    var step := StepOf(s, nodeId, e);
    var pending := if e.HeartbeatDue? then s.pending || step.taken else s.pending;
    State(PendingAfter(pending, step.report), step.t)
  }

  /* ---- One heartbeat at a time ---- */

  function Heartbeats(q: seq<Frame<Callback>>): nat {
    if q == [] then 0 else Heartbeats(q[..|q| - 1]) + if q[|q| - 1].onDone.ClearPending? then 1 else 0
  }

  function One(b: bool): nat {
    if b then 1 else 0
  }

  /** Heartbeats queued or being sent. */
  function OnTheirWay(t: Transport<Callback>): nat {
    Heartbeats(t.queue) + One(t.current.Some? && t.current.value.onDone.ClearPending?)
  }

  predicate Coalesced(s: State) {
    OnTheirWay(s.transport) == One(s.pending)
  }

  lemma {:induction false} HeartbeatsConcat(a: seq<Frame<Callback>>, b: seq<Frame<Callback>>)
    ensures Heartbeats(a + b) == Heartbeats(a) + Heartbeats(b)
  {
    if b == [] {
      assert a + b == a;
    } else {
      var init := b[..|b| - 1];
      assert (a + b)[..|a + b| - 1] == a + init;
      HeartbeatsConcat(a, init);
    }
  }

  lemma HeartbeatsOne(f: Frame<Callback>)
    ensures Heartbeats([f]) == One(f.onDone.ClearPending?)
  {
    assert [f][..0] == [];
  }

  lemma {:induction false} HeartbeatsInserted(q: seq<Frame<Callback>>, f: Frame<Callback>)
    ensures Heartbeats(Inserted(q, f)) == Heartbeats(q) + One(f.onDone.ClearPending?)
  {
    HeartbeatsOne(f);
    if q == [] {
    } else if q[0].priority > f.priority {
      HeartbeatsConcat([f], q);
    } else {
      assert q == [q[0]] + q[1..];
      HeartbeatsConcat([q[0]], q[1..]);
      HeartbeatsConcat([q[0]], Inserted(q[1..], f));
      HeartbeatsInserted(q[1..], f);
    }
  }

  function Gone(report: Option<Report<Callback>>): nat {
    One(report.Some? && report.value.frame.onDone.ClearPending?)
  }

  /** What is offered and taken comes in, what is reported goes out. */
  predicate Balanced(t: Transport<Callback>, step: Step<Callback>, offered: nat) {
    OnTheirWay(step.t) + Gone(step.report) == OnTheirWay(t) + (if step.taken then offered else 0)
  }

  lemma DisplaceBalances(t: Transport<Callback>, f: Frame<Callback>)
    requires t.queue != []
    ensures Balanced(t, Displace(t, f), One(f.onDone.ClearPending?))
  {
    HeartbeatsInserted(t.queue[..|t.queue| - 1], f);
  }

  lemma KeepBalances(t: Transport<Callback>, f: Frame<Callback>)
    ensures Balanced(t, Keep(t, f), One(f.onDone.ClearPending?))
  {
    HeartbeatsInserted(t.queue, f);
  }

  lemma RefuseBalances(t: Transport<Callback>, counters: Counters, offered: nat)
    ensures Balanced(t, Refuse(t, counters), offered)
  {
  }

  lemma OfferBalances(t: Transport<Callback>, f: Frame<Callback>)
    requires Valid(t)
    ensures Balanced(t, Offer(t, f), One(f.onDone.ClearPending?))
  {
    if t.current.Some? {
      var step := Offer(t, f);
      if step == Keep(t, f) {
        KeepBalances(t, f);
      } else if !step.taken {
        RefuseBalances(t, step.t.counters, One(f.onDone.ClearPending?));
      } else {
        DisplaceBalances(t, f);
      }
    }
  }

  lemma CompletedBalances(t: Transport<Callback>, success: bool)
    requires t.current.Some?
    ensures Balanced(t, Completed(t, success), 0)
  {
    if t.queue != [] {
      assert t.queue == [t.queue[0]] + t.queue[1..];
      HeartbeatsConcat([t.queue[0]], t.queue[1..]);
      HeartbeatsOne(t.queue[0]);
    }
  }

  /** The flag keeps up with the count, whichever way a step goes. */
  lemma FlagFollows(s: State, step: Step<Callback>, offered: bool, pending: bool)
    requires Coalesced(s) && Balanced(s.transport, step, One(offered))
    requires offered ==> !s.pending
    requires pending == (s.pending || (offered && step.taken))
    requires offered && step.taken ==> Gone(step.report) == 0
    ensures Coalesced(State(PendingAfter(pending, step.report), step.t))
  {
  }

  /** A heartbeat displaces no other: none is there when it is offered. */
  lemma {:induction false} NoHeartbeatInside(q: seq<Frame<Callback>>)
    requires Heartbeats(q) == 0
    ensures forall i :: 0 <= i < |q| ==> !q[i].onDone.ClearPending?
  {
    if q != [] {
      NoHeartbeatInside(q[..|q| - 1]);
      forall i | 0 <= i < |q|
        ensures !q[i].onDone.ClearPending?
      {
        if i < |q| - 1 { assert q[i] == q[..|q| - 1][i]; }
      }
    }
  }

  lemma OfferReportsQueued<C>(t: Transport<C>, f: Frame<C>)
    requires Valid(t)
    ensures Offer(t, f).report.Some? ==> t.queue != [] && Offer(t, f).report.value.frame == t.queue[|t.queue| - 1]
  {
  }

  lemma DueKeepsCoalesced(s: State, nodeId: nat)
    requires Valid(s.transport) && Coalesced(s) && nodeId < 0x1000
    ensures Coalesced(Next(s, nodeId, HeartbeatDue))
  {
    if !s.pending {
      var step := Offer(s.transport, Heartbeat(nodeId));
      OfferBalances(s.transport, Heartbeat(nodeId));
      NoHeartbeatInside(s.transport.queue);
      OfferReportsQueued(s.transport, Heartbeat(nodeId));
      FlagFollows(s, step, true, step.taken);
    }
  }

  lemma NextKeepsCoalesced(s: State, nodeId: nat, e: Event)
    requires Valid(s.transport) && Coalesced(s) && Enabled(s, e) && nodeId < 0x1000
    ensures Coalesced(Next(s, nodeId, e))
  {
    match e {
      case HeartbeatDue => DueKeepsCoalesced(s, nodeId);
      case Send(id, data) =>
        OfferBalances(s.transport, Pending(id, data, NoCallback));
        FlagFollows(s, StepOf(s, nodeId, e), false, s.pending);
      case Complete(success) =>
        CompletedBalances(s.transport, success);
        FlagFollows(s, StepOf(s, nodeId, e), false, s.pending);
    }
  }

  lemma NextKeepsValid(s: State, nodeId: nat, e: Event)
    requires Valid(s.transport) && Enabled(s, e) && nodeId < 0x1000
    ensures Valid(Next(s, nodeId, e).transport)
  {
    match e {
      case HeartbeatDue => OfferKeepsValid(s.transport, Heartbeat(nodeId));
      case Send(id, data) => OfferKeepsValid(s.transport, Pending(id, data, NoCallback));
      case Complete(success) => CompletedKeepsValid(s.transport, success);
    }
  }

  /** The transport can take a heartbeat without refusing or displacing anything. */
  predicate Roomy(t: Transport<Callback>) {
    t.current.None? || (|t.queue| < QUEUE_DEPTH && |Ordinaries(t.queue)| < QUEUE_DEPTH - EMERGENCY_RESERVE)
  }

  /** A due heartbeat goes out when none is on its way and there is room, at once if nothing else is being sent: version 1,
      from this node, under the priority of heartbeats. While one is on its way nothing happens. */
  lemma DueHeartbeatGoesOut(s: State, nodeId: nat)
    requires Valid(s.transport) && Coalesced(s) && nodeId < 0x1000
    ensures var s' := Next(s, nodeId, HeartbeatDue);
            && (OnTheirWay(s.transport) > 0 ==> s' == s)
            && (OnTheirWay(s.transport) == 0 && Roomy(s.transport) ==> OnTheirWay(s'.transport) == 1)
            && (OnTheirWay(s.transport) == 0 && s.transport.current.None? ==>
                  && s'.transport.current.Some?
                  && var f := s'.transport.current.value;
                     && f.data == [1] && f.id.Extended?
                     && Extract(f.id.raw) == Address(16, SYSTEM_CATEGORY, HEARTBEAT_TYPE, nodeId))
  {
    OfOneKind(s.transport.queue);
    NextKeepsCoalesced(s, nodeId, HeartbeatDue);
    CanIdRoundTrip(Address(HEARTBEAT_PRIORITY, SYSTEM_CATEGORY, HEARTBEAT_TYPE, nodeId));
  }

  /* ---- Runs ---- */

  /** `accepted` counts the heartbeats the transport took, `released` those whose callback ran. */
  datatype Run = Run(s: State, accepted: nat, released: nat)

  function RunNext(r: Run, nodeId: nat, e: Event): Run
    requires Enabled(r.s, e) && nodeId < 0x1000
  {
    var step := StepOf(r.s, nodeId, e);
    Run(Next(r.s, nodeId, e), r.accepted + One(e.HeartbeatDue? && step.taken), r.released + Gone(step.report))
  }

  function After(nodeId: nat, es: seq<Event>): Option<Run>
    requires nodeId < 0x1000
  {
    if es == [] then Some(Run(State(false, Transport(None, 0, [], Counters(0, 0, 0, 0, 0))), 0, 0))
    else
      var before := After(nodeId, es[..|es| - 1]);
      if before.Some? && Enabled(before.value.s, es[|es| - 1]) then Some(RunNext(before.value, nodeId, es[|es| - 1])) else None
  }

  predicate Inv(r: Run) {
    Valid(r.s.transport) && Coalesced(r.s) && r.accepted == r.released + OnTheirWay(r.s.transport)
  }

  lemma StepBalances(s: State, nodeId: nat, e: Event)
    requires Valid(s.transport) && Enabled(s, e) && nodeId < 0x1000
    ensures Balanced(s.transport, StepOf(s, nodeId, e), One(e.HeartbeatDue?))
  {
    match e {
      case HeartbeatDue => OfferBalances(s.transport, Heartbeat(nodeId));
      case Send(id, data) => OfferBalances(s.transport, Pending(id, data, NoCallback));
      case Complete(success) => CompletedBalances(s.transport, success);
    }
  }

  lemma BalanceCounts(r: Run, r': Run, step: Step<Callback>, due: bool)
    requires Inv(r) && Balanced(r.s.transport, step, One(due)) && r'.s.transport == step.t
    requires r'.accepted == r.accepted + One(due && step.taken) && r'.released == r.released + Gone(step.report)
    ensures r'.accepted == r'.released + OnTheirWay(r'.s.transport)
  {
  }

  /** In every run, through evictions, refusals and failures: the flag is set exactly while one heartbeat is queued or
      being sent, there is never a second, and every heartbeat taken has been released or is that one. */
  lemma {:induction false} HeartbeatsCoalesce(nodeId: nat, es: seq<Event>)
    requires nodeId < 0x1000 && After(nodeId, es).Some?
    ensures Inv(After(nodeId, es).value)
  {
    if es != [] {
      var r, e := After(nodeId, es[..|es| - 1]).value, es[|es| - 1];
      HeartbeatsCoalesce(nodeId, es[..|es| - 1]);
      NextKeepsValid(r.s, nodeId, e);
      NextKeepsCoalesced(r.s, nodeId, e);
      StepBalances(r.s, nodeId, e);
      BalanceCounts(r, RunNext(r, nodeId, e), StepOf(r.s, nodeId, e), e.HeartbeatDue?);
    }
  }

  /* ---- The object ---- */

  /** The part of CanProtocolServer that owns `heartbeatPending`; callbacks of its transport run here. */
  class ServerHeartbeat {
    const nodeId: nat
    const transport: CanFrameTransport<Callback>
    var heartbeatPending: bool

    constructor (nodeId: nat, transport: CanFrameTransport<Callback>)
      ensures this.nodeId == nodeId && this.transport == transport && !heartbeatPending
    {
      this.nodeId, this.transport, heartbeatPending := nodeId, transport, false;
    }

    ghost function Abs(): State
      reads this, transport
    {
      State(heartbeatPending, transport.Abs())
    }

    method RunCallback(reports: nat)
      modifies this
      ensures reports < |transport.reports| ==> heartbeatPending == PendingAfter(old(heartbeatPending), Some(transport.reports[reports]))
      ensures reports >= |transport.reports| ==> heartbeatPending == old(heartbeatPending)
    {
      if reports < |transport.reports| && transport.reports[reports].frame.onDone.ClearPending? {
        heartbeatPending := false;
      }
    }

    method SendHeartbeat()
      requires Valid(transport.Abs()) && nodeId < 0x1000
      modifies this, transport
      ensures Abs() == Next(old(Abs()), nodeId, HeartbeatDue)
    {
      if heartbeatPending {
        return;
      }
      heartbeatPending := true;
      var before := |transport.reports|;
      var sent := transport.SendRawFrame(HeartbeatId(nodeId), [PROTOCOL_VERSION], ClearPending);
      RunCallback(before);
      if !sent {
        heartbeatPending := false;
      }
    }

    /** Any other frame of the server. */
    method SendFrame(id: CanId, data: Message) returns (taken: bool)
      requires Valid(transport.Abs()) && nodeId < 0x1000
      modifies this, transport
      ensures Abs() == Next(old(Abs()), nodeId, Send(id, data))
      ensures taken == StepOf(old(Abs()), nodeId, Send(id, data)).taken
    {
      var before := |transport.reports|;
      taken := transport.SendRawFrame(id, data, NoCallback);
      RunCallback(before);
    }

    method OnSendComplete(success: bool)
      requires Valid(transport.Abs()) && transport.current.Some? && nodeId < 0x1000
      modifies this, transport
      ensures Abs() == Next(old(Abs()), nodeId, Complete(success))
    {
      var before := |transport.reports|;
      transport.OnSendComplete(success);
      RunCallback(before);
    }
  }
}
