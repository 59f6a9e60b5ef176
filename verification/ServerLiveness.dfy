/**
 Which servers a client believes alive (MarkServerAlive and HandleServerTimeout in
 CanProtocolClient.cpp): eight slots, replaced in turn, and what observers are told.
 */
module ServerLiveness {
  import opened CanTypes
  import opened Slots

  const MAX_SERVERS := 8

  /** A running timeout timer carries the node its callback was given. */
  datatype Slot = Slot(nodeId: nat, occupied: bool, timer: Option<nat>)

  datatype Table = Table(slots: seq<Slot>, evictIndex: nat)

  datatype Notice = Online(nodeId: nat) | Offline(nodeId: nat)

  const FREE := Slot(0, false, None)

  predicate Holds(s: Slot, node: nat) {
    s.occupied && s.nodeId == node
  }

  function SlotOf(slots: seq<Slot>, node: nat): nat {
    FirstWhere(slots, (s: Slot) => Holds(s, node))
  }

  function FreeSlot(slots: seq<Slot>): nat {
    FirstWhere(slots, (s: Slot) => !s.occupied)
  }

  lemma SlotFound(slots: seq<Slot>, node: nat)
    ensures SlotOf(slots, node) <= |slots|
    ensures SlotOf(slots, node) < |slots| ==> Holds(slots[SlotOf(slots, node)], node)
    ensures forall i :: 0 <= i < SlotOf(slots, node) ==> !Holds(slots[i], node)
  {
    FirstWhereFound(slots, (s: Slot) => Holds(s, node));
  }

  lemma FreeFound(slots: seq<Slot>)
    ensures FreeSlot(slots) <= |slots|
    ensures FreeSlot(slots) < |slots| ==> !slots[FreeSlot(slots)].occupied
    ensures forall i :: 0 <= i < FreeSlot(slots) ==> slots[i].occupied
  {
    FirstWhereFound(slots, (s: Slot) => !s.occupied);
  }

  /** The table after a call and the notifications it sent. */
  datatype Step = Step(t: Table, notices: seq<Notice>)

  function Alive(node: nat): Slot {
    Slot(node, true, Some(node))
  }

  function MarkAlive(t: Table, node: nat): Step
    requires t.evictIndex < |t.slots|
  {
    var i, free := SlotOf(t.slots, node), FreeSlot(t.slots);
    if i < |t.slots| then Step(t.(slots := t.slots[i := t.slots[i].(timer := Some(node))]), [])
    else if free < |t.slots| then Step(t.(slots := t.slots[free := Alive(node)]), [Online(node)])
    else
      Step(Table(t.slots[t.evictIndex := Alive(node)], if t.evictIndex + 1 == |t.slots| then 0 else t.evictIndex + 1),
           [Offline(t.slots[t.evictIndex].nodeId), Online(node)])
  }

  /** The timer of slot `i` fires: it no longer runs, and its node is looked up. */
  function TimerFires(t: Table, i: nat): Step
    requires i < |t.slots| && t.slots[i].timer.Some?
  {
    var stopped := t.slots[i := t.slots[i].(timer := None)];
    var node := t.slots[i].timer.value;
    var j := SlotOf(stopped, node);
    if j < |stopped| then Step(t.(slots := stopped[j := stopped[j].(occupied := false)]), [Offline(node)])
    else Step(t.(slots := stopped), [])
  }

  /* ---- Invariant ---- */

  predicate Distinct(slots: seq<Slot>) {
    forall i, j :: 0 <= i < j < |slots| && slots[i].occupied && slots[j].occupied ==> slots[i].nodeId != slots[j].nodeId
  }

  /** The timer runs exactly while the slot is in use, for the slot's own node. */
  predicate TimerOk(s: Slot) {
    (s.occupied <==> s.timer.Some?) && (s.occupied ==> s.timer == Some(s.nodeId))
  }

  predicate Valid(t: Table) {
    && |t.slots| == MAX_SERVERS && t.evictIndex < MAX_SERVERS
    && Distinct(t.slots) && (forall i :: 0 <= i < |t.slots| ==> TimerOk(t.slots[i]))
  }

  lemma OnlySlot(t: Table, node: nat, i: nat)
    requires Valid(t) && i < |t.slots| && Holds(t.slots[i], node)
    ensures SlotOf(t.slots, node) == i
    ensures forall j :: 0 <= j < |t.slots| && j != i ==> !Holds(t.slots[j], node)
  {
    SlotFound(t.slots, node);
  }

  lemma SetKeepsValid(t: Table, i: nat, s: Slot, evictIndex: nat)
    requires Valid(t) && i < |t.slots| && TimerOk(s) && evictIndex < MAX_SERVERS
    requires s.occupied ==> forall j :: 0 <= j < |t.slots| && j != i ==> !Holds(t.slots[j], s.nodeId)
    ensures Valid(Table(t.slots[i := s], evictIndex))
  {
    var after := t.slots[i := s];
    forall a, b | 0 <= a < b < |after| && after[a].occupied && after[b].occupied
      ensures after[a].nodeId != after[b].nodeId
    {
      if a != i && b != i {
        assert t.slots[a].nodeId != t.slots[b].nodeId;
      } else if a == i {
        assert !Holds(t.slots[b], s.nodeId);
      } else {
        assert !Holds(t.slots[a], s.nodeId);
      }
    }
  }

  lemma MarkAliveKeepsValid(t: Table, node: nat)
    requires Valid(t)
    ensures Valid(MarkAlive(t, node).t)
  {
    var i, free := SlotOf(t.slots, node), FreeSlot(t.slots);
    SlotFound(t.slots, node);
    FreeFound(t.slots);
    if i < |t.slots| {
      OnlySlot(t, node, i);
      SetKeepsValid(t, i, t.slots[i].(timer := Some(node)), t.evictIndex);
    } else if free < |t.slots| {
      SetKeepsValid(t, free, Alive(node), t.evictIndex);
    } else {
      SetKeepsValid(t, t.evictIndex, Alive(node), MarkAlive(t, node).t.evictIndex);
    }
  }

  /** The slot whose timer fires is the slot its node is found in. */
  lemma FiredSlot(t: Table, i: nat)
    requires Valid(t) && i < |t.slots| && t.slots[i].timer.Some?
    ensures TimerFires(t, i) == Step(t.(slots := t.slots[i := Slot(t.slots[i].nodeId, false, None)]), [Offline(t.slots[i].nodeId)])
  {
    assert TimerOk(t.slots[i]);
    var node := t.slots[i].nodeId;
    var stopped := t.slots[i := t.slots[i].(timer := None)];
    OnlySlot(t, node, i);
    SlotFound(stopped, node);
    assert Holds(stopped[i], node);
    assert stopped[i := stopped[i].(occupied := false)] == t.slots[i := Slot(node, false, None)];
  }

  lemma TimerFiresKeepsValid(t: Table, i: nat)
    requires Valid(t) && i < |t.slots| && t.slots[i].timer.Some?
    ensures Valid(TimerFires(t, i).t)
  {
    FiredSlot(t, i);
    SetKeepsValid(t, i, Slot(t.slots[i].nodeId, false, None), t.evictIndex);
  }

  /* ---- What observers have been told about a node ---- */

  function About(n: Notice, node: nat): bool {
    n.nodeId == node
  }

  /** The notifications about one node, oldest first. */
  function History(notices: seq<Notice>, node: nat): seq<Notice> {
    if notices == [] then []
    else History(notices[..|notices| - 1], node) + if About(notices[|notices| - 1], node) then [notices[|notices| - 1]] else []
  }

  /** Online first, then Offline and Online in turn. */
  predicate Alternates(h: seq<Notice>) {
    h == [] || (Alternates(h[..|h| - 1]) && (h[|h| - 1].Online? <==> !EndsOnline(h[..|h| - 1])))
  }

  predicate EndsOnline(h: seq<Notice>) {
    h != [] && h[|h| - 1].Online?
  }

  predicate IsOnline(t: Table, node: nat) {
    SlotOf(t.slots, node) < |t.slots|
  }

  predicate Told(t: Table, notices: seq<Notice>, node: nat) {
    Alternates(History(notices, node)) && (EndsOnline(History(notices, node)) <==> IsOnline(t, node))
  }

  lemma HistoryAppend(notices: seq<Notice>, n: Notice, node: nat)
    ensures History(notices + [n], node) == History(notices, node) + if About(n, node) then [n] else []
  {
    assert (notices + [n])[..|notices|] == notices;
  }

  /** One more notification: allowed if it changes what was last said of its node. */
  lemma OneMoreNotice(notices: seq<Notice>, n: Notice, node: nat)
    requires Alternates(History(notices, node))
    requires About(n, node) ==> (n.Online? <==> !EndsOnline(History(notices, node)))
    ensures Alternates(History(notices + [n], node))
    ensures EndsOnline(History(notices + [n], node)) <==> if About(n, node) then n.Online? else EndsOnline(History(notices, node))
  {
    HistoryAppend(notices, n, node);
    var h := History(notices, node);
    if About(n, node) {
      assert (h + [n])[..|h|] == h;
    } else {
      assert h + [] == h;
    }
  }

  lemma OnlineIff(t: Table, node: nat)
    ensures IsOnline(t, node) <==> exists i :: 0 <= i < |t.slots| && Holds(t.slots[i], node)
  {
    SlotFound(t.slots, node);
  }

  /** Replacing a slot concerns only the node it held and the node it now holds. */
  lemma SetOnline(t: Table, i: nat, s: Slot, evictIndex: nat, node: nat)
    requires Valid(t) && i < |t.slots|
    ensures IsOnline(Table(t.slots[i := s], evictIndex), node) <==> Holds(s, node) || (IsOnline(t, node) && !Holds(t.slots[i], node))
  {
    var after := Table(t.slots[i := s], evictIndex);
    OnlineIff(t, node);
    OnlineIff(after, node);
    if Holds(s, node) {
      assert Holds(after.slots[i], node);
    }
    if IsOnline(t, node) && !Holds(t.slots[i], node) {
      var j :| 0 <= j < |t.slots| && Holds(t.slots[j], node);
      assert Holds(after.slots[j], node);
    }
    if Holds(t.slots[i], node) {
      OnlySlot(t, node, i);
    }
  }

  lemma MarkAliveTells(t: Table, node: nat, notices: seq<Notice>, other: nat)
    requires Valid(t) && Told(t, notices, other)
    ensures Told(MarkAlive(t, node).t, notices + MarkAlive(t, node).notices, other)
  {
    var i, free, step := SlotOf(t.slots, node), FreeSlot(t.slots), MarkAlive(t, node);
    SlotFound(t.slots, node);
    FreeFound(t.slots);
    if i < |t.slots| {
      assert notices + [] == notices;
      SetOnline(t, i, t.slots[i].(timer := Some(node)), t.evictIndex, other);
    } else if free < |t.slots| {
      SetOnline(t, free, Alive(node), t.evictIndex, other);
      OneMoreNotice(notices, Online(node), other);
    } else {
      EvictionTells(t, node, notices, other);
    }
  }

  lemma EvictionTells(t: Table, node: nat, notices: seq<Notice>, other: nat)
    requires Valid(t) && Told(t, notices, other)
    requires SlotOf(t.slots, node) == |t.slots| && FreeSlot(t.slots) == |t.slots|
    ensures Told(MarkAlive(t, node).t, notices + MarkAlive(t, node).notices, other)
  {
    var gone := t.slots[t.evictIndex].nodeId;
    SlotFound(t.slots, node);
    FreeFound(t.slots);
    OnlySlot(t, gone, t.evictIndex);
    SetOnline(t, t.evictIndex, Alive(node), MarkAlive(t, node).t.evictIndex, other);
    OneMoreNotice(notices, Offline(gone), other);
    OneMoreNotice(notices + [Offline(gone)], Online(node), other);
    assert notices + [Offline(gone), Online(node)] == notices + [Offline(gone)] + [Online(node)];
  }

  lemma TimerFiresTells(t: Table, i: nat, notices: seq<Notice>, other: nat)
    requires Valid(t) && i < |t.slots| && t.slots[i].timer.Some? && Told(t, notices, other)
    ensures Told(TimerFires(t, i).t, notices + TimerFires(t, i).notices, other)
  {
    FiredSlot(t, i);
    assert TimerOk(t.slots[i]);
    OnlySlot(t, t.slots[i].nodeId, i);
    SetOnline(t, i, Slot(t.slots[i].nodeId, false, None), t.evictIndex, other);
    OneMoreNotice(notices, Offline(t.slots[i].nodeId), other);
  }

  /* ---- What each event decides ---- */

  /** A node that is heard is online from then on. Nobody is told if it was already; otherwise it is told Online, after
      Offline for the node whose turn it is to give up its slot, if no slot is free: that node alone goes offline, and the
      turn passes on. */
  lemma HearingDecides(t: Table, node: nat)
    requires Valid(t)
    ensures var step, gone := MarkAlive(t, node), t.slots[t.evictIndex].nodeId;
            var full := forall i :: 0 <= i < |t.slots| ==> t.slots[i].occupied;
            && IsOnline(step.t, node)
            && step.notices == (if IsOnline(t, node) then [] else if full then [Offline(gone), Online(node)] else [Online(node)])
            && step.t.evictIndex == (if !IsOnline(t, node) && full then (t.evictIndex + 1) % MAX_SERVERS else t.evictIndex)
            && forall other: nat :: other != node ==>
                 (IsOnline(step.t, other) <==> IsOnline(t, other) && !(other == gone && full && !IsOnline(t, node)))
  {
    var i, free, step := SlotOf(t.slots, node), FreeSlot(t.slots), MarkAlive(t, node);
    SlotFound(t.slots, node);
    FreeFound(t.slots);
    var k := if i < |t.slots| then i else if free < |t.slots| then free else t.evictIndex;
    forall other: nat
      ensures IsOnline(step.t, other) <==> Holds(step.t.slots[k], other) || (IsOnline(t, other) && !Holds(t.slots[k], other))
    {
      SetOnline(t, k, step.t.slots[k], step.t.evictIndex, other);
    }
  }

  /** A timer that runs out takes its own node offline, says so, and concerns no other. */
  lemma SilenceDecides(t: Table, i: nat)
    requires Valid(t) && i < |t.slots| && t.slots[i].timer.Some?
    ensures var step, node := TimerFires(t, i), t.slots[i].timer.value;
            && IsOnline(t, node) && step.notices == [Offline(node)] && step.t.evictIndex == t.evictIndex
            && forall other: nat :: IsOnline(step.t, other) <==> IsOnline(t, other) && other != node
  {
    var node := t.slots[i].nodeId;
    assert TimerOk(t.slots[i]);
    FiredSlot(t, i);
    OnlySlot(t, node, i);
    forall other: nat
      ensures IsOnline(TimerFires(t, i).t, other) <==> IsOnline(t, other) && other != node
    {
      SetOnline(t, i, Slot(node, false, None), t.evictIndex, other);
    }
  }

  /* ---- Runs ---- */

  /** A frame arrives from a node, or a timeout timer fires. */
  datatype Event = Heard(node: nat) | Fires(slot: nat)

  datatype Run = Run(t: Table, notices: seq<Notice>)

  predicate Enabled(r: Run, e: Event) {
    match e
    case Heard(_) => r.t.evictIndex < |r.t.slots|
    case Fires(i) => i < |r.t.slots| && r.t.slots[i].timer.Some?
  }

  function StepOf(t: Table, e: Event): Step
    requires Enabled(Run(t, []), e)
  {
    match e
    case Heard(node) => if node != 0 then MarkAlive(t, node) else Step(t, [])
    case Fires(i) => TimerFires(t, i)
  }

  /** What comes from the broadcast address says nothing about any server. */
  lemma BroadcastIsNoServer(t: Table)
    requires t.evictIndex < |t.slots|
    ensures StepOf(t, Heard(0)) == Step(t, [])
  {
  }

  function After(es: seq<Event>): Option<Run> {
    if es == [] then Some(Run(Table(seq(MAX_SERVERS, i => FREE), 0), []))
    else
      var before := After(es[..|es| - 1]);
      var e := es[|es| - 1];
      if before.Some? && Enabled(before.value, e) then
        var step := StepOf(before.value.t, e);
        Some(Run(step.t, before.value.notices + step.notices))
      else None
  }

  lemma EmptyIsTold(node: nat)
    ensures var t := Table(seq(MAX_SERVERS, i => FREE), 0); Valid(t) && Told(t, [], node)
  {
    SlotFound(seq(MAX_SERVERS, i => FREE), node);
  }

  lemma StepTells(t: Table, e: Event, notices: seq<Notice>, node: nat)
    requires Valid(t) && Enabled(Run(t, []), e) && Told(t, notices, node)
    ensures Valid(StepOf(t, e).t) && Told(StepOf(t, e).t, notices + StepOf(t, e).notices, node)
  {
    match e {
      case Heard(from) =>
        if from != 0 {
          MarkAliveKeepsValid(t, from);
          MarkAliveTells(t, from, notices, node);
        } else {
          assert notices + [] == notices;
        }
      case Fires(i) =>
        TimerFiresKeepsValid(t, i);
        TimerFiresTells(t, i, notices, node);
    }
  }

  /** In every run and for every node, observers hear Online and Offline in turn, and last heard Online exactly if the
      node has a slot, whose timer then runs. */
  lemma {:induction false} ObserversAreToldInTurn(es: seq<Event>, node: nat)
    requires After(es).Some?
    ensures var r := After(es).value; Valid(r.t) && Told(r.t, r.notices, node)
  {
    if es == [] {
      EmptyIsTold(node);
    } else {
      var r := After(es[..|es| - 1]).value;
      ObserversAreToldInTurn(es[..|es| - 1], node);
      StepTells(r.t, es[|es| - 1], r.notices, node);
    }
  }

  /** Taking turns, by position: the notifications with even index are the Online ones. */
  lemma {:induction false} TurnsByPosition(h: seq<Notice>)
    requires Alternates(h)
    ensures forall i :: 0 <= i < |h| ==> (h[i].Online? <==> i % 2 == 0)
    ensures EndsOnline(h) <==> |h| % 2 == 1
  {
    if h != [] {
      var init := h[..|h| - 1];
      TurnsByPosition(init);
      forall i | 0 <= i < |h|
        ensures h[i].Online? <==> i % 2 == 0
      {
        if i < |h| - 1 { assert h[i] == init[i]; }
      }
    }
  }

  /** Nodes last heard of as Online are exactly the nodes of slots in use: at most eight, each with its timer running. */
  lemma OnlineNodesAreSlots(es: seq<Event>, node: nat)
    requires After(es).Some?
    ensures var r := After(es).value;
            && |r.t.slots| == 8
            && (EndsOnline(History(r.notices, node)) <==> exists i :: 0 <= i < |r.t.slots| && r.t.slots[i] == Alive(node))
  {
    ObserversAreToldInTurn(es, node);
    var t := After(es).value.t;
    OnlineIff(t, node);
    if IsOnline(t, node) {
      var i :| 0 <= i < |t.slots| && Holds(t.slots[i], node);
      assert TimerOk(t.slots[i]) && t.slots[i] == Alive(node);
    }
    if i :| 0 <= i < |t.slots| && t.slots[i] == Alive(node) {
      assert Holds(t.slots[i], node);
    }
  }

  /* ---- The object ---- */

  /** The liveness half of CanProtocolClient. */
  class ServerLiveness {
    const serverLiveness: array<Slot>
    var nextLivenessEvictIndex: nat

    /** Notifications sent, oldest first. */
    var notices: seq<Notice>

    constructor ()
      ensures Abs() == Table(seq(MAX_SERVERS, i => FREE), 0) && Valid(Abs())
      ensures fresh(serverLiveness) && notices == []
    {
      serverLiveness := new Slot[MAX_SERVERS](i => FREE);
      nextLivenessEvictIndex, notices := 0, [];
    }

    ghost function Abs(): Table
      reads this, serverLiveness
    {
      Table(serverLiveness[..], nextLivenessEvictIndex)
    }

    method FindServer(nodeId: nat) returns (i: nat)
      ensures i == SlotOf(serverLiveness[..], nodeId)
    {
      i := 0;
      while i < serverLiveness.Length && !Holds(serverLiveness[i], nodeId)
        invariant i <= serverLiveness.Length
        invariant SlotOf(serverLiveness[..], nodeId) == i + SlotOf(serverLiveness[i..], nodeId)
      {
        i := i + 1;
      }
    }

    method FindFree() returns (i: nat)
      ensures i == FreeSlot(serverLiveness[..])
    {
      i := 0;
      while i < serverLiveness.Length && serverLiveness[i].occupied
        invariant i <= serverLiveness.Length
        invariant FreeSlot(serverLiveness[..]) == i + FreeSlot(serverLiveness[i..])
      {
        i := i + 1;
      }
    }

    method MarkServerAlive(nodeId: nat)
      requires Valid(Abs())
      modifies this, serverLiveness
      ensures Abs() == MarkAlive(old(Abs()), nodeId).t && Valid(Abs())
      ensures notices == old(notices) + MarkAlive(old(Abs()), nodeId).notices
    {
      MarkAliveKeepsValid(Abs(), nodeId);
      var i := FindServer(nodeId);
      if i < serverLiveness.Length {
        serverLiveness[i] := serverLiveness[i].(timer := Some(nodeId));
        return;
      }
      i := FindFree();
      if i < serverLiveness.Length {
        serverLiveness[i] := Slot(nodeId, true, serverLiveness[i].timer);
        notices := notices + [Online(nodeId)];
        serverLiveness[i] := serverLiveness[i].(timer := Some(nodeId));
        return;
      }
      FreeFound(serverLiveness[..]);
      Replace(nodeId);
    }

    /** Every slot is in use: the next in turn is taken over. */
    method Replace(nodeId: nat)
      requires |serverLiveness[..]| == MAX_SERVERS && nextLivenessEvictIndex < MAX_SERVERS
      requires serverLiveness[nextLivenessEvictIndex].occupied
      modifies this, serverLiveness
      ensures serverLiveness[..] == old(serverLiveness[..])[old(nextLivenessEvictIndex) := Alive(nodeId)]
      ensures nextLivenessEvictIndex == if old(nextLivenessEvictIndex) + 1 == MAX_SERVERS then 0 else old(nextLivenessEvictIndex) + 1
      ensures notices == old(notices) + [Offline(old(serverLiveness[nextLivenessEvictIndex].nodeId)), Online(nodeId)]
    {
      var i := nextLivenessEvictIndex;
      nextLivenessEvictIndex := (nextLivenessEvictIndex + 1) % serverLiveness.Length;
      serverLiveness[i] := serverLiveness[i].(timer := None);
      notices := notices + [Offline(serverLiveness[i].nodeId)];
      serverLiveness[i] := serverLiveness[i].(nodeId := nodeId);
      notices := notices + [Online(nodeId)];
      serverLiveness[i] := serverLiveness[i].(timer := Some(nodeId));
    }

    /** The timer of slot `i` fires and calls HandleServerTimeout. */
    method TimeoutTimerFires(i: nat)
      requires Valid(Abs()) && i < serverLiveness.Length && serverLiveness[i].timer.Some?
      modifies this, serverLiveness
      ensures Abs() == TimerFires(old(Abs()), i).t && Valid(Abs())
      ensures notices == old(notices) + TimerFires(old(Abs()), i).notices
    {
      TimerFiresKeepsValid(Abs(), i);
      var nodeId := serverLiveness[i].timer.value;
      serverLiveness[i] := serverLiveness[i].(timer := None);
      HandleServerTimeout(nodeId);
    }

    method HandleServerTimeout(nodeId: nat)
      modifies this, serverLiveness
      ensures var i := SlotOf(old(serverLiveness[..]), nodeId);
              if i < serverLiveness.Length
              then serverLiveness[..] == old(serverLiveness[..])[i := old(serverLiveness[..])[i].(occupied := false)]
                   && notices == old(notices) + [Offline(nodeId)]
              else serverLiveness[..] == old(serverLiveness[..]) && notices == old(notices)
      ensures nextLivenessEvictIndex == old(nextLivenessEvictIndex)
    {
      var i := FindServer(nodeId);
      if i < serverLiveness.Length {
        serverLiveness[i] := serverLiveness[i].(occupied := false);
        notices := notices + [Offline(nodeId)];
      }
    }
  }
}
