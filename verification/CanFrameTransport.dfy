/**
 The send queue in front of the CAN driver (CanFrameTransport.cpp): a bounded
 queue ordered by priority, with room reserved for emergency frames.

 `Transport` is the value of the object's fields and class `CanFrameTransport`
 the object. The driver is asynchronous: each SendData completes later, once.
 A frame's completion callback is a value of type `C`; running it is recorded.
 */
module CanFrameTransport {
  import opened CanTypes

  const QUEUE_DEPTH := 8
  const EMERGENCY_RESERVE := 2
  const EMERGENCY_RETRY_LIMIT := 2
  const COMMAND_PRIORITY := 4

  datatype CanId = Standard(raw: nat) | Extended(raw: nat)

  /** Five bits of a 29-bit identifier; frames with an 11-bit identifier count as commands. Smaller is more urgent. */
  function PriorityOf(id: CanId): nat {
    match id
    case Standard(_) => COMMAND_PRIORITY
    case Extended(raw) => raw / 0x100_0000 % 0x20
  }

  datatype Frame<C> = Frame(id: CanId, data: Message, onDone: C, priority: nat)

  function Pending<C>(id: CanId, data: Message, onDone: C): Frame<C> {
    Frame(id, data, onDone, PriorityOf(id))
  }

  predicate IsEmergency<C>(f: Frame<C>) {
    f.priority == 0
  }

  /** Event counters, each a uint32_t. */
  datatype Counters = Counters(emergencyDrops: nat, emergencyRetries: nat, evictions: nat, ordinaryDrops: nat, sendFailures: nat)

  datatype Transport<C> = Transport(current: Option<Frame<C>>, retries: nat, queue: seq<Frame<C>>, counters: Counters)

  /** A completion callback that ran, and its argument. */
  datatype Report<C> = Report(frame: Frame<C>, success: bool)

  /** The transport after a call, the frame it passed to SendData, and the callback it ran. */
  datatype Step<C> = Step(t: Transport<C>, taken: bool, transmitted: Option<Frame<C>>, report: Option<Report<C>>)

  function OrdinaryCount<C>(q: seq<Frame<C>>): nat {
    if q == [] then 0
    else OrdinaryCount(q[..|q| - 1]) + if IsEmergency(q[|q| - 1]) then 0 else 1
  }

  /** Where a frame goes: behind every frame at least as urgent. */
  function Inserted<C>(q: seq<Frame<C>>, f: Frame<C>): (r: seq<Frame<C>>)
    ensures |r| == |q| + 1
  {
    if q == [] then [f]
    else if q[0].priority > f.priority then [f] + q
    else [q[0]] + Inserted(q[1..], f)
  }

  /** Insertion finds the first less urgent frame. */
  lemma {:induction false} InsertedBefore<C>(q: seq<Frame<C>>, f: Frame<C>, k: nat)
    requires k <= |q| && (forall i :: 0 <= i < k ==> q[i].priority <= f.priority)
    requires k < |q| ==> q[k].priority > f.priority
    ensures Inserted(q, f) == q[..k] + [f] + q[k..]
  {
    if k > 0 {
      InsertedBefore(q[1..], f, k - 1);
      assert [q[0]] + (q[1..][..k - 1] + [f] + q[1..][k - 1..]) == q[..k] + [f] + q[k..];
    } else {
      assert q[..0] + [f] + q[0..] == [f] + q;
    }
  }

  function Refuse<C>(t: Transport<C>, counters: Counters): Step<C> {
    Step(t.(counters := counters), false, None, None)
  }

  function Keep<C>(t: Transport<C>, f: Frame<C>): Step<C> {
    Step(t.(queue := Inserted(t.queue, f)), true, None, None)
  }

  /** The least urgent queued frame, newest among equals, makes room and is reported failed. */
  function Displace<C>(t: Transport<C>, f: Frame<C>): Step<C>
    requires t.queue != []
  {
    var last := |t.queue| - 1;
    Step(t.(queue := Inserted(t.queue[..last], f), counters := t.counters.(evictions := Tick(t.counters.evictions))),
         true, None, Some(Report(t.queue[last], false)))
  }

  function OfferOrdinary<C>(t: Transport<C>, f: Frame<C>): Step<C> {
    if |t.queue| < QUEUE_DEPTH && OrdinaryCount(t.queue) < QUEUE_DEPTH - EMERGENCY_RESERVE then Keep(t, f)
    else if IsEmergency(t.queue[|t.queue| - 1]) || t.queue[|t.queue| - 1].priority <= f.priority then
      Refuse(t, t.counters.(ordinaryDrops := Tick(t.counters.ordinaryDrops)))
    else Displace(t, f)
  }

  function OfferEmergency<C>(t: Transport<C>, f: Frame<C>): Step<C> {
    if |t.queue| < QUEUE_DEPTH then Keep(t, f)
    else if IsEmergency(t.queue[|t.queue| - 1]) then
      Refuse(t, t.counters.(emergencyDrops := Tick(t.counters.emergencyDrops)))
    else Displace(t, f)
  }

  /** SendRawFrame. */
  function Offer<C>(t: Transport<C>, f: Frame<C>): Step<C> {
    if t.current.None? then Step(t.(current := Some(f), retries := 0), true, Some(f), None)
    else if IsEmergency(f) then OfferEmergency(t, f)
    else OfferOrdinary(t, f)
  }

  /** The current frame is finished; the head of the queue, if any, is sent next. */
  function Advance<C>(t: Transport<C>, counters: Counters, success: bool): Step<C>
    requires t.current.Some?
  {
    var report := Some(Report(t.current.value, success));
    if t.queue == [] then Step(t.(current := None, counters := counters), true, None, report)
    else Step(Transport(Some(t.queue[0]), 0, t.queue[1..], counters), true, Some(t.queue[0]), report)
  }

  /** OnSendComplete. */
  function Completed<C>(t: Transport<C>, success: bool): Step<C>
    requires t.current.Some?
  {
    var c := t.counters;
    if success then Advance(t, c, true)
    else if !IsEmergency(t.current.value) then Advance(t, c.(sendFailures := Tick(c.sendFailures)), false)
    else if t.retries == EMERGENCY_RETRY_LIMIT then Advance(t, c.(emergencyDrops := Tick(c.emergencyDrops)), false)
    else Step(t.(retries := t.retries + 1, counters := c.(emergencyRetries := Tick(c.emergencyRetries))), true, t.current, None)
  }

  /* ---- Invariant ---- */

  predicate Sorted<C>(q: seq<Frame<C>>) {
    forall i, j :: 0 <= i < j < |q| ==> q[i].priority <= q[j].priority
  }

  predicate QueueOk<C>(q: seq<Frame<C>>) {
    Sorted(q) && |q| <= QUEUE_DEPTH && OrdinaryCount(q) <= QUEUE_DEPTH - EMERGENCY_RESERVE
  }

  predicate Valid<C>(t: Transport<C>) {
    && QueueOk(t.queue)
    && (t.current.None? ==> t.queue == [])
    && t.retries <= EMERGENCY_RETRY_LIMIT
    && (t.current.Some? && t.retries > 0 ==> IsEmergency(t.current.value))
  }

  /* ---- The object ---- */

  class CanFrameTransport<C> {
    var current: Option<Frame<C>>
    var currentRetries: nat
    var counters: Counters
    var sendQueue: seq<Frame<C>>

    /** Frames passed to the driver, callbacks run and notifications sent, oldest first. */
    var transmitted: seq<Frame<C>>
    var reports: seq<Report<C>>
    var notifications: nat

    constructor ()
      ensures Abs() == Transport(None, 0, [], Counters(0, 0, 0, 0, 0)) && Valid(Abs())
      ensures transmitted == [] && reports == [] && notifications == 0
    {
      current, currentRetries, counters, sendQueue := None, 0, Counters(0, 0, 0, 0, 0), [];
      transmitted, reports, notifications := [], [], 0;
    }

    ghost function Abs(): Transport<C>
      reads this
    {
      Transport(current, currentRetries, sendQueue, counters)
    }

    /** The object went where `step` leads, with exactly its transmission and its callback. */
    twostate predicate Did(step: Step<C>)
      reads this
    {
      && Abs() == step.t
      && transmitted == old(transmitted) + (if step.transmitted.Some? then [step.transmitted.value] else [])
      && reports == old(reports) + (if step.report.Some? then [step.report.value] else [])
    }

    method SendRawFrame(id: CanId, data: Message, onDone: C) returns (taken: bool)
      requires Valid(Abs())
      modifies this
      ensures taken == Offer(old(Abs()), Pending(id, data, onDone)).taken
      ensures Did(Offer(old(Abs()), Pending(id, data, onDone)))
      ensures notifications == old(notifications) + (if taken then 1 else 0)
    {
      var frame := Pending(id, data, onDone);
      if current.Some? {
        taken := Enqueue(frame);
        return;
      }
      current := Some(frame);
      currentRetries := 0;
      Transmit();
      notifications := notifications + 1;
      return true;
    }

    method Enqueue(frame: Frame<C>) returns (taken: bool)
      requires Valid(Abs()) && current.Some?
      modifies this
      ensures taken == Offer(old(Abs()), frame).taken
      ensures Did(Offer(old(Abs()), frame))
      ensures notifications == old(notifications) + (if taken then 1 else 0)
    {
      if IsEmergency(frame) {
        taken := EnqueueEmergency(frame);
      } else {
        taken := EnqueueOrdinary(frame);
      }
      if taken {
        notifications := notifications + 1;
      }
    }

    method EnqueueOrdinary(frame: Frame<C>) returns (taken: bool)
      requires Valid(Abs())
      modifies this
      ensures taken == OfferOrdinary(old(Abs()), frame).taken
      ensures Did(OfferOrdinary(old(Abs()), frame)) && notifications == old(notifications)
    {
      var ordinary := CountOrdinary();
      if |sendQueue| < QUEUE_DEPTH && ordinary < QUEUE_DEPTH - EMERGENCY_RESERVE {
        Insert(frame);
        return true;
      }
      var back := sendQueue[|sendQueue| - 1];
      if IsEmergency(back) || back.priority <= frame.priority {
        counters := counters.(ordinaryDrops := Tick(counters.ordinaryDrops));
        return false;
      }
      DisplaceNewestLeastUrgent(frame);
      return true;
    }

    method EnqueueEmergency(frame: Frame<C>) returns (taken: bool)
      requires Valid(Abs())
      modifies this
      ensures taken == OfferEmergency(old(Abs()), frame).taken
      ensures Did(OfferEmergency(old(Abs()), frame)) && notifications == old(notifications)
    {
      if |sendQueue| < QUEUE_DEPTH {
        Insert(frame);
        return true;
      }
      if IsEmergency(sendQueue[|sendQueue| - 1]) {
        counters := counters.(emergencyDrops := Tick(counters.emergencyDrops));
        return false;
      }
      DisplaceNewestLeastUrgent(frame);
      return true;
    }

    method DisplaceNewestLeastUrgent(frame: Frame<C>)
      requires sendQueue != []
      modifies this
      ensures Did(Displace(old(Abs()), frame)) && notifications == old(notifications)
    {
      var evicted := sendQueue[|sendQueue| - 1];
      sendQueue := sendQueue[..|sendQueue| - 1];
      counters := counters.(evictions := Tick(counters.evictions));
      Insert(frame);
      reports := reports + [Report(evicted, false)];
    }

    /** Appends the frame and rotates it in front of the first less urgent one. */
    method Insert(frame: Frame<C>)
      modifies this
      ensures Did(Keep(old(Abs()), frame)) && notifications == old(notifications)
    {
      var index := 0;
      while index < |sendQueue| && !(sendQueue[index].priority > frame.priority)
        invariant 0 <= index <= |sendQueue|
        invariant forall i :: 0 <= i < index ==> sendQueue[i].priority <= frame.priority
      {
        index := index + 1;
      }
      InsertedBefore(sendQueue, frame, index);
      ghost var q := sendQueue;
      sendQueue := sendQueue + [frame];
      sendQueue := sendQueue[..index] + [sendQueue[|sendQueue| - 1]] + sendQueue[index..|sendQueue| - 1];
      assert sendQueue == q[..index] + [frame] + q[index..];
    }

    method CountOrdinary() returns (n: nat)
      ensures n == OrdinaryCount(sendQueue)
    {
      n := 0;
      for i := 0 to |sendQueue|
        invariant n == OrdinaryCount(sendQueue[..i])
      {
        assert sendQueue[..i + 1][..i] == sendQueue[..i];
        if !IsEmergency(sendQueue[i]) {
          n := n + 1;
        }
      }
      assert sendQueue[..|sendQueue|] == sendQueue;
    }

    method Transmit()
      requires current.Some?
      modifies this`transmitted
      ensures transmitted == old(transmitted) + [current.value]
    {
      transmitted := transmitted + [current.value];
    }

    method OnSendComplete(success: bool)
      requires Valid(Abs()) && current.Some?
      modifies this
      ensures Did(Completed(old(Abs()), success)) && notifications == old(notifications)
    {
      var retried := RetryCurrent(success);
      if retried {
        return;
      }
      var done := current.value;
      SendNextQueued();
      reports := reports + [Report(done, success)];
    }

    /** Counts a failed attempt and, for an emergency frame within its limit, makes another. */
    method RetryCurrent(success: bool) returns (retried: bool)
      requires current.Some?
      modifies this
      ensures retried <==> !success && IsEmergency(old(current).value) && old(currentRetries) != EMERGENCY_RETRY_LIMIT
      ensures retried ==> Did(Completed(old(Abs()), success))
      ensures !retried ==>
                && transmitted == old(transmitted) && reports == old(reports)
                && current == old(current) && currentRetries == old(currentRetries) && sendQueue == old(sendQueue)
                && Completed(old(Abs()), success) == Advance(old(Abs()), counters, success)
      ensures notifications == old(notifications)
    {
      if success {
        return false;
      }
      if !IsEmergency(current.value) {
        counters := counters.(sendFailures := Tick(counters.sendFailures));
        return false;
      }
      if currentRetries == EMERGENCY_RETRY_LIMIT {
        counters := counters.(emergencyDrops := Tick(counters.emergencyDrops));
        return false;
      }
      currentRetries := currentRetries + 1;
      counters := counters.(emergencyRetries := Tick(counters.emergencyRetries));
      Transmit();
      return true;
    }

    method SendNextQueued()
      requires current.Some?
      modifies this
      ensures Abs() == Advance(old(Abs()), old(counters), true).t
      ensures transmitted == old(transmitted) + (if old(sendQueue) == [] then [] else [old(sendQueue)[0]])
      ensures reports == old(reports) && notifications == old(notifications)
    {
      if sendQueue == [] {
        current := None;
        return;
      }
      current := Some(sendQueue[0]);
      sendQueue := sendQueue[1..];
      currentRetries := 0;
      Transmit();
    }
  }
}
