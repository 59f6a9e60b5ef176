/**
 Runs of the frame transport: frames offered at any moment, the driver
 completing each SendData once, successfully or not.

 The k-th frame offered carries the callback k. A run records which frames were
 accepted, refused, started, finished and evicted.
 */
module CanFrameTransportRuns {
  import opened CanTypes
  import opened CanFrameTransport
  import opened SendQueueRefinement
  import opened Arithmetic

  /** A frame that was passed to the driver: when (how many frames had been offered by then), and how often. */
  datatype Started = Started(frame: Frame<nat>, at: nat, tries: nat)

  datatype Run = Run(
    t: Transport<nat>, offered: nat, accepted: seq<Frame<nat>>, refused: seq<Frame<nat>>,
    started: seq<Started>, finished: seq<Report<nat>>, evicted: seq<Report<nat>>)

  datatype RunEvent = Submit(id: CanId, data: Message) | Complete(success: bool)

  predicate Enabled(r: Run, e: RunEvent) {
    e.Complete? ==> r.t.current.Some?
  }

  function OfferedFrame(r: Run, e: RunEvent): Frame<nat>
    requires e.Submit?
  {
    Pending(e.id, e.data, r.offered)
  }

  function AfterSubmit(r: Run, f: Frame<nat>, step: Step<nat>): Run {
    r.(t := step.t,
       offered := r.offered + 1,
       accepted := if step.taken then r.accepted + [f] else r.accepted,
       refused := if step.taken then r.refused else r.refused + [f],
       started := if step.transmitted.Some? then r.started + [Started(f, r.offered + 1, 1)] else r.started,
       evicted := if step.report.Some? then r.evicted + [step.report.value] else r.evicted)
  }

  function OneMoreTry(started: seq<Started>): seq<Started>
    requires started != []
  {
    var last := started[|started| - 1];
    started[|started| - 1 := last.(tries := last.tries + 1)]
  }

  function AfterComplete(r: Run, step: Step<nat>): Run {
    if step.report.None? then r.(t := step.t, started := if r.started == [] then [] else OneMoreTry(r.started))
    else
      r.(t := step.t,
         finished := r.finished + [step.report.value],
         started := if step.transmitted.Some? then r.started + [Started(step.transmitted.value, r.offered, 1)] else r.started)
  }

  function Next(r: Run, e: RunEvent): Run
    requires Enabled(r, e)
  {
    match e
    case Submit(_, _) => AfterSubmit(r, OfferedFrame(r, e), Offer(r.t, OfferedFrame(r, e)))
    case Complete(success) => AfterComplete(r, Completed(r.t, success))
  }

  function Initial(): Run {
    Run(Transport(None, 0, [], Counters(0, 0, 0, 0, 0)), 0, [], [], [], [], [])
  }

  function After(r: Run, es: seq<RunEvent>): Option<Run>
    decreases |es|
  {
    if es == [] then Some(r)
    else
      var before := After(r, es[..|es| - 1]);
      if before.Some? && Enabled(before.value, es[|es| - 1]) then Some(Next(before.value, es[|es| - 1])) else None
  }

  /* ---- Every accepted frame is somewhere, once ---- */

  function CurrentFrames(t: Transport<nat>): seq<Frame<nat>> {
    if t.current.Some? then [t.current.value] else []
  }

  function Reported(reports: seq<Report<nat>>): multiset<Frame<nat>> {
    if reports == [] then multiset{}
    else Reported(reports[..|reports| - 1]) + multiset{reports[|reports| - 1].frame}
  }

  /** The frames the transport holds: queued, or being sent. */
  function Held(t: Transport<nat>): multiset<Frame<nat>> {
    multiset(t.queue) + multiset(CurrentFrames(t))
  }

  predicate Conserved(r: Run) {
    multiset(r.accepted) == Reported(r.finished) + Reported(r.evicted) + Held(r.t)
  }

  /** Callbacks are numbered by offer, so equal ones would be the same frame. */
  predicate Numbered(r: Run) {
    && (forall i :: 0 <= i < |r.accepted| ==> r.accepted[i].onDone < r.offered)
    && (forall i, j :: 0 <= i < j < |r.accepted| ==> r.accepted[i].onDone < r.accepted[j].onDone)
    && (forall i :: 0 <= i < |r.refused| ==> r.refused[i].onDone < r.offered)
    && (forall i, j :: 0 <= i < |r.accepted| && 0 <= j < |r.refused| ==> r.accepted[i].onDone != r.refused[j].onDone)
    && |r.accepted| + |r.refused| == r.offered
  }

  /** The four things an offer can do. */
  predicate OfferShape(t: Transport<nat>, f: Frame<nat>, step: Step<nat>) {
    if t.current.None? then step == Step(t.(current := Some(f), retries := 0), true, Some(f), None)
    else
      || step == Keep(t, f)
      || (t.queue != [] && !IsEmergency(t.queue[|t.queue| - 1]) && step == Displace(t, f))
      || step == Refuse(t, step.t.counters)
  }

  lemma OfferHasShape(t: Transport<nat>, f: Frame<nat>)
    ensures OfferShape(t, f, Offer(t, f))
  {
  }

  lemma KeepMoves(t: Transport<nat>, f: Frame<nat>)
    ensures Held(Keep(t, f).t) == Held(t) + multiset{f}
  {
    InsertedKeepsFrames(t.queue, f);
  }

  lemma Exchange(rest: multiset<Frame<nat>>, current: multiset<Frame<nat>>, f: multiset<Frame<nat>>, x: multiset<Frame<nat>>)
    ensures ((rest + f) + current) + x == ((rest + x) + current) + f
  {
  }

  lemma DisplaceMoves(t: Transport<nat>, f: Frame<nat>)
    requires t.queue != []
    ensures Held(Displace(t, f).t) + multiset{Displace(t, f).report.value.frame} == Held(t) + multiset{f}
  {
    var init, x := t.queue[..|t.queue| - 1], t.queue[|t.queue| - 1];
    InsertedKeepsFrames(init, f);
    assert multiset(t.queue) == multiset(init) + multiset{x} by {
      assert t.queue == init + [x];
    }
    Exchange(multiset(init), multiset(CurrentFrames(t)), multiset{f}, multiset{x});
  }

  /** What a step takes in and gives out. */
  predicate Moves(t: Transport<nat>, step: Step<nat>, taken: seq<Frame<nat>>) {
    Held(step.t) + multiset(Out(step)) == Held(t) + multiset(taken)
  }

  /** An offer puts in the frame if it is taken, and gives out the frame it evicts. */
  lemma OfferMoves(t: Transport<nat>, f: Frame<nat>, step: Step<nat>)
    requires OfferShape(t, f, step) && (t.current.None? ==> t.queue == [])
    ensures Moves(t, step, if step.taken then [f] else [])
  {
    if t.current.Some? {
      if step == Keep(t, f) { KeepMoves(t, f); }
      else if step.report.Some? { DisplaceMoves(t, f); }
    }
  }

  /** Sending the next frame gives out exactly the finished one. */
  lemma AdvanceMoves(t: Transport<nat>, counters: Counters, success: bool)
    requires t.current.Some?
    ensures Moves(t, Advance(t, counters, success), [])
  {
    if t.queue != [] { assert t.queue == [t.queue[0]] + t.queue[1..]; }
  }

  predicate CompletedShape(t: Transport<nat>, success: bool, step: Step<nat>)
    requires t.current.Some?
  {
    if !success && IsEmergency(t.current.value) && t.retries != EMERGENCY_RETRY_LIMIT then
      step == Step(t.(retries := t.retries + 1, counters := step.t.counters), true, t.current, None)
    else step == Advance(t, step.t.counters, success)
  }

  lemma CompletedHasShape(t: Transport<nat>, success: bool)
    requires t.current.Some?
    ensures CompletedShape(t, success, Completed(t, success))
  {
  }

  lemma CompletedMoves(t: Transport<nat>, success: bool, step: Step<nat>)
    requires t.current.Some? && CompletedShape(t, success, step)
    ensures Moves(t, step, [])
  {
    AdvanceMoves(t, step.t.counters, success);
  }

  lemma Rebalance(all: multiset<Frame<nat>>, gone: multiset<Frame<nat>>, before: multiset<Frame<nat>>,
                  after: multiset<Frame<nat>>, taken: multiset<Frame<nat>>, out: multiset<Frame<nat>>)
    requires all == gone + before && after + out == before + taken
    ensures all + taken == gone + out + after
  {
    forall x | x in all + taken + gone + out + after
      ensures (all + taken)[x] == (gone + out + after)[x]
    {
      assert (after + out)[x] == (before + taken)[x];
      assert all[x] == (gone + before)[x];
    }
  }

  function Out(step: Step<nat>): seq<Frame<nat>> {
    if step.report.Some? then [step.report.value.frame] else []
  }

  lemma SubmitConserves(r: Run, f: Frame<nat>, step: Step<nat>)
    requires Conserved(r) && Moves(r.t, step, if step.taken then [f] else [])
    ensures Conserved(AfterSubmit(r, f, step))
  {
    var taken := if step.taken then [f] else [];
    var gone := Reported(r.finished) + Reported(r.evicted);
    Rebalance(multiset(r.accepted), gone, Held(r.t), Held(step.t), multiset(taken), multiset(Out(step)));
    var r' := AfterSubmit(r, f, step);
    assert r'.accepted == r.accepted + taken;
    if step.report.Some? {
      assert r'.evicted[..|r.evicted|] == r.evicted;
    }
    assert Reported(r'.evicted) == Reported(r.evicted) + multiset(Out(step));
    assert gone + multiset(Out(step)) == Reported(r.finished) + Reported(r'.evicted);
  }

  lemma CompleteConserves(r: Run, step: Step<nat>)
    requires Conserved(r) && Moves(r.t, step, [])
    ensures Conserved(AfterComplete(r, step))
  {
    var gone := Reported(r.finished) + Reported(r.evicted);
    Rebalance(multiset(r.accepted), gone, Held(r.t), Held(step.t), multiset([]), multiset(Out(step)));
    var r' := AfterComplete(r, step);
    if step.report.Some? {
      assert r'.finished[..|r.finished|] == r.finished;
      assert Reported(r'.finished) == Reported(r.finished) + multiset(Out(step));
    } else {
      assert Out(step) == [];
    }
    assert gone + multiset(Out(step)) == Reported(r'.finished) + Reported(r'.evicted);
    assert multiset(r.accepted) + multiset([]) == multiset(r.accepted);
  }

  /* ---- The order in which frames are started ---- */

  predicate Ahead(x: Frame<nat>, y: Frame<nat>) {
    x.priority < y.priority || (x.priority == y.priority && x.onDone < y.onDone)
  }

  /** `x` was started rightly before `y`: it is more urgent, or as urgent and older, or `y` had not been offered yet. */
  predicate RightlyBefore(x: Started, y: Frame<nat>) {
    Ahead(x.frame, y) || x.at <= y.onDone
  }

  predicate QueueOrdered(q: seq<Frame<nat>>, started: seq<Started>, offered: nat) {
    && (forall i, j :: 0 <= i < j < |q| ==> Ahead(q[i], q[j]))
    && (forall i :: 0 <= i < |q| ==> q[i].onDone < offered)
    && (forall i, j :: 0 <= i < |started| && 0 <= j < |q| ==> RightlyBefore(started[i], q[j]))
  }

  predicate StartedOrdered(started: seq<Started>, offered: nat) {
    && (forall i :: 0 <= i < |started| ==> started[i].frame.onDone < started[i].at <= offered)
    && (forall i, j :: 0 <= i < j < |started| ==> RightlyBefore(started[i], started[j].frame))
  }

  predicate Ordered(r: Run) {
    QueueOrdered(r.t.queue, r.started, r.offered) && StartedOrdered(r.started, r.offered)
  }

  lemma BetweenIsOrdered(q: seq<Frame<nat>>, k: nat, f: Frame<nat>)
    requires k <= |q| && forall i, j :: 0 <= i < j < |q| ==> Ahead(q[i], q[j])
    requires forall i :: 0 <= i < k ==> Ahead(q[i], f)
    requires forall i :: k <= i < |q| ==> Ahead(f, q[i])
    ensures var r := q[..k] + [f] + q[k..]; forall i, j :: 0 <= i < j < |r| ==> Ahead(r[i], r[j])
  {
    var r := q[..k] + [f] + q[k..];
    forall i, j | 0 <= i < j < |r|
      ensures Ahead(r[i], r[j])
    {
      assert i < k ==> r[i] == q[i];
      assert i > k ==> r[i] == q[i - 1];
      assert j < k ==> r[j] == q[j];
      assert j > k ==> r[j] == q[j - 1];
    }
  }

  lemma BetweenIsRightlyAfter(q: seq<Frame<nat>>, k: nat, f: Frame<nat>, s: Started)
    requires k <= |q| && RightlyBefore(s, f) && forall j :: 0 <= j < |q| ==> RightlyBefore(s, q[j])
    ensures var r := q[..k] + [f] + q[k..]; forall j :: 0 <= j < |r| ==> RightlyBefore(s, r[j])
  {
  }

  /** The newest frame goes behind every frame it does not outrank, so order is kept. */
  lemma InsertedIsOrdered(q: seq<Frame<nat>>, f: Frame<nat>, started: seq<Started>)
    requires Sorted(q) && QueueOrdered(q, started, f.onDone) && StartedOrdered(started, f.onDone)
    ensures QueueOrdered(Inserted(q, f), started, f.onDone + 1)
  {
    var k := InsertedAt(q, f);
    var r := q[..k] + [f] + q[k..];
    BetweenIsOrdered(q, k, f);
    forall i | 0 <= i < |started|
      ensures forall j :: 0 <= j < |r| ==> RightlyBefore(started[i], r[j])
    {
      BetweenIsRightlyAfter(q, k, f, started[i]);
    }
  }

  lemma QueueOrderedPrefix(q: seq<Frame<nat>>, started: seq<Started>, offered: nat)
    requires q != [] && Sorted(q) && QueueOrdered(q, started, offered)
    ensures Sorted(q[..|q| - 1]) && QueueOrdered(q[..|q| - 1], started, offered)
  {
  }

  lemma StartKeepsOrder(r: Run, f: Frame<nat>, step: Step<nat>)
    requires Valid(r.t) && Ordered(r) && f.onDone == r.offered && r.t.current.None?
    requires step == Step(r.t.(current := Some(f), retries := 0), true, Some(f), None)
    ensures Ordered(AfterSubmit(r, f, step))
  {
  }

  lemma QueueKeepsOrder(r: Run, f: Frame<nat>, step: Step<nat>)
    requires Ordered(r) && f.onDone == r.offered && step.transmitted.None?
    requires QueueOrdered(step.t.queue, r.started, r.offered + 1)
    ensures Ordered(AfterSubmit(r, f, step))
  {
  }

  lemma SubmitKeepsOrder(r: Run, f: Frame<nat>, step: Step<nat>)
    requires Valid(r.t) && Ordered(r) && f.onDone == r.offered && OfferShape(r.t, f, step)
    ensures Ordered(AfterSubmit(r, f, step))
  {
    if r.t.current.None? {
      StartKeepsOrder(r, f, step);
    } else {
      if step == Keep(r.t, f) {
        InsertedIsOrdered(r.t.queue, f, r.started);
      } else if step.report.Some? {
        QueueOrderedPrefix(r.t.queue, r.started, r.offered);
        InsertedIsOrdered(r.t.queue[..|r.t.queue| - 1], f, r.started);
      }
      QueueKeepsOrder(r, f, step);
    }
  }

  /** The head of the queue is started next. */
  lemma AdvanceKeepsOrder(r: Run, counters: Counters, success: bool)
    requires r.t.current.Some? && Ordered(r)
    ensures Ordered(AfterComplete(r, Advance(r.t, counters, success)))
  {
    if r.t.queue != [] {
      assert forall j :: 0 <= j < |r.t.queue| - 1 ==> r.t.queue[1..][j] == r.t.queue[j + 1];
    }
  }

  lemma RetryKeepsOrder(r: Run, step: Step<nat>)
    requires Ordered(r) && step.report.None? && step.t.queue == r.t.queue
    ensures Ordered(AfterComplete(r, step))
  {
  }

  lemma CompleteKeepsOrder(r: Run, success: bool, step: Step<nat>)
    requires r.t.current.Some? && Ordered(r) && CompletedShape(r.t, success, step)
    ensures Ordered(AfterComplete(r, step))
  {
    if step.report.Some? { AdvanceKeepsOrder(r, step.t.counters, success); } else { RetryKeepsOrder(r, step); }
  }

  /* ---- Attempts and reports ---- */

  predicate TriesOk(s: Started) {
    1 <= s.tries <= 1 + EMERGENCY_RETRY_LIMIT && (!IsEmergency(s.frame) ==> s.tries == 1)
  }

  /** Frames are reported in the order they were started, each after its last attempt. */
  predicate Attempted(r: Run) {
    && |r.started| == |r.finished| + |CurrentFrames(r.t)|
    && (forall i :: 0 <= i < |r.started| ==> TriesOk(r.started[i]))
    && (forall i :: 0 <= i < |r.finished| ==> r.finished[i].frame == r.started[i].frame)
    && (forall i :: 0 <= i < |r.finished| ==>
          IsEmergency(r.finished[i].frame) && !r.finished[i].success ==> r.started[i].tries == 1 + EMERGENCY_RETRY_LIMIT)
    && (r.t.current.Some? ==>
          && r.started[|r.started| - 1].frame == r.t.current.value
          && r.started[|r.started| - 1].tries == r.t.retries + 1)
    && (forall i :: 0 <= i < |r.evicted| ==> !IsEmergency(r.evicted[i].frame) && !r.evicted[i].success)
  }

  /* ---- Counters ---- */

  function CountRefused(fs: seq<Frame<nat>>, emergency: bool): nat {
    if fs == [] then 0
    else CountRefused(fs[..|fs| - 1], emergency) + if IsEmergency(fs[|fs| - 1]) == emergency then 1 else 0
  }

  function CountFailed(reports: seq<Report<nat>>, emergency: bool): nat {
    if reports == [] then 0
    else
      var last := reports[|reports| - 1];
      CountFailed(reports[..|reports| - 1], emergency) + if !last.success && IsEmergency(last.frame) == emergency then 1 else 0
  }

  function CountRetries(started: seq<Started>): nat {
    if started == [] then 0
    else
      var tries := started[|started| - 1].tries;
      CountRetries(started[..|started| - 1]) + if tries > 0 then tries - 1 else 0
  }

  /** A uint32_t counter after `n` events. */
  function Ticks(n: nat): nat {
    if n == 0 then 0 else Tick(Ticks(n - 1))
  }

  lemma {:induction false} TicksWrap(n: nat)
    ensures Ticks(n) == n % 0x1_0000_0000
  {
    if n > 0 {
      TicksWrap(n - 1);
      NextMod(n - 1, 0x1_0000_0000);
    }
  }

  /** The counters agree with five event counts. */
  predicate Agree(c: Counters, evictions: nat, ordinaryDrops: nat, sendFailures: nat, emergencyDrops: nat, retries: nat) {
    && c.evictions == Ticks(evictions) && c.ordinaryDrops == Ticks(ordinaryDrops) && c.sendFailures == Ticks(sendFailures)
    && c.emergencyDrops == Ticks(emergencyDrops) && c.emergencyRetries == Ticks(retries)
  }

  predicate Counted(r: Run) {
    Agree(r.t.counters, |r.evicted|, CountRefused(r.refused, false), CountFailed(r.finished, false),
          CountRefused(r.refused, true) + CountFailed(r.finished, true), CountRetries(r.started))
  }

  lemma CountRefusedAppend(fs: seq<Frame<nat>>, f: Frame<nat>, emergency: bool)
    ensures CountRefused(fs + [f], emergency) == CountRefused(fs, emergency) + if IsEmergency(f) == emergency then 1 else 0
  {
    assert (fs + [f])[..|fs|] == fs;
  }

  lemma CountFailedAppend(reports: seq<Report<nat>>, report: Report<nat>, emergency: bool)
    ensures CountFailed(reports + [report], emergency) ==
            CountFailed(reports, emergency) + if !report.success && IsEmergency(report.frame) == emergency then 1 else 0
  {
    assert (reports + [report])[..|reports|] == reports;
  }

  lemma CountRetriesAppend(started: seq<Started>, s: Started)
    requires s.tries == 1
    ensures CountRetries(started + [s]) == CountRetries(started)
    ensures started != [] && started[|started| - 1].tries > 0 ==> CountRetries(OneMoreTry(started)) == CountRetries(started) + 1
  {
    assert (started + [s])[..|started|] == started;
    if started != [] {
      assert OneMoreTry(started)[..|started| - 1] == started[..|started| - 1];
    }
  }

  /** Which counter an offer moves: that of evictions, or that of refusals of its kind. */
  predicate OfferCounts(t: Transport<nat>, f: Frame<nat>, step: Step<nat>) {
    var c := t.counters;
    && (step.report.Some? ==> step.taken)
    && step.t.counters ==
      if step.report.Some? then c.(evictions := Tick(c.evictions))
      else if step.taken then c
      else if IsEmergency(f) then c.(emergencyDrops := Tick(c.emergencyDrops))
      else c.(ordinaryDrops := Tick(c.ordinaryDrops))
  }

  lemma OfferHasCounts(t: Transport<nat>, f: Frame<nat>)
    ensures OfferCounts(t, f, Offer(t, f))
  {
  }

  /** A refused frame counts as a refusal of its kind. */
  lemma RefusedCounts(refused: seq<Frame<nat>>, f: Frame<nat>)
    ensures CountRefused(refused + [f], true) == CountRefused(refused, true) + (if IsEmergency(f) then 1 else 0)
    ensures CountRefused(refused + [f], false) == CountRefused(refused, false) + (if IsEmergency(f) then 0 else 1)
  {
    CountRefusedAppend(refused, f, true);
    CountRefusedAppend(refused, f, false);
  }

  lemma SameRetries(r: Run, f: Frame<nat>, step: Step<nat>)
    ensures CountRetries(AfterSubmit(r, f, step).started) == CountRetries(r.started)
  {
    if step.transmitted.Some? { CountRetriesAppend(r.started, Started(f, r.offered + 1, 1)); }
  }

  lemma KeptCounts(r: Run, f: Frame<nat>, step: Step<nat>)
    requires Counted(r) && OfferCounts(r.t, f, step) && step.taken && step.report.None?
    ensures Counted(AfterSubmit(r, f, step))
  {
    SameRetries(r, f, step);
  }

  lemma EvictedCounts(r: Run, f: Frame<nat>, step: Step<nat>)
    requires Counted(r) && OfferCounts(r.t, f, step) && step.report.Some?
    ensures Counted(AfterSubmit(r, f, step))
  {
    SameRetries(r, f, step);
    CountersFollow(r.t.counters, step.t.counters, |r.evicted|, CountRefused(r.refused, false), CountFailed(r.finished, false),
                   CountRefused(r.refused, true) + CountFailed(r.finished, true), CountRetries(r.started), 1, 0, 0);
  }

  lemma DroppedCounts(r: Run, f: Frame<nat>, step: Step<nat>)
    requires Counted(r) && OfferCounts(r.t, f, step) && !step.taken
    ensures Counted(AfterSubmit(r, f, step))
  {
    RefusedCounts(r.refused, f);
    SameRetries(r, f, step);
    var emergency := if IsEmergency(f) then 1 else 0;
    CountersFollow(r.t.counters, step.t.counters, |r.evicted|, CountRefused(r.refused, false), CountFailed(r.finished, false),
                   CountRefused(r.refused, true) + CountFailed(r.finished, true), CountRetries(r.started),
                   0, 1 - emergency, emergency);
  }

  lemma SubmitCounts(r: Run, f: Frame<nat>, step: Step<nat>)
    requires Counted(r) && OfferCounts(r.t, f, step)
    ensures Counted(AfterSubmit(r, f, step))
  {
    if step.report.Some? { EvictedCounts(r, f, step); }
    else if step.taken { KeptCounts(r, f, step); }
    else { DroppedCounts(r, f, step); }
  }

  lemma CountersFollow(c: Counters, c': Counters, evictions: nat, ordinaryDrops: nat, sendFailures: nat, emergencyDrops: nat,
                       retries: nat, evict: nat, ordinary: nat, emergency: nat)
    requires Agree(c, evictions, ordinaryDrops, sendFailures, emergencyDrops, retries)
    requires evict + ordinary + emergency <= 1
    requires c' == c.(evictions := if evict == 1 then Tick(c.evictions) else c.evictions,
                      ordinaryDrops := if ordinary == 1 then Tick(c.ordinaryDrops) else c.ordinaryDrops,
                      emergencyDrops := if emergency == 1 then Tick(c.emergencyDrops) else c.emergencyDrops)
    ensures Agree(c', evictions + evict, ordinaryDrops + ordinary, sendFailures, emergencyDrops + emergency, retries)
  {
  }

  /** Which counter a completion moves: retries, failures of ordinary frames, or emergency frames given up. */
  predicate CompletedCounts(t: Transport<nat>, success: bool, step: Step<nat>)
    requires t.current.Some?
  {
    var c := t.counters;
    step.t.counters ==
      if success then c
      else if !IsEmergency(t.current.value) then c.(sendFailures := Tick(c.sendFailures))
      else if step.report.None? then c.(emergencyRetries := Tick(c.emergencyRetries))
      else c.(emergencyDrops := Tick(c.emergencyDrops))
  }

  lemma CompletedHasCounts(t: Transport<nat>, success: bool)
    requires t.current.Some?
    ensures CompletedCounts(t, success, Completed(t, success))
  {
  }

  lemma FinishCounts(r: Run, success: bool, step: Step<nat>)
    requires r.t.current.Some? && Counted(r) && CompletedCounts(r.t, success, step)
    requires step.report == Some(Report(r.t.current.value, success))
    ensures Counted(AfterComplete(r, step))
  {
    var r' := AfterComplete(r, step);
    var report := step.report.value;
    var failed := if success then 0 else 1;
    var emergency := if IsEmergency(report.frame) then failed else 0;
    assert CountFailed(r'.finished, true) == CountFailed(r.finished, true) + emergency
           && CountFailed(r'.finished, false) == CountFailed(r.finished, false) + failed - emergency by {
      CountFailedAppend(r.finished, report, true);
      CountFailedAppend(r.finished, report, false);
    }
    assert CountRetries(r'.started) == CountRetries(r.started) by {
      if step.transmitted.Some? { CountRetriesAppend(r.started, Started(step.transmitted.value, r.offered, 1)); }
    }
  }

  lemma RetryCounts(r: Run, step: Step<nat>)
    requires r.t.current.Some? && r.started != [] && r.started[|r.started| - 1].tries > 0 && Counted(r)
    requires step.report.None? && IsEmergency(r.t.current.value) && CompletedCounts(r.t, false, step)
    ensures Counted(AfterComplete(r, step))
  {
    CountRetriesAppend(r.started, Started(r.t.current.value, r.offered, 1));
  }

  lemma CompleteCounts(r: Run, success: bool, step: Step<nat>)
    requires r.t.current.Some? && r.started != [] && r.started[|r.started| - 1].tries > 0 && Counted(r)
    requires CompletedShape(r.t, success, step) && CompletedCounts(r.t, success, step)
    ensures Counted(AfterComplete(r, step))
  {
    if step.report.Some? { FinishCounts(r, success, step); } else { RetryCounts(r, step); }
  }

  lemma StartAttempts(r: Run, f: Frame<nat>, step: Step<nat>)
    requires Attempted(r) && r.t.current.None?
    requires step == Step(r.t.(current := Some(f), retries := 0), true, Some(f), None)
    ensures Attempted(AfterSubmit(r, f, step))
  {
  }

  lemma QueueAttempts(r: Run, f: Frame<nat>, step: Step<nat>)
    requires Attempted(r) && r.t.current.Some? && step.transmitted.None?
    requires step.t.current == r.t.current && step.t.retries == r.t.retries
    requires step.report.Some? ==> !IsEmergency(step.report.value.frame) && !step.report.value.success
    ensures Attempted(AfterSubmit(r, f, step))
  {
  }

  lemma SubmitAttempts(r: Run, f: Frame<nat>, step: Step<nat>)
    requires Attempted(r) && OfferShape(r.t, f, step)
    ensures Attempted(AfterSubmit(r, f, step))
  {
    if r.t.current.None? { StartAttempts(r, f, step); } else { QueueAttempts(r, f, step); }
  }

  lemma CompleteAttempts(r: Run, success: bool, step: Step<nat>)
    requires Valid(r.t) && r.t.current.Some? && Attempted(r) && CompletedShape(r.t, success, step)
    ensures Attempted(AfterComplete(r, step))
  {
  }

  predicate Inv(r: Run) {
    Valid(r.t) && Conserved(r) && Numbered(r) && Ordered(r) && Attempted(r) && Counted(r)
  }

  lemma CompletedShapeKeepsValid(t: Transport<nat>, success: bool, step: Step<nat>)
    requires Valid(t) && t.current.Some? && CompletedShape(t, success, step)
    ensures Valid(step.t)
  {
    if t.queue != [] { TailIsOk(t.queue); }
  }

  lemma InvAfterSubmit(r: Run, f: Frame<nat>, step: Step<nat>)
    requires Inv(r) && f.onDone == r.offered && Valid(step.t)
    requires OfferShape(r.t, f, step) && OfferCounts(r.t, f, step)
    ensures Inv(AfterSubmit(r, f, step))
  {
    var r' := AfterSubmit(r, f, step);
    assert Conserved(r') by { OfferMoves(r.t, f, step); SubmitConserves(r, f, step); }
    assert Ordered(r') by { SubmitKeepsOrder(r, f, step); }
    assert Attempted(r') by { SubmitAttempts(r, f, step); }
    assert Counted(r') by { SubmitCounts(r, f, step); }
    assert Numbered(r') by { SubmitNumbers(r, f, step); }
  }

  lemma AcceptedNumbers(r: Run, r': Run, f: Frame<nat>)
    requires Numbered(r) && f.onDone == r.offered
    requires r'.offered == r.offered + 1 && r'.accepted == r.accepted + [f] && r'.refused == r.refused
    ensures Numbered(r')
  {
  }

  lemma RefusedNumbers(r: Run, r': Run, f: Frame<nat>)
    requires Numbered(r) && f.onDone == r.offered
    requires r'.offered == r.offered + 1 && r'.accepted == r.accepted && r'.refused == r.refused + [f]
    ensures Numbered(r')
  {
  }

  lemma SubmitNumbers(r: Run, f: Frame<nat>, step: Step<nat>)
    requires Numbered(r) && f.onDone == r.offered
    ensures Numbered(AfterSubmit(r, f, step))
  {
    if step.taken { AcceptedNumbers(r, AfterSubmit(r, f, step), f); } else { RefusedNumbers(r, AfterSubmit(r, f, step), f); }
  }

  lemma SubmitKeepsInv(r: Run, f: Frame<nat>)
    requires Inv(r) && f.onDone == r.offered
    ensures Inv(AfterSubmit(r, f, Offer(r.t, f)))
  {
    OfferHasShape(r.t, f);
    OfferHasCounts(r.t, f);
    OfferKeepsValid(r.t, f);
    InvAfterSubmit(r, f, Offer(r.t, f));
  }

  lemma CompleteKeepsFrames(r: Run, success: bool, step: Step<nat>)
    requires Inv(r) && r.t.current.Some? && CompletedShape(r.t, success, step)
    ensures Valid(step.t) && Conserved(AfterComplete(r, step))
  {
    assert Valid(step.t) by { CompletedShapeKeepsValid(r.t, success, step); }
    assert Moves(r.t, step, []) by { CompletedMoves(r.t, success, step); }
    CompleteConserves(r, step);
  }

  lemma CompleteKeepsBooks(r: Run, success: bool, step: Step<nat>)
    requires Inv(r) && r.t.current.Some?
    requires CompletedShape(r.t, success, step) && CompletedCounts(r.t, success, step)
    ensures Attempted(AfterComplete(r, step)) && Counted(AfterComplete(r, step))
  {
    CompleteAttempts(r, success, step);
    CompleteCounts(r, success, step);
  }

  lemma InvAfterComplete(r: Run, success: bool, step: Step<nat>)
    requires Inv(r) && r.t.current.Some?
    requires CompletedShape(r.t, success, step) && CompletedCounts(r.t, success, step)
    ensures Inv(AfterComplete(r, step))
  {
    var r' := AfterComplete(r, step);
    assert r'.accepted == r.accepted && r'.refused == r.refused && r'.offered == r.offered && r'.t == step.t;
    CompleteKeepsFrames(r, success, step);
    CompleteKeepsBooks(r, success, step);
    assert Ordered(r') by { CompleteKeepsOrder(r, success, step); }
  }

  lemma CompleteKeepsInv(r: Run, success: bool)
    requires Inv(r) && r.t.current.Some?
    ensures Inv(AfterComplete(r, Completed(r.t, success)))
  {
    CompletedHasShape(r.t, success);
    CompletedHasCounts(r.t, success);
    InvAfterComplete(r, success, Completed(r.t, success));
  }

  /** Over any run: accepted frames are exactly the finished, evicted, queued and current ones; frames are started in
      rightful order; an emergency frame is never evicted and tried at most three times; the counters count. */
  lemma {:induction false} EveryRunIsSound(es: seq<RunEvent>)
    requires After(Initial(), es).Some?
    ensures Inv(After(Initial(), es).value)
  {
    if es != [] {
      var e := es[|es| - 1];
      EveryRunIsSound(es[..|es| - 1]);
      var r := After(Initial(), es[..|es| - 1]).value;
      if e.Submit? { SubmitKeepsInv(r, OfferedFrame(r, e)); } else { CompleteKeepsInv(r, e.success); }
    } else {
      assert multiset(CurrentFrames(Initial().t)) == multiset{};
    }
  }

  /** Each accepted frame is in exactly one place: reported once, evicted once, or held once. */
  lemma EachAcceptedOnce(r: Run, f: Frame<nat>)
    requires Inv(r) && f in r.accepted
    ensures Reported(r.finished)[f] + Reported(r.evicted)[f] + Held(r.t)[f] == 1
  {
    DistinctCounts(r.accepted, f);
    assert multiset(r.accepted)[f] == (Reported(r.finished) + Reported(r.evicted) + Held(r.t))[f];
  }

  /** A refused frame is nowhere: its callback never runs. */
  lemma RefusedNever(r: Run, f: Frame<nat>)
    requires Inv(r) && f in r.refused
    ensures Reported(r.finished)[f] + Reported(r.evicted)[f] + Held(r.t)[f] == 0
  {
    assert f !in r.accepted;
    assert multiset(r.accepted)[f] == (Reported(r.finished) + Reported(r.evicted) + Held(r.t))[f];
  }

  /* ---- With no more offers, every callback runs ---- */

  /** Attempts that the frames held can still take. */
  function AttemptsLeft(t: Transport<nat>): nat
    requires t.retries <= EMERGENCY_RETRY_LIMIT
  {
    if t.current.None? then 0 else (1 + EMERGENCY_RETRY_LIMIT) * (|t.queue| + 1) - t.retries
  }

  /** The driver completes one SendData after another, with these outcomes, until nothing is left to send. */
  function Drained(r: Run, outcomes: seq<bool>): Run
    decreases |outcomes|
  {
    if outcomes == [] || r.t.current.None? then r
    else Drained(AfterComplete(r, Completed(r.t, outcomes[0])), outcomes[1..])
  }

  lemma AttemptUsed(t: Transport<nat>, success: bool, step: Step<nat>)
    requires Valid(t) && t.current.Some? && CompletedShape(t, success, step) && step.t.retries <= EMERGENCY_RETRY_LIMIT
    ensures AttemptsLeft(step.t) < AttemptsLeft(t)
  {
  }

  lemma NothingHeld(t: Transport<nat>)
    requires Valid(t) && t.current.None?
    ensures Held(t) == multiset{}
  {
  }

  lemma DrainStep(r: Run, success: bool)
    requires Inv(r) && r.t.current.Some?
    ensures var after := AfterComplete(r, Completed(r.t, success));
            && Inv(after) && after.accepted == r.accepted && Valid(after.t) && AttemptsLeft(after.t) < AttemptsLeft(r.t)
  {
    CompletedHasShape(r.t, success);
    CompleteKeepsInv(r, success);
    AttemptUsed(r.t, success, Completed(r.t, success));
  }

  /** How far a run still is from having nothing to send. */
  predicate Drainable(r: Run, n: nat) {
    Inv(r) && AttemptsLeft(r.t) <= n
  }

  lemma {:induction false} DrainingEnds(r: Run, outcomes: seq<bool>)
    requires Drainable(r, |outcomes|)
    ensures var end := Drained(r, outcomes); Inv(end) && end.t.current.None? && end.accepted == r.accepted
    decreases |outcomes|
  {
    if r.t.current.Some? {
      DrainStep(r, outcomes[0]);
      var after := AfterComplete(r, Completed(r.t, outcomes[0]));
      assert Drained(r, outcomes) == Drained(after, outcomes[1..]);
      DrainingEnds(after, outcomes[1..]);
    }
  }

  /** With no more offers, at most three completions a frame held, whatever their outcomes, leave nothing held: every
      accepted frame has then been reported or evicted, exactly once. */
  lemma EveryCallbackRuns(r: Run, outcomes: seq<bool>, f: Frame<nat>)
    requires Inv(r) && |outcomes| == 3 * (|r.t.queue| + 1) && f in r.accepted
    ensures var end := Drained(r, outcomes);
            Held(end.t) == multiset{} && Reported(end.finished)[f] + Reported(end.evicted)[f] == 1
  {
    DrainingEnds(r, outcomes);
    NothingHeld(Drained(r, outcomes).t);
    EachAcceptedOnce(Drained(r, outcomes), f);
  }

  lemma {:induction false} DistinctCounts(fs: seq<Frame<nat>>, f: Frame<nat>)
    requires f in fs && forall i, j :: 0 <= i < j < |fs| ==> fs[i].onDone < fs[j].onDone
    ensures multiset(fs)[f] == 1
  {
    var init, last := fs[..|fs| - 1], fs[|fs| - 1];
    assert fs == init + [last];
    if f == last {
      assert f !in init;
    } else {
      assert f in init;
      DistinctCounts(init, f);
    }
  }

  /** Frames of equal priority are transmitted in the order they were offered. */
  lemma EqualPriorityIsFifo(r: Run, i: nat, j: nat)
    requires Inv(r) && i < j < |r.started| && r.started[i].frame.priority == r.started[j].frame.priority
    ensures r.started[i].frame.onDone < r.started[j].frame.onDone
  {
    assert RightlyBefore(r.started[i], r.started[j].frame);
  }

  /* ---- One identifier, one order ---- */

  /** The frames with this identifier, in order. */
  function OfId(fs: seq<Frame<nat>>, id: CanId): seq<Frame<nat>> {
    if fs == [] then []
    else OfId(fs[..|fs| - 1], id) + if fs[|fs| - 1].id == id then [fs[|fs| - 1]] else []
  }

  function Frames(started: seq<Started>): seq<Frame<nat>> {
    if started == [] then [] else Frames(started[..|started| - 1]) + [started[|started| - 1].frame]
  }

  predicate Increasing(fs: seq<Frame<nat>>) {
    forall i, j :: 0 <= i < j < |fs| ==> fs[i].onDone < fs[j].onDone
  }

  lemma {:induction false} OfIdIs(fs: seq<Frame<nat>>, id: CanId, f: Frame<nat>)
    ensures f in OfId(fs, id) <==> f in fs && f.id == id
  {
    if fs != [] {
      OfIdIs(fs[..|fs| - 1], id, f);
      assert fs == fs[..|fs| - 1] + [fs[|fs| - 1]];
    }
  }

  lemma {:induction false} FramesAt(started: seq<Started>)
    ensures |Frames(started)| == |started| && forall i :: 0 <= i < |started| ==> Frames(started)[i] == started[i].frame
  {
    if started != [] { FramesAt(started[..|started| - 1]); }
  }

  /** Frames of one identifier that are ordered pairwise are ordered once the others are left out. */
  lemma {:induction false} OfIdIncreasing(fs: seq<Frame<nat>>, id: CanId)
    requires forall i, j :: 0 <= i < j < |fs| && fs[i].id == id && fs[j].id == id ==> fs[i].onDone < fs[j].onDone
    ensures Increasing(OfId(fs, id))
  {
    if fs != [] {
      var init, last := fs[..|fs| - 1], fs[|fs| - 1];
      OfIdIncreasing(init, id);
      if last.id == id {
        forall i | 0 <= i < |OfId(init, id)|
          ensures OfId(init, id)[i].onDone < last.onDone
        {
          OfIdIs(init, id, OfId(init, id)[i]);
          var k :| 0 <= k < |init| && init[k] == OfId(init, id)[i];
          assert fs[k] == init[k];
        }
      }
    }
  }

  lemma IncreasingTail(a: seq<Frame<nat>>, b: seq<Frame<nat>>)
    requires a != [] && b != [] && Increasing(a) && Increasing(b) && (forall i :: 0 <= i < |a| ==> a[i] in b)
    ensures a[|a| - 1] == b[|b| - 1] ==> forall i :: 0 <= i < |a| - 1 ==> a[i] in b[..|b| - 1]
    ensures a[|a| - 1] != b[|b| - 1] ==> forall i :: 0 <= i < |a| ==> a[i] in b[..|b| - 1]
  {
    assert b == b[..|b| - 1] + [b[|b| - 1]];
    assert a[|a| - 1] in b;
  }

  lemma {:induction false} IncreasingIsSubsequence(a: seq<Frame<nat>>, b: seq<Frame<nat>>)
    requires Increasing(a) && Increasing(b) && (forall i :: 0 <= i < |a| ==> a[i] in b)
    ensures IsSubsequence(a, b)
    decreases |b|
  {
    if a != [] {
      assert a[0] in b;
      IncreasingTail(a, b);
      if a[|a| - 1] == b[|b| - 1] {
        IncreasingIsSubsequence(a[..|a| - 1], b[..|b| - 1]);
      } else {
        IncreasingIsSubsequence(a, b[..|b| - 1]);
      }
    }
  }

  lemma {:induction false} ReportedOf(reports: seq<Report<nat>>, i: nat)
    requires i < |reports|
    ensures Reported(reports)[reports[i].frame] > 0
  {
    if i < |reports| - 1 { ReportedOf(reports[..|reports| - 1], i); }
  }

  lemma StartedWasAccepted(r: Run, i: nat)
    requires Inv(r) && i < |r.started|
    ensures r.started[i].frame in r.accepted
  {
    var f := r.started[i].frame;
    if i < |r.finished| {
      ReportedOf(r.finished, i);
    } else {
      assert f in CurrentFrames(r.t);
    }
    assert multiset(r.accepted)[f] == (Reported(r.finished) + Reported(r.evicted) + Held(r.t))[f];
  }

  lemma {:induction false} PrioritiesAreOfIds(es: seq<RunEvent>)
    requires After(Initial(), es).Some?
    ensures var r := After(Initial(), es).value;
            forall i :: 0 <= i < |r.accepted| ==> r.accepted[i].priority == PriorityOf(r.accepted[i].id)
  {
    if es != [] { PrioritiesAreOfIds(es[..|es| - 1]); }
  }

  /** The link that ISO-TP relies on: over any run, what leaves under one identifier is a subsequence of what was accepted
      under it, whatever else is offered in between. */
  lemma IdentifierIsFifo(es: seq<RunEvent>, id: CanId)
    requires After(Initial(), es).Some?
    ensures var r := After(Initial(), es).value; IsSubsequence(OfId(Frames(r.started), id), OfId(r.accepted, id))
  {
    var r := After(Initial(), es).value;
    var out := Frames(r.started);
    EveryRunIsSound(es);
    PrioritiesAreOfIds(es);
    FramesAt(r.started);
    forall i | 0 <= i < |out|
      ensures out[i] in r.accepted && out[i].priority == PriorityOf(out[i].id)
    {
      StartedWasAccepted(r, i);
    }
    forall i, j | 0 <= i < j < |out| && out[i].id == id && out[j].id == id
      ensures out[i].onDone < out[j].onDone
    {
      EqualPriorityIsFifo(r, i, j);
    }
    IncreasingIdsAreSubsequence(out, r.accepted, id);
  }

  lemma IncreasingIdsAreSubsequence(out: seq<Frame<nat>>, accepted: seq<Frame<nat>>, id: CanId)
    requires forall i :: 0 <= i < |out| ==> out[i] in accepted
    requires forall i, j :: 0 <= i < j < |out| && out[i].id == id && out[j].id == id ==> out[i].onDone < out[j].onDone
    requires forall i, j :: 0 <= i < j < |accepted| ==> accepted[i].onDone < accepted[j].onDone
    ensures IsSubsequence(OfId(out, id), OfId(accepted, id))
  {
    OfIdIncreasing(out, id);
    OfIdIncreasing(accepted, id);
    forall i | 0 <= i < |OfId(out, id)|
      ensures OfId(out, id)[i] in OfId(accepted, id)
    {
      OfIdIs(out, id, OfId(out, id)[i]);
      OfIdIs(accepted, id, OfId(out, id)[i]);
    }
    IncreasingIsSubsequence(OfId(out, id), OfId(accepted, id));
  }

  /** An ordinary frame started before an emergency frame was started before that frame was even offered. */
  lemma EmergencyOvertakes(r: Run, i: nat, j: nat)
    requires Inv(r) && i < j < |r.started|
    requires !IsEmergency(r.started[i].frame) && IsEmergency(r.started[j].frame)
    ensures r.started[i].at <= r.started[j].frame.onDone
  {
    assert RightlyBefore(r.started[i], r.started[j].frame);
  }

  lemma EmergencyRefused(t: Transport<nat>, f: Frame<nat>, e: seq<Frame<nat>>, o: seq<Frame<nat>>)
    requires AllEmergency(e) && NoneEmergency(o) && t.queue == e + o && |t.queue| <= QUEUE_DEPTH
    ensures !OfferEmergency(t, f).taken <==> |e| == QUEUE_DEPTH
  {
    if o != [] { assert t.queue[|t.queue| - 1] == o[|o| - 1]; }
  }

  lemma OrdinaryRefused(t: Transport<nat>, f: Frame<nat>, e: seq<Frame<nat>>, o: seq<Frame<nat>>)
    requires AllEmergency(e) && NoneEmergency(o) && Sorted(o) && t.queue == e + o && |t.queue| <= QUEUE_DEPTH
    requires OrdinaryCount(t.queue) == |o| <= QUEUE_DEPTH - EMERGENCY_RESERVE
    ensures !OfferOrdinary(t, f).taken <==>
              |o| == OrdinaryRoom(|e|) && forall i :: 0 <= i < |o| ==> o[i].priority <= f.priority
  {
    if o != [] { assert t.queue[|t.queue| - 1] == o[|o| - 1]; }
  }

  /* ---- What each event does to the record ---- */

  lemma CompletedDoes(t: Transport<nat>, success: bool)
    requires t.current.Some? && t.retries <= EMERGENCY_RETRY_LIMIT
    ensures var step := Completed(t, success);
            if !success && IsEmergency(t.current.value) && t.retries < EMERGENCY_RETRY_LIMIT then
              step.report.None? && step.t.queue == t.queue
            else
              && step.report == Some(Report(t.current.value, success))
              && step.transmitted == (if t.queue == [] then None else Some(t.queue[0]))
              && step.t.queue == (if t.queue == [] then [] else t.queue[1..])
  {
  }

  /** The last frame started is the one that an event completes: another attempt follows exactly for an emergency frame
      that failed for the first or second time; otherwise it is reported with the outcome, and the queue moves up. */
  lemma CompletionIsDue(r: Run, success: bool)
    requires Inv(r) && r.t.current.Some? && r.started != []
    ensures var last, r' := r.started[|r.started| - 1], Next(r, Complete(success));
            if !success && IsEmergency(last.frame) && last.tries <= 2 then
              r'.finished == r.finished && r'.started == OneMoreTry(r.started) && r'.t.queue == r.t.queue
            else
              && r'.finished == r.finished + [Report(last.frame, success)]
              && r'.started == r.started + (if r.t.queue == [] then [] else [Started(r.t.queue[0], r.offered, 1)])
              && r'.t.queue == (if r.t.queue == [] then [] else r.t.queue[1..])
  {
    CompletedDoes(r.t, success);
    assert r.started + [] == r.started;
  }

  /** All places that the frame could take are taken. */
  predicate Full(q: seq<Frame<nat>>, f: Frame<nat>) {
    |q| == 8 || (!IsEmergency(f) && OrdinaryCount(q) == 6)
  }

  predicate OfferDone(t: Transport<nat>, f: Frame<nat>, step: Step<nat>) {
    if t.current.None? then step.taken && step.transmitted == Some(f) && step.report.None?
    else
      && step.transmitted.None? && (!Full(t.queue, f) ==> step.taken)
      && (if step.taken && Full(t.queue, f) then
            && t.queue != [] && step.report == Some(Report(t.queue[|t.queue| - 1], false))
            && !IsEmergency(t.queue[|t.queue| - 1]) && f.priority < t.queue[|t.queue| - 1].priority
          else step.report.None?)
  }

  lemma OfferDoes(t: Transport<nat>, f: Frame<nat>)
    requires QueueOk(t.queue)
    ensures OfferDone(t, f, Offer(t, f))
  {
  }

  /** What an offer adds to the record. */
  predicate Submitted(r: Run, f: Frame<nat>, r': Run) {
    var q := r.t.queue;
    if r.t.current.None? then
      r'.started == r.started + [Started(f, r.offered + 1, 1)] && r'.accepted == r.accepted + [f] && r'.evicted == r.evicted
    else
      && r'.started == r.started
      && (!Full(q, f) ==> r'.accepted == r.accepted + [f])
      && (if |r'.accepted| > |r.accepted| && Full(q, f) then
            && q != [] && r'.evicted == r.evicted + [Report(q[|q| - 1], false)]
            && !IsEmergency(q[|q| - 1]) && Ahead(f, q[|q| - 1])
            && (forall i :: 0 <= i < |q| - 1 ==> Ahead(q[i], q[|q| - 1]))
          else r'.evicted == r.evicted)
  }

  lemma OfferRecorded(r: Run, f: Frame<nat>, step: Step<nat>)
    requires OfferDone(r.t, f, step)
    requires forall i, j :: 0 <= i < j < |r.t.queue| ==> Ahead(r.t.queue[i], r.t.queue[j])
    ensures Submitted(r, f, AfterSubmit(r, f, step))
  {
  }

  /** An offer to an idle transport starts its frame; to a busy one it starts nothing, and evicts exactly when it is taken
      although all places for it are: then the least urgent queued frame, newest among equals, which is told that it was
      not sent. */
  lemma SubmissionIsDue(r: Run, id: CanId, data: Message)
    requires Inv(r)
    ensures Submitted(r, Pending(id, data, r.offered), Next(r, Submit(id, data)))
  {
    var f := Pending(id, data, r.offered);
    OfferDoes(r.t, f);
    OfferRecorded(r, f, Offer(r.t, f));
  }

  /** Exactly when an offer is refused: an emergency frame when eight are queued, an ordinary one when its places are
      taken by frames as urgent or more. */
  lemma RefusedExactlyWhenFull(t: Transport<nat>, f: Frame<nat>)
    requires Valid(t) && t.current.Some?
    ensures !Offer(t, f).taken <==>
              if IsEmergency(f) then |Emergencies(t.queue)| == QUEUE_DEPTH
              else |Ordinaries(t.queue)| == OrdinaryRoom(|Emergencies(t.queue)|)
                   && forall i :: 0 <= i < |Ordinaries(t.queue)| ==> Ordinaries(t.queue)[i].priority <= f.priority
  {
    SortedSplits(t.queue);
    OfOneKind(t.queue);
    if IsEmergency(f) {
      EmergencyRefused(t, f, Emergencies(t.queue), Ordinaries(t.queue));
    } else {
      OrdinaryRefused(t, f, Emergencies(t.queue), Ordinaries(t.queue));
    }
  }
}
