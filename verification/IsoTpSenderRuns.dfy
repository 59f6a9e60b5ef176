/**
 Runs of one sender against an arbitrary peer, driver and clock.

 A run remembers which completion closures the driver still holds. The
 transfer token of a closure is eight bits wide; `epoch` is the token that
 would never wrap, and a report is only let in while fewer than 256 transfers
 have begun or ended since its frame was handed over.
 */
module IsoTpSenderRuns {
  import opened CanTypes
  import opened IsoTpCodec
  import opened IsoTpSender

  datatype Pending = Pending(done: FrameDone, epoch: nat)

  datatype Ending = Finished | Failed(reason: AbortReason) | Dropped

  /** A transfer begins with `Accepted` and ends with the frames it handed over. */
  datatype LogEntry = Accepted(pdu: seq<byte>) | Ended(how: Ending, frames: seq<Message>)

  datatype Run = Run(s: Sender, epoch: nat, pending: multiset<Pending>, handed: seq<Message>, log: seq<LogEntry>)

  datatype RunEvent =
    | Submit(pdu: seq<byte>)
    | FlowControl(frame: Message)
    | Report(of: Pending, success: bool)
    | NAs
    | NBs
    | StMin
    | Release

  function MachineEvent(e: RunEvent): Event {
    match e
    case Submit(pdu) => Send(pdu)
    case FlowControl(frame) => FlowControlArrives(frame)
    case Report(p, success) => FrameReport(p.done, success)
    case NAs => NAsExpires
    case NBs => NBsExpires
    case StMin => StMinExpires
    case Release => Reset
  }

  predicate Enabled(r: Run, e: RunEvent) {
    && r.s.bytesSent <= |r.s.pdu|
    && CanHappen(r.s, MachineEvent(e))
    && (e.Report? ==> e.of in r.pending && r.epoch - e.of.epoch < 0x100)
  }

  function Begins(r: Run, e: RunEvent): bool {
    e.Submit? && Accepts(r.s, e.pdu)
  }

  function EndingOf(r: Run, e: RunEvent, step: Step): Option<Ending> {
    match step.notice
    case Some(Done) => Some(Finished)
    case Some(Aborted(reason)) => Some(Failed(reason))
    case None => if e.Release? && r.s.phase != Idle then Some(Dropped) else None
  }

  /** The run after `e`, when the sender answers `e` with `step`. */
  function NextBy(r: Run, e: RunEvent, step: Step): Run {
    var epoch := if step.s.transfer == r.s.transfer then r.epoch else r.epoch + 1;
    var held := if e.Report? then r.pending - multiset{e.of} else r.pending;
    var kept := if Begins(r, e) then [] else r.handed;
    var ending := EndingOf(r, e, step);
    Run(step.s,
        epoch,
        if step.frame.Some? then held + multiset{Pending(step.frame.value.onDone, epoch)} else held,
        if step.frame.Some? then kept + [step.frame.value.frame] else kept,
        r.log + (if Begins(r, e) then [Accepted(e.pdu)]
                 else if ending.Some? then [Ended(ending.value, r.handed)]
                 else []))
  }

  function Next(r: Run, e: RunEvent): Run
    requires Enabled(r, e)
  {
    NextBy(r, e, React(r.s, MachineEvent(e)))
  }

  function Initial(capacity: nat): Run {
    Run(Sender(Idle, [], capacity, 0, 1, 0, 0, 0, 0, 0, false, false, false), 0, multiset{}, [], [])
  }

  /** The run after the events, in order; None if one of them could not happen. */
  function After(r: Run, es: seq<RunEvent>): Option<Run>
    decreases |es|
  {
    if es == [] then Some(r)
    else
      var before := After(r, es[..|es| - 1]);
      if before.Some? && Enabled(before.value, es[|es| - 1]) then Some(Next(before.value, es[|es| - 1])) else None
  }

  /* ---- What holds in every run ---- */

  predicate PendingOk(r: Run) {
    && r.s.transfer == r.epoch % 0x100
    && (forall p :: p in r.pending ==> p.epoch <= r.epoch && p.done.transfer == p.epoch % 0x100)
    && (forall p :: p in r.pending && p.epoch == r.epoch ==>
          if p.done.AwaitFcDone? then r.s.phase == WaitingForFc || r.s.phase == SendingCf
          else r.s.nAs && p.done == WatchedReport(r.s) && r.pending[p] == 1)
    && (r.s.nAs ==> Pending(WatchedReport(r.s), r.epoch) in r.pending)
  }

  /** Transfers follow one another: each accepted PDU has exactly one ending before the next is accepted, and a
      transfer that finished handed over all the frames of its PDU, any other one the first few. */
  predicate WellPaired(log: seq<LogEntry>, busy: bool) {
    if log == [] then !busy
    else
      var before := log[..|log| - 1];
      match log[|log| - 1]
      case Accepted(pdu) => busy && IsPdu(pdu) && WellPaired(before, false)
      case Ended(how, frames) =>
        && !busy && WellPaired(before, true)
        && before[|before| - 1].Accepted?
        && frames <= Segment(before[|before| - 1].pdu)
        && (how == Finished ==> frames == Segment(before[|before| - 1].pdu))
  }

  /** The frames handed over in the current transfer are the first frames of its PDU. */
  predicate HandedOk(r: Run) {
    r.s.phase != Idle ==>
      && IsPdu(r.s.pdu)
      && |r.handed| == 1 + CfsSent(r.s) <= |Segment(r.s.pdu)|
      && r.handed <= Segment(r.s.pdu)
  }

  predicate LogOk(r: Run) {
    && WellPaired(r.log, r.s.phase != Idle)
    && (r.s.phase != Idle ==> r.log[|r.log| - 1] == Accepted(r.s.pdu))
  }

  predicate Inv(r: Run) {
    Valid(r.s) && PendingOk(r) && HandedOk(r) && LogOk(r)
  }

  /** What a step does to the tokens and timers. */
  predicate TokenEffect(s: Sender, e: Event, step: Step) {
    && (step.s.transfer == s.transfer || step.s.transfer == Next8(s.transfer))
    && (step.s.transfer != s.transfer <==> step.notice.Some? || (e.Send? && Accepts(s, e.pdu)) || e.Reset?)
    && (step.notice.Some? || e.Reset? ==> step.s.phase == Idle && step.frame.None?)
    && (step.frame.Some? ==> step.frame.value.onDone.transfer == step.s.transfer)
    && (step.frame.Some? && !step.frame.value.onDone.AwaitFcDone? ==>
          step.s.nAs && step.frame.value.onDone == WatchedReport(step.s))
    && (step.frame.Some? && step.frame.value.onDone.AwaitFcDone? ==> step.s.phase == WaitingForFc && !step.s.nAs)
    && (step.s.nAs && step.frame.None? ==> s.nAs && step.s.transfer == s.transfer && WatchedReport(step.s) == WatchedReport(s))
    && (s.nAs && step.s.transfer == s.transfer ==> step.s.nAs || (e.FrameReport? && e.done == WatchedReport(s)))
    && (s.nAs && step.s.transfer == s.transfer && (step.frame.Some? || WatchedReport(step.s) != WatchedReport(s)) ==>
          e.FrameReport? && e.done == WatchedReport(s))
    && (e.FrameReport? && !e.done.AwaitFcDone? && e.done.transfer == s.transfer && step.s.transfer == s.transfer ==>
          step.frame.Some? || !step.s.nAs)
    && ((s.phase == WaitingForFc || s.phase == SendingCf) && step.s.transfer == s.transfer ==>
          step.s.phase == WaitingForFc || step.s.phase == SendingCf)
  }

  lemma NextCfTokenEffect(s: Sender)
    requires Valid(s.(stMinTimer := true, nAs := false)) && s.phase == SendingCf && !s.stMinTimer && !s.nAs
    ensures var step := ScheduleCf(s);
      && step.notice.None? && step.s.transfer == s.transfer
      && (step.frame.Some? ==> step.frame.value.onDone.transfer == s.transfer)
      && (step.frame.Some? && !step.frame.value.onDone.AwaitFcDone? ==>
            step.s.nAs && step.s.phase == SendingCf && step.frame.value.onDone == WatchedReport(step.s))
      && (step.frame.Some? && step.frame.value.onDone.AwaitFcDone? ==> step.s.phase == WaitingForFc && !step.s.nAs)
      && (step.frame.None? ==> step.s.phase == SendingCf && !step.s.nAs)
  {
  }

  lemma FlowControlTokenEffect(s: Sender, frame: Message)
    requires Valid(s)
    ensures TokenEffect(s, FlowControlArrives(frame), OnFlowControl(s, frame))
  {
    if s.phase == WaitingForFc {
      match DecodeFlowControl(frame) {
        case Some((ContinueToSend, bs, st)) => NextCfTokenEffect(Granted(s, bs, st));
        case _ =>
      }
    }
  }

  lemma ReportTokenEffect(s: Sender, done: FrameDone, success: bool)
    requires Valid(s) && Legitimate(s, FrameReport(done, success))
    ensures TokenEffect(s, FrameReport(done, success), OnFrameReport(s, done, success))
  {
    if done.transfer == s.transfer && done.ConsecutiveDone? && success && !done.allSent {
      NextCfTokenEffect(s.(nAs := false));
    }
  }

  lemma ReactTokenEffect(s: Sender, e: Event)
    requires Valid(s) && CanHappen(s, e) && Legitimate(s, e)
    ensures TokenEffect(s, e, React(s, e))
  {
    match e {
      case FlowControlArrives(frame) => FlowControlTokenEffect(s, frame);
      case FrameReport(done, success) => ReportTokenEffect(s, done, success);
      case _ =>
    }
  }

  /** Which frame a step hands over, and what has been sent when a transfer ends. */
  predicate FrameEffect(s: Sender, e: Event, step: Step) {
    var begins := e.Send? && Accepts(s, e.pdu);
    && (begins ==>
          && step.frame.Some? && step.notice.None? && step.s.pdu == e.pdu && CfsSent(step.s) == 0
          && step.frame.value.frame == FrameAt(e.pdu, 0) && step.s.phase != Idle)
    && (!begins && step.frame.Some? ==>
          && step.notice.None? && s.phase != Idle
          && IsPdu(s.pdu) && CfsSent(step.s) == CfsSent(s) + 1 <= CfCount(s.pdu)
          && step.frame.value.frame == FrameAt(s.pdu, CfsSent(step.s)))
    && (!begins && step.frame.None? && step.notice.None? ==> CfsSent(step.s) == CfsSent(s))
    && (step.notice.Some? || e.Reset? ==> step.s.phase == Idle && step.frame.None?)
    && (step.notice.Some? ==> s.phase != Idle)
    && (step.notice == Some(Done) ==> IsPdu(s.pdu) && CfsSent(s) == CfCount(s.pdu))
    && (!begins && step.notice.None? && !e.Reset? ==>
          (step.s.phase != Idle <==> s.phase != Idle) && step.s.pdu == s.pdu)
  }

  lemma ScheduleFrameEffect(s: Sender)
    requires Valid(s.(stMinTimer := true, nAs := false)) && s.phase == SendingCf && !s.stMinTimer && !s.nAs
    ensures var step := ScheduleCf(s);
      && step.notice.None? && step.s.pdu == s.pdu && step.s.phase != Idle && IsPdu(s.pdu)
      && (step.frame.Some? ==>
            && CfsSent(step.s) == CfsSent(s) + 1 <= CfCount(s.pdu)
            && step.frame.value.frame == FrameAt(s.pdu, CfsSent(step.s)))
      && (step.frame.None? ==> CfsSent(step.s) == CfsSent(s))
  {
    NextCfKeepsValid(s);
  }

  lemma FlowControlFrameEffect(s: Sender, frame: Message)
    requires Valid(s)
    ensures FrameEffect(s, FlowControlArrives(frame), OnFlowControl(s, frame))
  {
    if s.phase == WaitingForFc {
      match DecodeFlowControl(frame) {
        case Some((ContinueToSend, bs, st)) => ScheduleFrameEffect(Granted(s, bs, st));
        case _ =>
      }
    }
  }

  lemma ReportFrameEffect(s: Sender, done: FrameDone, success: bool)
    requires Valid(s) && Legitimate(s, FrameReport(done, success))
    ensures FrameEffect(s, FrameReport(done, success), OnFrameReport(s, done, success))
  {
    if done.transfer == s.transfer && done.ConsecutiveDone? && success && !done.allSent {
      ScheduleFrameEffect(s.(nAs := false));
    }
  }

  lemma ReactFrameEffect(s: Sender, e: Event)
    requires Valid(s) && CanHappen(s, e) && Legitimate(s, e)
    ensures FrameEffect(s, e, React(s, e))
  {
    match e {
      case FlowControlArrives(frame) => FlowControlFrameEffect(s, frame);
      case FrameReport(done, success) => ReportFrameEffect(s, done, success);
      case StMinExpires => NextCfKeepsValid(s.(stMinTimer := false));
      case _ =>
    }
  }

  /** Within the 256-transfer window, a report carries the current token exactly when it belongs to the current transfer. */
  lemma TokenTellsTransfersApart(r: Run, p: Pending)
    requires PendingOk(r) && p in r.pending && r.epoch - p.epoch < 0x100
    ensures p.done.transfer == r.s.transfer <==> p.epoch == r.epoch
  {
    if p.epoch < r.epoch {
      DistinctWithin256(p.epoch, r.epoch);
    }
  }

  lemma EnabledIsLegitimate(r: Run, e: RunEvent)
    requires Inv(r) && Enabled(r, e)
    ensures Legitimate(r.s, MachineEvent(e))
  {
    if e.Report? {
      TokenTellsTransfersApart(r, e.of);
    }
  }

  lemma PendingAfter(r: Run, e: RunEvent, step: Step)
    requires PendingOk(r) && TokenEffect(r.s, MachineEvent(e), step)
    requires e.Report? ==> e.of in r.pending && r.epoch - e.of.epoch < 0x100
    ensures PendingOk(NextBy(r, e, step))
  {
    var r' := NextBy(r, e, step);
    var held := if e.Report? then r.pending - multiset{e.of} else r.pending;
    assert r'.s.transfer == r'.epoch % 0x100;
    forall p | p in r'.pending
      ensures p.epoch <= r'.epoch && p.done.transfer == p.epoch % 0x100
      ensures p.epoch == r'.epoch ==>
                if p.done.AwaitFcDone? then r'.s.phase == WaitingForFc || r'.s.phase == SendingCf
                else r'.s.nAs && p.done == WatchedReport(r'.s) && r'.pending[p] == 1
    {
      if p !in held {
        assert step.frame.Some? && p == Pending(step.frame.value.onDone, r'.epoch);
        assert r'.pending[p] == 1;
      } else {
        HeldAfter(r, e, step, p);
      }
    }
  }

  lemma HeldAfter(r: Run, e: RunEvent, step: Step, p: Pending)
    requires PendingOk(r) && TokenEffect(r.s, MachineEvent(e), step)
    requires e.Report? ==> e.of in r.pending && r.epoch - e.of.epoch < 0x100
    requires p in if e.Report? then r.pending - multiset{e.of} else r.pending
    ensures p in r.pending && NextBy(r, e, step).epoch >= r.epoch
    ensures var r' := NextBy(r, e, step);
            p.epoch == r'.epoch ==>
              if p.done.AwaitFcDone? then r'.s.phase == WaitingForFc || r'.s.phase == SendingCf
              else r'.s.nAs && p.done == WatchedReport(r'.s) && r'.pending[p] == 1
  {
    assert p in r.pending;
  }

  lemma HandedAfter(r: Run, e: RunEvent, step: Step)
    requires HandedOk(r) && FrameEffect(r.s, MachineEvent(e), step)
    ensures HandedOk(NextBy(r, e, step))
    ensures step.notice == Some(Done) ==> IsPdu(r.s.pdu) && r.handed == Segment(r.s.pdu)
  {
    if Begins(r, e) {
      assert [] + [FrameAt(e.pdu, 0)] <= Segment(e.pdu);
    } else if step.frame.Some? {
      assert r.handed + [FrameAt(r.s.pdu, CfsSent(step.s))] <= Segment(r.s.pdu);
    }
  }

  lemma LogAfter(r: Run, e: RunEvent, step: Step)
    requires HandedOk(r) && LogOk(r) && FrameEffect(r.s, MachineEvent(e), step)
    requires step.notice == Some(Done) ==> IsPdu(r.s.pdu) && r.handed == Segment(r.s.pdu)
    ensures LogOk(NextBy(r, e, step))
  {
    var r' := NextBy(r, e, step);
    if Begins(r, e) || EndingOf(r, e, step).Some? {
      assert r'.log[..|r'.log| - 1] == r.log;
    } else {
      assert r'.log == r.log;
    }
  }

  lemma NextKeepsInv(r: Run, e: RunEvent)
    requires Inv(r) && Enabled(r, e)
    ensures Inv(Next(r, e))
  {
    EnabledIsLegitimate(r, e);
    var step := React(r.s, MachineEvent(e));
    ReactKeepsValid(r.s, MachineEvent(e));
    ReactTokenEffect(r.s, MachineEvent(e));
    ReactFrameEffect(r.s, MachineEvent(e));
    PendingAfter(r, e, step);
    HandedAfter(r, e, step);
    LogAfter(r, e, step);
  }

  /** In every run: timers match the phase, each accepted PDU ends exactly once, frames are handed over in order,
      and "done" means all of them were. */
  lemma {:induction false} EveryRunIsSound(capacity: nat, es: seq<RunEvent>)
    requires After(Initial(capacity), es).Some?
    ensures var r := After(Initial(capacity), es).value;
      && Inv(r)
      && ArmedTimers(r.s) == if r.s.phase == Idle then 0 else 1
  {
    if es != [] {
      EveryRunIsSound(capacity, es[..|es| - 1]);
      NextKeepsInv(After(Initial(capacity), es[..|es| - 1]).value, es[|es| - 1]);
    }
  }

  /** A late report of a transfer that has ended changes nothing but the driver's own books. */
  lemma LateReportIsInert(r: Run, p: Pending, success: bool)
    requires Inv(r) && Enabled(r, Report(p, success)) && p.epoch < r.epoch
    ensures Next(r, Report(p, success)) == r.(pending := r.pending - multiset{p})
  {
    TokenTellsTransfersApart(r, p);
    assert r.log + [] == r.log;
  }

  /** Without the window the token is exactly as good as the distance modulo 256. */
  lemma TokenAliasesEvery256(r: Run, p: Pending)
    requires PendingOk(r) && p in r.pending
    ensures p.done.transfer == r.s.transfer <==> (r.epoch - p.epoch) % 0x100 == 0
  {
    var d := r.epoch - p.epoch;
    assert r.epoch == p.epoch + d;
    ModuloDifference(p.epoch, d);
  }

  lemma ModuloDifference(a: nat, d: nat)
    ensures (a + d) % 0x100 == a % 0x100 <==> d % 0x100 == 0
  {
    var q := a / 0x100;
    var p := d / 0x100;
    assert a + d == (q + p) * 0x100 + (a % 0x100 + d % 0x100);
  }

  /* ---- Why transfers end and when frames go out, told from the record alone ---- */

  /** The PDU being sent. */
  function Current(r: Run): Option<seq<byte>> {
    if r.log != [] && r.log[|r.log| - 1].Accepted? then Some(r.log[|r.log| - 1].pdu) else None
  }

  /** The last ContinueToSend of a transfer, and how many frames had been handed over when it came. */
  datatype Grant = Grant(blockSize: byte, stMin: byte, at: nat)

  /** What the flow controls of the current transfer have said: waits in a row, and the last grant. */
  datatype Heard = Heard(waits: nat, grant: Option<Grant>)

  /** With `handed` frames of `pdu` handed over, a flow control is due: after a first frame, and after a full block that
      does not end the PDU. */
  predicate Due(pdu: seq<byte>, handed: nat, h: Heard) {
    && 7 < |pdu|
    && (h.grant.Some? ==>
          h.grant.value.blockSize != 0 && handed == h.grant.value.at + h.grant.value.blockSize && handed <= CfCount(pdu))
  }

  predicate FlowControlDue(r: Run, h: Heard) {
    Current(r).Some? && Due(Current(r).value, |r.handed|, h)
  }

  function Hearing(h: Heard, handed: nat, frame: Message): Heard {
    match DecodeFlowControl(frame)
    case Some((Wait, _, _)) => h.(waits := h.waits + 1)
    case Some((ContinueToSend, bs, st)) => Heard(0, Some(Grant(bs, st, handed)))
    case _ => h
  }

  function HeardAfter(r: Run, h: Heard, e: RunEvent): Heard {
    if Begins(r, e) then Heard(0, None)
    else if e.FlowControl? && FlowControlDue(r, h) then Hearing(h, |r.handed|, e.frame)
    else h
  }

  /** What has been heard in a run. */
  function HeardIn(r: Run, es: seq<RunEvent>): Heard
    requires After(r, es).Some?
    decreases |es|
  {
    if es == [] then Heard(0, None)
    else HeardAfter(After(r, es[..|es| - 1]).value, HeardIn(r, es[..|es| - 1]), es[|es| - 1])
  }

  /** A report of a frame of the current transfer. */
  predicate IsCurrent(r: Run, e: RunEvent) {
    e.Report? && e.of.epoch == r.epoch && Current(r).Some?
  }

  /** The success of the frame of the current transfer that the sender waits for. */
  predicate ClearsTheWay(r: Run, e: RunEvent) {
    IsCurrent(r, e) && e.success && !e.of.done.AwaitFcDone?
  }

  /** Why `e` ends the current transfer, if it does. */
  function Cause(r: Run, h: Heard, e: RunEvent): Option<Ending> {
    if Current(r).None? then None
    else
      match e
      case Submit(_) => None
      case FlowControl(frame) =>
        if !FlowControlDue(r, h) then None
        else
          (match DecodeFlowControl(frame)
           case None => Some(Failed(UnexpectedFrame))
           case Some((Overflow, _, _)) => Some(Failed(OverflowReported))
           case Some((Wait, _, _)) => if h.waits == 16 then Some(Failed(WaitLimitExceeded)) else None
           case Some((ContinueToSend, _, _)) => None)
      case Report(_, success) =>
        if IsCurrent(r, e) && !success then Some(Failed(SendFailed))
        else if ClearsTheWay(r, e) && |r.handed| == 1 + CfCount(Current(r).value) then Some(Finished)
        else None
      case NAs => Some(Failed(NAsTimeout))
      case NBs => Some(Failed(NBsTimeout))
      case StMin => None
      case Release => Some(Dropped)
  }

  /** Whether `e` lets the next frame of the current transfer go out at once. */
  predicate LetsNextOut(r: Run, h: Heard, e: RunEvent) {
    && Current(r).Some? && IsPdu(Current(r).value) && |r.handed| <= CfCount(Current(r).value)
    && match e
       case FlowControl(frame) =>
         var decoded := DecodeFlowControl(frame);
         FlowControlDue(r, h) && decoded.Some? && decoded.value.0 == ContinueToSend && StMinMicros(decoded.value.2) == 0
       case Report(_, _) =>
         ClearsTheWay(r, e) && h.grant.Some? && StMinMicros(h.grant.value.stMin) == 0
       case StMin => true
       case _ => false
  }

  /** A frame of the current transfer is with the lower layer, and nothing goes on before its report. */
  ghost predicate AwaitsReport(r: Run) {
    Current(r).Some? && exists p :: p in r.pending && p.epoch == r.epoch && !p.done.AwaitFcDone?
  }

  /** The parameters of a busy sender are those of the last grant, and zero before the first. */
  predicate GrantedAs(s: Sender, handed: nat, h: Heard) {
    match h.grant
    case None => s.blockSize == 0 && s.blocksRemaining == 0 && s.stMin == 0
    case Some(g) =>
      && g.at <= handed && s.blockSize == g.blockSize && s.stMin == g.stMin
      && (s.phase == SendingCf && g.blockSize != 0 && s.bytesSent < |s.pdu| ==> s.blocksRemaining == g.at + g.blockSize - handed)
  }

  /** The counters of a busy sender are what has been heard. */
  predicate Heeds(s: Sender, handed: nat, h: Heard) {
    s.phase != Idle ==>
      && s.waitCount == h.waits
      && (s.phase == WaitingForFc <==> Due(s.pdu, handed, h))
      && (s.phase == SendingCf ==> h.grant.Some?)
      && GrantedAs(s, handed, h)
  }

  predicate HeardOk(r: Run, h: Heard) {
    Heeds(r.s, |r.handed|, h)
  }

  lemma CurrentIs(r: Run)
    requires Inv(r)
    ensures Current(r) == if r.s.phase == Idle then None else Some(r.s.pdu)
    ensures r.s.phase != Idle ==>
              IsPdu(r.s.pdu) && |r.handed| == 1 + CfsSent(r.s) && (r.s.phase != SendingSf <==> SF_MAX_PAYLOAD < |r.s.pdu|)
    ensures r.s.phase == SendingSf ==> CfsSent(r.s) == CfCount(r.s.pdu) == 0
    ensures r.s.phase == WaitingForFc || r.s.phase == SendingCf ==>
              (CfsSent(r.s) < CfCount(r.s.pdu) <==> r.s.bytesSent < |r.s.pdu|)
  {
  }

  /** What one more consecutive frame does to the block. */
  lemma CfInBlock(s: Sender)
    requires Valid(s.(stMinTimer := true, nAs := false)) && s.phase == SendingCf && !s.stMinTimer && !s.nAs
    ensures var step := NextCf(s);
            && step.s.waitCount == s.waitCount && step.s.blockSize == s.blockSize && step.s.stMin == s.stMin
            && step.frame.Some? && step.notice.None?
            && (step.s.phase == WaitingForFc || step.s.phase == SendingCf)
            && (step.s.phase == WaitingForFc <==> s.blockSize != 0 && step.s.bytesSent < |s.pdu| && s.blocksRemaining == 1)
            && (s.blockSize != 0 && step.s.bytesSent < |s.pdu| ==> step.s.blocksRemaining == s.blocksRemaining - 1)
  {
  }

  lemma CfHeeds(s: Sender, handed: nat, h: Heard)
    requires Valid(s.(stMinTimer := true, nAs := false)) && s.phase == SendingCf && !s.stMinTimer && !s.nAs
    requires handed == 1 + CfsSent(s) && s.waitCount == h.waits && h.grant.Some? && GrantedAs(s, handed, h)
    ensures Heeds(NextCf(s).s, handed + 1, h)
  {
    NextCfKeepsValid(s);
    CfInBlock(s);
  }

  lemma ScheduleHeeds(s: Sender, handed: nat, h: Heard)
    requires Valid(s.(stMinTimer := true, nAs := false)) && s.phase == SendingCf && !s.stMinTimer && !s.nAs
    requires handed == 1 + CfsSent(s) && s.waitCount == h.waits && h.grant.Some? && GrantedAs(s, handed, h)
    ensures var step := ScheduleCf(s);
            Heeds(step.s, if step.frame.Some? then handed + 1 else handed, h)
  {
    CfHeeds(s, handed, h);
  }

  lemma FlowControlHeeds(s: Sender, handed: nat, h: Heard, frame: Message)
    requires Valid(s) && Heeds(s, handed, h) && (s.phase != Idle ==> handed == 1 + CfsSent(s))
    ensures var step := OnFlowControl(s, frame);
            Heeds(step.s, if step.frame.Some? then handed + 1 else handed,
                  if s.phase == WaitingForFc then Hearing(h, handed, frame) else h)
  {
    if s.phase == WaitingForFc {
      match DecodeFlowControl(frame) {
        case Some((ContinueToSend, bs, st)) => ScheduleHeeds(Granted(s, bs, st), handed, Hearing(h, handed, frame));
        case _ =>
      }
    }
  }

  lemma ReportHeeds(s: Sender, handed: nat, h: Heard, done: FrameDone, success: bool)
    requires Valid(s) && Legitimate(s, FrameReport(done, success))
    requires Heeds(s, handed, h) && (s.phase != Idle ==> handed == 1 + CfsSent(s))
    ensures var step := OnFrameReport(s, done, success);
            Heeds(step.s, if step.frame.Some? then handed + 1 else handed, h)
  {
    if done.transfer == s.transfer && done.ConsecutiveDone? && success && !done.allSent {
      ScheduleHeeds(s.(nAs := false), handed, h);
    }
  }

  lemma EventHeeds(s: Sender, handed: nat, h: Heard, e: Event)
    requires Valid(s) && CanHappen(s, e) && Legitimate(s, e) && !(e.Send? && Accepts(s, e.pdu)) && !e.FlowControlArrives?
    requires Heeds(s, handed, h) && (s.phase != Idle ==> handed == 1 + CfsSent(s))
    ensures Heeds(React(s, e).s, if React(s, e).frame.Some? then handed + 1 else handed, h)
  {
    match e {
      case FrameReport(done, success) => ReportHeeds(s, handed, h, done, success);
      case StMinExpires => CfHeeds(s.(stMinTimer := false), handed, h);
      case _ =>
    }
  }

  lemma BegunHeard(r: Run, h: Heard, e: RunEvent)
    requires Inv(r) && Enabled(r, e) && Begins(r, e)
    ensures HeardOk(Next(r, e), HeardAfter(r, h, e))
  {
  }

  lemma WentOnHeard(r: Run, e: RunEvent, step: Step, h: Heard)
    requires !Begins(r, e) && Heeds(step.s, if step.frame.Some? then |r.handed| + 1 else |r.handed|, h)
    ensures HeardOk(NextBy(r, e, step), h)
  {
  }

  lemma StepHeard(r: Run, h: Heard, e: RunEvent)
    requires Inv(r) && HeardOk(r, h) && Enabled(r, e)
    ensures HeardOk(Next(r, e), HeardAfter(r, h, e))
  {
    if Begins(r, e) {
      BegunHeard(r, h, e);
    } else {
      CurrentIs(r);
      if e.FlowControl? {
        FlowControlHeeds(r.s, |r.handed|, h, e.frame);
      } else {
        EnabledIsLegitimate(r, e);
        EventHeeds(r.s, |r.handed|, h, MachineEvent(e));
      }
      WentOnHeard(r, e, React(r.s, MachineEvent(e)), HeardAfter(r, h, e));
    }
  }

  /** A step ends the transfer, or hands over its next frame, exactly when that is due. */
  predicate IsDue(r: Run, h: Heard, e: RunEvent, step: Step) {
    if Begins(r, e) then step.notice.None? && step.frame.Some?
    else EndingOf(r, e, step) == Cause(r, h, e) && (step.frame.Some? <==> LetsNextOut(r, h, e))
  }

  lemma FlowControlIsDue(r: Run, h: Heard, frame: Message)
    requires Inv(r) && HeardOk(r, h)
    ensures IsDue(r, h, RunEvent.FlowControl(frame), OnFlowControl(r.s, frame))
  {
    CurrentIs(r);
  }

  lemma ReportIsDue(r: Run, h: Heard, p: Pending, success: bool)
    requires Inv(r) && HeardOk(r, h) && Enabled(r, Report(p, success))
    ensures IsDue(r, h, Report(p, success), OnFrameReport(r.s, p.done, success))
  {
    CurrentIs(r);
    TokenTellsTransfersApart(r, p);
  }

  lemma StepIsDue(r: Run, h: Heard, e: RunEvent)
    requires Inv(r) && HeardOk(r, h) && Enabled(r, e)
    ensures IsDue(r, h, e, React(r.s, MachineEvent(e)))
  {
    CurrentIs(r);
    match e {
      case FlowControl(frame) => FlowControlIsDue(r, h, frame);
      case Report(p, success) => ReportIsDue(r, h, p, success);
      case _ =>
    }
  }

  lemma {:induction false} RunHeard(capacity: nat, es: seq<RunEvent>)
    requires After(Initial(capacity), es).Some?
    ensures var r := After(Initial(capacity), es).value;
            Inv(r) && r.s.capacity == capacity && HeardOk(r, HeardIn(Initial(capacity), es))
  {
    EveryRunIsSound(capacity, es);
    if es != [] {
      var before, e := es[..|es| - 1], es[|es| - 1];
      RunHeard(capacity, before);
      StepHeard(After(Initial(capacity), before).value, HeardIn(Initial(capacity), before), e);
      CapacityStays(After(Initial(capacity), before).value.s, MachineEvent(e));
    }
  }

  lemma CapacityStays(s: Sender, e: Event)
    requires s.bytesSent <= |s.pdu| && CanHappen(s, e)
    ensures React(s, e).s.capacity == s.capacity
  {
  }

  /** From `r` to `r'`: a PDU that an idle sender has room for begins a transfer, a cause ends it with that cause, and the
      next frame goes out exactly when something lets it. */
  predicate DidWhatIsDue(r: Run, h: Heard, e: RunEvent, r': Run) {
    var begins := e.Submit? && Current(r).None? && 1 <= |e.pdu| <= Min(4095, r.s.capacity);
    var cause := Cause(r, h, e);
    && r'.log == r.log + (if begins then [Accepted(e.pdu)] else if cause.Some? then [Ended(cause.value, r.handed)] else [])
    && r'.handed == (if begins then [FrameAt(e.pdu, 0)]
                     else if LetsNextOut(r, h, e) then r.handed + [FrameAt(Current(r).value, |r.handed|)]
                     else r.handed)
    && r'.epoch == r.epoch + (if begins || cause.Some? || e.Release? then 1 else 0)
  }

  lemma StepDoesWhatIsDue(r: Run, h: Heard, e: RunEvent)
    requires Inv(r) && HeardOk(r, h) && Enabled(r, e)
    ensures DidWhatIsDue(r, h, e, Next(r, e))
  {
    var step := React(r.s, MachineEvent(e));
    CurrentIs(r);
    EnabledIsLegitimate(r, e);
    StepIsDue(r, h, e);
    ReactFrameEffect(r.s, MachineEvent(e));
    ReactTokenEffect(r.s, MachineEvent(e));
    if Begins(r, e) { BeginningIsDone(r, h, e, step); } else { GoingOnIsDone(r, h, e, step); }
  }

  lemma BeginningIsDone(r: Run, h: Heard, e: RunEvent, step: Step)
    requires IsDue(r, h, e, step) && Begins(r, e)
    requires FrameEffect(r.s, MachineEvent(e), step) && TokenEffect(r.s, MachineEvent(e), step)
    requires Current(r) == if r.s.phase == Idle then None else Some(r.s.pdu)
    ensures DidWhatIsDue(r, h, e, NextBy(r, e, step))
  {
  }

  lemma GoingOnIsDone(r: Run, h: Heard, e: RunEvent, step: Step)
    requires IsDue(r, h, e, step) && !Begins(r, e)
    requires FrameEffect(r.s, MachineEvent(e), step) && TokenEffect(r.s, MachineEvent(e), step)
    requires Current(r) == if r.s.phase == Idle then None else Some(r.s.pdu)
    requires r.s.phase != Idle ==> |r.handed| == 1 + CfsSent(r.s)
    ensures DidWhatIsDue(r, h, e, NextBy(r, e, step))
  {
  }

  /** In every run, each step does to the transfer exactly what is due. */
  lemma EveryStepIsDue(capacity: nat, es: seq<RunEvent>, e: RunEvent)
    requires After(Initial(capacity), es).Some? && Enabled(After(Initial(capacity), es).value, e)
    ensures var r := After(Initial(capacity), es).value;
            r.s.capacity == capacity && DidWhatIsDue(r, HeardIn(Initial(capacity), es), e, Next(r, e))
  {
    RunHeard(capacity, es);
    StepDoesWhatIsDue(After(Initial(capacity), es).value, HeardIn(Initial(capacity), es), e);
  }

  lemma NAsIs(r: Run)
    requires Inv(r)
    ensures r.s.nAs <==> AwaitsReport(r)
  {
    CurrentIs(r);
    if r.s.nAs {
      assert Pending(WatchedReport(r.s), r.epoch) in r.pending;
    }
  }

  /** A timer can fire exactly for what the sender is waiting for: N_As for the report of a frame, N_Bs for a flow control,
      and the separation timer once a granted transfer waits for neither. */
  ghost predicate TimersFit(r: Run, h: Heard) {
    && (Enabled(r, NAs) <==> AwaitsReport(r))
    && (Enabled(r, NBs) <==> FlowControlDue(r, h))
    && (Enabled(r, StMin) <==> Current(r).Some? && !AwaitsReport(r) && !FlowControlDue(r, h))
  }

  lemma TimersFollow(r: Run, h: Heard)
    requires Inv(r) && HeardOk(r, h)
    ensures TimersFit(r, h)
  {
    NAsIs(r);
    CurrentIs(r);
  }

  lemma TimersAreDue(capacity: nat, es: seq<RunEvent>)
    requires After(Initial(capacity), es).Some?
    ensures TimersFit(After(Initial(capacity), es).value, HeardIn(Initial(capacity), es))
  {
    RunHeard(capacity, es);
    TimersFollow(After(Initial(capacity), es).value, HeardIn(Initial(capacity), es));
  }

  /** A frame that the lower layer refuses ends its transfer before the call returns, as a failed send: never as done. */
  lemma RefusedFrameAborts(s: Sender, e: Event)
    requires Valid(s) && CanHappen(s, e) && Legitimate(s, e) && React(s, e).frame.Some?
    ensures Valid(React(s, e).s)
    ensures var step, settled := React(s, e), Settle(React(s, e), false);
            && settled.notice == Some(Aborted(SendFailed)) && settled.frame.None?
            && settled.s.phase == Idle && ArmedTimers(settled.s) == 0
            && settled.s.transfer == Next8(step.s.transfer)
  {
    ReactKeepsValid(s, e);
    ReactTokenEffect(s, e);
    RefusedAborts(React(s, e));
  }

  lemma RefusedAborts(step: Step)
    requires Valid(step.s) && step.frame.Some? && step.frame.value.onDone.transfer == step.s.transfer
    ensures var settled := Settle(step, false);
            && settled.notice == Some(Aborted(SendFailed)) && settled.frame.None?
            && settled.s.phase == Idle && ArmedTimers(settled.s) == 0
            && settled.s.transfer == Next8(step.s.transfer)
  {
  }

  /* ---- How long a transfer can last ---- */

  /** `es` lies within one transfer of `r`: the sender is busy before each of its events. */
  predicate WithinTransfer(r: Run, es: seq<RunEvent>) {
    && After(r, es).Some?
    && (forall i {:trigger es[..i]} :: 0 <= i < |es| ==> After(r, es[..i]).Some? && After(r, es[..i]).value.s.phase != Idle)
  }

  /** How many of the events changed the sender. */
  function Changes(r: Run, es: seq<RunEvent>): nat
    requires After(r, es).Some?
    decreases |es|
  {
    if es == [] then 0
    else
      var before := es[..|es| - 1];
      Changes(r, before) + if After(r, es).value.s == After(r, before).value.s then 0 else 1
  }

  lemma {:induction false} ChangesAreBounded(r: Run, es: seq<RunEvent>)
    requires Inv(r) && WithinTransfer(r, es)
    ensures Inv(After(r, es).value)
    ensures Changes(r, es) + Rank(After(r, es).value.s) <= Rank(r.s)
    decreases |es|
  {
    if es != [] {
      var before := es[..|es| - 1];
      forall i {:trigger before[..i]} | 0 <= i < |before|
        ensures After(r, before[..i]).Some? && After(r, before[..i]).value.s.phase != Idle
      {
        assert before[..i] == es[..i];
      }
      ChangesAreBounded(r, before);
      var b := After(r, before).value;
      var e := es[|es| - 1];
      NextKeepsInv(b, e);
      EnabledIsLegitimate(b, e);
      ReactDescends(b.s, MachineEvent(e));
    }
  }

  /** A transfer of N consecutive frames changes state at most (N_WFTmax + 2) * N + N_WFTmax + 1 times,
      whatever flow controls, reports and expiries it meets. */
  lemma TransferIsBounded(r: Run, pdu: seq<byte>, es: seq<RunEvent>)
    requires Inv(r) && Begins(r, Submit(pdu))
    requires WithinTransfer(Next(r, Submit(pdu)), es)
    ensures Changes(Next(r, Submit(pdu)), es) <= (NWFT_MAX + 2) * CfCount(pdu) + NWFT_MAX + 1
  {
    NextKeepsInv(r, Submit(pdu));
    ChangesAreBounded(Next(r, Submit(pdu)), es);
  }

  /** The event of the one armed timer of a busy sender. */
  function Expiry(s: Sender): Event {
    if s.nAs then NAsExpires else if s.nBs then NBsExpires else StMinExpires
  }

  /** A sender left alone is never stuck: two expiries end any transfer. */
  lemma TimersAloneEndTransfer(s: Sender)
    requires Valid(s) && s.phase != Idle
    ensures CanHappen(s, Expiry(s))
    ensures var s1 := React(s, Expiry(s)).s;
      && Valid(s1)
      && (s1.phase != Idle ==> CanHappen(s1, Expiry(s1)) && React(s1, Expiry(s1)).s.phase == Idle)
  {
    ReactKeepsValid(s, Expiry(s));
    if s.stMinTimer {
      NextCfKeepsValid(s.(stMinTimer := false));
    }
  }
}
