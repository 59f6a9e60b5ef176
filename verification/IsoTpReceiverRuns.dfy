/**
 Runs of one receiver fed arbitrary frames, timeouts, reports and resets.
 */
module IsoTpReceiverRuns {
  import opened CanTypes
  import opened IsoTpCodec
  import opened IsoTpReceiver

  datatype PendingFc = PendingFc(done: FcDone, epoch: nat)

  /** `epoch` is the reception token without its 8-bit wrap; `frames`, `delivered` and `aborted` record the run,
      and `rec` the reception in progress. */
  datatype Run = Run(r: Receiver, rec: Reception, epoch: nat, pending: multiset<PendingFc>,
                     frames: seq<Message>, delivered: seq<seq<byte>>, aborted: seq<AbortReason>)

  datatype RunEvent = Arrive(frame: Message) | NCr | Report(of: PendingFc, success: bool) | Release

  function MachineEvent(e: RunEvent): Event {
    match e
    case Arrive(frame) => FrameArrives(frame)
    case NCr => NCrExpires
    case Report(p, success) => FcReport(p.done, success)
    case Release => Reset
  }

  ghost predicate Enabled(r: Run, e: RunEvent) {
    && Represents(r.r, r.rec)
    && CanHappen(r.r, MachineEvent(e))
    && (e.Report? ==> e.of in r.pending && r.epoch - e.of.epoch < 0x100)
  }

  /** How many receptions have begun or ended since the token was `from`, if fewer than 256. */
  function Bumps(from: byte, to: byte): nat {
    (to - from) % 0x100
  }

  /** The run after `e`, when the receiver answers `e` with `step` and `rec` is then in progress. */
  function NextBy(r: Run, e: RunEvent, step: Step, rec: Reception): Run {
    var held := if e.Report? then r.pending - multiset{e.of} else r.pending;
    var done := DeliveredBy(step.notices);
    Run(step.r, rec,
        r.epoch + Bumps(r.r.reception, step.r.reception),
        if step.fc.Some? then
          held + multiset{PendingFc(step.fc.value.onDone, r.epoch + Bumps(r.r.reception, step.fc.value.onDone.reception))}
        else held,
        if e.Arrive? then r.frames + [e.frame] else r.frames,
        if done.Some? then r.delivered + [done.value] else r.delivered,
        r.aborted + Reasons(step.notices))
  }

  function Reasons(notices: seq<Notice>): seq<AbortReason> {
    if notices == [] then []
    else Reasons(notices[..|notices| - 1]) + if notices[|notices| - 1].Aborted? then [notices[|notices| - 1].reason] else []
  }

  ghost function Next(r: Run, e: RunEvent): Run
    requires Enabled(r, e)
  {
    NextBy(r, e, React(r.r, MachineEvent(e)), AnswerTo(r.rec, r.r, MachineEvent(e)).rec)
  }

  ghost function After(r: Run, es: seq<RunEvent>): Option<Run>
    decreases |es|
  {
    if es == [] then Some(r)
    else
      var before := After(r, es[..|es| - 1]);
      if before.Some? && Enabled(before.value, es[|es| - 1]) then Some(Next(before.value, es[|es| - 1])) else None
  }

  function Initial(capacity: nat, blockSize: byte, separationTime: byte): Run {
    Run(Receiver(false, [], capacity, 0, 1, 0, blockSize, separationTime, 0, false), NoReception, 0, multiset{}, [], [], [])
  }

  /** `pdu` is what `frames` carry: one single frame, or a first frame and in-order consecutive frames
      cut off at the announced length. */
  ghost predicate Carries(frames: seq<Message>, pdu: seq<byte>) {
    || (|frames| == 1 && UsableSingle(frames[0]) && pdu == frames[0][1..1 + DecodeSingleFrameLength(frames[0])])
    || (&& |frames| > 1 && UsableFirst(frames[0])
        && (forall i :: 1 <= i < |frames| ==>
              DecodeFrameType(frames[i]) == ConsecutiveFrame && DecodeConsecutiveFrameSn(frames[i]) == i % 0x10)
        && (forall i :: 1 <= i < |frames| - 1 ==> |frames[i]| == 8)
        && |pdu| == DecodeFirstFrameTotalLength(frames[0])
        && pdu <= Collected(frames[0], frames[1..]))
  }

  ghost predicate Received(pdu: seq<byte>, frames: seq<Message>) {
    exists used: seq<Message> :: IsSubsequence(used, frames) && Carries(used, pdu)
  }

  ghost predicate Inv(r: Run) {
    && Represents(r.r, r.rec)
    && HistoryOk(r)
    && TokensOk(r)
  }

  ghost predicate HistoryOk(r: Run) {
    && (r.rec.Ongoing? ==> IsSubsequence([r.rec.ff] + r.rec.cfs, r.frames))
    && (forall i :: 0 <= i < |r.delivered| ==> |r.delivered[i]| <= r.r.capacity && Received(r.delivered[i], r.frames))
  }

  predicate Stamped(pending: multiset<PendingFc>, epoch: nat) {
    forall p :: p in pending ==> p.epoch <= epoch && p.done.reception == p.epoch % 0x100
  }

  predicate TokensOk(r: Run) {
    r.r.reception == r.epoch % 0x100 && Stamped(r.pending, r.epoch)
  }

  lemma ReceivedLater(pdu: seq<byte>, frames: seq<Message>, frame: Message)
    requires Received(pdu, frames)
    ensures Received(pdu, frames + [frame])
  {
    var used :| IsSubsequence(used, frames) && Carries(used, pdu);
    SubsequenceAppend(used, frames, frame);
  }

  lemma {:induction false} EmptyIsSubsequence(frames: seq<Message>)
    ensures IsSubsequence([], frames)
  {
  }

  lemma SingleIsSubsequence(frames: seq<Message>, frame: Message)
    ensures IsSubsequence([frame], frames + [frame])
  {
    EmptyIsSubsequence(frames);
    SubsequenceExtend([], frames, frame);
    assert [] + [frame] == [frame];
  }

  /** A frame that completes a reception completes exactly what the accepted frames carry. */
  lemma CompletionIsCarried(rec: Reception, capacity: nat, blockSize: byte, frame: Message)
    requires WellFormed(rec, capacity) && rec.Ongoing? && DecodeFrameType(frame) == ConsecutiveFrame
    requires AnswerConsecutive(rec, blockSize, frame).pdu.Some?
    ensures Carries([rec.ff] + rec.cfs + [frame], AnswerConsecutive(rec, blockSize, frame).pdu.value)
    ensures |AnswerConsecutive(rec, blockSize, frame).pdu.value| <= capacity
  {
    var used := [rec.ff] + rec.cfs + [frame];
    var total := DecodeFirstFrameTotalLength(rec.ff);
    assert used[1..] == rec.cfs + [frame];
    CfDataAppend(rec.cfs, frame);
    CfDataLength(rec.cfs);
    forall i | 1 <= i < |used|
      ensures DecodeFrameType(used[i]) == ConsecutiveFrame && DecodeConsecutiveFrameSn(used[i]) == i % 0x10
    {
      if i < |used| - 1 { assert used[i] == rec.cfs[i - 1]; }
    }
  }

  lemma {:induction false} CfDataLength(cfs: seq<Message>)
    requires forall i :: 0 <= i < |cfs| ==> |cfs[i]| == 8
    ensures |CfData(cfs)| == CF_MAX_DATA * |cfs|
  {
    if cfs != [] {
      CfDataLength(cfs[..|cfs| - 1]);
    }
  }

  lemma ConsecutiveKeepsHistory(rec: Reception, capacity: nat, blockSize: byte, frames: seq<Message>, frame: Message)
    requires WellFormed(rec, capacity) && rec.Ongoing? && IsSubsequence([rec.ff] + rec.cfs, frames)
    requires DecodeFrameType(frame) == ConsecutiveFrame
    ensures var answer := AnswerConsecutive(rec, blockSize, frame);
            && (answer.rec.Ongoing? ==> IsSubsequence([answer.rec.ff] + answer.rec.cfs, frames + [frame]))
            && (answer.pdu.Some? ==> |answer.pdu.value| <= capacity && Received(answer.pdu.value, frames + [frame]))
  {
    var used := [rec.ff] + rec.cfs;
    SubsequenceAppend(used, frames, frame);
    SubsequenceExtend(used, frames, frame);
    assert [rec.ff] + (rec.cfs + [frame]) == used + [frame];
    if AnswerConsecutive(rec, blockSize, frame).pdu.Some? {
      CompletionIsCarried(rec, capacity, blockSize, frame);
    }
  }

  /** Frames of the reception in progress and completed PDUs both come out of the frames that arrived. */
  lemma ArrivalKeepsHistory(r: Run, frame: Message)
    requires Inv(r)
    ensures var answer := AnswerFrame(r.rec, r.r.capacity, r.r.blockSize, frame);
            && (answer.rec.Ongoing? ==> IsSubsequence([answer.rec.ff] + answer.rec.cfs, r.frames + [frame]))
            && (answer.pdu.Some? ==> |answer.pdu.value| <= r.r.capacity && Received(answer.pdu.value, r.frames + [frame]))
  {
    if UsableSingle(frame) {
      SingleIsSubsequence(r.frames, frame);
      assert Carries([frame], frame[1..1 + DecodeSingleFrameLength(frame)]);
    } else if UsableFirst(frame) {
      SingleIsSubsequence(r.frames, frame);
      assert [frame] + [] == [frame];
    } else if r.rec.Ongoing? {
      if DecodeFrameType(frame) == ConsecutiveFrame {
        ConsecutiveKeepsHistory(r.rec, r.r.capacity, r.r.blockSize, r.frames, frame);
      } else {
        SubsequenceAppend([r.rec.ff] + r.rec.cfs, r.frames, frame);
      }
    }
  }

  predicate TokenMoves(t: byte, step: Step) {
    && (step.r.reception == t || step.r.reception == Next8(t) || step.r.reception == Next8(Next8(t)))
    && (step.fc.Some? ==>
          var own := step.fc.value.onDone.reception;
          || own == step.r.reception
          || (own == t && step.r.reception == Next8(t))
          || (own == Next8(t) && step.r.reception == Next8(Next8(t))))
  }

  /** Each step begins or ends at most two receptions, and its flow control belongs to one of them. */
  lemma ReactMovesToken(r: Receiver, rec: Reception, e: Event)
    requires Represents(r, rec) && CanHappen(r, e)
    ensures TokenMoves(r.reception, React(r, e))
  {
    match e {
      case FrameArrives(frame) =>
        if UsableSingle(frame) {
        } else if UsableFirst(frame) {
        } else if DecodeFrameType(frame) == ConsecutiveFrame && r.receiving {
          ConsecutiveKeepsToken(r, frame);
        }
      case _ =>
    }
  }

  lemma ConsecutiveKeepsToken(r: Receiver, frame: Message)
    requires frame != [] && |r.buffer| <= r.expectedTotal
    ensures var step := OnConsecutive(r, frame);
            && step.r.reception in [r.reception, Next8(r.reception)]
            && (step.fc.Some? ==> step.fc.value.onDone.reception == step.r.reception)
  {
  }

  /** The epochs a step leads to and gives its flow control. */
  lemma EpochsAfter(t: byte, step: Step, epoch: nat) returns (next: nat, own: nat)
    requires t == epoch % 0x100 && TokenMoves(t, step)
    ensures next == epoch + Bumps(t, step.r.reception) >= epoch && step.r.reception == next % 0x100
    ensures step.fc.Some? ==>
              var token := step.fc.value.onDone.reception;
              own == epoch + Bumps(t, token) <= next && token == own % 0x100
  {
    next, own := epoch + Bumps(t, step.r.reception), epoch;
    ShiftedToken(t, step.r.reception, epoch);
    if step.fc.Some? {
      own := epoch + Bumps(t, step.fc.value.onDone.reception);
      ShiftedToken(t, step.fc.value.onDone.reception, epoch);
      FcNotAhead(t, step);
    }
  }

  /** The step's part of the books, whatever its epochs are. */
  lemma PendingNext(r: Run, e: RunEvent, step: Step, rec: Reception, held: multiset<PendingFc>, next: nat, own: nat)
    requires held == if e.Report? then r.pending - multiset{e.of} else r.pending
    requires next == r.epoch + Bumps(r.r.reception, step.r.reception)
    requires step.fc.Some? ==> own == r.epoch + Bumps(r.r.reception, step.fc.value.onDone.reception)
    ensures var r' := NextBy(r, e, step, rec);
            && r'.r == step.r && r'.epoch == next
            && r'.pending == if step.fc.Some? then held + multiset{PendingFc(step.fc.value.onDone, own)} else held
  {
  }

  lemma StampsFollow(before: multiset<PendingFc>, epoch: nat, held: multiset<PendingFc>, joins: Option<PendingFc>, next: nat)
    requires Stamped(before, epoch) && held <= before && epoch <= next
    requires joins.Some? ==> joins.value.epoch <= next && joins.value.done.reception == joins.value.epoch % 0x100
    ensures Stamped(if joins.Some? then held + multiset{joins.value} else held, next)
  {
    StampedLater(before, held, epoch, next);
  }

  lemma TokensAfter(r: Run, e: RunEvent, step: Step, rec: Reception)
    requires TokensOk(r)
    requires TokenMoves(r.r.reception, step)
    ensures TokensOk(NextBy(r, e, step, rec))
  {
    var held := if e.Report? then r.pending - multiset{e.of} else r.pending;
    var next, own := EpochsAfter(r.r.reception, step, r.epoch);
    var joins := if step.fc.Some? then Some(PendingFc(step.fc.value.onDone, own)) else None;
    StampsFollow(r.pending, r.epoch, held, joins, next);
    PendingNext(r, e, step, rec, held, next, own);
    TokensOfParts(NextBy(r, e, step, rec), next, if joins.Some? then held + multiset{joins.value} else held);
  }

  lemma TokensOfParts(r: Run, epoch: nat, pending: multiset<PendingFc>)
    requires r.epoch == epoch && r.pending == pending && r.r.reception == epoch % 0x100 && Stamped(pending, epoch)
    ensures TokensOk(r)
  {
  }

  lemma StampedLater(pending: multiset<PendingFc>, held: multiset<PendingFc>, epoch: nat, later: nat)
    requires Stamped(pending, epoch) && held <= pending && epoch <= later
    ensures Stamped(held, later)
  {
    forall p | p in held
      ensures p.epoch <= later && p.done.reception == p.epoch % 0x100
    {
      assert p in pending;
    }
  }

  /** The flow control of a step belongs to an epoch no later than the one after the step. */
  lemma FcNotAhead(t: byte, step: Step)
    requires TokenMoves(t, step) && step.fc.Some?
    ensures Bumps(t, step.fc.value.onDone.reception) <= Bumps(t, step.r.reception)
  {
    SmallBumps(t);
  }

  lemma SmallBumps(t: byte)
    ensures Bumps(t, t) == 0 && Bumps(t, Next8(t)) == 1 && Bumps(t, Next8(Next8(t))) == 2
  {
    BumpsOf(t, t, 0);
    BumpsOf(t, Next8(t), 1);
    assert Next8(t) == if t == 0xFF then 0 else t + 1;
    BumpsOf(t, Next8(Next8(t)), 2);
  }

  lemma BumpsOf(from: byte, to: byte, n: byte)
    requires to == from + n || to == from + n - 0x100
    ensures Bumps(from, to) == n
  {
  }

  lemma ShiftedToken(from: byte, to: byte, epoch: nat)
    requires from == epoch % 0x100
    ensures (epoch + Bumps(from, to)) % 0x100 == to
  {
  }

  lemma InvAfter(r: Run, e: RunEvent, step: Step, answer: Answer)
    requires Inv(r) && Represents(step.r, answer.rec) && TokenMoves(r.r.reception, step)
    requires DeliveredBy(step.notices) == answer.pdu && step.r.capacity == r.r.capacity
    requires e.Arrive? ==> answer == AnswerFrame(r.rec, r.r.capacity, r.r.blockSize, e.frame)
    requires !e.Arrive? ==> answer.pdu.None? && (answer.rec == r.rec || answer.rec == NoReception)
    ensures Inv(NextBy(r, e, step, answer.rec))
  {
    TokensAfter(r, e, step, answer.rec);
    HistoryAfter(r, e, step, answer);
  }

  lemma NextKeepsInv(r: Run, e: RunEvent)
    requires Inv(r) && Enabled(r, e)
    ensures Inv(Next(r, e))
  {
    var m := MachineEvent(e);
    ReactRefines(r.r, r.rec, m);
    ReactMovesToken(r.r, r.rec, m);
    ReceiverKeepsParameters(r.r, m);
    InvAfter(r, e, React(r.r, m), AnswerTo(r.rec, r.r, m));
  }

  lemma DeliveriesGrow(frames: seq<Message>, frame: Message, delivered: seq<seq<byte>>, capacity: nat)
    requires forall i :: 0 <= i < |delivered| ==> |delivered[i]| <= capacity && Received(delivered[i], frames)
    ensures forall i :: 0 <= i < |delivered| ==> |delivered[i]| <= capacity && Received(delivered[i], frames + [frame])
  {
    forall i | 0 <= i < |delivered|
      ensures Received(delivered[i], frames + [frame])
    {
      ReceivedLater(delivered[i], frames, frame);
    }
  }

  lemma HistoryAfter(r: Run, e: RunEvent, step: Step, answer: Answer)
    requires Inv(r)
    requires DeliveredBy(step.notices) == answer.pdu && step.r.capacity == r.r.capacity
    requires e.Arrive? ==> answer == AnswerFrame(r.rec, r.r.capacity, r.r.blockSize, e.frame)
    requires !e.Arrive? ==> answer.pdu.None? && (answer.rec == r.rec || answer.rec == NoReception)
    ensures HistoryOk(NextBy(r, e, step, answer.rec))
  {
    if e.Arrive? {
      ArrivalKeepsHistory(r, e.frame);
      DeliveriesGrow(r.frames, e.frame, r.delivered, r.r.capacity);
    }
  }

  /** On any stream of frames, timeouts, reports and resets: the counters always describe a reception made of frames
      that arrived, and every PDU delivered is carried by frames that arrived, in order. */
  lemma {:induction false} EveryRunIsSound(capacity: nat, blockSize: byte, separationTime: byte, es: seq<RunEvent>)
    requires After(Initial(capacity, blockSize, separationTime), es).Some?
    ensures Inv(After(Initial(capacity, blockSize, separationTime), es).value)
  {
    if es != [] {
      EveryRunIsSound(capacity, blockSize, separationTime, es[..|es| - 1]);
      NextKeepsInv(After(Initial(capacity, blockSize, separationTime), es[..|es| - 1]).value, es[|es| - 1]);
    }
  }

  /* ---- Why receptions end ---- */

  lemma {:induction false} ReasonsOfAborts(reasons: seq<AbortReason>, pdu: Option<seq<byte>>)
    ensures Reasons(AbortNotices(reasons) + if pdu.Some? then [Delivered(pdu.value)] else []) == reasons
    decreases |reasons|, if pdu.Some? then 1 else 0
  {
    var notices := AbortNotices(reasons);
    if pdu.Some? {
      assert (notices + [Delivered(pdu.value)])[..|notices|] == notices;
      ReasonsOfAborts(reasons, None);
    } else if reasons != [] {
      assert notices[..|notices| - 1] == AbortNotices(reasons[..|reasons| - 1]);
      assert AbortNotices(reasons[..|reasons| - 1]) + [] == AbortNotices(reasons[..|reasons| - 1]);
      ReasonsOfAborts(reasons[..|reasons| - 1], None);
    }
    assert notices + [] == notices;
  }

  /** Why an event ends receptions, told from the frames of the one in progress; a report counts for the reception whose
      flow control it is about. */
  ghost function DueAborts(r: Run, e: RunEvent): seq<AbortReason>
    requires Enabled(r, e)
  {
    match e
    case Arrive(frame) => AbortsByFrame(r.rec, r.r.capacity, frame)
    case NCr => [NCrTimeout]
    case Report(p, success) =>
      if !success && p.done.status == ContinueToSend && p.epoch == r.epoch && r.rec.Ongoing? then [SendFailed] else []
    case Release => []
  }

  /** In any run, the reasons told are those due, and a reception that is not replaced or completed goes on otherwise. */
  lemma EveryAbortIsDue(r: Run, e: RunEvent)
    requires Inv(r) && Enabled(r, e)
    ensures Next(r, e).aborted == r.aborted + DueAborts(r, e)
    ensures e.NCr? || e.Release? ==> Next(r, e).rec == NoReception
    ensures e.Report? ==> Next(r, e).rec == (if DueAborts(r, e) == [] then r.rec else NoReception)
  {
    var m := MachineEvent(e);
    EveryAbortHasItsReason(r.r, r.rec, m);
    ReasonsOfAborts(DueAborts(r, e), AnswerTo(r.rec, r.r, m).pdu);
    EpochsDecide(r, e);
  }

  /** The token of a report belongs to the current reception exactly if its epoch does. */
  lemma EpochsDecide(r: Run, e: RunEvent)
    requires Inv(r) && Enabled(r, e)
    ensures AbortsBy(r.rec, r.r.capacity, r.r.reception, MachineEvent(e)) == DueAborts(r, e)
  {
    if e.Report? && e.of.epoch < r.epoch {
      DistinctWithin256(e.of.epoch, r.epoch);
    }
  }

  /** The epoch moves once for every reception that is given up or reset, and once for every one that begins. */
  lemma EpochsCount(r: Run, e: RunEvent)
    requires Inv(r) && Enabled(r, e)
    ensures var begins := e.Arrive? && UsableFirst(e.frame) && DecodeFirstFrameTotalLength(e.frame) <= r.r.capacity;
            Next(r, e).epoch == r.epoch + |DueAborts(r, e)| + (if e.Release? then 1 else 0) + (if begins then 1 else 0)
  {
    EpochsDecide(r, e);
    TokenCounts(r.r, r.rec, MachineEvent(e));
    SmallBumps(r.r.reception);
  }

  lemma TokenCounts(r: Receiver, rec: Reception, e: Event)
    requires Represents(r, rec) && CanHappen(r, e)
    ensures var begins := e.FrameArrives? && UsableFirst(e.frame) && DecodeFirstFrameTotalLength(e.frame) <= r.capacity;
            var n := |AbortsBy(rec, r.capacity, r.reception, e)| + (if e.Reset? then 1 else 0) + (if begins then 1 else 0);
            && n <= 2
            && React(r, e).r.reception == if n == 0 then r.reception else if n == 1 then Next8(r.reception) else Next8(Next8(r.reception))
  {
    if e.FrameArrives? && DecodeFrameType(e.frame) == ConsecutiveFrame && r.receiving {
      ConsecutiveToken(r, rec, e.frame);
    }
  }

  lemma ConsecutiveToken(r: Receiver, rec: Reception, frame: Message)
    requires Represents(r, rec) && r.receiving && DecodeFrameType(frame) == ConsecutiveFrame
    ensures OnConsecutive(r, frame).r.reception == if AbortsByFrame(rec, r.capacity, frame) == [] then r.reception else Next8(r.reception)
  {
    assert |r.buffer| == FF_FIRST_DATA + CF_MAX_DATA * |rec.cfs|;
  }

  /** Every reception is of an epoch of its own, later than that of every flow control handed over before, and its
      ContinueToSend is of that epoch. */
  lemma ReceptionsDiffer(r: Run, frame: Message)
    requires Inv(r) && Enabled(r, Arrive(frame)) && UsableFirst(frame) && DecodeFirstFrameTotalLength(frame) <= r.r.capacity
    ensures var r' := Next(r, Arrive(frame));
            && r'.rec == Ongoing(frame, []) && r'.epoch > r.epoch
            && r'.pending - r.pending == multiset{PendingFc(FcDone(ContinueToSend, r'.r.reception), r'.epoch)}
  {
    SmallBumps(r.r.reception);
  }

  /** A flow control of an earlier reception that fails late does not abort a later one. */
  lemma LateFcReportIsInert(r: Run, p: PendingFc, success: bool)
    requires Inv(r) && Enabled(r, Report(p, success)) && p.epoch < r.epoch
    ensures Next(r, Report(p, success)) == r.(pending := r.pending - multiset{p})
  {
    assert p.done.reception == p.epoch % 0x100 && r.r.reception == r.epoch % 0x100;
    DistinctWithin256(p.epoch, r.epoch);
    assert Next(r, Report(p, success)).frames == r.frames && Next(r, Report(p, success)).delivered == r.delivered;
  }
}
