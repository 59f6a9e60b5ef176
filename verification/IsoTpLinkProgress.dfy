/**
 Progress of a lossless link: block by block the two ends stay in lockstep, and
 every transfer ends, with exactly one delivery if the PDU fits the receiver.
 */
module IsoTpLinkProgress {
  import opened CanTypes
  import opened IsoTpCodec
  import opened IsoTpLink
  import S = IsoTpSender
  import SR = IsoTpSenderRuns
  import R = IsoTpReceiver

  /** Steps of a bus that loses nothing and drivers that report every frame sent in time, in any interleaving. */
  predicate Lossless(e: LinkEvent) {
    match e
    case DeliverData => true
    case DeliverFc => true
    case AtSender(s) => s.StMin? || (s.Report? && s.success)
    case _ => false
  }

  ghost predicate Stuck(l: Link) {
    forall e: LinkEvent :: Lossless(e) ==> !Enabled(l, e)
  }

  /** A bound on the lossless steps still possible. */
  function Work(l: Link, pdu: seq<byte>): int {
    6 * (1 + CfCount(pdu) - |l.tx.handed|) + 3 * |l.data| + 2 * |l.fc| + 2 * |l.tx.pending|
    + if l.tx.s.stMinTimer then 1 else 0
  }

  /* ---- A PDU of several frames that fits ---- */

  /** How the sender stands within the blocks the receiver asks for. */
  predicate Paced(s: S.Sender, pdu: seq<byte>, blockSize: byte, stMin: byte) {
    var c := S.CfsSent(s);
    && (s.phase == S.SendingCf ==>
          && s.blockSize == blockSize && s.stMin == stMin
          && (blockSize != 0 && c < CfCount(pdu) ==> s.blocksRemaining == blockSize - R.BlockPosition(c, blockSize)))
    && (s.phase == S.WaitingForFc ==>
          c < CfCount(pdu) && R.BlockPosition(c, blockSize) == 0 && (c > 0 ==> blockSize != 0))
  }

  /** Every frame from `taken` on is in flight, and nothing else. */
  predicate Contiguous(data: seq<InFlight>, pdu: seq<byte>, taken: nat, handed: nat)
    requires IsPdu(pdu) && handed <= 1 + CfCount(pdu)
  {
    && |data| == handed - taken
    && (forall j :: 0 <= j < |data| ==> data[j] == InFlight(FrameAt(pdu, taken + j), taken + j))
  }

  predicate Synchronised(rx: R.Receiver, rec: R.Reception, pdu: seq<byte>, taken: nat) {
    taken > 0 ==>
      if taken <= CfCount(pdu) then
        rec.Ongoing? && |rec.cfs| == taken - 1 && rx.expectedTotal == |pdu|
        && rx.buffer == pdu[..BytesAfter(pdu, taken - 1)]
      else rec.NoReception?
  }

  /** No frame in flight ends a block, except the last one of a sender that waits for its flow control. */
  ghost predicate NoBlockEndInFlight(taken: nat, c: nat, blockSize: byte, phase: S.Phase, pdu: seq<byte>) {
    forall j :: 0 < j && taken <= j && (j < c || (j == c < CfCount(pdu) && phase == S.SendingCf)) ==>
      blockSize == 0 || R.BlockPosition(j, blockSize) != 0
  }

  /** What a transfer started from: the logs before it, and the aborts after its first frame. */
  datatype Start = Start(delivered: seq<seq<byte>>, aborted: seq<AbortReason>, log: seq<SR.LogEntry>)

  predicate SenderOnTrack(tx: SR.Run, pdu: seq<byte>, start: Start) {
    && 1 <= |tx.handed| <= 1 + CfCount(pdu)
    && (if tx.s.phase == S.Idle then
          IsPdu(pdu) && |tx.handed| == 1 + CfCount(pdu)
          && tx.log == start.log + [SR.Accepted(pdu), SR.Ended(SR.Finished, Segment(pdu))]
        else tx.s.pdu == pdu && tx.log == start.log + [SR.Accepted(pdu)])
  }

  ghost predicate Lockstep(l: Link, pdu: seq<byte>, start: Start) {
    var c := |l.tx.handed| - 1;
    && IsPdu(pdu) && SF_MAX_PAYLOAD < |pdu| <= l.rx.capacity
    && SR.Inv(l.tx) && R.Represents(l.rx, l.rec)
    && SenderOnTrack(l.tx, pdu, start)
    && l.taken <= c + 1
    && (l.taken == 0 ==> c == 0 && l.tx.s.phase == S.WaitingForFc)
    && Paced(l.tx.s, pdu, l.rx.blockSize, l.rx.separationTime)
    && Contiguous(l.data, pdu, l.taken, c + 1)
    && Synchronised(l.rx, l.rec, pdu, l.taken)
    && NoBlockEndInFlight(l.taken, c, l.rx.blockSize, l.tx.s.phase, pdu)
    && l.fc == (if l.tx.s.phase == S.WaitingForFc && l.data == []
                then [FlowControlOf(ContinueToSend, l.rx.blockSize, l.rx.separationTime)] else [])
    && l.delivered == (if l.taken == CfCount(pdu) + 1 then start.delivered + [pdu] else start.delivered)
    && (if l.taken == 0 && l.rec.Ongoing? then l.aborted + [UnexpectedFrame] else l.aborted) == start.aborted
  }

  /** Where one more consecutive frame leaves the sender within its block. */
  lemma NextCfIsPaced(s: S.Sender, blockSize: byte, stMin: byte)
    requires S.Valid(s.(stMinTimer := true, nAs := false)) && s.phase == S.SendingCf && !s.stMinTimer && !s.nAs
    requires Paced(s, s.pdu, blockSize, stMin)
    ensures Paced(S.NextCf(s).s, s.pdu, blockSize, stMin)
    ensures var c := S.CfsSent(s) + 1;
            S.NextCf(s).s.phase == S.SendingCf && c < CfCount(s.pdu) ==>
              blockSize == 0 || R.BlockPosition(c, blockSize) != 0
  {
    S.NextCfKeepsValid(s);
    assert s.bytesSent < |s.pdu| && S.CfsSent(s) < CfCount(s.pdu);
  }

  lemma NextFrameAccepted(rx: R.Receiver, rec: R.Reception, pdu: seq<byte>, taken: nat)
    requires IsPdu(pdu) && SF_MAX_PAYLOAD < |pdu| && R.Represents(rx, rec)
    requires Synchronised(rx, rec, pdu, taken) && 1 <= taken <= CfCount(pdu)
    ensures var frame := FrameAt(pdu, taken);
            && DecodeFrameType(frame) == ConsecutiveFrame
            && R.LongEnough(rx, frame) && DecodeConsecutiveFrameSn(frame) == rx.expectedSn
            && R.Appended(rx, frame).buffer == pdu[..BytesAfter(pdu, taken)]
  {
    var frame, sent := FrameAt(pdu, taken), BytesAfter(pdu, taken - 1);
    FrameHeaders(pdu, taken);
    S.OneMoreCf(pdu, sent, taken - 1);
    SlicesJoin(pdu, sent, BytesAfter(pdu, taken));
    assert |frame| == 1 + Min(CF_MAX_DATA, |pdu| - sent);
    assert frame[1..1 + (|frame| - 1)] == frame[1..];
    assert rx.buffer + frame[1..] == pdu[..BytesAfter(pdu, taken)];
  }

  /** The receiver takes the next frame in order, and answers exactly at the end of a block. */
  lemma TakesNextFrame(rx: R.Receiver, rec: R.Reception, pdu: seq<byte>, taken: nat)
    requires IsPdu(pdu) && SF_MAX_PAYLOAD < |pdu| && R.Represents(rx, rec)
    requires Synchronised(rx, rec, pdu, taken) && 1 <= taken <= CfCount(pdu)
    ensures var frame := FrameAt(pdu, taken);
            var step := R.OnFrame(rx, frame);
            var answer := R.AnswerFrame(rec, rx.capacity, rx.blockSize, frame);
            && Synchronised(step.r, answer.rec, pdu, taken + 1)
            && step.notices == (if taken == CfCount(pdu) then [R.Delivered(pdu)] else [])
            && (step.fc.Some? <==> taken < CfCount(pdu) && rx.blockSize != 0 && R.BlockPosition(taken, rx.blockSize) == 0)
            && (step.fc.Some? ==> step.fc.value.frame == FlowControlOf(ContinueToSend, rx.blockSize, rx.separationTime))
  {
    var frame := FrameAt(pdu, taken);
    NextFrameAccepted(rx, rec, pdu, taken);
    R.AppendedRepresents(rx, rec, frame);
    var answer := R.AnswerConsecutive(rec, rx.blockSize, frame);
    assert R.AnswerFrame(rec, rx.capacity, rx.blockSize, frame) == answer;
    assert R.OnFrame(rx, frame) == R.OnConsecutive(rx, frame);
    if taken < CfCount(pdu) {
      assert BytesAfter(pdu, taken) < |pdu|;
      R.ContinueBlockCounts(R.Appended(rx, frame), taken - 1);
      assert answer.rec == R.Ongoing(rec.ff, rec.cfs + [frame]);
    } else {
      assert pdu[..BytesAfter(pdu, taken)] == pdu;
      assert R.OnConsecutive(rx, frame).notices == [R.Delivered(pdu)];
    }
  }

  lemma ContiguousTail(data: seq<InFlight>, pdu: seq<byte>, taken: nat, handed: nat)
    requires IsPdu(pdu) && handed <= 1 + CfCount(pdu) && Contiguous(data, pdu, taken, handed) && data != []
    ensures data[0] == InFlight(FrameAt(pdu, taken), taken)
    ensures Contiguous(data[1..], pdu, taken + 1, handed)
  {
    assert data[0] == InFlight(FrameAt(pdu, taken + 0), taken + 0);
    forall j | 0 <= j < |data| - 1
      ensures data[1..][j] == InFlight(FrameAt(pdu, taken + 1 + j), taken + 1 + j)
    {
      assert data[1..][j] == data[j + 1];
    }
  }

  lemma ContiguousAppend(data: seq<InFlight>, pdu: seq<byte>, taken: nat, handed: nat)
    requires IsPdu(pdu) && handed < 1 + CfCount(pdu) && Contiguous(data, pdu, taken, handed) && taken <= handed
    ensures Contiguous(data + [InFlight(FrameAt(pdu, handed), handed)], pdu, taken, handed + 1)
  {
  }

  /** What the receiver made of the later frame in front. */
  predicate LaterAnswer(l: Link, step: R.Step, rec: R.Reception, pdu: seq<byte>) {
    && R.Represents(step.r, rec) && Synchronised(step.r, rec, pdu, l.taken + 1)
    && step.r.capacity == l.rx.capacity && step.r.blockSize == l.rx.blockSize && step.r.separationTime == l.rx.separationTime
    && step.notices == (if l.taken == CfCount(pdu) then [R.Delivered(pdu)] else [])
    && (step.fc.Some? <==> l.taken < CfCount(pdu) && l.rx.blockSize != 0 && R.BlockPosition(l.taken, l.rx.blockSize) == 0)
    && (step.fc.Some? ==> step.fc.value.frame == FlowControlOf(ContinueToSend, l.rx.blockSize, l.rx.separationTime))
  }

  lemma LaterFront(l: Link, pdu: seq<byte>) returns (step: R.Step, rec: R.Reception)
    requires IsPdu(pdu) && SF_MAX_PAYLOAD < |pdu| && R.Represents(l.rx, l.rec) && Synchronised(l.rx, l.rec, pdu, l.taken)
    requires 1 <= l.taken <= CfCount(pdu) && l.data != [] && l.data[0] == InFlight(FrameAt(pdu, l.taken), l.taken)
    ensures LaterAnswer(l, step, rec, pdu) && Next(l, DeliverData) == ReceiverDid(Taken(l), step, rec)
  {
    var frame := FrameAt(pdu, l.taken);
    R.ReactRefines(l.rx, l.rec, R.FrameArrives(frame));
    TakesNextFrame(l.rx, l.rec, pdu, l.taken);
    R.ReceiverKeepsParameters(l.rx, R.FrameArrives(frame));
    step, rec := R.OnFrame(l.rx, frame), R.AnswerFrame(l.rec, l.rx.capacity, l.rx.blockSize, frame).rec;
  }

  lemma LaterFrameKeepsLockstep(l: Link, pdu: seq<byte>, start: Start)
    requires Lockstep(l, pdu, start) && l.data != [] && l.taken > 0
    ensures Lockstep(Next(l, DeliverData), pdu, start)
    ensures Work(Next(l, DeliverData), pdu) < Work(l, pdu)
  {
    ContiguousTail(l.data, pdu, l.taken, |l.tx.handed|);
    var step, rec := LaterFront(l, pdu);
    LaterFrameDelivered(l, step, rec, pdu, start);
  }

  /** The bookkeeping of LaterFrameKeepsLockstep, given what the receiver did. */
  lemma LaterFrameDelivered(l: Link, step: R.Step, rec: R.Reception, pdu: seq<byte>, start: Start)
    requires Lockstep(l, pdu, start) && l.data != [] && l.taken > 0 && LaterAnswer(l, step, rec, pdu)
    ensures Lockstep(ReceiverDid(Taken(l), step, rec), pdu, start)
    ensures Work(ReceiverDid(Taken(l), step, rec), pdu) < Work(l, pdu)
  {
    ContiguousTail(l.data, pdu, l.taken, |l.tx.handed|);
    DueExactlyAtWait(l.tx.s.phase, l.taken, |l.tx.handed| - 1, l.rx.blockSize, pdu, step.fc.Some?);
    NoBlockEndLater(l.taken, |l.tx.handed| - 1, l.rx.blockSize, l.tx.s.phase, pdu);
    LaterBooks(l, step, rec, pdu);
    WorkTaken(l, step, rec, pdu);
  }

  /** What the applications see of it. */
  lemma LaterBooks(l: Link, step: R.Step, rec: R.Reception, pdu: seq<byte>)
    requires l.data != [] && LaterAnswer(l, step, rec, pdu)
    ensures var l' := ReceiverDid(Taken(l), step, rec);
            && l'.aborted == l.aborted
            && l'.delivered == (if l.taken == CfCount(pdu) then l.delivered + [pdu] else l.delivered)
  {
    assert Aborts(step.notices) == [];
    assert l.aborted + [] == l.aborted;
  }

  lemma WorkTaken(l: Link, step: R.Step, rec: R.Reception, pdu: seq<byte>)
    requires l.data != []
    ensures Work(ReceiverDid(Taken(l), step, rec), pdu) < Work(l, pdu)
  {
  }

  lemma NoBlockEndLater(taken: nat, c: nat, blockSize: byte, phase: S.Phase, pdu: seq<byte>)
    requires NoBlockEndInFlight(taken, c, blockSize, phase, pdu)
    ensures NoBlockEndInFlight(taken + 1, c, blockSize, phase, pdu)
  {
  }

  /** The receiver answers just the frame that the sender waits for an answer to. */
  lemma DueExactlyAtWait(phase: S.Phase, taken: nat, c: nat, blockSize: byte, pdu: seq<byte>, due: bool)
    requires 0 < taken <= c <= CfCount(pdu) && NoBlockEndInFlight(taken, c, blockSize, phase, pdu)
    requires phase != S.SendingSf && (phase == S.Idle ==> c == CfCount(pdu))
    requires phase == S.WaitingForFc ==> c < CfCount(pdu) && R.BlockPosition(c, blockSize) == 0 && blockSize != 0
    requires due <==> taken < CfCount(pdu) && blockSize != 0 && R.BlockPosition(taken, blockSize) == 0
    ensures due <==> phase == S.WaitingForFc && taken == c
  {
  }

  lemma FirstFrameKeepsLockstep(l: Link, pdu: seq<byte>, start: Start)
    requires Lockstep(l, pdu, start) && l.taken == 0
    ensures l.data != []
    ensures Lockstep(Next(l, DeliverData), pdu, start)
    ensures Work(Next(l, DeliverData), pdu) < Work(l, pdu)
  {
    ContiguousTail(l.data, pdu, 0, 1);
    var step, rec := FirstFront(l, pdu);
    FirstFrameDelivered(l, step, rec, pdu, start);
  }

  lemma FirstFront(l: Link, pdu: seq<byte>) returns (step: R.Step, rec: R.Reception)
    requires IsPdu(pdu) && SF_MAX_PAYLOAD < |pdu| <= l.rx.capacity && R.Represents(l.rx, l.rec)
    requires l.data != [] && l.data[0] == InFlight(FrameAt(pdu, 0), 0)
    ensures Next(l, DeliverData) == ReceiverDid(Taken(l), step, rec)
    ensures R.Represents(step.r, rec) && Synchronised(step.r, rec, pdu, 1)
    ensures step.r.capacity == l.rx.capacity && step.r.blockSize == l.rx.blockSize && step.r.separationTime == l.rx.separationTime
    ensures step.notices == (if l.rec.Ongoing? then [R.Aborted(UnexpectedFrame)] else [])
    ensures step.fc.Some? && step.fc.value.frame == FlowControlOf(ContinueToSend, l.rx.blockSize, l.rx.separationTime)
  {
    var frame := FrameAt(pdu, 0);
    R.ReactRefines(l.rx, l.rec, R.FrameArrives(frame));
    FirstFrameStored(l.rx, l.rec, pdu);
    step, rec := R.OnFrame(l.rx, frame), R.AnswerFrame(l.rec, l.rx.capacity, l.rx.blockSize, frame).rec;
  }

  lemma FirstFrameStored(rx: R.Receiver, rec: R.Reception, pdu: seq<byte>)
    requires IsPdu(pdu) && SF_MAX_PAYLOAD < |pdu| <= rx.capacity && R.Represents(rx, rec)
    ensures var frame := FrameAt(pdu, 0);
            var step := R.OnFrame(rx, frame);
            && Synchronised(step.r, R.AnswerFrame(rec, rx.capacity, rx.blockSize, frame).rec, pdu, 1)
            && step.notices == (if rec.Ongoing? then [R.Aborted(UnexpectedFrame)] else [])
            && step.fc.Some?
            && step.fc.value.frame == FlowControlOf(ContinueToSend, rx.blockSize, rx.separationTime)
            && step.r.capacity == rx.capacity && step.r.blockSize == rx.blockSize && step.r.separationTime == rx.separationTime
  {
    FrameHeaders(pdu, 0);
  }

  lemma SupersededAborts(notices: seq<R.Notice>, superseded: bool)
    requires notices == (if superseded then [R.Aborted(UnexpectedFrame)] else [])
    ensures Aborts(notices) == (if superseded then [UnexpectedFrame] else [])
    ensures R.DeliveredBy(notices).None?
  {
    assert Aborts([]) == [];
    if superseded {
      assert notices[1..] == [];
      assert Aborts(notices) == [UnexpectedFrame] + [];
    }
  }

  lemma FirstFrameDelivered(l: Link, step: R.Step, rec: R.Reception, pdu: seq<byte>, start: Start)
    requires Lockstep(l, pdu, start) && l.data != [] && l.taken == 0
    requires R.Represents(step.r, rec) && Synchronised(step.r, rec, pdu, 1)
    requires step.r.capacity == l.rx.capacity && step.r.blockSize == l.rx.blockSize && step.r.separationTime == l.rx.separationTime
    requires step.notices == (if l.rec.Ongoing? then [R.Aborted(UnexpectedFrame)] else [])
    requires step.fc.Some? && step.fc.value.frame == FlowControlOf(ContinueToSend, l.rx.blockSize, l.rx.separationTime)
    ensures Lockstep(ReceiverDid(Taken(l), step, rec), pdu, start)
    ensures Work(ReceiverDid(Taken(l), step, rec), pdu) < Work(l, pdu)
  {
    ContiguousTail(l.data, pdu, 0, 1);
    SupersededAborts(step.notices, l.rec.Ongoing?);
  }

  /* ---- Steps of the sender ---- */

  /** The link while its sender, about to go on as `s`, is free to send the next consecutive frame. */
  ghost predicate Resuming(l: Link, s: S.Sender, pdu: seq<byte>, start: Start) {
    var c := |l.tx.handed| - 1;
    && IsPdu(pdu) && SF_MAX_PAYLOAD < |pdu| <= l.rx.capacity
    && R.Represents(l.rx, l.rec)
    && 1 <= l.taken <= c + 1 <= CfCount(pdu)
    && l.tx.log == start.log + [SR.Accepted(pdu)]
    && s.pdu == pdu && s.phase == S.SendingCf && !s.stMinTimer && !s.nAs
    && S.Valid(s.(stMinTimer := true)) && S.CfsSent(s) == c
    && Paced(s, pdu, l.rx.blockSize, l.rx.separationTime)
    && Contiguous(l.data, pdu, l.taken, c + 1)
    && Synchronised(l.rx, l.rec, pdu, l.taken)
    && NoBlockEndInFlight(l.taken, c, l.rx.blockSize, S.SendingCf, pdu)
    && l.fc == []
    && l.delivered == start.delivered && l.aborted == start.aborted
  }

  /** The sender of `l` went on to `tx`, with at most one more frame. */
  function SenderDid(l: Link, tx: SR.Run, frame: Option<S.Handed>): Link {
    l.(tx := tx, data := if frame.Some? then l.data + [InFlight(frame.value.frame, |l.tx.handed|)] else l.data)
  }

  lemma NextCfKeepsLockstep(l: Link, s: S.Sender, tx: SR.Run, pdu: seq<byte>, start: Start)
    requires Resuming(l, s, pdu, start) && SR.Inv(tx)
    requires var step := S.NextCf(s);
             tx.s == step.s && step.frame.Some? && tx.handed == l.tx.handed + [step.frame.value.frame] && tx.log == l.tx.log
    ensures Lockstep(SenderDid(l, tx, S.NextCf(s).frame), pdu, start)
  {
    S.NextCfKeepsValid(s);
    NextCfIsPaced(s, l.rx.blockSize, l.rx.separationTime);
    ContiguousAppend(l.data, pdu, l.taken, |l.tx.handed|);
  }

  lemma PauseKeepsLockstep(l: Link, s: S.Sender, tx: SR.Run, pdu: seq<byte>, start: Start)
    requires Resuming(l, s, pdu, start) && SR.Inv(tx)
    requires tx.s == s.(stMinTimer := true) && tx.handed == l.tx.handed && tx.log == l.tx.log
    ensures Lockstep(SenderDid(l, tx, None), pdu, start)
  {
  }

  lemma ScheduleKeepsLockstep(l: Link, s: S.Sender, tx: SR.Run, pdu: seq<byte>, start: Start)
    requires Resuming(l, s, pdu, start) && SR.Inv(tx)
    requires var step := S.ScheduleCf(s);
             tx.s == step.s && tx.log == l.tx.log
             && tx.handed == l.tx.handed + (if step.frame.Some? then [step.frame.value.frame] else [])
    ensures Lockstep(SenderDid(l, tx, S.ScheduleCf(s).frame), pdu, start)
  {
    S.NextCfKeepsValid(s);
    if StMinMicros(s.stMin) > 0 {
      assert tx.handed == l.tx.handed;
      PauseKeepsLockstep(l, s, tx, pdu, start);
    } else {
      NextCfKeepsLockstep(l, s, tx, pdu, start);
    }
  }

  /** A flow control in flight finds the sender waiting for it, with every frame of its block received. */
  lemma FlowControlGrants(l: Link, pdu: seq<byte>, start: Start)
    requires Lockstep(l, pdu, start) && l.fc != []
    ensures var s := S.Granted(l.tx.s, l.rx.blockSize, l.rx.separationTime);
            && S.OnFlowControl(l.tx.s, l.fc[0]) == S.ScheduleCf(s)
            && Resuming(l.(fc := l.fc[1..]), s, pdu, start)
  {
    var frame := l.fc[0];
    assert frame == FlowControlOf(ContinueToSend, l.rx.blockSize, l.rx.separationTime);
    assert DecodeFlowControl(frame) == Some((ContinueToSend, l.rx.blockSize, l.rx.separationTime));
  }

  /** Going on costs less work than it does away with. */
  lemma ScheduleWork(l: Link, e: SR.RunEvent, s: S.Sender, step: S.Step, pdu: seq<byte>)
    requires s.bytesSent <= |s.pdu| && (step == S.ScheduleCf(s) || step == S.NextCf(s))
    requires !s.stMinTimer && !e.Submit? && !e.Release?
    requires e.Report? ==> e.of in l.tx.pending
    ensures Work(SenderDid(l, SR.NextBy(l.tx, e, step), step.frame), pdu)
              <= Work(l, pdu) + (if step.frame.Some? then -1 else 1)
                 - (if e.Report? then 2 else 0) - (if l.tx.s.stMinTimer then 1 else 0)
  {
    PendingSize(l.tx, e, step);
    NextLogUnchanged(l.tx, e, step);
    SchedulePauses(s, step);
  }

  lemma SchedulePauses(s: S.Sender, step: S.Step)
    requires s.bytesSent <= |s.pdu| && !s.stMinTimer && (step == S.ScheduleCf(s) || step == S.NextCf(s))
    ensures step.notice.None? && (step.s.stMinTimer ==> step.frame.None?)
  {
  }

  lemma PendingSize(tx: SR.Run, e: SR.RunEvent, step: S.Step)
    requires e.Report? ==> e.of in tx.pending
    ensures |SR.NextBy(tx, e, step).pending| == |tx.pending| - (if e.Report? then 1 else 0) + (if step.frame.Some? then 1 else 0)
  {
  }

  lemma SenderMovesOn(l: Link, e: SR.RunEvent)
    requires SR.Enabled(l.tx, e) && !e.Submit?
    ensures SenderMoves(l, e) == SenderDid(l, SR.Next(l.tx, e), S.React(l.tx.s, SR.MachineEvent(e)).frame)
  {
  }

  lemma ResumptionKeepsLockstep(l: Link, e: SR.RunEvent, s: S.Sender, pdu: seq<byte>, start: Start)
    requires Resuming(l, s, pdu, start) && !e.Submit? && !e.Release? && (e.Report? ==> e.of in l.tx.pending)
    requires SR.Inv(SR.NextBy(l.tx, e, S.ScheduleCf(s)))
    ensures var step := S.ScheduleCf(s);
            var l' := SenderDid(l, SR.NextBy(l.tx, e, step), step.frame);
            && Lockstep(l', pdu, start)
            && Work(l', pdu) <= Work(l, pdu) + (if step.frame.Some? then -1 else 1)
                                - (if e.Report? then 2 else 0) - (if l.tx.s.stMinTimer then 1 else 0)
  {
    NextLogUnchanged(l.tx, e, S.ScheduleCf(s));
    ScheduleKeepsLockstep(l, s, SR.NextBy(l.tx, e, S.ScheduleCf(s)), pdu, start);
    ScheduleWork(l, e, s, S.ScheduleCf(s), pdu);
  }

  lemma FlowControlKeepsLockstep(l: Link, pdu: seq<byte>, start: Start)
    requires Lockstep(l, pdu, start) && l.fc != []
    ensures Enabled(l, DeliverFc)
    ensures Lockstep(Next(l, DeliverFc), pdu, start)
    ensures Work(Next(l, DeliverFc), pdu) < Work(l, pdu)
  {
    var e := SR.FlowControl(l.fc[0]);
    var quiet := l.(fc := l.fc[1..]);
    FlowControlGrants(l, pdu, start);
    SR.NextKeepsInv(l.tx, e);
    SenderMovesOn(quiet, e);
    ResumptionKeepsLockstep(quiet, e, S.Granted(l.tx.s, l.rx.blockSize, l.rx.separationTime), pdu, start);
  }

  /** Scheduling a consecutive frame neither begins nor ends a transfer. */
  lemma NextLogUnchanged(tx: SR.Run, e: SR.RunEvent, step: S.Step)
    requires step.notice.None? && !e.Submit? && !e.Release?
    ensures SR.NextBy(tx, e, step).log == tx.log
    ensures SR.NextBy(tx, e, step).handed == tx.handed + (if step.frame.Some? then [step.frame.value.frame] else [])
  {
  }

  lemma SeparationKeepsLockstep(l: Link, pdu: seq<byte>, start: Start)
    requires Lockstep(l, pdu, start) && Enabled(l, AtSender(SR.StMin))
    ensures Lockstep(Next(l, AtSender(SR.StMin)), pdu, start)
    ensures Work(Next(l, AtSender(SR.StMin)), pdu) < Work(l, pdu)
  {
    var s := l.tx.s.(stMinTimer := false);
    SR.NextKeepsInv(l.tx, SR.StMin);
    S.NextCfKeepsValid(s);
    assert Resuming(l, s, pdu, start);
    NextLogUnchanged(l.tx, SR.StMin, S.NextCf(s));
    NextCfKeepsLockstep(l, s, SR.Next(l.tx, SR.StMin), pdu, start);
  }

  /** A report that the sender is not waiting for only empties the driver's books. */
  lemma IdleReportKeepsLockstep(l: Link, p: SR.Pending, pdu: seq<byte>, start: Start)
    requires Lockstep(l, pdu, start) && Enabled(l, AtSender(SR.Report(p, true)))
    requires p.epoch != l.tx.epoch || p.done.AwaitFcDone?
    ensures Lockstep(Next(l, AtSender(SR.Report(p, true))), pdu, start)
    ensures Work(Next(l, AtSender(SR.Report(p, true))), pdu) < Work(l, pdu)
  {
    var e := SR.Report(p, true);
    SR.TokenTellsTransfersApart(l.tx, p);
    SR.NextKeepsInv(l.tx, e);
    assert S.React(l.tx.s, SR.MachineEvent(e)) == S.Quiet(l.tx.s);
    NextLogUnchanged(l.tx, e, S.Quiet(l.tx.s));
    assert SR.Next(l.tx, e) == l.tx.(pending := l.tx.pending - multiset{p});
  }

  lemma LastReportKeepsLockstep(l: Link, p: SR.Pending, pdu: seq<byte>, start: Start)
    requires Lockstep(l, pdu, start) && Enabled(l, AtSender(SR.Report(p, true)))
    requires p.epoch == l.tx.epoch && p.done.ConsecutiveDone? && p.done.allSent
    ensures Lockstep(Next(l, AtSender(SR.Report(p, true))), pdu, start)
    ensures Work(Next(l, AtSender(SR.Report(p, true))), pdu) < Work(l, pdu)
  {
    var e := SR.Report(p, true);
    SR.TokenTellsTransfersApart(l.tx, p);
    SR.NextKeepsInv(l.tx, e);
    assert l.tx.handed == Segment(pdu);
  }

  lemma WatchedReportResumes(l: Link, p: SR.Pending, pdu: seq<byte>, start: Start)
    requires Lockstep(l, pdu, start) && Enabled(l, AtSender(SR.Report(p, true)))
    requires p.epoch == l.tx.epoch && p.done.ConsecutiveDone? && !p.done.allSent
    ensures S.OnFrameReport(l.tx.s, p.done, true) == S.ScheduleCf(l.tx.s.(nAs := false))
    ensures Resuming(l, l.tx.s.(nAs := false), pdu, start)
  {
    SR.TokenTellsTransfersApart(l.tx, p);
    assert l.tx.s.phase == S.SendingCf && l.tx.s.bytesSent < |pdu|;
  }

  lemma WatchedReportKeepsLockstep(l: Link, p: SR.Pending, pdu: seq<byte>, start: Start)
    requires Lockstep(l, pdu, start) && Enabled(l, AtSender(SR.Report(p, true)))
    requires p.epoch == l.tx.epoch && p.done.ConsecutiveDone? && !p.done.allSent
    ensures Lockstep(Next(l, AtSender(SR.Report(p, true))), pdu, start)
    ensures Work(Next(l, AtSender(SR.Report(p, true))), pdu) < Work(l, pdu)
  {
    var e := SR.Report(p, true);
    WatchedReportResumes(l, p, pdu, start);
    SR.NextKeepsInv(l.tx, e);
    SenderMovesOn(l, e);
    ResumptionKeepsLockstep(l, e, l.tx.s.(nAs := false), pdu, start);
  }

  lemma StepKeepsLockstep(l: Link, e: LinkEvent, pdu: seq<byte>, start: Start)
    requires Lockstep(l, pdu, start) && Lossless(e) && Enabled(l, e)
    ensures Lockstep(Next(l, e), pdu, start)
    ensures Work(Next(l, e), pdu) < Work(l, pdu)
  {
    match e {
      case DeliverData =>
        if l.taken == 0 { FirstFrameKeepsLockstep(l, pdu, start); } else { LaterFrameKeepsLockstep(l, pdu, start); }
      case DeliverFc => FlowControlKeepsLockstep(l, pdu, start);
      case AtSender(s) =>
        if s.StMin? {
          SeparationKeepsLockstep(l, pdu, start);
        } else if s.of.epoch != l.tx.epoch || s.of.done.AwaitFcDone? {
          IdleReportKeepsLockstep(l, s.of, pdu, start);
        } else if s.of.done.allSent {
          LastReportKeepsLockstep(l, s.of, pdu, start);
        } else {
          WatchedReportKeepsLockstep(l, s.of, pdu, start);
        }
    }
  }

  /** The PDU was delivered once and reported done once, and nothing is left on the way. */
  predicate Finished(l: Link, pdu: seq<byte>, start: Start)
    requires IsPdu(pdu)
  {
    && l.tx.s.phase == S.Idle && l.data == [] && l.fc == []
    && l.delivered == start.delivered + [pdu] && l.aborted == start.aborted
    && l.tx.log == start.log + [SR.Accepted(pdu), SR.Ended(SR.Finished, Segment(pdu))]
  }

  /** No deadlock: until the transfer is finished some lossless step is possible. */
  lemma NeverDeadlocked(l: Link, pdu: seq<byte>, start: Start) returns (e: LinkEvent)
    requires Lockstep(l, pdu, start) && !Finished(l, pdu, start)
    ensures Lossless(e) && Enabled(l, e)
  {
    if l.data != [] {
      e := DeliverData;
    } else if l.fc != [] {
      e := DeliverFc;
      FlowControlKeepsLockstep(l, pdu, start);
    } else if l.tx.s.stMinTimer {
      e := AtSender(SR.StMin);
    } else {
      e := AtSender(SR.Report(SR.Pending(S.WatchedReport(l.tx.s), l.tx.epoch), true));
    }
  }
}
