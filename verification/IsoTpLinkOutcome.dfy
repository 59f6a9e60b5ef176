/**
 How every lossless transfer ends: single frames, PDUs of several frames, and
 PDUs the receiver has no room for.
 */
module IsoTpLinkOutcome {
  import opened CanTypes
  import opened IsoTpCodec
  import opened IsoTpLink
  import opened IsoTpLinkProgress
  import S = IsoTpSender
  import SR = IsoTpSenderRuns
  import R = IsoTpReceiver

  /** The one frame of a short transfer is still on its way, or has been taken. */
  predicate OneFrameMoves(l: Link, pdu: seq<byte>)
    requires IsPdu(pdu)
  {
    && |l.tx.handed| == 1
    && (if l.taken == 0 then l.data == [InFlight(FrameAt(pdu, 0), 0)] else l.taken == 1 && l.data == [])
  }

  function SupersededOnArrival(l: Link): seq<AbortReason> {
    if l.rec.Ongoing? then [UnexpectedFrame] else []
  }

  /** What the receiving application has seen of a PDU whose first frame is decisive. */
  predicate DecidedOnArrival(l: Link, pdu: seq<byte>, start: Start, fits: bool) {
    if l.taken == 0 then
      l.delivered == start.delivered && l.aborted + SupersededOnArrival(l) == start.aborted
    else
      && l.rec.NoReception?
      && (if fits then l.delivered == start.delivered + [pdu] && l.aborted == start.aborted
          else l.delivered == start.delivered && l.aborted == start.aborted + [OverflowReported])
  }

  ghost predicate SingleOnTrack(l: Link, pdu: seq<byte>, start: Start) {
    && IsPdu(pdu) && |pdu| <= SF_MAX_PAYLOAD
    && SR.Inv(l.tx) && R.Represents(l.rx, l.rec)
    && SenderOnTrack(l.tx, pdu, start)
    && (l.tx.s.phase == S.Idle || l.tx.s.phase == S.SendingSf)
    && OneFrameMoves(l, pdu) && l.fc == []
    && DecidedOnArrival(l, pdu, start, |pdu| <= l.rx.capacity)
  }

  predicate RefusedSender(tx: SR.Run, pdu: seq<byte>, start: Start)
    requires IsPdu(pdu)
  {
    tx.log == start.log + [SR.Accepted(pdu), SR.Ended(SR.Failed(OverflowReported), [FrameAt(pdu, 0)])]
  }

  ghost predicate OversizeOnTrack(l: Link, pdu: seq<byte>, start: Start) {
    && IsPdu(pdu) && SF_MAX_PAYLOAD < |pdu| && l.rx.capacity < |pdu|
    && SR.Inv(l.tx) && R.Represents(l.rx, l.rec)
    && OneFrameMoves(l, pdu)
    && DecidedOnArrival(l, pdu, start, false)
    && (if l.tx.s.phase == S.Idle then
          l.taken == 1 && l.fc == [] && RefusedSender(l.tx, pdu, start)
        else
          && l.tx.s.phase == S.WaitingForFc && l.tx.s.pdu == pdu
          && l.tx.log == start.log + [SR.Accepted(pdu)]
          && l.fc == (if l.taken == 0 then [] else [FlowControlOf(Overflow, l.rx.blockSize, l.rx.separationTime)]))
  }

  ghost predicate OnTrack(l: Link, pdu: seq<byte>, start: Start) {
    if |pdu| <= SF_MAX_PAYLOAD then SingleOnTrack(l, pdu, start)
    else if |pdu| <= l.rx.capacity then Lockstep(l, pdu, start)
    else OversizeOnTrack(l, pdu, start)
  }

  /** How a transfer that nothing disturbs ends: delivered once and reported done once if it fits; both ends report an
      overflow if a first frame announces too much; a single frame that does not fit is dropped by the receiver
      although the sender reports it done. */
  predicate Outcome(l: Link, pdu: seq<byte>, start: Start)
    requires IsPdu(pdu)
  {
    && l.tx.s.phase == S.Idle && l.data == [] && l.fc == []
    && l.delivered == (if |pdu| <= l.rx.capacity then start.delivered + [pdu] else start.delivered)
    && l.aborted == (if |pdu| <= l.rx.capacity then start.aborted else start.aborted + [OverflowReported])
    && l.tx.log == start.log + [SR.Accepted(pdu)] +
         (if |pdu| <= l.rx.capacity || |pdu| <= SF_MAX_PAYLOAD then [SR.Ended(SR.Finished, Segment(pdu))]
          else [SR.Ended(SR.Failed(OverflowReported), [FrameAt(pdu, 0)])])
  }

  lemma AbortsOf(notices: seq<R.Notice>, superseded: bool, last: R.Notice)
    requires notices == (if superseded then [R.Aborted(UnexpectedFrame)] else []) + [last]
    ensures Aborts(notices) == (if superseded then [UnexpectedFrame] else []) + (if last.Aborted? then [last.reason] else [])
  {
    assert Aborts([]) == [];
    assert [last][1..] == [];
    assert Aborts([last]) == (if last.Aborted? then [last.reason] else []) + [];
    if superseded {
      assert notices[1..] == [last];
    }
  }

  /** What the receiver does with a single frame, or with a first frame it has no room for. */
  lemma DecisiveFrame(rx: R.Receiver, rec: R.Reception, pdu: seq<byte>)
    requires IsPdu(pdu) && R.Represents(rx, rec) && (|pdu| <= SF_MAX_PAYLOAD || |pdu| > rx.capacity)
    ensures var step := R.OnFrame(rx, FrameAt(pdu, 0));
            && R.AnswerFrame(rec, rx.capacity, rx.blockSize, FrameAt(pdu, 0)).rec == R.NoReception
            && step.notices == (if rec.Ongoing? then [R.Aborted(UnexpectedFrame)] else []) +
                 [if |pdu| <= rx.capacity then R.Delivered(pdu) else R.Aborted(OverflowReported)]
            && (step.fc.Some? <==> |pdu| > SF_MAX_PAYLOAD)
            && (step.fc.Some? ==> step.fc.value.frame == FlowControlOf(Overflow, rx.blockSize, rx.separationTime))
            && step.r.capacity == rx.capacity && step.r.blockSize == rx.blockSize && step.r.separationTime == rx.separationTime
  {
    FrameHeaders(pdu, 0);
    if |pdu| <= SF_MAX_PAYLOAD {
      assert FrameAt(pdu, 0)[1..1 + |pdu|] == pdu;
    }
  }

  lemma DecisiveArrival(l: Link, pdu: seq<byte>, start: Start)
    requires IsPdu(pdu) && R.Represents(l.rx, l.rec) && (|pdu| <= SF_MAX_PAYLOAD || |pdu| > l.rx.capacity)
    requires OneFrameMoves(l, pdu) && l.taken == 0 && DecidedOnArrival(l, pdu, start, |pdu| <= l.rx.capacity)
    ensures var l' := Next(l, DeliverData);
            && R.Represents(l'.rx, l'.rec) && OneFrameMoves(l', pdu) && l'.taken == 1
            && DecidedOnArrival(l', pdu, start, |pdu| <= l.rx.capacity)
            && l'.tx == l.tx && l'.rx.capacity == l.rx.capacity
            && l'.fc == (if |pdu| > SF_MAX_PAYLOAD
                         then l.fc + [FlowControlOf(Overflow, l'.rx.blockSize, l'.rx.separationTime)] else l.fc)
  {
    R.ReactRefines(l.rx, l.rec, R.FrameArrives(FrameAt(pdu, 0)));
    DecisiveFrame(l.rx, l.rec, pdu);
    AbortsOf(R.OnFrame(l.rx, FrameAt(pdu, 0)).notices, l.rec.Ongoing?,
             if |pdu| <= l.rx.capacity then R.Delivered(pdu) else R.Aborted(OverflowReported));
  }

  /** A report that is stale or needs no answer leaves the sender as it is. */
  lemma IdleReport(tx: SR.Run, p: SR.Pending)
    requires SR.Inv(tx) && SR.Enabled(tx, SR.Report(p, true)) && (p.epoch != tx.epoch || p.done.AwaitFcDone?)
    ensures SR.Next(tx, SR.Report(p, true)) == tx.(pending := tx.pending - multiset{p})
    ensures S.React(tx.s, SR.MachineEvent(SR.Report(p, true))).frame.None?
  {
    SR.TokenTellsTransfersApart(tx, p);
    NextLogUnchanged(tx, SR.Report(p, true), S.Quiet(tx.s));
  }

  lemma SingleReported(tx: SR.Run, p: SR.Pending, pdu: seq<byte>, start: Start)
    requires SR.Inv(tx) && SR.Enabled(tx, SR.Report(p, true)) && p.epoch == tx.epoch && !p.done.AwaitFcDone?
    requires tx.s.phase == S.SendingSf || tx.s.phase == S.Idle
    requires IsPdu(pdu) && |pdu| <= SF_MAX_PAYLOAD && SenderOnTrack(tx, pdu, start)
    ensures var tx' := SR.Next(tx, SR.Report(p, true));
            && SenderOnTrack(tx', pdu, start) && tx'.s.phase == S.Idle && tx'.handed == tx.handed
            && tx'.pending == tx.pending - multiset{p} && !tx'.s.stMinTimer
    ensures S.React(tx.s, SR.MachineEvent(SR.Report(p, true))).frame.None?
  {
    SR.TokenTellsTransfersApart(tx, p);
    assert tx.handed == Segment(pdu);
  }

  lemma SingleStep(l: Link, e: LinkEvent, pdu: seq<byte>, start: Start)
    requires SingleOnTrack(l, pdu, start) && Lossless(e) && Enabled(l, e)
    ensures SingleOnTrack(Next(l, e), pdu, start)
    ensures Work(Next(l, e), pdu) < Work(l, pdu)
  {
    match e {
      case DeliverData => DecisiveArrival(l, pdu, start);
      case AtSender(s) =>
        SR.NextKeepsInv(l.tx, s);
        SenderMovesOn(l, s);
        if s.of.epoch != l.tx.epoch || s.of.done.AwaitFcDone? {
          IdleReport(l.tx, s.of);
        } else {
          SingleReported(l.tx, s.of, pdu, start);
        }
      case _ =>
    }
  }

  lemma OverflowAnswered(l: Link, pdu: seq<byte>, start: Start)
    requires OversizeOnTrack(l, pdu, start) && l.fc != []
    ensures Enabled(l, DeliverFc)
    ensures OversizeOnTrack(Next(l, DeliverFc), pdu, start)
    ensures Work(Next(l, DeliverFc), pdu) < Work(l, pdu)
  {
    var e := SR.FlowControl(l.fc[0]);
    assert DecodeFlowControl(l.fc[0]) == Some((Overflow, l.rx.blockSize, l.rx.separationTime));
    assert S.OnFlowControl(l.tx.s, l.fc[0]) == S.Abort(l.tx.s, OverflowReported);
    SR.NextKeepsInv(l.tx, e);
    assert l.tx.handed == [FrameAt(pdu, 0)];
  }

  lemma OversizeStep(l: Link, e: LinkEvent, pdu: seq<byte>, start: Start)
    requires OversizeOnTrack(l, pdu, start) && Lossless(e) && Enabled(l, e)
    ensures OversizeOnTrack(Next(l, e), pdu, start)
    ensures Work(Next(l, e), pdu) < Work(l, pdu)
  {
    match e {
      case DeliverData => DecisiveArrival(l, pdu, start);
      case DeliverFc => OverflowAnswered(l, pdu, start);
      case AtSender(s) => OversizeReport(l, s, pdu, start);
    }
  }

  /** A first frame that is too much is reported sent: nothing follows from that. */
  lemma OversizeReport(l: Link, s: SR.RunEvent, pdu: seq<byte>, start: Start)
    requires OversizeOnTrack(l, pdu, start) && Lossless(AtSender(s)) && Enabled(l, AtSender(s))
    ensures OversizeOnTrack(Next(l, AtSender(s)), pdu, start)
    ensures Work(Next(l, AtSender(s)), pdu) < Work(l, pdu)
  {
    SR.NextKeepsInv(l.tx, s);
    SenderMovesOn(l, s);
    IdleReport(l.tx, s.of);
    assert Next(l, AtSender(s)) == l.(tx := l.tx.(pending := l.tx.pending - multiset{s.of}));
  }

  lemma StepKeepsTrack(l: Link, e: LinkEvent, pdu: seq<byte>, start: Start)
    requires OnTrack(l, pdu, start) && Lossless(e) && Enabled(l, e)
    ensures OnTrack(Next(l, e), pdu, start)
    ensures Work(Next(l, e), pdu) < Work(l, pdu)
  {
    if |pdu| <= SF_MAX_PAYLOAD { SingleStep(l, e, pdu, start); }
    else if |pdu| <= l.rx.capacity { StepKeepsLockstep(l, e, pdu, start); }
    else { OversizeStep(l, e, pdu, start); }
    if e.DeliverData? { R.ReceiverKeepsParameters(l.rx, R.FrameArrives(l.data[0].frame)); }
  }

  lemma SomethingCanHappen(l: Link, pdu: seq<byte>, start: Start) returns (e: LinkEvent)
    requires OnTrack(l, pdu, start) && !Outcome(l, pdu, start)
    ensures Lossless(e) && Enabled(l, e)
  {
    if SF_MAX_PAYLOAD < |pdu| <= l.rx.capacity {
      e := NeverDeadlocked(l, pdu, start);
    } else if l.data != [] {
      e := DeliverData;
    } else if l.fc != [] {
      e := DeliverFc;
    } else {
      e := AtSender(SR.Report(SR.Pending(S.WatchedReport(l.tx.s), l.tx.epoch), true));
    }
  }

  /** Both ends free to start: the sender idle and both channels drained, after whatever went before. */
  ghost predicate Drained(l: Link) {
    && SR.Inv(l.tx) && R.Represents(l.rx, l.rec)
    && l.tx.s.phase == S.Idle && l.data == [] && l.fc == []
  }

  /** The link right after an accepted Send on drained channels. */
  ghost predicate Submitted(l: Link, l': Link, pdu: seq<byte>)
    requires IsPdu(pdu)
  {
    && l' == l.(tx := l'.tx, sent := l.sent + [pdu], data := [InFlight(FrameAt(pdu, 0), 0)], taken := 0)
    && SR.Inv(l'.tx) && l'.tx.handed == [FrameAt(pdu, 0)] && l'.tx.log == l.tx.log + [SR.Accepted(pdu)]
    && l'.tx.s.pdu == pdu && !l'.tx.s.stMinTimer && |l'.tx.pending| == |l.tx.pending| + 1
    && l'.tx.s.phase == (if |pdu| <= SF_MAX_PAYLOAD then S.SendingSf else S.WaitingForFc)
  }

  lemma SubmitHandsFirst(l: Link, pdu: seq<byte>)
    requires Drained(l) && IsPdu(pdu) && |pdu| <= l.tx.s.capacity
    ensures Enabled(l, AtSender(SR.Submit(pdu)))
    ensures Submitted(l, Next(l, AtSender(SR.Submit(pdu))), pdu)
  {
    SR.NextKeepsInv(l.tx, SR.Submit(pdu));
    assert [] + [FrameAt(pdu, 0)] == [FrameAt(pdu, 0)];
    assert l.data + [InFlight(FrameAt(pdu, 0), 0)] == [InFlight(FrameAt(pdu, 0), 0)];
  }

  lemma SubmittedOnTrack(l: Link, l': Link, pdu: seq<byte>)
    requires Drained(l) && IsPdu(pdu) && Submitted(l, l', pdu)
    ensures OnTrack(l', pdu, Start(l.delivered, l.aborted + SupersededOnArrival(l), l.tx.log))
    ensures Work(l', pdu) == 6 * CfCount(pdu) + 5 + 2 * |l.tx.pending|
  {
  }

  lemma SubmitStartsTrack(l: Link, pdu: seq<byte>)
    requires Drained(l) && IsPdu(pdu) && |pdu| <= l.tx.s.capacity
    ensures Enabled(l, AtSender(SR.Submit(pdu)))
    ensures var l' := Next(l, AtSender(SR.Submit(pdu)));
            && OnTrack(l', pdu, Start(l.delivered, l.aborted + SupersededOnArrival(l), l.tx.log))
            && Work(l', pdu) == 6 * CfCount(pdu) + 5 + 2 * |l.tx.pending|
  {
    SubmitHandsFirst(l, pdu);
    SubmittedOnTrack(l, Next(l, AtSender(SR.Submit(pdu))), pdu);
  }

  /** Each lossless step brings the transfer nearer to its end. */
  lemma {:induction false} RunStaysOnTrack(l: Link, es: seq<LinkEvent>, pdu: seq<byte>, start: Start)
    requires OnTrack(l, pdu, start) && After(l, es).Some? && forall i :: 0 <= i < |es| ==> Lossless(es[i])
    ensures OnTrack(After(l, es).value, pdu, start)
    ensures |es| + Work(After(l, es).value, pdu) <= Work(l, pdu)
    decreases |es|
  {
    if es != [] {
      var before := es[..|es| - 1];
      RunStaysOnTrack(l, before, pdu, start);
      StepKeepsTrack(After(l, before).value, es[|es| - 1], pdu, start);
    }
  }

  /** From any drained link, however it got there: every lossless run of a transfer is finite, and where it can go no
      further the transfer has its one outcome. */
  lemma LosslessTransferEnds(l: Link, pdu: seq<byte>, es: seq<LinkEvent>)
    requires Drained(l) && IsPdu(pdu) && |pdu| <= l.tx.s.capacity
    requires Enabled(l, AtSender(SR.Submit(pdu)))
    requires After(Next(l, AtSender(SR.Submit(pdu))), es).Some? && forall i :: 0 <= i < |es| ==> Lossless(es[i])
    ensures |es| <= 6 * CfCount(pdu) + 5 + 2 * |l.tx.pending|
    ensures var l' := After(Next(l, AtSender(SR.Submit(pdu))), es).value;
            Stuck(l') ==> Outcome(l', pdu, Start(l.delivered, l.aborted + SupersededOnArrival(l), l.tx.log))
  {
    var l1 := Next(l, AtSender(SR.Submit(pdu)));
    var start := Start(l.delivered, l.aborted + SupersededOnArrival(l), l.tx.log);
    SubmitStartsTrack(l, pdu);
    RunStaysOnTrack(l1, es, pdu, start);
    var l' := After(l1, es).value;
    WorkIsNatural(l', pdu, start);
    if !Outcome(l', pdu, start) {
      var e := SomethingCanHappen(l', pdu, start);
    }
  }

  lemma WorkIsNatural(l: Link, pdu: seq<byte>, start: Start)
    requires OnTrack(l, pdu, start)
    ensures 0 <= Work(l, pdu)
  {
  }

  lemma RunOfThree(l: Link, e1: LinkEvent, e2: LinkEvent, e3: LinkEvent)
    requires Enabled(l, e1) && Enabled(Next(l, e1), e2) && Enabled(Next(Next(l, e1), e2), e3)
    ensures After(l, [e1, e2, e3]) == Some(Next(Next(Next(l, e1), e2), e3))
  {
    assert [e1, e2, e3][..2] == [e1, e2] && [e1, e2][..1] == [e1] && [e1][..0] == [];
    assert After(l, [e1]) == Some(Next(l, e1));
    assert After(l, [e1, e2]) == Some(Next(Next(l, e1), e2));
  }

  /** A short PDU takes two steps: its frame arrives, and is reported. */
  lemma ShortTransfer(l: Link, pdu: seq<byte>, start: Start) returns (e: LinkEvent, l': Link)
    requires SingleOnTrack(l, pdu, start) && l.taken == 0 && l.tx.s.phase == S.SendingSf
    ensures Enabled(l, DeliverData) && Enabled(Next(l, DeliverData), e)
    ensures l' == Next(Next(l, DeliverData), e) && Outcome(l', pdu, start) && l'.rx.capacity == l.rx.capacity
  {
    SingleStep(l, DeliverData, pdu, start);
    var l1 := Next(l, DeliverData);
    e := AtSender(SR.Report(SR.Pending(S.WatchedReport(l1.tx.s), l1.tx.epoch), true));
    SingleStep(l1, e, pdu, start);
    l' := Next(l1, e);
  }

  lemma ShortSubmitted(l: Link, pdu: seq<byte>)
    requires Drained(l) && IsPdu(pdu) && |pdu| <= l.tx.s.capacity && |pdu| <= SF_MAX_PAYLOAD && l.rec.NoReception?
    ensures Enabled(l, AtSender(SR.Submit(pdu)))
    ensures var l' := Next(l, AtSender(SR.Submit(pdu)));
            SingleOnTrack(l', pdu, Start(l.delivered, l.aborted, l.tx.log)) && l'.taken == 0 && l'.tx.s.phase == S.SendingSf
            && l'.rx.capacity == l.rx.capacity
  {
    SubmitStartsTrack(l, pdu);
    assert l.aborted + [] == l.aborted;
  }

  /** The whole run of a short transfer, from any drained link. */
  lemma ShortRun(l: Link, pdu: seq<byte>) returns (es: seq<LinkEvent>)
    requires Drained(l) && IsPdu(pdu) && |pdu| <= l.tx.s.capacity && |pdu| <= SF_MAX_PAYLOAD && l.rec.NoReception?
    ensures After(l, es).Some? && After(l, es).value.rx.capacity == l.rx.capacity
    ensures Outcome(After(l, es).value, pdu, Start(l.delivered, l.aborted, l.tx.log))
  {
    var submit := AtSender(SR.Submit(pdu));
    ShortSubmitted(l, pdu);
    var report, l' := ShortTransfer(Next(l, submit), pdu, Start(l.delivered, l.aborted, l.tx.log));
    RunOfThree(l, submit, DeliverData, report);
    es := [submit, DeliverData, report];
  }

  /** Three bytes sent to a receiver that has room for two: the sender reports them done, the receiver an overflow, and
      nothing is delivered. */
  lemma ShortPduLost() returns (es: seq<LinkEvent>)
    ensures After(Initial(8, 2, 0, 0), es).Some?
    ensures var l := After(Initial(8, 2, 0, 0), es).value;
            && l.delivered == [] && l.aborted == [OverflowReported]
            && l.tx.log == [SR.Accepted([1, 2, 3]), SR.Ended(SR.Finished, Segment([1, 2, 3]))]
  {
    es := ShortRun(Initial(8, 2, 0, 0), [1, 2, 3]);
  }
}
