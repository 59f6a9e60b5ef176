/**
 Two runs in which a transfer starts where it is harmful, and two PDUs are
 spliced together: with a flow control of an aborted transfer still in flight,
 and with nothing but the first frame of one.
 */
module IsoTpLinkStaleFlowControl {
  import opened CanTypes
  import opened IsoTpCodec
  import opened IsoTpLink
  import S = IsoTpSender
  import SR = IsoTpSenderRuns
  import R = IsoTpReceiver

  const OLD: seq<byte> := [1, 1, 1, 1, 1, 1, 1, 1]
  const NEW: seq<byte> := [2, 2, 2, 2, 2, 2, 2, 2]

  function FirstOld(): Message {
    [0x10, 8, 1, 1, 1, 1, 1, 1]
  }

  function Waiting(pdu: seq<byte>, transfer: byte): S.Sender {
    S.Sender(S.WaitingForFc, pdu, 8, 6, 1, 0, 0, 0, 0, transfer, false, true, false)
  }

  function Receiving(): R.Receiver {
    R.Receiver(true, OLD[..6], 8, 8, 1, 0, 0, 0, 1, true)
  }

  /** The link after each event of the prelude. */
  function Submitted(): Link {
    Initial(8, 8, 0, 0).(
      tx := SR.Run(Waiting(OLD, 1), 1, multiset{SR.Pending(S.AwaitFcDone(1), 1)}, [FirstOld()], [SR.Accepted(OLD)]),
      data := [InFlight(FirstOld(), 0)], sent := [OLD])
  }

  function Arrived(): Link {
    Submitted().(rx := Receiving(), rec := R.Ongoing(FirstOld(), []), data := [], taken := 1,
                 fc := [FlowControlOf(ContinueToSend, 0, 0)])
  }

  function GivenUp(): Link {
    Arrived().(tx := SR.Run(S.Cleared(Waiting(OLD, 1)), 2, multiset{SR.Pending(S.AwaitFcDone(1), 1)}, [FirstOld()],
                            [SR.Accepted(OLD), SR.Ended(SR.Failed(NBsTimeout), [FirstOld()])]))
  }

  lemma SubmitOld()
    ensures CanOccur(Initial(8, 8, 0, 0), AtSender(SR.Submit(OLD)))
    ensures Next(Initial(8, 8, 0, 0), AtSender(SR.Submit(OLD))) == Submitted()
  {
    assert FirstFrameOf(OLD) == FirstOld();
    assert [] + [FirstOld()] == [FirstOld()];
  }

  lemma OldArrives()
    ensures CanOccur(Submitted(), DeliverData)
    ensures Next(Submitted(), DeliverData) == Arrived()
    ensures R.Represents(Receiving(), R.Ongoing(FirstOld(), []))
  {
    var frame := FirstOld();
    assert DecodeFrameType(frame) == FirstFrame && DecodeFirstFrameTotalLength(frame) == 8;
    assert R.UsableFirst(frame) && !R.UsableSingle(frame);
    assert frame[2..] == OLD[..6];
    assert R.Collected(frame, []) == OLD[..6];
    assert Submitted().data[1..] == [];
    assert [] + [FlowControlOf(ContinueToSend, 0, 0)] == [FlowControlOf(ContinueToSend, 0, 0)];
    assert Aborts([]) == [];
  }

  lemma OldGivenUp()
    ensures CanOccur(Arrived(), AtSender(SR.NBs))
    ensures Next(Arrived(), AtSender(SR.NBs)) == GivenUp()
  {
    OldArrives();
  }

  /** NEW starts while the flow control of OLD is in flight. */
  function Started(): Link {
    var tx := SR.Run(Waiting(NEW, 3), 3,
                     multiset{SR.Pending(S.AwaitFcDone(1), 1), SR.Pending(S.AwaitFcDone(3), 3)}, [FirstFrameOf(NEW)],
                     [SR.Accepted(OLD), SR.Ended(SR.Failed(NBsTimeout), [FirstOld()]), SR.Accepted(NEW)]);
    GivenUp().(tx := tx, data := [InFlight(FirstFrameOf(NEW), 0)], sent := [OLD, NEW], taken := 0)
  }

  /** The sender's side of the start. */
  lemma SenderTakesNew(tx: SR.Run)
    requires tx == GivenUp().tx
    ensures SR.Enabled(tx, SR.Submit(NEW)) && SR.Begins(tx, SR.Submit(NEW))
    ensures S.React(tx.s, S.Send(NEW)) == S.Step(Waiting(NEW, 3), Some(S.Handed(FirstFrameOf(NEW), S.AwaitFcDone(3))), None)
  {
  }

  lemma NewIsLogged(tx: SR.Run)
    requires tx == GivenUp().tx
    ensures SR.NextBy(tx, SR.Submit(NEW), S.Step(Waiting(NEW, 3), Some(S.Handed(FirstFrameOf(NEW), S.AwaitFcDone(3))), None)) == Started().tx
  {
    assert [] + [FirstFrameOf(NEW)] == [FirstFrameOf(NEW)];
  }

  lemma NewIsHandedOver(l: Link)
    requires l.tx == GivenUp().tx && l.sent == [OLD]
    ensures SR.Enabled(l.tx, SR.Submit(NEW))
    ensures SenderMoves(l, SR.Submit(NEW)) ==
              l.(tx := Started().tx, data := l.data + [InFlight(FirstFrameOf(NEW), 0)], sent := [OLD, NEW], taken := 0)
  {
    SenderTakesNew(l.tx);
    NewIsLogged(l.tx);
    assert [OLD] + [NEW] == [OLD, NEW];
  }

  lemma NewStarts()
    ensures CanOccur(GivenUp(), AtSender(SR.Submit(NEW)))
    ensures Next(GivenUp(), AtSender(SR.Submit(NEW))) == Started()
  {
    OldArrives();
    NewIsHandedOver(GivenUp());
    assert [] + [InFlight(FirstFrameOf(NEW), 0)] == [InFlight(FirstFrameOf(NEW), 0)];
  }

  lemma GivenUpIsExposed()
    ensures Exposed(GivenUp())
  {
    assert DecodeFlowControl(GivenUp().fc[0]) == Some((ContinueToSend, 0, 0));
    assert IsGrant(GivenUp().fc[0]);
  }

  /** Its first frame is lost. */
  function Lost(): Link {
    Started().(data := [])
  }

  lemma NewIsLost()
    ensures CanOccur(Started(), LoseData(0)) && Next(Started(), LoseData(0)) == Lost()
  {
    OldArrives();
  }

  /** The grant of OLD serves NEW: its first consecutive frame is on its way to the reception of OLD. */
  function Granted(): S.Sender {
    S.Sender(S.SendingCf, NEW, 8, 8, 2, 0, 0, 0, 0, 3, true, false, false)
  }

  lemma OldGrantServes(fc: Message)
    requires fc == FlowControlOf(ContinueToSend, 0, 0)
    ensures S.OnFlowControl(Waiting(NEW, 3), fc)
              == S.Step(Granted(), Some(S.Handed([0x21, 2, 2], S.ConsecutiveDone(3, true))), None)
  {
    assert DecodeFlowControl(fc) == Some((ContinueToSend, 0, 0));
    assert ConsecutiveFrameOf(1, NEW[6..]) == [0x21, 2, 2];
  }

  lemma OldGrantServesNew(l: Link)
    requires l.tx.s == Waiting(NEW, 3) && l.tx.handed == [FirstFrameOf(NEW)] && l.data == []
    requires l.rx == Receiving() && l.rec == R.Ongoing(FirstOld(), []) && l.fc == [FlowControlOf(ContinueToSend, 0, 0)]
    ensures CanOccur(l, DeliverFc)
    ensures var l' := Next(l, DeliverFc);
            && l'.rx == l.rx && l'.rec == l.rec && l'.sent == l.sent && l'.delivered == l.delivered
            && l'.data == [InFlight([0x21, 2, 2], 1)]
  {
    OldArrives();
    OldGrantServes(l.fc[0]);
    assert [] + [InFlight([0x21, 2, 2], 1)] == [InFlight([0x21, 2, 2], 1)];
  }

  lemma TailIsAppended(frame: Message)
    requires frame == [0x21, 2, 2]
    ensures DecodeFrameType(frame) == ConsecutiveFrame && R.LongEnough(Receiving(), frame)
    ensures DecodeConsecutiveFrameSn(frame) == 1 && R.Appended(Receiving(), frame).buffer == OLD[..6] + NEW[6..]
  {
  }

  lemma NewCompletesOld(l: Link)
    requires l.rx == Receiving() && l.rec == R.Ongoing(FirstOld(), []) && l.delivered == []
    requires l.data == [InFlight([0x21, 2, 2], 1)]
    ensures CanOccur(l, DeliverData)
    ensures Next(l, DeliverData).delivered == [OLD[..6] + NEW[6..]] && Next(l, DeliverData).sent == l.sent
  {
    OldArrives();
    var frame: Message := [0x21, 2, 2];
    TailIsAppended(frame);
    assert R.OnFrame(l.rx, frame).notices == [R.Delivered(OLD[..6] + NEW[6..])];
  }

  lemma SplicedIsNoSubsequence()
    ensures !IsSubsequence([OLD[..6] + NEW[6..]], [OLD, NEW])
  {
    var spliced := OLD[..6] + NEW[6..];
    assert spliced[0] == 1 && spliced[7] == 2 && OLD[7] == 1 && NEW[0] == 2;
    var first: seq<seq<byte>> := [OLD];
    assert first[..0] == [] && first[0] != spliced;
    assert !IsSubsequence([spliced], first);
    var both: seq<seq<byte>> := [OLD, NEW];
    assert both[..1] == first && both[1] != spliced;
  }

  /** One event further in a run. */
  lemma AnyStep(es: seq<LinkEvent>, n: nat, l: Link)
    requires n < |es| && AfterAny(Initial(8, 8, 0, 0), es[..n]) == Some(l) && CanOccur(l, es[n])
    ensures AfterAny(Initial(8, 8, 0, 0), es[..n + 1]) == Some(Next(l, es[n]))
  {
    assert es[..n + 1][..n] == es[..n];
  }

  lemma SubmittedAfter(es: seq<LinkEvent>)
    requires es != [] && es[0] == AtSender(SR.Submit(OLD))
    ensures AfterAny(Initial(8, 8, 0, 0), es[..1]) == Some(Submitted())
  {
    SubmitOld();
    assert es[..0] == [];
    AnyStep(es, 0, Initial(8, 8, 0, 0));
  }

  /** From a link in which the grant of OLD is about to reach the sender of NEW, to the splice. */
  lemma GrantSplices(es: seq<LinkEvent>, n: nat, l: Link)
    requires |es| == n + 2 && es[n] == DeliverFc && es[n + 1] == DeliverData
    requires AfterAny(Initial(8, 8, 0, 0), es[..n]) == Some(l) && l.sent == [OLD, NEW] && l.delivered == []
    requires l.tx.s == Waiting(NEW, 3) && l.tx.handed == [FirstFrameOf(NEW)] && l.data == []
    requires l.rx == Receiving() && l.rec == R.Ongoing(FirstOld(), []) && l.fc == [FlowControlOf(ContinueToSend, 0, 0)]
    ensures SplicedAfter(es)
  {
    OldGrantServesNew(l);
    AnyStep(es, n, l);
    NewCompletesOld(Next(l, DeliverFc));
    AnyStep(es, n + 1, Next(l, DeliverFc));
    assert es[..n + 2] == es;
    SplicedIsNoSubsequence();
  }

  /** The run is possible, and the receiver is handed the head of OLD with the tail of NEW. */
  ghost predicate SplicedAfter(es: seq<LinkEvent>) {
    var end := AfterAny(Initial(8, 8, 0, 0), es);
    && end.Some? && end.value.sent == [OLD, NEW] && end.value.delivered == [OLD[..6] + NEW[6..]]
    && !IsSubsequence(end.value.delivered, end.value.sent)
  }

  function StaleGrantRun(): seq<LinkEvent> {
    [AtSender(SR.Submit(OLD)), DeliverData, AtSender(SR.NBs), AtSender(SR.Submit(NEW)), LoseData(0), DeliverFc, DeliverData]
  }

  lemma GivenUpAfter()
    ensures AfterAny(Initial(8, 8, 0, 0), StaleGrantRun()[..3]) == Some(GivenUp())
  {
    SubmittedAfter(StaleGrantRun());
    OldArrives();
    AnyStep(StaleGrantRun(), 1, Submitted());
    OldGivenUp();
    AnyStep(StaleGrantRun(), 2, Arrived());
  }

  lemma LostAfter()
    ensures AfterAny(Initial(8, 8, 0, 0), StaleGrantRun()[..5]) == Some(Lost())
  {
    GivenUpAfter();
    NewStarts();
    AnyStep(StaleGrantRun(), 3, GivenUp());
    NewIsLost();
    AnyStep(StaleGrantRun(), 4, Started());
  }

  /** The flow control of a given-up transfer is in flight, NEW starts anyway and its first frame is lost. */
  lemma UndrainedStartSplices()
    ensures AfterAny(Initial(8, 8, 0, 0), StaleGrantRun()[..3]) == Some(GivenUp())
    ensures Exposed(GivenUp()) && GivenUp().tx.s.phase == S.Idle && GivenUp().data == []
    ensures SplicedAfter(StaleGrantRun())
  {
    GivenUpAfter();
    GivenUpIsExposed();
    LostAfter();
    GrantSplices(StaleGrantRun(), 5, Lost());
  }

  /* ---- The data half: no flow control in flight ---- */

  /** The sender gives up before the first frame of OLD has arrived. */
  function Abandoned(): Link {
    Submitted().(tx := GivenUp().tx)
  }

  lemma OldAbandoned()
    ensures CanOccur(Submitted(), AtSender(SR.NBs))
    ensures Next(Submitted(), AtSender(SR.NBs)) == Abandoned()
  {
  }

  function Overlapping(): Link {
    Abandoned().(tx := Started().tx, data := [InFlight(FirstOld(), 0), InFlight(FirstFrameOf(NEW), 0)], sent := [OLD, NEW], taken := 0)
  }

  lemma NewOverlaps()
    ensures CanOccur(Abandoned(), AtSender(SR.Submit(NEW))) && Exposed(Abandoned())
    ensures Next(Abandoned(), AtSender(SR.Submit(NEW))) == Overlapping()
  {
    NewIsHandedOver(Abandoned());
    assert [InFlight(FirstOld(), 0)] + [InFlight(FirstFrameOf(NEW), 0)] == [InFlight(FirstOld(), 0), InFlight(FirstFrameOf(NEW), 0)];
    var frame := FirstOld();
    assert DecodeFrameType(frame) == FirstFrame && DecodeFirstFrameTotalLength(frame) == 8;
    assert Opens(Abandoned().rx, Abandoned().data[0]);
  }

  function OldAlone(): Link {
    Overlapping().(data := [InFlight(FirstOld(), 0)])
  }

  lemma NewIsLostBehind()
    ensures CanOccur(Overlapping(), LoseData(1)) && Next(Overlapping(), LoseData(1)) == OldAlone()
  {
  }

  lemma OldArrivesLate()
    ensures CanOccur(OldAlone(), DeliverData)
    ensures Next(OldAlone(), DeliverData) == Lost().(taken := 1)
  {
    OldArrives();
  }

  function StaleFrameRun(): seq<LinkEvent> {
    [AtSender(SR.Submit(OLD)), AtSender(SR.NBs), AtSender(SR.Submit(NEW)), LoseData(1), DeliverData, DeliverFc, DeliverData]
  }

  lemma AbandonedAfter()
    ensures AfterAny(Initial(8, 8, 0, 0), StaleFrameRun()[..2]) == Some(Abandoned())
  {
    SubmittedAfter(StaleFrameRun());
    OldAbandoned();
    AnyStep(StaleFrameRun(), 1, Submitted());
  }

  lemma OldArrivedAfter()
    ensures AfterAny(Initial(8, 8, 0, 0), StaleFrameRun()[..5]) == Some(Lost().(taken := 1))
  {
    OldAloneAfter();
    OldArrivesLate();
    AnyStep(StaleFrameRun(), 4, OldAlone());
  }

  lemma OverlappingAfter()
    ensures AfterAny(Initial(8, 8, 0, 0), StaleFrameRun()[..3]) == Some(Overlapping())
  {
    AbandonedAfter();
    NewOverlaps();
    AnyStep(StaleFrameRun(), 2, Abandoned());
  }

  lemma OldAloneAfter()
    ensures AfterAny(Initial(8, 8, 0, 0), StaleFrameRun()[..4]) == Some(OldAlone())
  {
    OverlappingAfter();
    NewIsLostBehind();
    AnyStep(StaleFrameRun(), 3, Overlapping());
  }

  /** Only the first frame of OLD is in flight, no flow control: NEW starts, its first frame is lost, the one of OLD
      arrives, and its grant serves NEW. */
  lemma UndrainedDataSplices()
    ensures AfterAny(Initial(8, 8, 0, 0), StaleFrameRun()[..2]) == Some(Abandoned())
    ensures Exposed(Abandoned()) && Abandoned().tx.s.phase == S.Idle && Abandoned().fc == []
    ensures SplicedAfter(StaleFrameRun())
  {
    NewOverlaps();
    AbandonedAfter();
    OldArrivedAfter();
    GrantSplices(StaleFrameRun(), 5, Lost().(taken := 1));
  }
}
