/**
 One ISO-TP sender and one receiver joined by two first-in first-out channels
 that may lose frames but neither duplicate nor reorder them.

 Everything may happen in any order: losses, late or failed frame reports, any
 armed timer, resets of either end, a driver that reports nothing at all. A run
 starts transfers only where that is harmless, on drained channels for instance.
 */
module IsoTpLink {
  import opened CanTypes
  import opened IsoTpCodec
  import S = IsoTpSender
  import SR = IsoTpSenderRuns
  import R = IsoTpReceiver

  /** A data frame on its way, with its position in the transfer that sent it. */
  datatype InFlight = InFlight(frame: Message, index: nat)

  /**
   `taken` is one more than the position of the last data frame that reached the
   receiver since the current transfer began, zero if none has. `sent` and `delivered`
   are the PDUs accepted from and handed to the two applications, `aborted` the
   failures reported to the receiving one.
   */
  datatype Link = Link(
    tx: SR.Run, rx: R.Receiver, rec: R.Reception,
    data: seq<InFlight>, fc: seq<Message>, taken: nat,
    sent: seq<seq<byte>>, delivered: seq<seq<byte>>, aborted: seq<AbortReason>)

  datatype LinkEvent =
    | AtSender(se: SR.RunEvent)
    | AtReceiver(re: R.Event)
    | DeliverData
    | DeliverFc
    | LoseData(i: nat)
    | LoseFc(i: nat)

  /** What can happen on the link, a transfer starting at any moment the sender is idle. */
  ghost predicate CanOccur(l: Link, e: LinkEvent) {
    && R.Represents(l.rx, l.rec)
    && match e
       case AtSender(s) => !s.FlowControl? && SR.Enabled(l.tx, s)
       case AtReceiver(r) => !r.FrameArrives? && R.CanHappen(l.rx, r)
       case DeliverData => l.data != []
       case DeliverFc => l.fc != [] && SR.Enabled(l.tx, SR.FlowControl(l.fc[0]))
       case LoseData(i) => i < |l.data|
       case LoseFc(i) => i < |l.fc|
  }

  /* ---- Which starts are harmless ---- */

  /** A data frame in flight that opens a reception if it arrives. */
  predicate Opens(rx: R.Receiver, d: InFlight) {
    R.UsableFirst(d.frame) && DecodeFirstFrameTotalLength(d.frame) <= rx.capacity
  }

  predicate IsGrant(fc: Message) {
    var decoded := DecodeFlowControl(fc);
    decoded.Some? && decoded.value.0 == ContinueToSend
  }

  /** A first frame that the receiver has room for is in flight. */
  predicate OpeningInFlight(l: Link) {
    exists i :: 0 <= i < |l.data| && Opens(l.rx, l.data[i])
  }

  /** A ContinueToSend is in flight, or a consecutive frame that may end a block is. */
  predicate GrantInFlight(l: Link) {
    || (exists p :: 0 <= p < |l.fc| && IsGrant(l.fc[p]))
    || (l.rx.blockSize != 0 && exists i :: 0 <= i < |l.data| && DecodeFrameType(l.data[i].frame) == ConsecutiveFrame)
  }

  /** What earlier transfers have left could take consecutive frames of a new one for their own. */
  predicate Exposed(l: Link) {
    OpeningInFlight(l) || (l.rec.Ongoing? && GrantInFlight(l))
  }

  /** A drained link, among others, is not exposed; a single frame can be sent at any time. */
  predicate Harmless(l: Link, pdu: seq<byte>) {
    |pdu| <= SF_MAX_PAYLOAD || !Exposed(l)
  }

  ghost predicate Enabled(l: Link, e: LinkEvent) {
    CanOccur(l, e) && (e.AtSender? && SR.Begins(l.tx, e.se) ==> Harmless(l, e.se.pdu))
  }

  /** The frame `e` makes the sender hand over joins the data channel. */
  function SenderMoves(l: Link, e: SR.RunEvent): Link
    requires SR.Enabled(l.tx, e)
  {
    var tx := SR.Next(l.tx, e);
    var frame := S.React(l.tx.s, SR.MachineEvent(e)).frame;
    var begins := SR.Begins(l.tx, e);
    l.(tx := tx,
       data := if frame.Some? then l.data + [InFlight(frame.value.frame, if begins then 0 else |l.tx.handed|)] else l.data,
       sent := if begins then l.sent + [e.pdu] else l.sent,
       taken := if begins then 0 else l.taken)
  }

  function Aborts(notices: seq<R.Notice>): seq<AbortReason> {
    if notices == [] then []
    else (if notices[0].Aborted? then [notices[0].reason] else []) + Aborts(notices[1..])
  }

  /** The link after the receiver did `step`, which left it with the reception `rec`. */
  function ReceiverDid(l: Link, step: R.Step, rec: R.Reception): Link {
    var pdu := R.DeliveredBy(step.notices);
    l.(rx := step.r,
       rec := rec,
       fc := if step.fc.Some? then l.fc + [step.fc.value.frame] else l.fc,
       delivered := if pdu.Some? then l.delivered + [pdu.value] else l.delivered,
       aborted := l.aborted + Aborts(step.notices))
  }

  /** The flow control and the PDU that `e` makes the receiver hand over. */
  ghost function ReceiverMoves(l: Link, e: R.Event): Link
    requires R.Represents(l.rx, l.rec) && R.CanHappen(l.rx, e)
  {
    ReceiverDid(l, R.React(l.rx, e), R.AnswerTo(l.rec, l.rx, e).rec)
  }

  /** The data channel and the position count once its first frame has been taken off. */
  function Taken(l: Link): Link
    requires l.data != []
  {
    l.(data := l.data[1..], taken := l.data[0].index + 1)
  }

  ghost function Next(l: Link, e: LinkEvent): Link
    requires CanOccur(l, e)
  {
    match e
    case AtSender(s) => SenderMoves(l, s)
    case AtReceiver(r) => ReceiverMoves(l, r)
    case DeliverData =>
      ReceiverMoves(Taken(l), R.FrameArrives(l.data[0].frame))
    case DeliverFc => SenderMoves(l.(fc := l.fc[1..]), SR.FlowControl(l.fc[0]))
    case LoseData(i) => l.(data := l.data[..i] + l.data[i + 1..])
    case LoseFc(i) => l.(fc := l.fc[..i] + l.fc[i + 1..])
  }

  /** The link after a run that starts transfers only where it is harmless. */
  ghost function After(l: Link, es: seq<LinkEvent>): Option<Link>
    decreases |es|
  {
    if es == [] then Some(l)
    else
      var before := After(l, es[..|es| - 1]);
      if before.Some? && Enabled(before.value, es[|es| - 1]) then Some(Next(before.value, es[|es| - 1])) else None
  }

  /** The link after any run, whenever its transfers start. */
  ghost function AfterAny(l: Link, es: seq<LinkEvent>): Option<Link>
    decreases |es|
  {
    if es == [] then Some(l)
    else
      var before := AfterAny(l, es[..|es| - 1]);
      if before.Some? && CanOccur(before.value, es[|es| - 1]) then Some(Next(before.value, es[|es| - 1])) else None
  }

  /** Two idle ends, of any capacities, block size and separation time. */
  function Initial(txCapacity: nat, rxCapacity: nat, blockSize: byte, separationTime: byte): Link {
    Link(SR.Initial(txCapacity),
         R.Receiver(false, [], rxCapacity, 0, 1, 0, blockSize, separationTime, 0, false), R.NoReception,
         [], [], 0, [], [], [])
  }
}
