/**
 The transmit state machine of ISO-TP (IsoTpSender.cpp).

 `Sender` is the value of the object's fields, `React` what each event does to
 it, and class `IsoTpSender` the object itself. A closure handed to the lower
 layer is the value it captured (`FrameDone`); the frames handed over and the
 callbacks run are what a step returns.
 */
module IsoTpSender {
  import opened CanTypes
  import opened IsoTpCodec

  const NWFT_MAX := 16

  datatype Phase = Idle | SendingSf | WaitingForFc | SendingCf

  /** The completion closure of a frame: which transfer it belongs to and which of the three lambdas it is. */
  datatype FrameDone =
    | SingleDone(transfer: byte)
    | AwaitFcDone(transfer: byte)
    | ConsecutiveDone(transfer: byte, allSent: bool)

  datatype Handed = Handed(frame: Message, onDone: FrameDone)

  datatype Notice = Done | Aborted(reason: AbortReason)

  datatype Sender = Sender(
    phase: Phase, pdu: seq<byte>, capacity: nat, bytesSent: nat, sn: byte,
    blockSize: byte, blocksRemaining: byte, stMin: byte, waitCount: byte, transfer: byte,
    nAs: bool, nBs: bool, stMinTimer: bool)

  /** The sender after a step, the frame the step handed over, and the callback it ran. */
  datatype Step = Step(s: Sender, frame: Option<Handed>, notice: Option<Notice>)

  datatype Event =
    | Send(pdu: seq<byte>)
    | FlowControlArrives(frame: Message)
    | FrameReport(done: FrameDone, success: bool)
    | NAsExpires
    | NBsExpires
    | StMinExpires
    | Reset

  function Quiet(s: Sender): Step {
    Step(s, None, None)
  }

  function Cleared(s: Sender): Sender {
    s.(nAs := false, nBs := false, stMinTimer := false, phase := Idle, transfer := Next8(s.transfer))
  }

  function Abort(s: Sender, reason: AbortReason): Step {
    Step(Cleared(s), None, Some(Aborted(reason)))
  }

  function Complete(s: Sender): Step {
    Step(s.(phase := Idle, transfer := Next8(s.transfer)), None, Some(Done))
  }

  predicate Accepts(s: Sender, pdu: seq<byte>) {
    IsPdu(pdu) && s.phase == Idle && |pdu| <= s.capacity
  }

  /** A sender loaded with `pdu`, nothing of it sent. */
  function Loaded(s: Sender, pdu: seq<byte>): Sender {
    s.(pdu := pdu, transfer := Next8(s.transfer), bytesSent := 0, sn := 1, blockSize := 0,
       blocksRemaining := 0, stMin := 0, waitCount := 0)
  }

  function FirstOrSingle(s: Sender): Step
    requires IsPdu(s.pdu)
  {
    if |s.pdu| <= SF_MAX_PAYLOAD then
      Step(s.(phase := SendingSf, nAs := true), Some(Handed(SingleFrameOf(s.pdu), SingleDone(s.transfer))), None)
    else
      Step(s.(phase := WaitingForFc, bytesSent := FF_FIRST_DATA, nBs := true),
           Some(Handed(FirstFrameOf(s.pdu), AwaitFcDone(s.transfer))), None)
  }

  function Start(s: Sender, pdu: seq<byte>): Step
    requires Accepts(s, pdu)
  {
    FirstOrSingle(Loaded(s, pdu))
  }

  /** The sender with the bytes of one more consecutive frame counted as sent. */
  function Counted(s: Sender): Sender
    requires s.bytesSent <= |s.pdu|
  {
    var s1 := s.(sn := (s.sn + 1) % 0x10, bytesSent := s.bytesSent + Min(CF_MAX_DATA, |s.pdu| - s.bytesSent));
    if s1.bytesSent < |s.pdu| && s.blockSize != 0 && s.blocksRemaining > 0
    then s1.(blocksRemaining := s.blocksRemaining - 1) else s1
  }

  function NextCf(s: Sender): Step
    requires s.bytesSent <= |s.pdu|
  {
    var frame := ConsecutiveFrameOf(s.sn, s.pdu[s.bytesSent..]);
    var s' := Counted(s);
    var allSent := s'.bytesSent >= |s.pdu|;
    if !allSent && s.blockSize != 0 && s'.blocksRemaining == 0 then
      Step(s'.(phase := WaitingForFc, nBs := true), Some(Handed(frame, AwaitFcDone(s.transfer))), None)
    else
      Step(s'.(nAs := true), Some(Handed(frame, ConsecutiveDone(s.transfer, allSent))), None)
  }

  function ScheduleCf(s: Sender): Step
    requires s.bytesSent <= |s.pdu|
  {
    if StMinMicros(s.stMin) > 0 then Quiet(s.(stMinTimer := true)) else NextCf(s)
  }

  /** The sender a ContinueToSend leaves behind before it schedules the next frame. */
  function Granted(s: Sender, bs: byte, st: byte): Sender {
    s.(waitCount := 0, nBs := false, blockSize := bs, blocksRemaining := bs, stMin := st, phase := SendingCf)
  }

  function OnFlowControl(s: Sender, frame: Message): Step
    requires s.bytesSent <= |s.pdu|
  {
    if s.phase != WaitingForFc then Quiet(s)
    else
      match DecodeFlowControl(frame)
      case None => Abort(s, UnexpectedFrame)
      case Some((Overflow, _, _)) => Abort(s, OverflowReported)
      case Some((Wait, _, _)) =>
        var w := Next8(s.waitCount);
        if w > NWFT_MAX then Abort(s.(waitCount := w), WaitLimitExceeded)
        else Quiet(s.(waitCount := w, nBs := true))
      case Some((ContinueToSend, bs, st)) =>
        ScheduleCf(Granted(s, bs, st))
  }

  function OnFrameReport(s: Sender, done: FrameDone, success: bool): Step
    requires s.bytesSent <= |s.pdu|
  {
    if done.transfer != s.transfer then Quiet(s)
    else
      match done
      case SingleDone(_) =>
        if success then Complete(s.(nAs := false)) else Abort(s.(nAs := false), SendFailed)
      case AwaitFcDone(_) =>
        if success then Quiet(s) else Abort(s, SendFailed)
      case ConsecutiveDone(_, allSent) =>
        if !success then Abort(s.(nAs := false), SendFailed)
        else if allSent then Complete(s.(nAs := false))
        else if s.phase == SendingCf then ScheduleCf(s.(nAs := false))
        else Quiet(s.(nAs := false))
  }

  /** A timer fires only while armed; everything else may happen at any time. */
  predicate CanHappen(s: Sender, e: Event) {
    match e
    case NAsExpires => s.nAs
    case NBsExpires => s.nBs
    case StMinExpires => s.stMinTimer
    case _ => true
  }

  function React(s: Sender, e: Event): Step
    requires s.bytesSent <= |s.pdu| && CanHappen(s, e)
  {
    match e
    case Send(pdu) => if Accepts(s, pdu) then Start(s, pdu) else Quiet(s)
    case FlowControlArrives(frame) => OnFlowControl(s, frame)
    case FrameReport(done, success) => OnFrameReport(s, done, success)
    case NAsExpires => Abort(s, NAsTimeout)
    case NBsExpires => Abort(s, NBsTimeout)
    case StMinExpires => NextCf(s.(stMinTimer := false))
    case Reset => Quiet(Cleared(s))
  }

  /** A frame the lower layer refuses is reported failed from inside the call that handed it over. */
  function Settle(step: Step, accepted: bool): Step
    requires step.s.bytesSent <= |step.s.pdu|
  {
    if step.frame.Some? && !accepted then OnFrameReport(step.s, step.frame.value.onDone, false) else step
  }

  /* ---- Invariant ---- */

  /** Consecutive frames handed over so far. */
  function CfsSent(s: Sender): nat {
    s.bytesSent / CF_MAX_DATA
  }

  predicate TimersMatchPhase(s: Sender) {
    match s.phase
    case Idle => !s.nAs && !s.nBs && !s.stMinTimer
    case SendingSf => s.nAs && !s.nBs && !s.stMinTimer
    case WaitingForFc => !s.nAs && s.nBs && !s.stMinTimer
    case SendingCf => !s.nBs && s.nAs != s.stMinTimer
  }

  function ArmedTimers(s: Sender): nat {
    (if s.nAs then 1 else 0) + (if s.nBs then 1 else 0) + (if s.stMinTimer then 1 else 0)
  }

  predicate Valid(s: Sender) {
    && s.bytesSent <= |s.pdu| <= s.capacity
    && TimersMatchPhase(s)
    && (s.phase != Idle ==> IsPdu(s.pdu) && s.waitCount <= NWFT_MAX)
    && (s.phase == SendingSf ==> |s.pdu| <= SF_MAX_PAYLOAD && s.bytesSent == 0)
    && (s.phase == WaitingForFc || s.phase == SendingCf ==>
          && |s.pdu| > SF_MAX_PAYLOAD
          && s.bytesSent == BytesAfter(s.pdu, CfsSent(s))
          && s.sn == (CfsSent(s) + 1) % 0x10)
    && (s.phase == WaitingForFc || s.stMinTimer ==> s.bytesSent < |s.pdu|)
    && (s.phase == SendingCf && s.blockSize != 0 && s.bytesSent < |s.pdu| ==> 0 < s.blocksRemaining <= s.blockSize)
  }

  /** The one outstanding report that N_As watches over. */
  function WatchedReport(s: Sender): FrameDone {
    if s.phase == SendingSf then SingleDone(s.transfer)
    else ConsecutiveDone(s.transfer, s.bytesSent >= |s.pdu|)
  }

  /** A report that can reach the sender: of another transfer, or of a frame this transfer is waiting for. */
  predicate Legitimate(s: Sender, e: Event) {
    e.FrameReport? && e.done.transfer == s.transfer ==>
      if e.done.AwaitFcDone? then s.phase == WaitingForFc || s.phase == SendingCf
      else s.nAs && e.done == WatchedReport(s)
  }

  lemma NextCfKeepsValid(s: Sender)
    requires Valid(s.(stMinTimer := true, nAs := false)) && s.phase == SendingCf && !s.stMinTimer && !s.nAs
    ensures Valid(NextCf(s).s)
    ensures var step := NextCf(s);
            && step.frame.Some? && step.notice.None?
            && step.s.transfer == s.transfer && step.s.pdu == s.pdu
            && CfsSent(step.s) == CfsSent(s) + 1 <= CfCount(s.pdu)
            && step.frame.value.frame == FrameAt(s.pdu, CfsSent(s) + 1)
            && (step.s.bytesSent == |s.pdu| <==> CfsSent(s) + 1 == CfCount(s.pdu))
            && (step.s.phase == WaitingForFc || (step.s.phase == SendingCf && step.s.nAs))
  {
    OneMoreCf(s.pdu, s.bytesSent, CfsSent(s));
    SameFrame(s.pdu, s.bytesSent, CfsSent(s), s.sn);
    CountedIs(s);
  }

  /** One more consecutive frame, in bytes. */
  lemma OneMoreCf(pdu: seq<byte>, bytesSent: nat, k: nat)
    requires SF_MAX_PAYLOAD < |pdu| && bytesSent == BytesAfter(pdu, k) < |pdu|
    ensures bytesSent == FF_FIRST_DATA + CF_MAX_DATA * k && k + 1 <= CfCount(pdu)
    ensures bytesSent + Min(CF_MAX_DATA, |pdu| - bytesSent) == BytesAfter(pdu, k + 1)
    ensures BytesAfter(pdu, k + 1) / CF_MAX_DATA == k + 1
    ensures BytesAfter(pdu, k + 1) == |pdu| <==> k + 1 == CfCount(pdu)
  {
  }

  lemma SameFrame(pdu: seq<byte>, bytesSent: nat, k: nat, sn: byte)
    requires IsPdu(pdu) && k + 1 <= CfCount(pdu) && bytesSent == BytesAfter(pdu, k) && sn == (k + 1) % 0x10
    ensures ConsecutiveFrameOf(sn, pdu[bytesSent..]) == FrameAt(pdu, k + 1)
  {
    assert sn % 0x10 == sn;
  }

  lemma CountedIs(s: Sender)
    requires s.bytesSent <= |s.pdu| && s.sn == (CfsSent(s) + 1) % 0x10
    requires (s.bytesSent + Min(CF_MAX_DATA, |s.pdu| - s.bytesSent)) / CF_MAX_DATA == CfsSent(s) + 1
    ensures CfsSent(Counted(s)) == CfsSent(s) + 1 && Counted(s).sn == (CfsSent(Counted(s)) + 1) % 0x10
  {
  }

  lemma ScheduleKeepsValid(s: Sender)
    requires Valid(s.(stMinTimer := true, nAs := false)) && s.phase == SendingCf && !s.stMinTimer && !s.nAs
    ensures Valid(ScheduleCf(s).s)
  {
    NextCfKeepsValid(s);
  }

  lemma FlowControlKeepsValid(s: Sender, frame: Message)
    requires Valid(s)
    ensures Valid(OnFlowControl(s, frame).s)
  {
    if s.phase == WaitingForFc {
      match DecodeFlowControl(frame) {
        case Some((ContinueToSend, bs, st)) => ScheduleKeepsValid(Granted(s, bs, st));
        case _ =>
      }
    }
  }

  lemma ReportKeepsValid(s: Sender, done: FrameDone, success: bool)
    requires Valid(s) && Legitimate(s, FrameReport(done, success))
    ensures Valid(OnFrameReport(s, done, success).s)
  {
    if done.transfer == s.transfer && done.ConsecutiveDone? && success && !done.allSent {
      ScheduleKeepsValid(s.(nAs := false));
    }
  }

  /** Every event keeps the invariant: among other things exactly one timer of a busy sender is armed, none of an idle one. */
  lemma ReactKeepsValid(s: Sender, e: Event)
    requires Valid(s) && CanHappen(s, e) && Legitimate(s, e)
    ensures Valid(React(s, e).s)
  {
    match e {
      case FlowControlArrives(frame) => FlowControlKeepsValid(s, frame);
      case FrameReport(done, success) => ReportKeepsValid(s, done, success);
      case StMinExpires => NextCfKeepsValid(s.(stMinTimer := false));
      case _ =>
    }
  }

  /* ---- Progress whatever the peer sends ---- */

  /** Events a transfer can still undergo, in a lexicographic order folded into one number:
      frames left, then phase, then waits left. */
  function Rank(s: Sender): nat
    requires Valid(s)
  {
    var left := CfCount(s.pdu) - CfsSent(s);
    match s.phase
    case Idle => 0
    case SendingSf => 1
    case WaitingForFc => (NWFT_MAX + 2) * left + NWFT_MAX + 1 - s.waitCount
    case SendingCf => if s.stMinTimer then (NWFT_MAX + 2) * left else (NWFT_MAX + 2) * left + 1
  }

  lemma NextCfRank(s: Sender)
    requires Valid(s.(stMinTimer := true, nAs := false)) && s.phase == SendingCf && !s.stMinTimer && !s.nAs
    ensures Valid(NextCf(s).s)
    ensures Rank(NextCf(s).s) < (NWFT_MAX + 2) * (CfCount(s.pdu) - CfsSent(s))
  {
    NextCfKeepsValid(s);
    var s' := NextCf(s).s;
    assert CfCount(s.pdu) - CfsSent(s') == CfCount(s.pdu) - CfsSent(s) - 1;
  }

  lemma ScheduleDescends(s: Sender)
    requires Valid(s.(stMinTimer := true, nAs := false)) && s.phase == SendingCf && !s.stMinTimer && !s.nAs
    ensures Valid(ScheduleCf(s).s)
    ensures Rank(ScheduleCf(s).s) <= (NWFT_MAX + 2) * (CfCount(s.pdu) - CfsSent(s))
  {
    NextCfRank(s);
  }

  lemma FlowControlDescends(s: Sender, frame: Message)
    requires Valid(s) && s.phase == WaitingForFc
    ensures Valid(OnFlowControl(s, frame).s)
    ensures Rank(OnFlowControl(s, frame).s) < Rank(s)
  {
    FlowControlKeepsValid(s, frame);
    match DecodeFlowControl(frame) {
      case Some((ContinueToSend, bs, st)) => ScheduleDescends(Granted(s, bs, st));
      case _ =>
    }
  }

  lemma ReportDescends(s: Sender, done: FrameDone, success: bool)
    requires Valid(s) && Legitimate(s, FrameReport(done, success)) && s.phase != Idle
    ensures Valid(OnFrameReport(s, done, success).s)
    ensures OnFrameReport(s, done, success).s != s ==> Rank(OnFrameReport(s, done, success).s) < Rank(s)
  {
    ReportKeepsValid(s, done, success);
    if done.transfer == s.transfer && done.ConsecutiveDone? && success && !done.allSent {
      ScheduleDescends(s.(nAs := false));
    }
  }

  /** Whatever happens to a busy sender either leaves it as it was or brings its transfer nearer to the end. */
  lemma ReactDescends(s: Sender, e: Event)
    requires Valid(s) && CanHappen(s, e) && Legitimate(s, e) && s.phase != Idle
    ensures Valid(React(s, e).s)
    ensures React(s, e).s != s ==> Rank(React(s, e).s) < Rank(s)
  {
    match e {
      case FlowControlArrives(frame) =>
        if s.phase == WaitingForFc { FlowControlDescends(s, frame); }
      case FrameReport(done, success) => ReportDescends(s, done, success);
      case StMinExpires => NextCfRank(s.(stMinTimer := false));
      case _ =>
    }
  }

  /* ---- The object ---- */

  /**
   The sender as an object. `accepted` says whether the lower layer takes the
   frame that a call hands over; a call hands over at most one.
   */
  class IsoTpSender {
    var phase: Phase
    var bytesSent: nat
    var sequenceNumber: byte
    var blockSize: byte
    var blocksRemaining: byte
    var stMinByte: byte
    var waitCount: byte
    var transfer: byte
    var pduBuffer: seq<byte>
    const capacity: nat
    var nAsTimer: bool
    var nBsTimer: bool
    var stMinTimer: bool

    /** Frames handed to the lower layer and taken by it, and callbacks run, oldest first. */
    var handed: seq<Handed>
    var notices: seq<Notice>

    constructor (capacity: nat)
      ensures Abs() == Sender(Idle, [], capacity, 0, 1, 0, 0, 0, 0, 0, false, false, false)
      ensures handed == [] && notices == []
      ensures Valid(Abs())
    {
      phase, bytesSent, sequenceNumber, blockSize, blocksRemaining, stMinByte := Idle, 0, 1, 0, 0, 0;
      waitCount, transfer, pduBuffer := 0, 0, [];
      this.capacity := capacity;
      nAsTimer, nBsTimer, stMinTimer := false, false, false;
      handed, notices := [], [];
    }

    ghost function Abs(): Sender
      reads this
    {
      Sender(phase, pduBuffer, capacity, bytesSent, sequenceNumber, blockSize, blocksRemaining,
             stMinByte, waitCount, transfer, nAsTimer, nBsTimer, stMinTimer)
    }

    /** The object went from `before` to where `step` leads, with exactly its frame and its callback. */
    twostate predicate Did(step: Step, accepted: bool)
      requires step.s.bytesSent <= |step.s.pdu|
      reads this
    {
      && Abs() == Settle(step, accepted).s
      && handed == old(handed) + (if step.frame.Some? && accepted then [step.frame.value] else [])
      && notices == old(notices) + (if Settle(step, accepted).notice.Some? then [Settle(step, accepted).notice.value] else [])
    }

    method SendPdu(pdu: seq<byte>, accepted: bool) returns (taken: bool)
      requires bytesSent <= |pduBuffer|
      modifies this
      ensures taken == old(Accepts(Abs(), pdu))
      ensures taken ==> Did(FirstOrSingle(Loaded(old(Abs()), pdu)), accepted)
      ensures !taken ==> Did(Quiet(old(Abs())), accepted)
    {
      if |pdu| == 0 || |pdu| > FF_MAX_PDU || phase != Idle || |pdu| > capacity {
        return false;
      }
      Load(pdu);
      SendFirstOrSingleFrame(accepted);
      return true;
    }

    method Load(pdu: seq<byte>)
      modifies this
      ensures Abs() == Loaded(old(Abs()), pdu) && handed == old(handed) && notices == old(notices)
    {
      pduBuffer := pdu;
      transfer := Next8(transfer);
      bytesSent, sequenceNumber, blockSize, blocksRemaining, stMinByte, waitCount := 0, 1, 0, 0, 0, 0;
    }

    method SendFirstOrSingleFrame(accepted: bool)
      requires IsPdu(pduBuffer) && bytesSent == 0
      modifies this
      ensures Did(FirstOrSingle(old(Abs())), accepted)
    {
      if |pduBuffer| <= SF_MAX_PAYLOAD {
        var frame := EncodeSingleFrame(pduBuffer);
        phase := SendingSf;
        nAsTimer := true;
        Transmit(Handed(frame.value, SingleDone(transfer)), accepted);
      } else {
        var frame := EncodeFirstFrame(pduBuffer);
        bytesSent := FF_FIRST_DATA;
        phase := WaitingForFc;
        nBsTimer := true;
        Transmit(Handed(frame.value, AwaitFcDone(transfer)), accepted);
      }
    }

    method ProcessFlowControl(frame: Message, accepted: bool)
      requires bytesSent <= |pduBuffer|
      modifies this
      ensures Did(OnFlowControl(old(Abs()), frame), accepted)
    {
      if phase != WaitingForFc {
        return;
      }
      var decoded := DecodeFlowControl(frame);
      if decoded.None? {
        AbortTransfer(UnexpectedFrame);
        return;
      }
      var (status, bs, stMin) := decoded.value;
      match status {
        case Overflow => AbortTransfer(OverflowReported);
        case Wait => CountWait();
        case ContinueToSend =>
          Grant(bs, stMin);
          ScheduleNextCf(accepted);
      }
    }

    method CountWait()
      requires bytesSent <= |pduBuffer|
      modifies this
      ensures var w := Next8(old(waitCount));
              Did(if w > NWFT_MAX then Abort(old(Abs()).(waitCount := w), WaitLimitExceeded)
                  else Quiet(old(Abs()).(waitCount := w, nBs := true)), true)
    {
      waitCount := Next8(waitCount);
      if waitCount > NWFT_MAX {
        AbortTransfer(WaitLimitExceeded);
        return;
      }
      nBsTimer := true;
    }

    method Grant(bs: byte, stMin: byte)
      modifies this
      ensures Abs() == Granted(old(Abs()), bs, stMin) && handed == old(handed) && notices == old(notices)
    {
      waitCount := 0;
      nBsTimer := false;
      blockSize, blocksRemaining, stMinByte := bs, bs, stMin;
      phase := SendingCf;
    }

    /** The closure `done` runs with the outcome of its frame. */
    method ReportFrame(done: FrameDone, success: bool, accepted: bool)
      requires bytesSent <= |pduBuffer|
      modifies this
      ensures Did(OnFrameReport(old(Abs()), done, success), accepted)
    {
      if !success {
        ReportFailure(done);
        return;
      }
      if done.transfer != transfer {
        return;
      }
      match done {
        case SingleDone(_) =>
          nAsTimer := false;
          CompleteTransfer();
        case AwaitFcDone(_) =>
        case ConsecutiveDone(_, allSent) =>
          nAsTimer := false;
          if allSent {
            CompleteTransfer();
          } else if phase == SendingCf {
            ScheduleNextCf(accepted);
          }
      }
    }

    method ExpireNAs()
      requires nAsTimer && bytesSent <= |pduBuffer|
      modifies this
      ensures Did(old(React(Abs(), NAsExpires)), true)
    {
      AbortTransfer(NAsTimeout);
    }

    method ExpireNBs()
      requires nBsTimer && bytesSent <= |pduBuffer|
      modifies this
      ensures Did(old(React(Abs(), NBsExpires)), true)
    {
      AbortTransfer(NBsTimeout);
    }

    method ExpireStMin(accepted: bool)
      requires stMinTimer && bytesSent <= |pduBuffer|
      modifies this
      ensures Did(old(React(Abs(), StMinExpires)), accepted)
    {
      stMinTimer := false;
      SendNextConsecutiveFrame(accepted);
    }

    method ResetTransfer()
      requires bytesSent <= |pduBuffer|
      modifies this
      ensures Did(old(React(Abs(), Reset)), true)
    {
      Clear();
    }

    method ScheduleNextCf(accepted: bool)
      requires bytesSent <= |pduBuffer|
      modifies this
      ensures Did(ScheduleCf(old(Abs())), accepted)
    {
      if StMinMicros(stMinByte) > 0 {
        stMinTimer := true;
      } else {
        SendNextConsecutiveFrame(accepted);
      }
    }

    method SendNextConsecutiveFrame(accepted: bool)
      requires bytesSent <= |pduBuffer|
      modifies this
      ensures Did(NextCf(old(Abs())), accepted)
    {
      var frame := CountConsecutiveFrame();
      var allSent := bytesSent >= |pduBuffer|;
      if !allSent && blockSize != 0 && blocksRemaining == 0 {
        phase := WaitingForFc;
        nBsTimer := true;
        Transmit(Handed(frame, AwaitFcDone(transfer)), accepted);
        return;
      }
      nAsTimer := true;
      Transmit(Handed(frame, ConsecutiveDone(transfer, allSent)), accepted);
    }

    /** The next frame, counted as sent and against the block. */
    method CountConsecutiveFrame() returns (frame: Message)
      requires bytesSent <= |pduBuffer|
      modifies this
      ensures Abs() == Counted(old(Abs())) && handed == old(handed) && notices == old(notices)
      ensures frame == ConsecutiveFrameOf(old(sequenceNumber), old(pduBuffer)[old(bytesSent)..])
    {
      var written;
      frame, written := EncodeConsecutiveFrame(sequenceNumber, pduBuffer[bytesSent..]);
      sequenceNumber := (sequenceNumber + 1) % 0x10;
      bytesSent := bytesSent + written;
      if bytesSent < |pduBuffer| && blockSize != 0 && blocksRemaining > 0 {
        blocksRemaining := blocksRemaining - 1;
      }
    }

    /** A refused frame is reported failed before the call returns. */
    method Transmit(frame: Handed, accepted: bool)
      requires bytesSent <= |pduBuffer|
      modifies this
      ensures Did(Step(old(Abs()), Some(frame), None), accepted)
    {
      if accepted {
        handed := handed + [frame];
      } else {
        ReportFailure(frame.onDone);
      }
    }

    method ReportFailure(done: FrameDone)
      requires bytesSent <= |pduBuffer|
      modifies this
      ensures Did(OnFrameReport(old(Abs()), done, false), true)
    {
      if done.transfer == transfer {
        if !done.AwaitFcDone? {
          nAsTimer := false;
        }
        AbortTransfer(SendFailed);
      }
    }

    method CompleteTransfer()
      requires bytesSent <= |pduBuffer|
      modifies this
      ensures Did(Complete(old(Abs())), true)
    {
      phase := Idle;
      transfer := Next8(transfer);
      notices := notices + [Done];
    }

    method AbortTransfer(reason: AbortReason)
      requires bytesSent <= |pduBuffer|
      modifies this
      ensures Did(Abort(old(Abs()), reason), true)
    {
      Clear();
      notices := notices + [Aborted(reason)];
    }

    method Clear()
      modifies this
      ensures Abs() == Cleared(old(Abs()))
      ensures handed == old(handed) && notices == old(notices)
    {
      nAsTimer, nBsTimer, stMinTimer := false, false, false;
      phase := Idle;
      transfer := Next8(transfer);
    }
  }
}
