/**
 The reassembly state machine of ISO-TP (IsoTpReceiver.cpp): the machine as a
 value, a simpler machine that only remembers the frames it has accepted, the
 proof that the first refines the second, and the object itself.
 */
module IsoTpReceiver {
  import opened CanTypes
  import opened IsoTpCodec
  import opened Arithmetic

  datatype Receiver = Receiver(
    receiving: bool, buffer: seq<byte>, capacity: nat, expectedTotal: nat, expectedSn: byte,
    framesInBlock: byte, blockSize: byte, separationTime: byte, reception: byte, nCr: bool)

  /** The completion closure of a flow control frame. */
  datatype FcDone = FcDone(status: FlowStatus, reception: byte)

  datatype HandedFc = HandedFc(frame: Message, onDone: FcDone)

  datatype Notice = Delivered(pdu: seq<byte>) | Aborted(reason: AbortReason)

  /** The receiver after a step, the flow control it handed over, and the callbacks it ran, in order. */
  datatype Step = Step(r: Receiver, fc: Option<HandedFc>, notices: seq<Notice>)

  datatype Event =
    | FrameArrives(frame: Message)
    | NCrExpires
    | FcReport(done: FcDone, success: bool)
    | Reset

  function Quiet(r: Receiver): Step {
    Step(r, None, [])
  }

  function Cleared(r: Receiver): Receiver {
    r.(nCr := false, buffer := [], receiving := false, reception := Next8(r.reception))
  }

  function Abort(r: Receiver, reason: AbortReason): Step {
    Step(Cleared(r), None, [Aborted(reason)])
  }

  /** A reception that a new single or first frame cuts short is reported. */
  function Superseded(r: Receiver): Step {
    if r.receiving then Abort(r, UnexpectedFrame) else Quiet(r)
  }

  function FcWith(r: Receiver, status: FlowStatus): HandedFc {
    HandedFc(FlowControlOf(status, r.blockSize, r.separationTime), FcDone(status, r.reception))
  }

  /** A single frame that carries at least the bytes it claims. */
  predicate UsableSingle(frame: Message) {
    DecodeFrameType(frame) == SingleFrame && 1 <= DecodeSingleFrameLength(frame) <= Min(SF_MAX_PAYLOAD, |frame| - 1)
  }

  predicate UsableFirst(frame: Message) {
    DecodeFrameType(frame) == FirstFrame && |frame| == 8 && DecodeFirstFrameTotalLength(frame) > SF_MAX_PAYLOAD
  }

  function OnSingle(r: Receiver, frame: Message): Step
    requires UsableSingle(frame)
  {
    var len := DecodeSingleFrameLength(frame);
    var s := Superseded(r);
    if len > r.capacity then
      Step(Cleared(s.r), None, s.notices + [Aborted(OverflowReported)])
    else
      Step(s.r.(buffer := []), None, s.notices + [Delivered(frame[1..1 + len])])
  }

  /** The receiver once a first frame that fits has been stored. */
  function Begun(r: Receiver, frame: Message): Receiver
    requires UsableFirst(frame)
  {
    r.(expectedTotal := DecodeFirstFrameTotalLength(frame), expectedSn := 1, framesInBlock := 0,
       buffer := frame[2..], reception := Next8(r.reception), receiving := true, nCr := true)
  }

  function OnFirst(r: Receiver, frame: Message): Step
    requires UsableFirst(frame)
  {
    var s := Superseded(r);
    if DecodeFirstFrameTotalLength(frame) > r.capacity then
      Step(Cleared(s.r), Some(FcWith(s.r, Overflow)), s.notices + [Aborted(OverflowReported)])
    else
      var r' := Begun(s.r, frame);
      Step(r', Some(FcWith(r', ContinueToSend)), s.notices)
  }

  predicate LongEnough(r: Receiver, frame: Message) {
    |frame| >= 1 + Min(r.expectedTotal - |r.buffer|, CF_MAX_DATA)
  }

  /** The receiver with the bytes of one more consecutive frame. */
  function Appended(r: Receiver, frame: Message): Receiver
    requires frame != [] && |r.buffer| <= r.expectedTotal
  {
    r.(expectedSn := (r.expectedSn + 1) % 0x10, nCr := true,
       buffer := r.buffer + frame[1..1 + Min(|frame| - 1, r.expectedTotal - |r.buffer|)])
  }

  function OnConsecutive(r: Receiver, frame: Message): Step
    requires frame != [] && |r.buffer| <= r.expectedTotal
  {
    if !r.receiving || !LongEnough(r, frame) then Quiet(r)
    else if DecodeConsecutiveFrameSn(frame) != r.expectedSn then Abort(r, UnexpectedFrame)
    else
      var r' := Appended(r, frame);
      if |r'.buffer| >= r.expectedTotal then
        Step(r'.(nCr := false, receiving := false, buffer := []), None, [Delivered(r'.buffer)])
      else ContinueBlock(r')
  }

  function ContinueBlock(r: Receiver): Step {
    if r.blockSize == 0 then Quiet(r)
    else
      var n := Next8(r.framesInBlock);
      if n != r.blockSize then Quiet(r.(framesInBlock := n))
      else Step(r.(framesInBlock := 0), Some(FcWith(r, ContinueToSend)), [])
  }

  function OnFcReport(r: Receiver, done: FcDone, success: bool): Step {
    if !success && done.status == ContinueToSend && done.reception == r.reception && r.receiving
    then Abort(r, SendFailed) else Quiet(r)
  }

  function OnFrame(r: Receiver, frame: Message): Step
    requires |r.buffer| <= r.expectedTotal || !r.receiving
  {
    if UsableSingle(frame) then OnSingle(r, frame)
    else if UsableFirst(frame) then OnFirst(r, frame)
    else if DecodeFrameType(frame) == ConsecutiveFrame && r.receiving then OnConsecutive(r, frame)
    else Quiet(r)
  }

  predicate CanHappen(r: Receiver, e: Event) {
    e.NCrExpires? ==> r.nCr
  }

  function React(r: Receiver, e: Event): Step
    requires (|r.buffer| <= r.expectedTotal || !r.receiving) && CanHappen(r, e)
  {
    match e
    case FrameArrives(frame) => OnFrame(r, frame)
    case NCrExpires => Abort(r, NCrTimeout)
    case FcReport(done, success) => OnFcReport(r, done, success)
    case Reset => Quiet(Cleared(r))
  }

  lemma ReceiverKeepsParameters(r: Receiver, e: Event)
    requires (|r.buffer| <= r.expectedTotal || !r.receiving) && CanHappen(r, e)
    ensures var r' := React(r, e).r;
            r'.capacity == r.capacity && r'.blockSize == r.blockSize && r'.separationTime == r.separationTime
  {
  }

  /** A flow control frame the lower layer refuses is reported failed from inside the call. */
  function Settle(step: Step, accepted: bool): Step {
    if step.fc.Some? && !accepted then
      var failed := OnFcReport(step.r, step.fc.value.onDone, false);
      Step(failed.r, None, step.notices + failed.notices)
    else step
  }

  /* ---- Which frames are usable ---- */

  /** A single frame is usable exactly if it begins with the single frame of some PDU, which is the one it carries; padding
      behind it is ignored. */
  lemma SingleMeans(frame: Message, pdu: seq<byte>)
    ensures (UsableSingle(frame) && pdu == frame[1..1 + DecodeSingleFrameLength(frame)]) <==>
              1 <= |pdu| <= SF_MAX_PAYLOAD && SingleFrameOf(pdu) <= frame
  {
    if UsableSingle(frame) && pdu == frame[1..1 + DecodeSingleFrameLength(frame)] {
      assert SingleFrameOf(pdu) == frame[..1 + |pdu|];
    }
    if 1 <= |pdu| <= SF_MAX_PAYLOAD && SingleFrameOf(pdu) <= frame {
      assert frame[0] == |pdu| && frame[..1 + |pdu|] == SingleFrameOf(pdu);
      assert pdu == SingleFrameOf(pdu)[1..];
    }
  }

  /** A first frame is usable exactly if it is that of some PDU too long for a single frame: the length it announces is that
      of the PDU and the data it carries its beginning. */
  lemma FirstMeans(frame: Message, pdu: seq<byte>)
    requires SF_MAX_PAYLOAD < |pdu| <= FF_MAX_PDU
    ensures (UsableFirst(frame) && DecodeFirstFrameTotalLength(frame) == |pdu| && frame[2..] == pdu[..FF_FIRST_DATA]) <==>
              frame == FirstFrameOf(pdu)
    ensures UsableFirst(frame) ==> SF_MAX_PAYLOAD < DecodeFirstFrameTotalLength(frame) <= FF_MAX_PDU
  {
    var f := FirstFrameOf(pdu);
    assert f[0] == 0x10 + |pdu| / 0x100 && f[1] == |pdu| % 0x100 && f[2..] == pdu[..FF_FIRST_DATA];
    if UsableFirst(frame) && DecodeFirstFrameTotalLength(frame) == |pdu| && frame[2..] == pdu[..FF_FIRST_DATA] {
      assert frame == [frame[0], frame[1]] + frame[2..];
    }
  }

  /** A frame is consecutive with number `sn` exactly if it is what its own data is written as under that number. */
  lemma ConsecutiveMeans(frame: Message, sn: byte)
    ensures (DecodeFrameType(frame) == ConsecutiveFrame && DecodeConsecutiveFrameSn(frame) == sn) <==>
              frame != [] && sn < 0x10 && frame == ConsecutiveFrameOf(sn, frame[1..])
  {
    if frame != [] {
      assert frame == [frame[0]] + frame[1..];
      assert frame[1..][..Min(CF_MAX_DATA, |frame| - 1)] == frame[1..];
    }
  }

  /* ---- The same protocol, remembering frames instead of counters ---- */

  /** The frames of the reception in progress: its first frame and the consecutive frames accepted after it. */
  datatype Reception = NoReception | Ongoing(ff: Message, cfs: seq<Message>)

  function Collected(ff: Message, cfs: seq<Message>): seq<byte>
    requires |ff| >= 2 && forall i :: 0 <= i < |cfs| ==> cfs[i] != []
  {
    ff[2..] + CfData(cfs)
  }

  /** How many of `k` consecutive frames lie after the last full block; zero when blocks are unlimited. */
  function BlockPosition(k: nat, blockSize: byte): (n: byte)
    ensures n == 0 || n < blockSize
  {
    if k == 0 || blockSize == 0 || BlockPosition(k - 1, blockSize) + 1 == blockSize then 0
    else BlockPosition(k - 1, blockSize) + 1
  }

  lemma {:induction false} BlockPositionIsModulo(k: nat, blockSize: byte)
    requires blockSize > 0
    ensures BlockPosition(k, blockSize) == k % blockSize
  {
    if k == 0 {
      ModOf(0, 0, 0, blockSize);
    } else {
      BlockPositionIsModulo(k - 1, blockSize);
      NextMod(k - 1, blockSize);
    }
  }

  /** What the protocol answers to an event: how the reception goes on, the PDU completed, the flow control due. */
  datatype Answer = Answer(rec: Reception, pdu: Option<seq<byte>>, fc: Option<FlowStatus>)

  predicate WellFormed(rec: Reception, capacity: nat) {
    rec.Ongoing? ==>
      && UsableFirst(rec.ff)
      && FF_FIRST_DATA + CF_MAX_DATA * |rec.cfs| < DecodeFirstFrameTotalLength(rec.ff) <= capacity
      && (forall i :: 0 <= i < |rec.cfs| ==>
            && |rec.cfs[i]| == 8
            && DecodeFrameType(rec.cfs[i]) == ConsecutiveFrame
            && DecodeConsecutiveFrameSn(rec.cfs[i]) == (i + 1) % 0x10)
  }

  function AnswerConsecutive(rec: Reception, blockSize: byte, frame: Message): Answer
    requires rec.Ongoing? && frame != [] && |rec.ff| >= 2 && forall i :: 0 <= i < |rec.cfs| ==> rec.cfs[i] != []
  {
    var total := DecodeFirstFrameTotalLength(rec.ff);
    var k := |rec.cfs| + 1;
    if |frame| - 1 < Min(total - (FF_FIRST_DATA + CF_MAX_DATA * |rec.cfs|), CF_MAX_DATA) then Answer(rec, None, None)
    else if DecodeConsecutiveFrameSn(frame) != k % 0x10 then Answer(NoReception, None, None)
    else if total <= FF_FIRST_DATA + CF_MAX_DATA * k then
      var all := Collected(rec.ff, rec.cfs + [frame]);
      Answer(NoReception, Some(all[..Min(total, |all|)]), None)
    else
      Answer(Ongoing(rec.ff, rec.cfs + [frame]), None,
             if blockSize != 0 && BlockPosition(k, blockSize) == 0 then Some(ContinueToSend) else None)
  }

  function AnswerFrame(rec: Reception, capacity: nat, blockSize: byte, frame: Message): Answer
    requires WellFormed(rec, capacity)
  {
    if UsableSingle(frame) then
      var len := DecodeSingleFrameLength(frame);
      Answer(NoReception, if len <= capacity then Some(frame[1..1 + len]) else None, None)
    else if UsableFirst(frame) then
      if DecodeFirstFrameTotalLength(frame) <= capacity then Answer(Ongoing(frame, []), None, Some(ContinueToSend))
      else Answer(NoReception, None, Some(Overflow))
    else if DecodeFrameType(frame) == ConsecutiveFrame && rec.Ongoing? then
      AnswerConsecutive(rec, blockSize, frame)
    else Answer(rec, None, None)
  }

  function AnswerTo(rec: Reception, r: Receiver, e: Event): Answer
    requires WellFormed(rec, r.capacity)
  {
    match e
    case FrameArrives(frame) => AnswerFrame(rec, r.capacity, r.blockSize, frame)
    case NCrExpires => Answer(NoReception, None, None)
    case Reset => Answer(NoReception, None, None)
    case FcReport(done, success) =>
      Answer(if GrantFailed(rec, r.reception, done, success) then NoReception else rec, None, None)
  }

  /** The ContinueToSend of the reception in progress did not go out. */
  predicate GrantFailed(rec: Reception, reception: byte, done: FcDone, success: bool) {
    rec.Ongoing? && !success && done.status == ContinueToSend && done.reception == reception
  }

  /** The length of the PDU that a usable single or first frame carries or announces. */
  function Announced(frame: Message): nat {
    if DecodeFrameType(frame) == SingleFrame then DecodeSingleFrameLength(frame) else DecodeFirstFrameTotalLength(frame)
  }

  /** Why a frame makes the protocol give up receptions: one in progress is cut short by a new PDU or by a wrong number,
      and a PDU beyond the capacity is given up at once. */
  function AbortsByFrame(rec: Reception, capacity: nat, frame: Message): seq<AbortReason>
    requires WellFormed(rec, capacity)
  {
    if UsableSingle(frame) || UsableFirst(frame) then
      (if rec.Ongoing? then [UnexpectedFrame] else []) + (if Announced(frame) > capacity then [OverflowReported] else [])
    else if rec.Ongoing? && DecodeFrameType(frame) == ConsecutiveFrame
            && DecodeConsecutiveFrameSn(frame) != (|rec.cfs| + 1) % 0x10
            && |frame| - 1 >= Min(DecodeFirstFrameTotalLength(rec.ff) - (FF_FIRST_DATA + CF_MAX_DATA * |rec.cfs|), CF_MAX_DATA) then
      [UnexpectedFrame]
    else []
  }

  /** The receptions that `e` makes the protocol give up, with the reasons reported. */
  function AbortsBy(rec: Reception, capacity: nat, reception: byte, e: Event): seq<AbortReason>
    requires WellFormed(rec, capacity)
  {
    match e
    case FrameArrives(frame) => AbortsByFrame(rec, capacity, frame)
    case NCrExpires => [NCrTimeout]
    case FcReport(done, success) => if GrantFailed(rec, reception, done, success) then [SendFailed] else []
    case Reset => []
  }

  function AbortNotices(reasons: seq<AbortReason>): seq<Notice> {
    seq(|reasons|, i requires 0 <= i < |reasons| => Aborted(reasons[i]))
  }

  /** The counters and the buffer of `r` are what the frames of `rec` say they should be. */
  predicate Represents(r: Receiver, rec: Reception) {
    && WellFormed(rec, r.capacity)
    && (r.receiving <==> rec.Ongoing?)
    && (r.nCr <==> r.receiving)
    && (!r.receiving ==> r.buffer == [])
    && (rec.Ongoing? ==>
          var k := |rec.cfs|;
          && r.buffer == Collected(rec.ff, rec.cfs)
          && |r.buffer| == FF_FIRST_DATA + CF_MAX_DATA * k
          && r.expectedTotal == DecodeFirstFrameTotalLength(rec.ff)
          && r.expectedSn == (k + 1) % 0x10
          && r.framesInBlock == BlockPosition(k, r.blockSize))
  }

  function DeliveredBy(notices: seq<Notice>): Option<seq<byte>> {
    if notices != [] && notices[|notices| - 1].Delivered? then Some(notices[|notices| - 1].pdu) else None
  }

  lemma CfDataAppend(cfs: seq<Message>, frame: Message)
    requires frame != [] && forall i :: 0 <= i < |cfs| ==> cfs[i] != []
    ensures CfData(cfs + [frame]) == CfData(cfs) + frame[1..]
  {
    assert (cfs + [frame])[..|cfs|] == cfs;
  }

  /** The buffer after an accepted consecutive frame, in terms of the frames. */
  lemma AppendedRepresents(r: Receiver, rec: Reception, frame: Message)
    requires Represents(r, rec) && r.receiving && frame != [] && LongEnough(r, frame)
    ensures var all := Collected(rec.ff, rec.cfs + [frame]);
            && all == r.buffer + frame[1..]
            && Appended(r, frame).buffer == all[..Min(r.expectedTotal, |all|)]
  {
    CfDataAppend(rec.cfs, frame);
    assert rec.ff[2..] + (CfData(rec.cfs) + frame[1..]) == r.buffer + frame[1..];
    var all := Collected(rec.ff, rec.cfs + [frame]);
    var n := Min(|frame| - 1, r.expectedTotal - |r.buffer|);
    assert r.buffer + frame[1..1 + n] == all[..|r.buffer| + n];
  }

  lemma ContinueBlockCounts(r: Receiver, k: nat)
    requires r.framesInBlock == BlockPosition(k, r.blockSize)
    ensures var step := ContinueBlock(r);
            && step.r == r.(framesInBlock := BlockPosition(k + 1, r.blockSize))
            && step.notices == []
            && (step.fc.Some? <==> r.blockSize != 0 && BlockPosition(k + 1, r.blockSize) == 0)
            && (step.fc.Some? ==> step.fc.value == FcWith(r, ContinueToSend))
  {
  }

  /** How many more frames a block of this receiver takes, whatever its counter is: the counter goes up to the block size,
      through its wrap at 256 if the block size was set below it meanwhile. */
  function FramesToGrant(r: Receiver): nat {
    r.blockSize - r.framesInBlock + if r.framesInBlock < r.blockSize then 0 else 0x100
  }

  /** A limited block, even one whose size was changed while it was received, ends in exactly so many frames. */
  lemma BlockCountsDown(r: Receiver)
    requires r.blockSize != 0
    ensures var step := ContinueBlock(r);
            && (step.fc.Some? <==> FramesToGrant(r) == 1)
            && FramesToGrant(step.r) == (if FramesToGrant(r) == 1 then r.blockSize else FramesToGrant(r) - 1)
  {
  }

  lemma WellFormedExtends(rec: Reception, capacity: nat, frame: Message)
    requires WellFormed(rec, capacity) && rec.Ongoing?
    requires |frame| == 8 && DecodeFrameType(frame) == ConsecutiveFrame
    requires DecodeConsecutiveFrameSn(frame) == (|rec.cfs| + 1) % 0x10
    requires FF_FIRST_DATA + CF_MAX_DATA * (|rec.cfs| + 1) < DecodeFirstFrameTotalLength(rec.ff)
    ensures WellFormed(Ongoing(rec.ff, rec.cfs + [frame]), capacity)
  {
    var cfs := rec.cfs + [frame];
    forall i | 0 <= i < |cfs|
      ensures |cfs[i]| == 8 && DecodeFrameType(cfs[i]) == ConsecutiveFrame
              && DecodeConsecutiveFrameSn(cfs[i]) == (i + 1) % 0x10
    {
      if i < |rec.cfs| { assert cfs[i] == rec.cfs[i]; }
    }
  }

  /** A frame that does not complete the PDU is a full one. */
  lemma IncompleteIsFull(r: Receiver, frame: Message)
    requires |r.buffer| < r.expectedTotal && frame != [] && LongEnough(r, frame)
    requires |Appended(r, frame).buffer| < r.expectedTotal
    ensures |frame| == 8 && Appended(r, frame).buffer == r.buffer + frame[1..]
  {
  }

  lemma ReceptionGoesOn(r: Receiver, rec: Reception, frame: Message)
    requires Represents(r, rec) && r.receiving && DecodeFrameType(frame) == ConsecutiveFrame
    requires LongEnough(r, frame) && DecodeConsecutiveFrameSn(frame) == r.expectedSn
    requires |Appended(r, frame).buffer| < r.expectedTotal
    ensures |frame| == 8
    ensures Represents(ContinueBlock(Appended(r, frame)).r, Ongoing(rec.ff, rec.cfs + [frame]))
  {
    IncompleteIsFull(r, frame);
    AppendedCollects(r, rec, frame);
    ContinueBlockCounts(Appended(r, frame), |rec.cfs|);
    NextSnMod(r.expectedSn, |rec.cfs| + 1);
    GoesOnRepresents(r, rec, frame, ContinueBlock(Appended(r, frame)).r);
  }

  lemma AppendedCollects(r: Receiver, rec: Reception, frame: Message)
    requires Represents(r, rec) && r.receiving && |frame| == 8 && LongEnough(r, frame)
    requires Appended(r, frame).buffer == r.buffer + frame[1..]
    ensures Appended(r, frame).buffer == Collected(rec.ff, rec.cfs + [frame])
  {
    AppendedRepresents(r, rec, frame);
  }

  lemma NextSnMod(sn: byte, k: nat)
    requires sn == k % 0x10
    ensures (sn + 1) % 0x10 == (k + 1) % 0x10
  {
  }

  /** The counters after one more full frame, conjunct by conjunct. */
  lemma GoesOnRepresents(r: Receiver, rec: Reception, frame: Message, r': Receiver)
    requires Represents(r, rec) && r.receiving && |frame| == 8 && DecodeFrameType(frame) == ConsecutiveFrame
    requires DecodeConsecutiveFrameSn(frame) == r.expectedSn && |Appended(r, frame).buffer| < r.expectedTotal
    requires Appended(r, frame).buffer == Collected(rec.ff, rec.cfs + [frame]) && |Appended(r, frame).buffer| == |r.buffer| + CF_MAX_DATA
    requires Appended(r, frame).expectedSn == (|rec.cfs| + 2) % 0x10
    requires r' == Appended(r, frame).(framesInBlock := BlockPosition(|rec.cfs| + 1, r.blockSize))
    ensures Represents(r', Ongoing(rec.ff, rec.cfs + [frame]))
  {
    WellFormedExtends(rec, r.capacity, frame);
  }

  lemma ConsecutiveRefines(r: Receiver, rec: Reception, frame: Message)
    requires Represents(r, rec) && r.receiving && DecodeFrameType(frame) == ConsecutiveFrame
    ensures var step := OnConsecutive(r, frame);
            var answer := AnswerConsecutive(rec, r.blockSize, frame);
            && Represents(step.r, answer.rec)
            && DeliveredBy(step.notices) == answer.pdu
            && (if step.fc.Some? then Some(step.fc.value.onDone.status) else None) == answer.fc
  {
    assert |r.buffer| == FF_FIRST_DATA + CF_MAX_DATA * |rec.cfs|;
    if LongEnough(r, frame) && DecodeConsecutiveFrameSn(frame) == r.expectedSn {
      AppendedRepresents(r, rec, frame);
      if |Appended(r, frame).buffer| < r.expectedTotal {
        ReceptionGoesOn(r, rec, frame);
        ContinueBlockCounts(Appended(r, frame), |rec.cfs|);
      }
    }
  }

  /** On any frame, timeout, report or reset at all, the counting receiver does what the remembering one says. */
  lemma ReactRefines(r: Receiver, rec: Reception, e: Event)
    requires Represents(r, rec) && CanHappen(r, e)
    ensures var step := React(r, e);
            var answer := AnswerTo(rec, r, e);
            && Represents(step.r, answer.rec)
            && DeliveredBy(step.notices) == answer.pdu
            && (if step.fc.Some? then Some(step.fc.value.onDone.status) else None) == answer.fc
  {
    if e.FrameArrives? && DecodeFrameType(e.frame) == ConsecutiveFrame && r.receiving {
      ConsecutiveRefines(r, rec, e.frame);
    }
    if e.FrameArrives? && UsableFirst(e.frame) {
      assert Collected(e.frame, []) == e.frame[2..];
    }
  }

  /** The flow control of a step names the parameters in force, and a ContinueToSend the reception it is for. */
  predicate FlowControlOk(r: Receiver, step: Step) {
    step.fc.Some? ==>
      var fc := step.fc.value;
      && fc.frame == FlowControlOf(fc.onDone.status, r.blockSize, r.separationTime)
      && (fc.onDone.status == ContinueToSend ==> step.r.receiving && fc.onDone.reception == step.r.reception)
  }

  lemma ConsecutiveTells(r: Receiver, rec: Reception, frame: Message)
    requires Represents(r, rec) && r.receiving && DecodeFrameType(frame) == ConsecutiveFrame
    ensures var step := OnConsecutive(r, frame);
            && FlowControlOk(r, step)
            && (forall i :: 0 <= i < |step.notices| ==> step.notices[i].Aborted? || step.notices[i].Delivered?)
            && step.notices == AbortNotices(AbortsByFrame(rec, r.capacity, frame)) +
                 (if DeliveredBy(step.notices).Some? then [Delivered(DeliveredBy(step.notices).value)] else [])
  {
    assert |r.buffer| == FF_FIRST_DATA + CF_MAX_DATA * |rec.cfs|;
  }

  /** The application is told exactly why each reception ends, and of the completed PDU last. */
  lemma EveryAbortHasItsReason(r: Receiver, rec: Reception, e: Event)
    requires Represents(r, rec) && CanHappen(r, e)
    ensures var step := React(r, e);
            var pdu := AnswerTo(rec, r, e).pdu;
            && step.notices == AbortNotices(AbortsBy(rec, r.capacity, r.reception, e)) +
                 (if pdu.Some? then [Delivered(pdu.value)] else [])
            && FlowControlOk(r, step)
  {
    if e.FrameArrives? && DecodeFrameType(e.frame) == ConsecutiveFrame && r.receiving {
      ConsecutiveTells(r, rec, e.frame);
      ConsecutiveRefines(r, rec, e.frame);
    }
  }

  /** A refused ContinueToSend ends the reception that it was for before the call returns; a refused Overflow changes
      nothing. */
  lemma RefusedFlowControl(r: Receiver, rec: Reception, e: Event)
    requires Represents(r, rec) && CanHappen(r, e) && AnswerTo(rec, r, e).fc.Some?
    ensures var step, settled := React(r, e), Settle(React(r, e), false);
            if AnswerTo(rec, r, e).fc == Some(ContinueToSend) then
              Represents(settled.r, NoReception) && settled.notices == step.notices + [Aborted(SendFailed)]
            else settled == step.(fc := None)
  {
    ReactRefines(r, rec, e);
    EveryAbortHasItsReason(r, rec, e);
  }

  /* ---- The object ---- */

  /**
   The receiver as an object. `accepted` says whether the lower layer takes the
   flow control a call hands over; a call hands over at most one.
   */
  class IsoTpReceiver {
    var receiving: bool
    var expectedTotalLength: nat
    var expectedSn: byte
    var reception: byte
    var blockSize: byte
    var separationTime: byte
    var framesInBlock: byte
    var assemblyBuffer: seq<byte>
    const capacity: nat
    var nCrTimer: bool

    var handed: seq<HandedFc>
    var notices: seq<Notice>

    constructor (capacity: nat)
      ensures Abs() == Receiver(false, [], capacity, 0, 1, 0, 0, 0, 0, false)
      ensures handed == [] && notices == []
      ensures Represents(Abs(), NoReception)
    {
      receiving, expectedTotalLength, expectedSn, reception := false, 0, 1, 0;
      blockSize, separationTime, framesInBlock, assemblyBuffer := 0, 0, 0, [];
      this.capacity := capacity;
      nCrTimer := false;
      handed, notices := [], [];
    }

    ghost function Abs(): Receiver
      reads this
    {
      Receiver(receiving, assemblyBuffer, capacity, expectedTotalLength, expectedSn,
               framesInBlock, blockSize, separationTime, reception, nCrTimer)
    }

    ghost predicate InBounds()
      reads this
    {
      |assemblyBuffer| <= expectedTotalLength || !receiving
    }

    /** The object went from `before` to where `step` leads, with exactly its flow control and its callbacks. */
    twostate predicate Did(step: Step, accepted: bool)
      reads this
    {
      && Abs() == Settle(step, accepted).r
      && handed == old(handed) + (if step.fc.Some? && accepted then [step.fc.value] else [])
      && notices == old(notices) + Settle(step, accepted).notices
    }

    method SetFlowControlParameters(newBlockSize: byte, newSeparationTime: byte)
      modifies this
      ensures Abs() == old(Abs()).(blockSize := newBlockSize, separationTime := newSeparationTime)
      ensures handed == old(handed) && notices == old(notices)
    {
      blockSize, separationTime := newBlockSize, newSeparationTime;
    }

    method ProcessFrame(frame: Message, accepted: bool)
      requires InBounds()
      modifies this
      ensures Did(old(React(Abs(), FrameArrives(frame))), accepted)
    {
      match DecodeFrameType(frame) {
        case SingleFrame => HandleSingleFrame(frame);
        case FirstFrame => HandleFirstFrame(frame, accepted);
        case ConsecutiveFrame => HandleConsecutiveFrame(frame, accepted);
        case _ =>
      }
    }

    method HandleSingleFrame(frame: Message)
      requires DecodeFrameType(frame) == SingleFrame
      modifies this
      ensures Did(if UsableSingle(frame) then OnSingle(old(Abs()), frame) else Quiet(old(Abs())), true)
    {
      var len := DecodeSingleFrameLength(frame);
      if len == 0 || len > SF_MAX_PAYLOAD || len > |frame| - 1 {
        return;
      }
      EndSupersededReception();
      if len > capacity {
        AbortReception(OverflowReported);
        return;
      }
      assemblyBuffer := frame[1..1 + len];
      notices := notices + [Delivered(assemblyBuffer)];
      assemblyBuffer := [];
    }

    method HandleFirstFrame(frame: Message, accepted: bool)
      requires DecodeFrameType(frame) == FirstFrame
      modifies this
      ensures Did(if UsableFirst(frame) then OnFirst(old(Abs()), frame) else Quiet(old(Abs())), accepted)
    {
      if |frame| < 8 {
        return;
      }
      var len := DecodeFirstFrameTotalLength(frame);
      if len <= SF_MAX_PAYLOAD {
        return;
      }
      EndSupersededReception();
      if len > capacity {
        SendFlowControl(Overflow, accepted);
        AbortReception(OverflowReported);
        return;
      }
      BeginReception(frame, accepted);
    }

    /** The part of HandleFirstFrame that stores the frame and answers it. */
    method BeginReception(frame: Message, accepted: bool)
      requires UsableFirst(frame)
      modifies this
      ensures Did(Step(Begun(old(Abs()), frame), Some(FcWith(Begun(old(Abs()), frame), ContinueToSend)), []), accepted)
    {
      expectedTotalLength := DecodeFirstFrameTotalLength(frame);
      expectedSn, framesInBlock, assemblyBuffer := 1, 0, [];
      reception := Next8(reception);
      ghost var started := Abs();
      var i := 2;
      while i < |frame|
        invariant 2 <= i <= |frame|
        invariant assemblyBuffer == frame[2..i]
        invariant Abs() == started.(buffer := assemblyBuffer)
        invariant handed == old(handed) && notices == old(notices)
      {
        assemblyBuffer := assemblyBuffer + [frame[i]];
        i := i + 1;
      }
      receiving := true;
      nCrTimer := true;
      assert Abs() == Begun(old(Abs()), frame);
      SendFlowControl(ContinueToSend, accepted);
    }

    method HandleConsecutiveFrame(frame: Message, accepted: bool)
      requires DecodeFrameType(frame) == ConsecutiveFrame && InBounds()
      modifies this
      ensures Did(if old(receiving) then OnConsecutive(old(Abs()), frame) else Quiet(old(Abs())), accepted)
    {
      if !receiving || |frame| < 1 + Min(expectedTotalLength - |assemblyBuffer|, CF_MAX_DATA) {
        return;
      }
      if DecodeConsecutiveFrameSn(frame) != expectedSn {
        AbortReception(UnexpectedFrame);
        return;
      }
      expectedSn := (expectedSn + 1) % 0x10;
      nCrTimer := true;
      ghost var before := assemblyBuffer;
      var i := 1;
      while i < |frame| && |assemblyBuffer| < expectedTotalLength
        invariant 1 <= i <= |frame|
        invariant assemblyBuffer == before + frame[1..i]
        invariant |assemblyBuffer| <= expectedTotalLength
        invariant Abs() == old(Abs()).(expectedSn := expectedSn, nCr := true, buffer := assemblyBuffer)
        invariant expectedSn == (old(expectedSn) + 1) % 0x10
        invariant handed == old(handed) && notices == old(notices)
      {
        assemblyBuffer := assemblyBuffer + [frame[i]];
        i := i + 1;
      }
      assert Abs() == Appended(old(Abs()), frame);
      if |assemblyBuffer| >= expectedTotalLength {
        nCrTimer := false;
        receiving := false;
        notices := notices + [Delivered(assemblyBuffer)];
        assemblyBuffer := [];
      } else {
        ContinueCurrentBlock(accepted);
      }
    }

    method ContinueCurrentBlock(accepted: bool)
      modifies this
      ensures Did(ContinueBlock(old(Abs())), accepted)
    {
      if blockSize == 0 {
        return;
      }
      framesInBlock := Next8(framesInBlock);
      if framesInBlock != blockSize {
        return;
      }
      framesInBlock := 0;
      SendFlowControl(ContinueToSend, accepted);
    }

    method EndSupersededReception()
      modifies this
      ensures Did(Superseded(old(Abs())), true)
    {
      if receiving {
        AbortReception(UnexpectedFrame);
      }
    }

    method SendFlowControl(status: FlowStatus, accepted: bool)
      modifies this
      ensures Did(Step(old(Abs()), Some(FcWith(old(Abs()), status)), []), accepted)
    {
      var frame := EncodeFlowControl(status, blockSize, separationTime);
      if accepted {
        handed := handed + [HandedFc(frame, FcDone(status, reception))];
      } else {
        ReportFlowControl(FcDone(status, reception), false);
      }
    }

    method ReportFlowControl(done: FcDone, success: bool)
      modifies this
      ensures Did(OnFcReport(old(Abs()), done, success), true)
    {
      if !success && done.status == ContinueToSend && done.reception == reception && receiving {
        AbortReception(SendFailed);
      }
    }

    method ExpireNCr()
      requires nCrTimer
      modifies this
      ensures Did(Abort(old(Abs()), NCrTimeout), true)
    {
      AbortReception(NCrTimeout);
    }

    method ResetReception()
      modifies this
      ensures Did(Quiet(Cleared(old(Abs()))), true)
    {
      Clear();
    }

    method AbortReception(reason: AbortReason)
      modifies this
      ensures Did(Abort(old(Abs()), reason), true)
    {
      Clear();
      notices := notices + [Aborted(reason)];
    }

    method Clear()
      modifies this
      ensures Abs() == Cleared(old(Abs()))
      ensures handed == old(handed) && notices == old(notices)
    {
      nCrTimer := false;
      assemblyBuffer := [];
      receiving := false;
      reception := Next8(reception);
    }
  }
}
