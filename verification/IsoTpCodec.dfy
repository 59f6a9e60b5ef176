/**
 Frame formats of ISO 15765-2:2016, clause 9.6: encoders, decoders, and the
 segmentation of a PDU into numbered frames.
 */
module IsoTpCodec {
  import opened CanTypes

  const SF_MAX_PAYLOAD := 7
  const FF_FIRST_DATA := 6
  const FF_MAX_PDU := 0x0FFF
  const CF_MAX_DATA := 7

  datatype FrameType = SingleFrame | FirstFrame | ConsecutiveFrame | FlowControl | Unknown

  datatype FlowStatus = ContinueToSend | Wait | Overflow

  datatype AbortReason =
    | NBsTimeout | NCrTimeout | OverflowReported | UnexpectedFrame
    | WaitLimitExceeded | SendFailed | NAsTimeout

  function FlowStatusCode(fs: FlowStatus): byte {
    match fs case ContinueToSend => 0 case Wait => 1 case Overflow => 2
  }

  /* ---- Decoders ---- */

  function DecodeFrameType(frame: Message): FrameType {
    if frame == [] then Unknown
    else
      match frame[0] / 0x10
      case 0 => SingleFrame
      case 1 => FirstFrame
      case 2 => ConsecutiveFrame
      case 3 => FlowControl
      case _ => Unknown
  }

  function DecodeSingleFrameLength(frame: Message): byte {
    if frame == [] then 0 else frame[0] % 0x10
  }

  function DecodeFirstFrameTotalLength(frame: Message): nat {
    if |frame| < 2 then 0 else (frame[0] as int % 0x10) * 0x100 + frame[1] as int
  }

  function DecodeConsecutiveFrameSn(frame: Message): byte {
    if frame == [] then 0 else frame[0] % 0x10
  }

  function DecodeFlowControl(frame: Message): Option<(FlowStatus, byte, byte)> {
    if |frame| < 3 then None
    else
      match frame[0] % 0x10
      case 0 => Some((ContinueToSend, frame[1], frame[2]))
      case 1 => Some((Wait, frame[1], frame[2]))
      case 2 => Some((Overflow, frame[1], frame[2]))
      case _ => None
  }

  /** The separation time in microseconds; reserved values read as 127 ms. */
  function StMinMicros(stMin: byte): nat {
    if stMin <= 0x7F then stMin * 1000
    else if 0xF1 <= stMin <= 0xF9 then (stMin - 0xF0) * 100
    else 0x7F * 1000
  }

  /** A flow control is read exactly as it is written; the type nibble and trailing bytes are not looked at. */
  lemma FlowControlMeans(frame: Message, fs: FlowStatus, blockSize: byte, stMin: byte)
    ensures DecodeFlowControl(frame) == Some((fs, blockSize, stMin)) <==>
              |frame| >= 3 && [0x30 + frame[0] % 0x10] + frame[1..3] == FlowControlOf(fs, blockSize, stMin)
    ensures DecodeFlowControl(frame).None? <==> |frame| < 3 || frame[0] % 0x10 > 2
  {
    if |frame| >= 3 {
      var head := [0x30 + frame[0] % 0x10] + frame[1..3];
      assert head[0] == 0x30 + frame[0] % 0x10 && head[1] == frame[1] && head[2] == frame[2];
    }
  }

  /** The type is the upper nibble of the first byte; anything above flow control is unknown, and so is an empty frame. */
  lemma TypeIsTheNibble(frame: Message)
    ensures DecodeFrameType(frame) == FlowControl <==> frame != [] && 0x30 <= frame[0] < 0x40
    ensures DecodeFrameType(frame) == Unknown <==> frame == [] || frame[0] >= 0x40
  {
  }

  /** Frames are sent without separation exactly when none is asked for; up to 127 a value asks for as many milliseconds,
      from 0xF1 to 0xF9 for a tenth of as many as its lower nibble, and any other one for the longest separation. */
  lemma SeparationIsBounded(stMin: byte)
    ensures StMinMicros(stMin) == 0 <==> stMin == 0
    ensures stMin <= 127 ==> StMinMicros(stMin) == 1_000 * stMin
    ensures 0xF1 <= stMin <= 0xF9 ==> 10 * StMinMicros(stMin) == StMinMicros(stMin - 0xF0)
    ensures 127 < stMin < 0xF1 || stMin > 0xF9 ==> StMinMicros(stMin) == StMinMicros(127)
    ensures StMinMicros(stMin) <= StMinMicros(127)
  {
  }

  /* ---- Wire formats ---- */

  function SingleFrameOf(pdu: seq<byte>): Message
    requires 1 <= |pdu| <= SF_MAX_PAYLOAD
  {
    [|pdu|] + pdu
  }

  function FirstFrameOf(pdu: seq<byte>): Message
    requires SF_MAX_PAYLOAD < |pdu| <= FF_MAX_PDU
  {
    [0x10 + |pdu| / 0x100, |pdu| % 0x100] + pdu[..FF_FIRST_DATA]
  }

  function ConsecutiveFrameOf(sn: byte, remaining: seq<byte>): Message {
    [0x20 + sn % 0x10] + remaining[..Min(CF_MAX_DATA, |remaining|)]
  }

  function FlowControlOf(fs: FlowStatus, blockSize: byte, stMin: byte): Message {
    [0x30 + FlowStatusCode(fs), blockSize, stMin]
  }

  /* ---- Encoders: each writes the wire format byte by byte, or refuses and writes nothing ---- */

  method EncodeSingleFrame(pdu: seq<byte>) returns (out: Option<Message>)
    ensures out.Some? <==> 1 <= |pdu| <= SF_MAX_PAYLOAD
    ensures out.Some? ==> out.value == SingleFrameOf(pdu)
  {
    if |pdu| == 0 || |pdu| > SF_MAX_PAYLOAD {
      return None;
    }
    var frame: Message := [|pdu|];
    for i := 0 to |pdu|
      invariant frame == [|pdu|] + pdu[..i]
    {
      frame := frame + [pdu[i]];
    }
    return Some(frame);
  }

  method EncodeFirstFrame(pdu: seq<byte>) returns (out: Option<Message>)
    ensures out.Some? <==> SF_MAX_PAYLOAD < |pdu| <= FF_MAX_PDU
    ensures out.Some? ==> out.value == FirstFrameOf(pdu)
  {
    if |pdu| <= SF_MAX_PAYLOAD || |pdu| > FF_MAX_PDU {
      return None;
    }
    var frame: Message := [0x10 + |pdu| / 0x100, |pdu| % 0x100];
    var i := 0;
    while i < FF_FIRST_DATA && i < |pdu|
      invariant 0 <= i <= FF_FIRST_DATA
      invariant frame == [0x10 + |pdu| / 0x100, |pdu| % 0x100] + pdu[..i]
    {
      frame := frame + [pdu[i]];
      i := i + 1;
    }
    return Some(frame);
  }

  method EncodeConsecutiveFrame(sn: byte, remaining: seq<byte>) returns (out: Message, written: nat)
    ensures out == ConsecutiveFrameOf(sn, remaining)
    ensures written == |out| - 1
  {
    out := [0x20 + sn % 0x10];
    written := 0;
    while written < CF_MAX_DATA && written < |remaining|
      invariant 0 <= written <= Min(CF_MAX_DATA, |remaining|)
      invariant out == [0x20 + sn % 0x10] + remaining[..written]
    {
      out := out + [remaining[written]];
      written := written + 1;
    }
  }

  method EncodeFlowControl(fs: FlowStatus, blockSize: byte, stMin: byte) returns (out: Message)
    ensures out == FlowControlOf(fs, blockSize, stMin)
    ensures DecodeFrameType(out) == FlowControl
    ensures DecodeFlowControl(out) == Some((fs, blockSize, stMin))
  {
    out := [0x30 + FlowStatusCode(fs), blockSize, stMin];
  }

  /* ---- Segmentation ---- */

  predicate IsPdu(pdu: seq<byte>) {
    1 <= |pdu| <= FF_MAX_PDU
  }

  /** Number of consecutive frames that follow the first or single frame. */
  function CfCount(pdu: seq<byte>): nat {
    if |pdu| <= SF_MAX_PAYLOAD then 0 else |pdu| / CF_MAX_DATA
  }

  /** Bytes of `pdu` carried by the first frame and `k` consecutive frames. */
  function BytesAfter(pdu: seq<byte>, k: nat): nat {
    Min(FF_FIRST_DATA + CF_MAX_DATA * k, |pdu|)
  }

  /** The `index`-th frame of the transfer of `pdu`; index 0 is the single or first frame. */
  function FrameAt(pdu: seq<byte>, index: nat): Message
    requires IsPdu(pdu) && index <= CfCount(pdu)
  {
    if index == 0 then
      if |pdu| <= SF_MAX_PAYLOAD then SingleFrameOf(pdu) else FirstFrameOf(pdu)
    else
      ConsecutiveFrameOf(index % 0x10, pdu[BytesAfter(pdu, index - 1)..])
  }

  function Segment(pdu: seq<byte>): (frames: seq<Message>)
    requires IsPdu(pdu)
    ensures |frames| == 1 + CfCount(pdu)
  {
    seq(1 + CfCount(pdu), i requires 0 <= i <= CfCount(pdu) => FrameAt(pdu, i))
  }

  /** The data of the first `k` consecutive frames of a list, in order. */
  function CfData(cfs: seq<Message>): seq<byte>
    requires forall i :: 0 <= i < |cfs| ==> cfs[i] != []
  {
    if cfs == [] then [] else CfData(cfs[..|cfs| - 1]) + cfs[|cfs| - 1][1..]
  }

  /** What a reader of ISO 15765-2 takes out of a complete list of frames. */
  function Reassemble(frames: seq<Message>): seq<byte>
    requires frames != [] && forall i :: 0 <= i < |frames| ==> |frames[i]| >= 2
  {
    if DecodeFrameType(frames[0]) == SingleFrame then
      frames[0][1..]
    else
      frames[0][2..] + CfData(frames[1..])
  }

  lemma {:induction false} CfDataOfSegment(pdu: seq<byte>, k: nat)
    requires IsPdu(pdu) && SF_MAX_PAYLOAD < |pdu| && k <= CfCount(pdu)
    ensures CfData(Segment(pdu)[1..][..k]) == pdu[FF_FIRST_DATA..BytesAfter(pdu, k)]
  {
    if k > 0 {
      var cfs := Segment(pdu)[1..];
      CfDataOfSegment(pdu, k - 1);
      assert cfs[..k][..k - 1] == cfs[..k - 1];
      assert cfs[..k][k - 1] == FrameAt(pdu, k);
    }
  }

  lemma FramesCarryData(pdu: seq<byte>)
    requires IsPdu(pdu)
    ensures forall i :: 0 <= i < |Segment(pdu)| ==> |Segment(pdu)[i]| >= 2
  {
  }

  /** Cutting a PDU into frames and putting the frames back together gives the PDU, for every legal length. */
  lemma SegmentationRoundTrip(pdu: seq<byte>)
    requires IsPdu(pdu)
    ensures forall i :: 0 <= i < |Segment(pdu)| ==> |Segment(pdu)[i]| >= 2
    ensures Reassemble(Segment(pdu)) == pdu
  {
    var frames := Segment(pdu);
    assert frames[0] == FrameAt(pdu, 0);
    FramesCarryData(pdu);
    if SF_MAX_PAYLOAD < |pdu| {
      FrameHeaders(pdu, 0);
      CfDataOfSegment(pdu, CfCount(pdu));
      assert frames[1..][..CfCount(pdu)] == frames[1..];
      assert pdu[..FF_FIRST_DATA] + pdu[FF_FIRST_DATA..] == pdu;
    }
  }

  /** Every decoder reads back what the matching encoder of the transfer wrote. */
  lemma FrameHeaders(pdu: seq<byte>, index: nat)
    requires IsPdu(pdu) && index <= CfCount(pdu)
    ensures index == 0 && |pdu| <= SF_MAX_PAYLOAD ==>
              DecodeFrameType(FrameAt(pdu, index)) == SingleFrame
              && DecodeSingleFrameLength(FrameAt(pdu, index)) == |pdu| == |FrameAt(pdu, index)| - 1
              && FrameAt(pdu, index)[1..] == pdu
    ensures index == 0 && |pdu| > SF_MAX_PAYLOAD ==>
              DecodeFrameType(FrameAt(pdu, index)) == FirstFrame
              && DecodeFirstFrameTotalLength(FrameAt(pdu, index)) == |pdu|
              && |FrameAt(pdu, index)| == 8
              && FrameAt(pdu, index)[2..] == pdu[..BytesAfter(pdu, 0)]
    ensures index > 0 ==>
              DecodeFrameType(FrameAt(pdu, index)) == ConsecutiveFrame
              && DecodeConsecutiveFrameSn(FrameAt(pdu, index)) == index % 0x10
              && |FrameAt(pdu, index)| == 1 + BytesAfter(pdu, index) - BytesAfter(pdu, index - 1)
              && FrameAt(pdu, index)[1..] == pdu[BytesAfter(pdu, index - 1)..BytesAfter(pdu, index)]
  {
    if index == 0 && |pdu| > SF_MAX_PAYLOAD {
      var f := FirstFrameOf(pdu);
      assert f[0] == 0x10 + |pdu| / 0x100 && f[0] / 0x10 == 1;
      assert f[1] == |pdu| % 0x100;
      assert f[2..] == pdu[..FF_FIRST_DATA];
    } else if index > 0 {
      var rest := pdu[BytesAfter(pdu, index - 1)..];
      var f := ConsecutiveFrameOf(index % 0x10, rest);
      assert f[0] == 0x20 + index % 0x10;
      assert f[1..] == rest[..Min(CF_MAX_DATA, |rest|)];
    } else {
      assert SingleFrameOf(pdu)[1..] == pdu;
    }
  }
}
