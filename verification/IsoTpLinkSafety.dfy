/**
 Safety of a lossy link whose transfers start where it is harmless: what the
 receiver delivers is a subsequence of what the sender accepted, byte for byte,
 and no PDU is put together from frames of two transfers.
 */
module IsoTpLinkSafety {
  import opened CanTypes
  import opened IsoTpCodec
  import opened IsoTpLink
  import opened IsoTpLinkOrigins
  import S = IsoTpSender
  import SR = IsoTpSenderRuns
  import R = IsoTpReceiver

  /* ---- What holds in every run ---- */

  /** A reception in step with a transfer holds no more frames than reached it, and the right bytes as long as none is
      missing. Frames lost sixteen at a time leave it short, never wrong and complete. */
  predicate InStep(rx: R.Receiver, rec: R.Reception, pdu: seq<byte>, position: nat) {
    rec.Ongoing? && position > 0 ==>
      && SF_MAX_PAYLOAD < |pdu| && rx.expectedTotal == |pdu|
      && |rec.cfs| <= position - 1
      && (|rec.cfs| == position - 1 ==> rx.buffer == pdu[..BytesAfter(pdu, |rec.cfs|)])
  }

  predicate FrameOf(sent: seq<seq<byte>>, d: InFlight, x: nat) {
    && x < |sent| && IsPdu(sent[x]) && d.index <= CfCount(sent[x]) && d.frame == FrameAt(sent[x], d.index)
  }

  predicate Before(x: nat, index: nat, x': nat, index': nat) {
    x < x' || (x == x' && index < index')
  }

  /** The frames in flight are frames of their transfers, in the order they were handed over. */
  predicate FramesOk(sent: seq<seq<byte>>, data: seq<InFlight>, of: seq<nat>, handed: nat) {
    && |of| == |data|
    && (forall j :: 0 <= j < |data| ==> FrameOf(sent, data[j], of[j]) && (of[j] + 1 == |sent| ==> data[j].index < handed))
    && (forall i, j :: 0 <= i < j < |data| ==> Before(of[i], data[i].index, of[j], data[j].index))
  }

  predicate SenderOk(l: Link) {
    && (forall i :: 0 <= i < |l.sent| ==> IsPdu(l.sent[i]) && |l.sent[i]| <= l.tx.s.capacity)
    && (if l.sent == [] then l.tx.s.phase == S.Idle
        else
          var pdu := l.sent[|l.sent| - 1];
          (l.tx.s.phase != S.Idle ==> l.tx.s.pdu == pdu) && 1 <= |l.tx.handed| <= 1 + CfCount(pdu))
  }

  predicate FromOne(transfers: seq<nat>, x: nat) {
    forall k :: 0 <= k < |transfers| ==> transfers[k] == x
  }

  /** All frames of the reception in progress are of transfer `r`, and the frames of it still to come lie behind. */
  predicate ReceptionOf(t: Tracked, r: nat)
    requires Tagged(t) && t.l.rec.Ongoing?
  {
    && r < |t.l.sent| && |t.from| == 1 + |t.l.rec.cfs| && FromOne(t.from, r)
    && t.position > 0 && InStep(t.l.rx, t.l.rec, t.l.sent[r], t.position)
    && (forall j :: 0 <= j < |t.of| ==> r <= t.of[j] && (t.of[j] == r ==> t.position <= t.l.data[j].index))
    && (r + 1 == |t.l.sent| ==> t.position <= |t.l.tx.handed|)
  }

  predicate ReceptionOk(t: Tracked)
    requires Tagged(t)
  {
    if t.l.rec.Ongoing? then t.from != [] && ReceptionOf(t, t.from[0]) else t.from == []
  }

  /** Transfer `x` meets no reception of another one: none is open, and none ahead in the channel opens. */
  predicate Undisturbed(t: Tracked, x: nat, ahead: nat)
    requires ahead <= |t.l.data| == |t.of|
  {
    && FromOne(t.from, x)
    && (forall i :: 0 <= i < ahead && Opens(t.l.rx, t.l.data[i]) ==> t.of[i] == x)
  }

  /** Consecutive frames in flight cannot reach a reception that is not theirs. */
  predicate ConsecutivesOk(t: Tracked)
    requires Tagged(t)
  {
    forall j :: 0 <= j < |t.of| && t.l.data[j].index > 0 ==> Undisturbed(t, t.of[j], j)
  }

  /** No flow control will let the sender go on before its own first frame has arrived. */
  predicate Ungranted(t: Tracked)
    requires Tagged(t)
  {
    && (forall p :: 0 <= p < |t.l.fc| ==> !IsGrant(t.l.fc[p]))
    && (forall i :: 0 <= i < |t.of| && Opens(t.l.rx, t.l.data[i]) ==> t.of[i] == Current(t.l))
    && (t.l.rx.blockSize != 0 ==> forall i :: 0 <= i < |t.of| ==> t.l.data[i].index == 0)
  }

  /** A sender hands over consecutive frames only when no other transfer can take them. */
  predicate GoingOnOk(t: Tracked)
    requires Tagged(t)
  {
    match t.l.tx.s.phase
    case SendingCf => Undisturbed(t, Current(t.l), |t.of|)
    case WaitingForFc => Undisturbed(t, Current(t.l), |t.of|) || Ungranted(t)
    case _ => true
  }

  predicate FcOk(l: Link) {
    forall p :: 0 <= p < |l.fc| ==>
      l.fc[p] == FlowControlOf(ContinueToSend, l.rx.blockSize, l.rx.separationTime)
      || l.fc[p] == FlowControlOf(Overflow, l.rx.blockSize, l.rx.separationTime)
  }

  /** Each delivered PDU is the PDU of one transfer, and the transfers follow one another. */
  predicate Whole(sent: seq<seq<byte>>, delivered: seq<seq<byte>>, origins: seq<seq<nat>>) {
    && |origins| == |delivered|
    && (forall d :: 0 <= d < |origins| ==>
          && origins[d] != [] && origins[d][0] < |sent| && delivered[d] == sent[origins[d][0]]
          && (forall i :: 0 <= i < |origins[d]| ==> origins[d][i] == origins[d][0]))
    && (forall c, d :: 0 <= c < d < |origins| ==> origins[c] != [] && origins[d] != [] && origins[c][0] < origins[d][0])
  }

  /** Only transfers after the last one delivered still have frames to come. */
  predicate Onward(t: Tracked)
    requires Tagged(t)
  {
    t.origins != [] && t.origins[|t.origins| - 1] != [] ==>
      var x := t.origins[|t.origins| - 1][0];
      && (forall j :: 0 <= j < |t.of| ==> x < t.of[j])
      && (forall k :: 0 <= k < |t.from| ==> x < t.from[k])
      && (x < |t.l.sent| && x + 1 == |t.l.sent| ==> |t.l.tx.handed| >= 1 + CfCount(t.l.sent[x]))
  }

  ghost predicate Inv(t: Tracked) {
    && SR.Inv(t.l.tx) && R.Represents(t.l.rx, t.l.rec) && Tagged(t)
    && SenderOk(t.l) && FramesOk(t.l.sent, t.l.data, t.of, |t.l.tx.handed|)
    && ReceptionOk(t) && ConsecutivesOk(t) && GoingOnOk(t) && FcOk(t.l)
    && Whole(t.l.sent, t.l.delivered, t.origins) && Onward(t)
  }

  /* ---- What the invariant means ---- */

  /** `delivered` is `sent` at increasing places. */
  predicate Picks(sent: seq<seq<byte>>, delivered: seq<seq<byte>>, places: seq<nat>) {
    && |places| == |delivered|
    && (forall d :: 0 <= d < |places| ==> places[d] < |sent| && delivered[d] == sent[places[d]])
    && (forall c, d :: 0 <= c < d < |places| ==> places[c] < places[d])
  }

  lemma PicksWithoutLast(sent: seq<seq<byte>>, delivered: seq<seq<byte>>, places: seq<nat>)
    requires Picks(sent, delivered, places) && delivered != [] && places[|places| - 1] == |sent| - 1
    ensures Picks(sent[..|sent| - 1], delivered[..|delivered| - 1], places[..|places| - 1])
    ensures delivered[|delivered| - 1] == sent[|sent| - 1]
  {
  }

  lemma PicksEarlier(sent: seq<seq<byte>>, delivered: seq<seq<byte>>, places: seq<nat>)
    requires Picks(sent, delivered, places) && delivered != [] && places[|places| - 1] < |sent| - 1
    ensures Picks(sent[..|sent| - 1], delivered, places)
  {
  }

  lemma {:induction false} PicksAreSubsequence(sent: seq<seq<byte>>, delivered: seq<seq<byte>>, places: seq<nat>)
    requires Picks(sent, delivered, places)
    ensures IsSubsequence(delivered, sent)
    decreases |sent|
  {
    if delivered != [] {
      var n := |delivered| - 1;
      assert places[n] < |sent|;
      var init, last := sent[..|sent| - 1], sent[|sent| - 1];
      if places[n] == |sent| - 1 {
        PicksWithoutLast(sent, delivered, places);
        PicksAreSubsequence(init, delivered[..n], places[..n]);
        SubsequenceExtend(delivered[..n], init, last);
        assert delivered == delivered[..n] + [last];
      } else {
        PicksEarlier(sent, delivered, places);
        PicksAreSubsequence(init, delivered, places);
        SubsequenceAppend(delivered, init, last);
      }
      assert init + [last] == sent;
    }
  }

  lemma WholeIsSubsequence(sent: seq<seq<byte>>, delivered: seq<seq<byte>>, origins: seq<seq<nat>>)
    requires Whole(sent, delivered, origins)
    ensures IsSubsequence(delivered, sent)
  {
    var places := seq(|origins|, d requires 0 <= d < |origins| && origins[d] != [] => origins[d][0]);
    PicksAreSubsequence(sent, delivered, places);
  }

  lemma WholeIsUnspliced(t: Tracked)
    requires Whole(t.l.sent, t.l.delivered, t.origins)
    ensures !Spliced(t)
  {
  }

  /** The heart of the argument: a consecutive frame either arrives in its place, or leaves a gap that no later
      frame of the same transfer can close, whatever its sequence number. */
  lemma ConsecutiveArrives(pdu: seq<byte>, rx: R.Receiver, rec: R.Reception, position: nat, index: nat)
    requires IsPdu(pdu) && SF_MAX_PAYLOAD < |pdu|
    requires R.Represents(rx, rec) && rec.Ongoing? && InStep(rx, rec, pdu, position)
    requires 0 < position <= index <= CfCount(pdu)
    ensures DecodeFrameType(FrameAt(pdu, index)) == ConsecutiveFrame
    ensures var frame := FrameAt(pdu, index);
            var answer := R.AnswerConsecutive(rec, rx.blockSize, frame);
            && (answer.pdu.Some? ==> answer.pdu.value == pdu && index == CfCount(pdu))
            && InStep(R.OnConsecutive(rx, frame).r, answer.rec, pdu, index + 1)
  {
    var frame := FrameAt(pdu, index);
    var k := |rec.cfs|;
    FrameHeaders(pdu, index);
    if R.LongEnough(rx, frame) && DecodeConsecutiveFrameSn(frame) == rx.expectedSn {
      R.AppendedRepresents(rx, rec, frame);
      if k + 1 == index {
        InPlace(pdu, rx, frame, k);
      }
    }
  }

  /** The frame due next extends the bytes received so far. */
  lemma InPlace(pdu: seq<byte>, rx: R.Receiver, frame: Message, k: nat)
    requires rx.expectedTotal == |pdu| && frame != [] && FF_FIRST_DATA + CF_MAX_DATA * k < |pdu|
    requires rx.buffer == pdu[..BytesAfter(pdu, k)]
    requires |frame| == 1 + BytesAfter(pdu, k + 1) - BytesAfter(pdu, k)
    requires frame[1..] == pdu[BytesAfter(pdu, k)..BytesAfter(pdu, k + 1)]
    ensures R.Appended(rx, frame).buffer == pdu[..BytesAfter(pdu, k + 1)]
  {
    SlicesJoin(pdu, BytesAfter(pdu, k), BytesAfter(pdu, k + 1));
    assert frame[1..1 + (|frame| - 1)] == frame[1..];
  }

  /* ---- Starting a transfer ---- */

  lemma BegunFrames(t: Tracked, e: SR.RunEvent)
    requires Inv(t) && SR.Enabled(t.l.tx, e) && SR.Begins(t.l.tx, e)
    ensures var l' := SenderMoves(t.l, e);
            && l'.sent == t.l.sent + [e.pdu] && l'.data == t.l.data + [InFlight(FrameAt(e.pdu, 0), 0)]
            && l'.tx.handed == [FrameAt(e.pdu, 0)] && l'.tx.s.pdu == e.pdu && l'.tx.s.capacity == t.l.tx.s.capacity
            && (l'.tx.s.phase == if |e.pdu| <= SF_MAX_PAYLOAD then S.SendingSf else S.WaitingForFc)
            && l' == t.l.(tx := l'.tx, sent := l'.sent, data := l'.data, taken := 0)
  {
    SR.EnabledIsLegitimate(t.l.tx, e);
    SR.ReactFrameEffect(t.l.tx.s, SR.MachineEvent(e));
  }

  predicate Begun(t: Tracked, t': Tracked, pdu: seq<byte>)
    requires IsPdu(pdu) && Tagged(t)
  {
    && t' == t.(l := t'.l, of := t.of + [|t.l.sent|])
    && t'.l == t.l.(tx := t'.l.tx, sent := t.l.sent + [pdu], data := t.l.data + [InFlight(FrameAt(pdu, 0), 0)], taken := 0)
    && t'.l.tx.handed == [FrameAt(pdu, 0)] && t'.l.tx.s.pdu == pdu && t'.l.tx.s.capacity == t.l.tx.s.capacity
    && |pdu| <= t.l.tx.s.capacity
    && t'.l.tx.s.phase == if |pdu| <= SF_MAX_PAYLOAD then S.SendingSf else S.WaitingForFc
  }

  lemma BegunReception(t: Tracked, t': Tracked, pdu: seq<byte>)
    requires Inv(t) && IsPdu(pdu) && Begun(t, t', pdu)
    ensures Tagged(t') && ReceptionOk(t') && ConsecutivesOk(t')
  {
    forall j | 0 <= j < |t'.of| && t'.l.data[j].index > 0
      ensures Undisturbed(t', t'.of[j], j)
    {
      assert j < |t.of| && Undisturbed(t, t.of[j], j);
    }
  }

  lemma BegunOnward(t: Tracked, t': Tracked, pdu: seq<byte>)
    requires Inv(t) && IsPdu(pdu) && Begun(t, t', pdu)
    ensures Tagged(t') && Onward(t') && Whole(t'.l.sent, t'.l.delivered, t'.origins)
  {
  }

  lemma FirstOrSingleHeader(pdu: seq<byte>)
    requires IsPdu(pdu)
    ensures DecodeFrameType(FrameAt(pdu, 0)) != ConsecutiveFrame
    ensures R.UsableFirst(FrameAt(pdu, 0)) <==> |pdu| > SF_MAX_PAYLOAD
    ensures R.UsableSingle(FrameAt(pdu, 0)) <==> |pdu| <= SF_MAX_PAYLOAD
  {
    FrameHeaders(pdu, 0);
  }

  /** Where it is harmless, the new sender will not be let go on into a reception of another transfer. */
  lemma BegunGoesOn(t: Tracked, t': Tracked, pdu: seq<byte>)
    requires Inv(t) && IsPdu(pdu) && Begun(t, t', pdu) && Harmless(t.l, pdu)
    ensures Tagged(t') && GoingOnOk(t')
  {
    if |pdu| > SF_MAX_PAYLOAD {
      assert forall i :: 0 <= i < |t.of| ==> !Opens(t.l.rx, t.l.data[i]);
      if t.l.rec.Ongoing? && t.l.rx.blockSize != 0 {
        forall i | 0 <= i < |t'.of|
          ensures t'.l.data[i].index == 0
        {
          if i < |t.of| {
            assert FrameOf(t.l.sent, t.l.data[i], t.of[i]);
            FrameHeaders(t.l.sent[t.of[i]], t.l.data[i].index);
            assert t'.l.data[i] == t.l.data[i];
          }
        }
      }
    }
  }

  lemma BegunFramesOk(t: Tracked, t': Tracked, pdu: seq<byte>)
    requires Inv(t) && IsPdu(pdu) && Begun(t, t', pdu)
    ensures FramesOk(t'.l.sent, t'.l.data, t'.of, |t'.l.tx.handed|) && SenderOk(t'.l)
  {
    forall j | 0 <= j < |t'.of|
      ensures FrameOf(t'.l.sent, t'.l.data[j], t'.of[j])
    {
      if j < |t.of| { assert FrameOf(t.l.sent, t.l.data[j], t.of[j]); }
    }
    forall i, j | 0 <= i < j < |t'.of|
      ensures Before(t'.of[i], t'.l.data[i].index, t'.of[j], t'.l.data[j].index)
    {
      if j < |t.of| {
        assert Before(t.of[i], t.l.data[i].index, t.of[j], t.l.data[j].index);
      } else {
        assert FrameOf(t.l.sent, t.l.data[i], t.of[i]);
      }
    }
  }

  lemma BeginKeepsInv(t: Tracked, e: SR.RunEvent)
    requires Inv(t) && CanOccur(t.l, AtSender(e)) && SR.Begins(t.l.tx, e) && Harmless(t.l, e.pdu)
    ensures Inv(TrackedNext(t, AtSender(e)))
  {
    var t' := TrackedNext(t, AtSender(e));
    BegunFrames(t, e);
    SR.NextKeepsInv(t.l.tx, e);
    BegunFramesOk(t, t', e.pdu);
    BegunReception(t, t', e.pdu);
    BegunOnward(t, t', e.pdu);
    BegunGoesOn(t, t', e.pdu);
  }

  /* ---- Steps of the sender ---- */

  /** What lets a sender go on: it was going on, or waited and is granted a block. */
  lemma GoingOn(s: S.Sender, e: S.Event)
    requires S.Valid(s) && S.CanHappen(s, e) && S.Legitimate(s, e) && !(e.Send? && S.Accepts(s, e.pdu))
    ensures var step := S.React(s, e);
            && (step.frame.Some? || step.s.phase == S.SendingCf ==>
                  s.phase == S.SendingCf || (s.phase == S.WaitingForFc && e.FlowControlArrives? && IsGrant(e.frame)))
            && (step.frame.None? && step.s.phase == S.WaitingForFc ==> s.phase == S.WaitingForFc)
            && step.s.capacity == s.capacity
  {
  }

  /** A step that starts nothing: at most one more frame of the current transfer. */
  predicate WentOn(t: Tracked, t': Tracked, frame: Option<Message>)
    requires Tagged(t)
  {
    && t'.l == t.l.(tx := t'.l.tx, fc := t'.l.fc, data := if frame.Some? then t.l.data + [InFlight(frame.value, |t.l.tx.handed|)] else t.l.data)
    && t' == t.(l := t'.l, of := if frame.Some? then t.of + [Current(t.l)] else t.of)
    && t'.l.tx.s.capacity == t.l.tx.s.capacity
    && t'.l.tx.handed == t.l.tx.handed + (if frame.Some? then [frame.value] else [])
    && (t'.l.tx.s.phase != S.Idle ==> t.l.tx.s.phase != S.Idle && t'.l.tx.s.pdu == t.l.tx.s.pdu)
    && (frame.Some? ==> t.l.sent != [] && t.l.tx.s.phase != S.Idle)
    && (frame.Some? && t.l.sent != [] && IsPdu(t.l.sent[|t.l.sent| - 1]) ==>
          1 <= |t.l.tx.handed| <= CfCount(t.l.sent[|t.l.sent| - 1])
          && frame.value == FrameAt(t.l.sent[|t.l.sent| - 1], |t.l.tx.handed|))
    && (frame.Some? || t'.l.tx.s.phase == S.SendingCf ==> Undisturbed(t, Current(t.l), |t.of|))
    && (t'.l.tx.s.phase == S.WaitingForFc ==>
          Undisturbed(t, Current(t.l), |t.of|) || (frame.None? && t.l.tx.s.phase == S.WaitingForFc))
    && (forall p :: 0 <= p < |t'.l.fc| ==> t'.l.fc[p] in t.l.fc)
  }

  lemma AppendedFramesOk(sent: seq<seq<byte>>, data: seq<InFlight>, of: seq<nat>, handed: nat)
    requires sent != [] && FramesOk(sent, data, of, handed)
    requires IsPdu(sent[|sent| - 1]) && 1 <= handed <= CfCount(sent[|sent| - 1])
    ensures FramesOk(sent, data + [InFlight(FrameAt(sent[|sent| - 1], handed), handed)], of + [|sent| - 1], handed + 1)
  {
    var data' := data + [InFlight(FrameAt(sent[|sent| - 1], handed), handed)];
    var of' := of + [|sent| - 1];
    forall j | 0 <= j < |data'|
      ensures FrameOf(sent, data'[j], of'[j]) && (of'[j] + 1 == |sent| ==> data'[j].index < handed + 1)
    {
      if j < |data| { assert FrameOf(sent, data[j], of[j]); }
    }
    forall i, j | 0 <= i < j < |data'|
      ensures Before(of'[i], data'[i].index, of'[j], data'[j].index)
    {
      if j < |data| {
        assert Before(of[i], data[i].index, of[j], data[j].index);
      } else {
        assert FrameOf(sent, data[i], of[i]);
      }
    }
  }

  lemma WentOnFrames(t: Tracked, t': Tracked, frame: Option<Message>)
    requires Tagged(t) && SenderOk(t.l) && FramesOk(t.l.sent, t.l.data, t.of, |t.l.tx.handed|) && WentOn(t, t', frame)
    ensures Tagged(t') && FramesOk(t'.l.sent, t'.l.data, t'.of, |t'.l.tx.handed|) && SenderOk(t'.l)
  {
    if frame.Some? {
      AppendedFramesOk(t.l.sent, t.l.data, t.of, |t.l.tx.handed|);
    }
  }

  lemma WentOnConsecutives(t: Tracked, t': Tracked, frame: Option<Message>)
    requires Tagged(t) && ConsecutivesOk(t) && WentOn(t, t', frame)
    ensures Tagged(t') && ConsecutivesOk(t')
  {
    forall j | 0 <= j < |t'.of| && t'.l.data[j].index > 0
      ensures Undisturbed(t', t'.of[j], j)
    {
      if j < |t.of| { assert Undisturbed(t, t.of[j], j); }
    }
  }

  lemma WentOnGoesOn(t: Tracked, t': Tracked, frame: Option<Message>)
    requires Tagged(t) && GoingOnOk(t) && WentOn(t, t', frame)
    ensures Tagged(t') && GoingOnOk(t')
  {
    if Undisturbed(t, Current(t.l), |t.of|) {
      assert Undisturbed(t', Current(t'.l), |t'.of|);
    } else if t'.l.tx.s.phase == S.WaitingForFc {
      assert Ungranted(t');
    }
  }

  lemma WentOnReception(t: Tracked, t': Tracked, frame: Option<Message>)
    requires Tagged(t) && SenderOk(t.l) && ReceptionOk(t) && WentOn(t, t', frame)
    ensures Tagged(t') && ReceptionOk(t')
  {
  }

  lemma WentOnOnward(t: Tracked, t': Tracked, frame: Option<Message>)
    requires Tagged(t) && SenderOk(t.l) && WentOn(t, t', frame) && Whole(t.l.sent, t.l.delivered, t.origins) && Onward(t)
    ensures Tagged(t') && Onward(t')
  {
  }

  /** What one step of a sender that begins no transfer means for the frames it has handed over. */
  lemma NextHandsOver(tx: SR.Run, e: SR.RunEvent, step: S.Step, pdu: seq<byte>)
    requires SR.HandedOk(tx) && !SR.Begins(tx, e) && SR.FrameEffect(tx.s, SR.MachineEvent(e), step)
    requires IsPdu(pdu) && (tx.s.phase != S.Idle ==> tx.s.pdu == pdu)
    ensures var tx' := SR.NextBy(tx, e, step);
            && tx'.handed == tx.handed + (if step.frame.Some? then [step.frame.value.frame] else [])
            && (tx'.s.phase != S.Idle ==> tx.s.phase != S.Idle && tx'.s.pdu == tx.s.pdu)
            && (step.frame.Some? ==>
                  tx.s.phase != S.Idle && 1 <= |tx.handed| <= CfCount(pdu) && step.frame.value.frame == FrameAt(pdu, |tx.handed|))
  {
  }

  lemma IdleHandsOverNothing(tx: SR.Run, e: SR.RunEvent, step: S.Step)
    requires !SR.Begins(tx, e) && SR.FrameEffect(tx.s, SR.MachineEvent(e), step) && tx.s.phase == S.Idle
    ensures step.frame.None? && step.s.phase == S.Idle && SR.NextBy(tx, e, step).handed == tx.handed
  {
  }

  /** The sender's part of WentOn; `t` may already have lost the flow control it answers to. */
  lemma SenderWentOn(t: Tracked, e: SR.RunEvent, fc: seq<Message>)
    requires Inv(t) && SR.Enabled(t.l.tx, e) && !SR.Begins(t.l.tx, e)
    requires (forall p :: 0 <= p < |fc| ==> fc[p] in t.l.fc) && (e.FlowControl? ==> e.frame in t.l.fc)
    ensures var handed := S.React(t.l.tx.s, SR.MachineEvent(e)).frame;
            WentOn(t, SenderTags(t, SenderMoves(t.l.(fc := fc), e)), if handed.Some? then Some(handed.value.frame) else None)
  {
    var m := SR.MachineEvent(e);
    var step := S.React(t.l.tx.s, m);
    SR.EnabledIsLegitimate(t.l.tx, e);
    SR.ReactFrameEffect(t.l.tx.s, m);
    GoingOn(t.l.tx.s, m);
    if t.l.sent == [] {
      IdleHandsOverNothing(t.l.tx, e, step);
    } else {
      NextHandsOver(t.l.tx, e, step, t.l.sent[|t.l.sent| - 1]);
    }
    MayGoOn(t, m, step);
    StepWentOn(t, SR.NextBy(t.l.tx, e, step), if step.frame.Some? then Some(step.frame.value.frame) else None, fc);
  }

  lemma MayGoOn(t: Tracked, m: S.Event, step: S.Step)
    requires Tagged(t) && GoingOnOk(t) && (m.FlowControlArrives? ==> m.frame in t.l.fc)
    requires step.frame.Some? || step.s.phase == S.SendingCf ==>
               t.l.tx.s.phase == S.SendingCf || (t.l.tx.s.phase == S.WaitingForFc && m.FlowControlArrives? && IsGrant(m.frame))
    ensures step.frame.Some? || step.s.phase == S.SendingCf ==> Undisturbed(t, Current(t.l), |t.of|)
  {
  }

  lemma StepWentOn(t: Tracked, tx: SR.Run, frame: Option<Message>, fc: seq<Message>)
    requires Tagged(t) && SenderOk(t.l) && (forall p :: 0 <= p < |fc| ==> fc[p] in t.l.fc)
    requires tx.handed == t.l.tx.handed + (if frame.Some? then [frame.value] else []) && tx.s.capacity == t.l.tx.s.capacity
    requires tx.s.phase != S.Idle ==> t.l.tx.s.phase != S.Idle && tx.s.pdu == t.l.tx.s.pdu
    requires frame.Some? ==>
               && t.l.sent != [] && t.l.tx.s.phase != S.Idle
               && 1 <= |t.l.tx.handed| <= CfCount(t.l.sent[|t.l.sent| - 1])
               && frame.value == FrameAt(t.l.sent[|t.l.sent| - 1], |t.l.tx.handed|)
    requires frame.Some? || tx.s.phase == S.SendingCf ==> Undisturbed(t, Current(t.l), |t.of|)
    requires frame.None? && tx.s.phase == S.WaitingForFc ==> t.l.tx.s.phase == S.WaitingForFc
    ensures var l' := t.l.(fc := fc, tx := tx,
                           data := if frame.Some? then t.l.data + [InFlight(frame.value, |t.l.tx.handed|)] else t.l.data);
            WentOn(t, SenderTags(t, l'), frame)
  {
  }

  lemma ContinueKeepsInv(t: Tracked, e: SR.RunEvent, fc: seq<Message>)
    requires Inv(t) && SR.Enabled(t.l.tx, e) && !SR.Begins(t.l.tx, e)
    requires (forall p :: 0 <= p < |fc| ==> fc[p] in t.l.fc) && (e.FlowControl? ==> e.frame in t.l.fc)
    ensures Inv(SenderTags(t, SenderMoves(t.l.(fc := fc), e)))
  {
    var t' := SenderTags(t, SenderMoves(t.l.(fc := fc), e));
    var handed := S.React(t.l.tx.s, SR.MachineEvent(e)).frame;
    var frame := if handed.Some? then Some(handed.value.frame) else None;
    SenderWentOn(t, e, fc);
    SR.NextKeepsInv(t.l.tx, e);
    WentOnFrames(t, t', frame);
    WentOnConsecutives(t, t', frame);
    WentOnGoesOn(t, t', frame);
    WentOnReception(t, t', frame);
    WentOnOnward(t, t', frame);
  }

  /* ---- Losses, and the receiver on its own ---- */

  /** The frames of `t` that are not lost, each in its old place. */
  predicate Thinned(t: Tracked, t': Tracked, i: nat)
    requires Tagged(t) && i < |t.of|
  {
    && t' == t.(l := t'.l, of := t'.of)
    && t'.l == t.l.(data := t'.l.data) && |t'.of| == |t'.l.data| == |t.of| - 1
    && (forall j :: 0 <= j < |t'.of| ==>
          var k := if j < i then j else j + 1;
          t'.l.data[j] == t.l.data[k] && t'.of[j] == t.of[k])
  }

  lemma LossFrames(t: Tracked, t': Tracked, i: nat)
    requires Inv(t) && i < |t.of| && Thinned(t, t', i)
    ensures FramesOk(t'.l.sent, t'.l.data, t'.of, |t'.l.tx.handed|) && Tagged(t') && ReceptionOk(t') && Onward(t')
  {
  }

  lemma LossUndisturbed(t: Tracked, t': Tracked, i: nat, x: nat, ahead: nat, ahead': nat)
    requires Tagged(t) && i < |t.of| && Thinned(t, t', i) && ahead <= |t.of| && Undisturbed(t, x, ahead)
    requires ahead' <= |t'.of| && ahead' <= ahead && (i < ahead ==> ahead' < ahead)
    ensures Undisturbed(t', x, ahead')
  {
  }

  lemma LossConsecutives(t: Tracked, t': Tracked, i: nat)
    requires Inv(t) && i < |t.of| && Thinned(t, t', i)
    ensures Tagged(t') && ConsecutivesOk(t') && GoingOnOk(t')
  {
    forall j | 0 <= j < |t'.of| && t'.l.data[j].index > 0
      ensures Undisturbed(t', t'.of[j], j)
    {
      var k := if j < i then j else j + 1;
      LossUndisturbed(t, t', i, t.of[k], k, j);
    }
    if Undisturbed(t, Current(t.l), |t.of|) {
      LossUndisturbed(t, t', i, Current(t.l), |t.of|, |t'.of|);
    }
    if Ungranted(t) {
      assert Ungranted(t');
    }
  }

  lemma LossThins(t: Tracked, i: nat)
    requires Tagged(t) && CanOccur(t.l, LoseData(i))
    ensures Thinned(t, TrackedNext(t, LoseData(i)), i)
  {
  }

  lemma LossKeepsInv(t: Tracked, i: nat)
    requires Inv(t) && CanOccur(t.l, LoseData(i))
    ensures Inv(TrackedNext(t, LoseData(i)))
  {
    var t' := TrackedNext(t, LoseData(i));
    LossThins(t, i);
    LossFrames(t, t', i);
    LossConsecutives(t, t', i);
  }

  /** With the same frames in flight, fewer flow controls and no other reception, nothing new can go wrong. */
  lemma StillUndisturbed(t: Tracked, t': Tracked)
    requires Tagged(t) && t'.of == t.of && t'.l.data == t.l.data && t'.l.tx == t.l.tx && t'.l.sent == t.l.sent
    requires t'.from == t.from || t'.from == []
    requires t'.l.rx.capacity == t.l.rx.capacity && t'.l.rx.blockSize == t.l.rx.blockSize
    requires forall p :: 0 <= p < |t'.l.fc| ==> t'.l.fc[p] in t.l.fc
    requires ConsecutivesOk(t) && GoingOnOk(t)
    ensures Tagged(t') && ConsecutivesOk(t') && GoingOnOk(t')
  {
    forall j | 0 <= j < |t'.of| && t'.l.data[j].index > 0
      ensures Undisturbed(t', t'.of[j], j)
    {
      assert Undisturbed(t, t.of[j], j);
    }
    if Ungranted(t) { assert Ungranted(t'); }
  }

  lemma FcLossKeepsInv(t: Tracked, p: nat)
    requires Inv(t) && CanOccur(t.l, LoseFc(p))
    ensures Inv(TrackedNext(t, LoseFc(p)))
  {
    var rest := t.l.fc[..p] + t.l.fc[p + 1..];
    WithoutOne(t.l.fc, rest, p);
    FewerFcs(t, rest);
  }

  lemma WithoutOne(fc: seq<Message>, rest: seq<Message>, p: nat)
    requires p < |fc| && rest == fc[..p] + fc[p + 1..]
    ensures forall k :: 0 <= k < |rest| ==> rest[k] in fc
  {
    assert forall k :: 0 <= k < |rest| ==> rest[k] == fc[if k < p then k else k + 1];
  }

  lemma FewerFcs(t: Tracked, fc: seq<Message>)
    requires Inv(t) && forall k :: 0 <= k < |fc| ==> fc[k] in t.l.fc
    ensures Inv(t.(l := t.l.(fc := fc)))
  {
    StillUndisturbed(t, t.(l := t.l.(fc := fc)));
  }

  /** The reception stays as it is or ends. */
  lemma ReceptionMayEnd(t: Tracked, t': Tracked)
    requires Inv(t) && t' == t.(l := t.l.(rx := t'.l.rx, rec := t'.l.rec, aborted := t'.l.aborted), from := t'.from)
    requires R.Represents(t'.l.rx, t'.l.rec)
    requires (t'.l.rx == t.l.rx && t'.l.rec == t.l.rec && t'.from == t.from) || (t'.l.rec.NoReception? && t'.from == [])
    requires t'.l.rx.capacity == t.l.rx.capacity && t'.l.rx.blockSize == t.l.rx.blockSize && t'.l.rx.separationTime == t.l.rx.separationTime
    ensures Inv(t')
  {
    StillUndisturbed(t, t');
  }

  lemma ReceiverEventKeepsInv(t: Tracked, e: R.Event)
    requires Inv(t) && CanOccur(t.l, AtReceiver(e))
    ensures Inv(TrackedNext(t, AtReceiver(e)))
  {
    R.ReactRefines(t.l.rx, t.l.rec, e);
    ReceiverAlone(t.l.rx, e);
    var t' := TrackedNext(t, AtReceiver(e));
    assert t'.l.fc == t.l.fc && t'.l.delivered == t.l.delivered;
    ReceptionMayEnd(t, t');
  }

  lemma ReceiverAlone(rx: R.Receiver, e: R.Event)
    requires (|rx.buffer| <= rx.expectedTotal || !rx.receiving) && R.CanHappen(rx, e) && !e.FrameArrives?
    ensures var step := R.React(rx, e);
            && step.fc.None? && R.DeliveredBy(step.notices).None?
            && (step.r == rx || !step.r.receiving)
            && step.r.capacity == rx.capacity && step.r.blockSize == rx.blockSize && step.r.separationTime == rx.separationTime
  {
  }

  /* ---- A data frame arrives ---- */

  /** The frame in front is taken off; the others keep their places behind it. */
  predicate Arrived(t: Tracked, t': Tracked)
    requires Tagged(t) && t.l.data != []
  {
    && t'.of == t.of[1..] && t'.l.data == t.l.data[1..] && t'.position == t.l.data[0].index + 1
    && t'.l.tx == t.l.tx && t'.l.sent == t.l.sent
    && t'.l.rx.capacity == t.l.rx.capacity && t'.l.rx.blockSize == t.l.rx.blockSize && t'.l.rx.separationTime == t.l.rx.separationTime
  }

  lemma ArrivedFrames(t: Tracked, t': Tracked)
    requires Tagged(t) && FramesOk(t.l.sent, t.l.data, t.of, |t.l.tx.handed|) && t.l.data != [] && Arrived(t, t')
    ensures Tagged(t') && FramesOk(t'.l.sent, t'.l.data, t'.of, |t'.l.tx.handed|)
    ensures forall j :: 0 <= j < |t'.of| ==> Before(t.of[0], t.l.data[0].index, t'.of[j], t'.l.data[j].index)
  {
    assert forall j :: 0 <= j < |t'.of| ==> t'.of[j] == t.of[j + 1] && t'.l.data[j] == t.l.data[j + 1];
  }

  /** Frames behind are as undisturbed as before, unless a reception of another transfer has been opened. */
  lemma ArrivedUndisturbed(t: Tracked, t': Tracked, x: nat, ahead: nat)
    requires Tagged(t) && t.l.data != [] && Arrived(t, t') && 0 < ahead <= |t.of| && Undisturbed(t, x, ahead)
    requires FromOne(t'.from, t.of[0])
    requires t'.from != [] ==> (t.from != [] && t.from[0] == t.of[0]) || Opens(t.l.rx, t.l.data[0])
    ensures |t'.of| == |t'.l.data| && ahead - 1 <= |t'.of| && Undisturbed(t', x, ahead - 1)
  {
    assert forall j :: 0 <= j < |t'.of| ==> t'.of[j] == t.of[j + 1] && t'.l.data[j] == t.l.data[j + 1];
    if Opens(t.l.rx, t.l.data[0]) { assert t.of[0] == x; }
  }

  lemma ArrivedConsecutives(t: Tracked, t': Tracked)
    requires Inv(t) && t.l.data != [] && Arrived(t, t')
    requires FromOne(t'.from, t.of[0])
    requires t'.from != [] ==> (t.from != [] && t.from[0] == t.of[0]) || Opens(t.l.rx, t.l.data[0])
    ensures Tagged(t') && ConsecutivesOk(t')
    ensures Undisturbed(t, Current(t.l), |t.of|) ==> Undisturbed(t', Current(t'.l), |t'.of|)
  {
    forall j | 0 <= j < |t'.of| && t'.l.data[j].index > 0
      ensures Undisturbed(t', t'.of[j], j)
    {
      assert t'.of[j] == t.of[j + 1] && t'.l.data[j] == t.l.data[j + 1];
      ArrivedUndisturbed(t, t', t.of[j + 1], j + 1);
    }
    if Undisturbed(t, Current(t.l), |t.of|) {
      ArrivedUndisturbed(t, t', Current(t.l), |t.of|);
    }
  }

  /** A sender that waits ungranted: its own first frame alone can change that. */
  lemma ArrivedUngranted(t: Tracked, t': Tracked)
    requires Inv(t) && t.l.data != [] && Arrived(t, t') && Ungranted(t)
    requires t'.l.fc == t.l.fc || t'.l.fc == t.l.fc + [FlowControlOf(Overflow, t.l.rx.blockSize, t.l.rx.separationTime)]
             || (Opens(t.l.rx, t.l.data[0]) && t'.from == [t.of[0]])
    ensures Tagged(t') && (Ungranted(t') || Undisturbed(t', Current(t'.l), |t'.of|))
  {
    assert forall j :: 0 <= j < |t'.of| ==> t'.of[j] == t.of[j + 1] && t'.l.data[j] == t.l.data[j + 1];
  }

  /** What the receiver makes of the first frame of a transfer, whether it was idle or in an old reception. */
  lemma FirstFrameAnswer(pdu: seq<byte>, rx: R.Receiver, rec: R.Reception)
    requires IsPdu(pdu) && R.Represents(rx, rec)
    ensures var frame := FrameAt(pdu, 0);
            var step := R.OnFrame(rx, frame);
            var answer := R.AnswerFrame(rec, rx.capacity, rx.blockSize, frame);
            var fits := |pdu| <= rx.capacity;
            && (Opens(rx, InFlight(frame, 0)) <==> |pdu| > SF_MAX_PAYLOAD && fits)
            && answer.rec == (if |pdu| > SF_MAX_PAYLOAD && fits then R.Ongoing(frame, []) else R.NoReception)
            && answer.pdu == (if |pdu| <= SF_MAX_PAYLOAD && fits then Some(pdu) else None)
            && (if |pdu| <= SF_MAX_PAYLOAD then step.fc.None?
                else step.fc.Some? && step.fc.value.frame ==
                       FlowControlOf(if fits then ContinueToSend else Overflow, rx.blockSize, rx.separationTime))
            && InStep(step.r, answer.rec, pdu, 1)
            && step.r.capacity == rx.capacity && step.r.blockSize == rx.blockSize && step.r.separationTime == rx.separationTime
  {
    FrameHeaders(pdu, 0);
    if |pdu| <= SF_MAX_PAYLOAD {
      assert FrameAt(pdu, 0)[1..1 + |pdu|] == pdu;
    }
  }

  lemma ConsecutiveAnswer(pdu: seq<byte>, rx: R.Receiver, rec: R.Reception, position: nat, index: nat)
    requires IsPdu(pdu) && R.Represents(rx, rec) && rec.Ongoing? && InStep(rx, rec, pdu, position)
    requires 0 < position <= index <= CfCount(pdu)
    ensures var frame := FrameAt(pdu, index);
            var step := R.OnFrame(rx, frame);
            var answer := R.AnswerFrame(rec, rx.capacity, rx.blockSize, frame);
            && !R.UsableFirst(frame) && !R.UsableSingle(frame)
            && (answer.rec.NoReception? || answer.rec == rec || answer.rec == R.Ongoing(rec.ff, rec.cfs + [frame]))
            && (answer.pdu.Some? ==> answer.pdu.value == pdu && answer.rec.NoReception? && index == CfCount(pdu))
            && (step.fc.Some? ==> rx.blockSize != 0 && step.fc.value.frame == FlowControlOf(ContinueToSend, rx.blockSize, rx.separationTime))
            && InStep(step.r, answer.rec, pdu, index + 1)
            && step.r.capacity == rx.capacity && step.r.blockSize == rx.blockSize && step.r.separationTime == rx.separationTime
  {
    FrameHeaders(pdu, index);
    ConsecutiveArrives(pdu, rx, rec, position, index);
  }

  /** Outside a reception a consecutive frame is ignored. */
  lemma ConsecutiveIgnored(pdu: seq<byte>, rx: R.Receiver, rec: R.Reception, index: nat)
    requires IsPdu(pdu) && R.Represents(rx, rec) && rec.NoReception? && 0 < index <= CfCount(pdu)
    ensures var frame := FrameAt(pdu, index);
            && R.OnFrame(rx, frame) == R.Quiet(rx)
            && R.AnswerFrame(rec, rx.capacity, rx.blockSize, frame) == R.Answer(rec, None, None)
            && !R.UsableFirst(frame) && !R.UsableSingle(frame)
  {
    FrameHeaders(pdu, index);
  }

  /** What an arrival may do to the rest of the invariant, told by the frame's transfer `x`. */
  predicate Answered(t: Tracked, t': Tracked, x: nat)
    requires Tagged(t) && t.l.data != [] && x < |t.l.sent|
  {
    && Arrived(t, t')
    && FromOne(t'.from, x)
    && (t'.from != [] ==> (t.from != [] && t.from[0] == x) || Opens(t.l.rx, t.l.data[0]))
    && (if t'.l.delivered == t.l.delivered then t'.origins == t.origins
        else
          && t'.l.delivered == t.l.delivered + [t.l.sent[x]] && |t'.origins| == |t.origins| + 1 && t'.origins[..|t.origins|] == t.origins
          && t'.origins[|t.origins|] != [] && FromOne(t'.origins[|t.origins|], x)
          && IsPdu(t.l.sent[x]) && t.l.data[0].index == CfCount(t.l.sent[x]) && t'.from == [])
  }

  lemma WholeExtends(sent: seq<seq<byte>>, delivered: seq<seq<byte>>, origins: seq<seq<nat>>, x: nat, transfers: seq<nat>)
    requires Whole(sent, delivered, origins) && x < |sent|
    requires origins != [] ==> origins[|origins| - 1] != [] && origins[|origins| - 1][0] < x
    requires transfers != [] && FromOne(transfers, x)
    ensures Whole(sent, delivered + [sent[x]], origins + [transfers])
  {
  }

  lemma AnsweredOnward(t: Tracked, t': Tracked)
    requires Tagged(t) && FramesOk(t.l.sent, t.l.data, t.of, |t.l.tx.handed|) && t.l.data != [] && t.of[0] < |t.l.sent|
    requires Answered(t, t', t.of[0]) && Whole(t.l.sent, t.l.delivered, t.origins) && Onward(t)
    ensures Tagged(t') && Onward(t') && Whole(t'.l.sent, t'.l.delivered, t'.origins)
  {
    ArrivedFrames(t, t');
    assert forall j :: 0 <= j < |t'.of| ==> t'.of[j] == t.of[j + 1];
    if t'.l.delivered != t.l.delivered {
      var n := |t.origins|;
      assert t'.origins == t.origins + [t'.origins[n]];
      WholeExtends(t.l.sent, t.l.delivered, t.origins, t.of[0], t'.origins[n]);
      DeliveredLast(t, t');
    }
  }

  /** Of the transfer just delivered no frame is left. */
  lemma DeliveredLast(t: Tracked, t': Tracked)
    requires Tagged(t) && t.l.data != [] && FrameOf(t.l.sent, t.l.data[0], t.of[0]) && t.of[0] < |t.l.sent|
    requires t.of[0] + 1 == |t.l.sent| ==> t.l.data[0].index < |t.l.tx.handed|
    requires Answered(t, t', t.of[0]) && t'.l.delivered != t.l.delivered && Tagged(t')
    requires FramesOk(t'.l.sent, t'.l.data, t'.of, |t'.l.tx.handed|)
    requires forall j :: 0 <= j < |t'.of| ==> Before(t.of[0], t.l.data[0].index, t'.of[j], t'.l.data[j].index)
    ensures forall j :: 0 <= j < |t'.of| ==> t.of[0] < t'.of[j]
    ensures t.of[0] + 1 == |t.l.sent| ==> |t.l.tx.handed| >= 1 + CfCount(t.l.sent[t.of[0]])
  {
    forall j | 0 <= j < |t'.of|
      ensures t.of[0] < t'.of[j]
    {
      assert FrameOf(t'.l.sent, t'.l.data[j], t'.of[j]);
    }
    assert FrameOf(t.l.sent, t.l.data[0], t.of[0]);
  }

  /** Whatever grants the arrival brings, the sender goes on only undisturbed. */
  lemma AnsweredGoingOn(t: Tracked, t': Tracked)
    requires Inv(t) && t.l.data != [] && Answered(t, t', t.of[0])
    requires t'.l.fc == t.l.fc || t'.l.fc == t.l.fc + [FlowControlOf(Overflow, t.l.rx.blockSize, t.l.rx.separationTime)]
             || (Opens(t.l.rx, t.l.data[0]) && t'.from == [t.of[0]])
             || (t.l.data[0].index > 0 && t.l.rx.blockSize != 0)
    ensures Tagged(t') && ConsecutivesOk(t') && GoingOnOk(t')
  {
    ArrivedConsecutives(t, t');
    if !Undisturbed(t, Current(t.l), |t.of|) && Ungranted(t) {
      ArrivedUngranted(t, t');
    }
  }

  /** The link after the receiver has answered the frame in front. */
  predicate Took(t: Tracked, t': Tracked, step: R.Step, answer: R.Answer, transfers: seq<nat>)
    requires Tagged(t) && t.l.data != []
  {
    && Arrived(t, t') && t'.l.rx == step.r && t'.l.rec == answer.rec
    && t'.l.fc == (if step.fc.Some? then t.l.fc + [step.fc.value.frame] else t.l.fc)
    && t'.l.delivered == (if answer.pdu.Some? then t.l.delivered + [answer.pdu.value] else t.l.delivered)
    && t'.origins == (if answer.pdu.Some? then t.origins + [transfers] else t.origins)
  }

  lemma FrontTaken(t: Tracked)
    requires Tagged(t) && CanOccur(t.l, DeliverData)
    requires var step := R.OnFrame(t.l.rx, t.l.data[0].frame);
             step.r.capacity == t.l.rx.capacity && step.r.blockSize == t.l.rx.blockSize && step.r.separationTime == t.l.rx.separationTime
    ensures var frame := t.l.data[0].frame;
            && R.Represents(R.OnFrame(t.l.rx, frame).r, R.AnswerFrame(t.l.rec, t.l.rx.capacity, t.l.rx.blockSize, frame).rec)
            && Took(t, TrackedNext(t, DeliverData), R.OnFrame(t.l.rx, frame),
                    R.AnswerFrame(t.l.rec, t.l.rx.capacity, t.l.rx.blockSize, frame),
                    if R.UsableSingle(frame) then [t.of[0]] else t.from + [t.of[0]])
    ensures TrackedNext(t, DeliverData).from ==
              FromAfter(t.from, t.l.rec, TrackedNext(t, DeliverData).l.rec, t.l.data[0].frame, t.of[0])
  {
    R.ReactRefines(t.l.rx, t.l.rec, R.FrameArrives(t.l.data[0].frame));
  }

  /** What the receiver makes of a first or single frame of transfer `x`, in the terms of this invariant. */
  predicate TookFirst(t: Tracked, t': Tracked, step: R.Step, answer: R.Answer, x: nat)
    requires Tagged(t) && t.l.data != [] && x < |t.l.sent| && IsPdu(t.l.sent[x])
  {
    var pdu, fits := t.l.sent[x], |t.l.sent[x]| <= t.l.rx.capacity;
    && R.Represents(t'.l.rx, t'.l.rec)
    && Took(t, t', step, answer, [x])
    && (Opens(t.l.rx, t.l.data[0]) <==> |pdu| > SF_MAX_PAYLOAD && fits)
    && answer.rec == (if |pdu| > SF_MAX_PAYLOAD && fits then R.Ongoing(t.l.data[0].frame, []) else R.NoReception)
    && answer.pdu == (if |pdu| <= SF_MAX_PAYLOAD && fits then Some(pdu) else None)
    && (if |pdu| <= SF_MAX_PAYLOAD then step.fc.None?
        else step.fc.Some? && step.fc.value.frame ==
               FlowControlOf(if fits then ContinueToSend else Overflow, t.l.rx.blockSize, t.l.rx.separationTime))
    && InStep(step.r, answer.rec, pdu, 1)
    && t'.from == (if answer.rec.Ongoing? then [x] else [])
  }

  lemma FirstFront(t: Tracked) returns (step: R.Step, answer: R.Answer)
    requires Tagged(t) && CanOccur(t.l, DeliverData) && t.l.data[0].index == 0 && FrameOf(t.l.sent, t.l.data[0], t.of[0])
    ensures TookFirst(t, TrackedNext(t, DeliverData), step, answer, t.of[0])
  {
    var frame, x := t.l.data[0].frame, t.of[0];
    FirstFrameAnswer(t.l.sent[x], t.l.rx, t.l.rec);
    FirstOrSingleHeader(t.l.sent[x]);
    FrontTaken(t);
    step, answer := R.OnFrame(t.l.rx, frame), R.AnswerFrame(t.l.rec, t.l.rx.capacity, t.l.rx.blockSize, frame);
  }

  lemma FirstTaken(t: Tracked, t': Tracked, step: R.Step, answer: R.Answer)
    requires Inv(t) && t.l.data != [] && t.l.data[0].index == 0 && FrameOf(t.l.sent, t.l.data[0], t.of[0])
    requires TookFirst(t, t', step, answer, t.of[0])
    ensures Answered(t, t', t.of[0]) && Tagged(t') && ReceptionOk(t') && FcOk(t'.l) && GoingOnOk(t') && ConsecutivesOk(t')
  {
    ArrivedFrames(t, t');
    AnsweredGoingOn(t, t');
  }

  lemma AnswerKeepsInv(t: Tracked, t': Tracked)
    requires Inv(t) && t.l.data != [] && t.of[0] < |t.l.sent| && Answered(t, t', t.of[0]) && Tagged(t')
    requires R.Represents(t'.l.rx, t'.l.rec)
    requires ReceptionOk(t') && FcOk(t'.l) && GoingOnOk(t') && ConsecutivesOk(t')
    ensures Inv(t')
  {
    ArrivedFrames(t, t');
    AnsweredOnward(t, t');
  }

  lemma FirstDelivered(t: Tracked)
    requires Inv(t) && CanOccur(t.l, DeliverData) && t.l.data[0].index == 0
    ensures Inv(TrackedNext(t, DeliverData))
  {
    assert FrameOf(t.l.sent, t.l.data[0], t.of[0]);
    var step, answer := FirstFront(t);
    FirstTaken(t, TrackedNext(t, DeliverData), step, answer);
    AnswerKeepsInv(t, TrackedNext(t, DeliverData));
  }

  /** What a reception of transfer `x` makes of one of its consecutive frames. */
  predicate TookConsecutive(t: Tracked, t': Tracked, step: R.Step, answer: R.Answer, x: nat)
    requires Tagged(t) && t.l.data != [] && x < |t.l.sent| && IsPdu(t.l.sent[x]) && t.l.rec.Ongoing?
  {
    var pdu := t.l.sent[x];
    && R.Represents(t'.l.rx, t'.l.rec)
    && Took(t, t', step, answer, t.from + [x])
    && (answer.rec.NoReception? || answer.rec == t.l.rec || answer.rec == R.Ongoing(t.l.rec.ff, t.l.rec.cfs + [t.l.data[0].frame]))
    && (answer.pdu.Some? ==> answer.pdu.value == pdu && answer.rec.NoReception? && t.l.data[0].index == CfCount(pdu))
    && (step.fc.Some? ==>
          t.l.rx.blockSize != 0 && step.fc.value.frame == FlowControlOf(ContinueToSend, t.l.rx.blockSize, t.l.rx.separationTime))
    && InStep(step.r, answer.rec, pdu, t.l.data[0].index + 1)
    && t'.from == (if answer.rec.NoReception? then [] else if answer.rec == t.l.rec then t.from else t.from + [x])
  }

  lemma ConsecutiveFront(t: Tracked) returns (step: R.Step, answer: R.Answer)
    requires Tagged(t) && CanOccur(t.l, DeliverData) && t.l.data[0].index > 0 && FrameOf(t.l.sent, t.l.data[0], t.of[0])
    requires t.l.rec.Ongoing? && 0 < t.position <= t.l.data[0].index && InStep(t.l.rx, t.l.rec, t.l.sent[t.of[0]], t.position)
    ensures TookConsecutive(t, TrackedNext(t, DeliverData), step, answer, t.of[0])
  {
    var frame, x := t.l.data[0].frame, t.of[0];
    ConsecutiveAnswer(t.l.sent[x], t.l.rx, t.l.rec, t.position, t.l.data[0].index);
    FrontTaken(t);
    step, answer := R.OnFrame(t.l.rx, frame), R.AnswerFrame(t.l.rec, t.l.rx.capacity, t.l.rx.blockSize, frame);
  }

  lemma ConsecutiveTaken(t: Tracked, t': Tracked, step: R.Step, answer: R.Answer)
    requires Inv(t) && t.l.data != [] && t.l.data[0].index > 0 && FrameOf(t.l.sent, t.l.data[0], t.of[0])
    requires t.l.rec.Ongoing? && t.from[0] == t.of[0] && TookConsecutive(t, t', step, answer, t.of[0])
    ensures Answered(t, t', t.of[0]) && Tagged(t') && ReceptionOk(t') && FcOk(t'.l) && GoingOnOk(t') && ConsecutivesOk(t')
  {
    ConsecutiveAnswered(t, t', step, answer);
    ConsecutiveStored(t, t', step, answer);
    AnsweredGoingOn(t, t');
  }

  lemma ConsecutiveAnswered(t: Tracked, t': Tracked, step: R.Step, answer: R.Answer)
    requires Tagged(t) && t.l.data != [] && FrameOf(t.l.sent, t.l.data[0], t.of[0])
    requires t.l.rec.Ongoing? && t.from != [] && FromOne(t.from, t.of[0]) && TookConsecutive(t, t', step, answer, t.of[0])
    ensures Answered(t, t', t.of[0])
  {
    assert FromOne(t.from + [t.of[0]], t.of[0]);
  }

  lemma ConsecutiveStored(t: Tracked, t': Tracked, step: R.Step, answer: R.Answer)
    requires Tagged(t) && t.l.data != [] && FrameOf(t.l.sent, t.l.data[0], t.of[0])
    requires FramesOk(t.l.sent, t.l.data, t.of, |t.l.tx.handed|) && FcOk(t.l)
    requires t.l.rec.Ongoing? && t.from != [] && FromOne(t.from, t.of[0]) && |t.from| == 1 + |t.l.rec.cfs|
    requires TookConsecutive(t, t', step, answer, t.of[0])
    ensures Tagged(t') && ReceptionOk(t') && FcOk(t'.l)
  {
    ArrivedFrames(t, t');
  }

  lemma ConsecutiveDelivered(t: Tracked)
    requires Inv(t) && CanOccur(t.l, DeliverData) && t.l.data[0].index > 0 && t.l.rec.Ongoing?
    ensures Inv(TrackedNext(t, DeliverData))
  {
    assert FrameOf(t.l.sent, t.l.data[0], t.of[0]);
    assert Undisturbed(t, t.of[0], 0);
    var step, answer := ConsecutiveFront(t);
    ConsecutiveTaken(t, TrackedNext(t, DeliverData), step, answer);
    AnswerKeepsInv(t, TrackedNext(t, DeliverData));
  }

  lemma IgnoredFront(t: Tracked)
    requires Tagged(t) && CanOccur(t.l, DeliverData) && t.l.data[0].index > 0 && FrameOf(t.l.sent, t.l.data[0], t.of[0])
    requires t.l.rec.NoReception?
    ensures var t' := TrackedNext(t, DeliverData);
            && Arrived(t, t') && t'.l.rx == t.l.rx && t'.l.rec == t.l.rec && t'.from == []
            && t'.l.fc == t.l.fc && t'.l.delivered == t.l.delivered && t'.origins == t.origins
  {
    ConsecutiveIgnored(t.l.sent[t.of[0]], t.l.rx, t.l.rec, t.l.data[0].index);
    FrontTaken(t);
  }

  lemma ConsecutivePasses(t: Tracked)
    requires Inv(t) && CanOccur(t.l, DeliverData) && t.l.data[0].index > 0 && t.l.rec.NoReception?
    ensures Inv(TrackedNext(t, DeliverData))
  {
    assert FrameOf(t.l.sent, t.l.data[0], t.of[0]);
    IgnoredFront(t);
    IgnoredTaken(t, TrackedNext(t, DeliverData));
    AnswerKeepsInv(t, TrackedNext(t, DeliverData));
  }

  lemma IgnoredTaken(t: Tracked, t': Tracked)
    requires Inv(t) && t.l.data != [] && t.of[0] < |t.l.sent| && t.l.rec.NoReception?
    requires Arrived(t, t') && t'.l.rx == t.l.rx && t'.l.rec == t.l.rec && t'.from == []
    requires t'.l.fc == t.l.fc && t'.l.delivered == t.l.delivered && t'.origins == t.origins
    ensures Answered(t, t', t.of[0]) && Tagged(t') && ReceptionOk(t') && FcOk(t'.l) && GoingOnOk(t') && ConsecutivesOk(t')
  {
    AnsweredGoingOn(t, t');
  }

  lemma DeliveryKeepsInv(t: Tracked)
    requires Inv(t) && CanOccur(t.l, DeliverData)
    ensures Inv(TrackedNext(t, DeliverData))
  {
    if t.l.data[0].index == 0 { FirstDelivered(t); }
    else if t.l.rec.Ongoing? { ConsecutiveDelivered(t); }
    else { ConsecutivePasses(t); }
  }

  lemma NextKeepsInv(t: Tracked, e: LinkEvent)
    requires Inv(t) && Enabled(t.l, e)
    ensures Inv(TrackedNext(t, e))
  {
    match e {
      case AtSender(s) => if SR.Begins(t.l.tx, s) { BeginKeepsInv(t, s); } else { ContinueKeepsInv(t, s, t.l.fc); }
      case AtReceiver(r) => ReceiverEventKeepsInv(t, r);
      case DeliverData => DeliveryKeepsInv(t);
      case DeliverFc => ContinueKeepsInv(t, SR.FlowControl(t.l.fc[0]), t.l.fc[1..]);
      case LoseData(i) => LossKeepsInv(t, i);
      case LoseFc(p) => FcLossKeepsInv(t, p);
    }
  }

  lemma {:induction false} EveryRunKeepsInv(t: Tracked, es: seq<LinkEvent>)
    requires Inv(t) && TrackedAfter(t, es).Some?
    ensures Inv(TrackedAfter(t, es).value)
    decreases |es|
  {
    if es != [] {
      EveryRunKeepsInv(t, es[..|es| - 1]);
      NextKeepsInv(TrackedAfter(t, es[..|es| - 1]).value, es[|es| - 1]);
    }
  }

  lemma StartIsSound(txCapacity: nat, rxCapacity: nat, blockSize: byte, separationTime: byte)
    ensures Inv(Start(txCapacity, rxCapacity, blockSize, separationTime))
  {
  }

  /** Over any run of a lossy link that starts transfers where it is harmless, the delivered PDUs are sent PDUs, byte for
      byte, in order, each at most once, and none mixes frames of two transfers. */
  lemma LossyLinkIsSafe(txCapacity: nat, rxCapacity: nat, blockSize: byte, separationTime: byte, es: seq<LinkEvent>)
    requires After(Initial(txCapacity, rxCapacity, blockSize, separationTime), es).Some?
    ensures var l := After(Initial(txCapacity, rxCapacity, blockSize, separationTime), es).value;
            IsSubsequence(l.delivered, l.sent)
    ensures var t := TrackedAfter(Start(txCapacity, rxCapacity, blockSize, separationTime), es);
            t.Some? && !Spliced(t.value)
  {
    var start := Start(txCapacity, rxCapacity, blockSize, separationTime);
    StartIsSound(txCapacity, rxCapacity, blockSize, separationTime);
    TrackingFollows(start, es);
    EveryRunKeepsInv(start, es);
    var t := TrackedAfter(start, es).value;
    WholeIsSubsequence(t.l.sent, t.l.delivered, t.origins);
    WholeIsUnspliced(t);
  }
}
