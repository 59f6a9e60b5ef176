/**
 Exactly which starts are harmful. With unlimited blocks, the default, a transfer
 can have frames of it taken for another one if and only if it has several frames
 and the link is exposed when it starts: then every PDU of the right length can.
 */
module IsoTpLinkStarts {
  import opened CanTypes
  import opened IsoTpCodec
  import opened IsoTpLink
  import opened IsoTpLinkOrigins
  import Safety = IsoTpLinkSafety
  import S = IsoTpSender
  import SR = IsoTpSenderRuns
  import R = IsoTpReceiver

  ghost predicate Reaches(t: Tracked, u: Tracked) {
    Tagged(t) && exists es: seq<LinkEvent> :: TrackedAfter(t, es) == Some(u)
  }

  lemma ReachesSelf(t: Tracked)
    requires Tagged(t)
    ensures Reaches(t, t)
  {
    assert TrackedAfter(t, []) == Some(t);
  }

  lemma ReachesStep(t: Tracked, u: Tracked, e: LinkEvent)
    requires Reaches(t, u) && Tagged(u) && Enabled(u.l, e)
    ensures Reaches(t, TrackedNext(u, e)) && Tagged(TrackedNext(u, e))
  {
    var es: seq<LinkEvent> :| TrackedAfter(t, es) == Some(u);
    assert (es + [e])[..|es + [e]| - 1] == es;
    assert TrackedAfter(t, es + [e]) == Some(TrackedNext(u, e));
    TagsFollow(u, e);
  }

  /* ---- Clearing the channels ---- */

  lemma {:induction false} LoseAhead(t: Tracked, u: Tracked, n: nat) returns (u': Tracked)
    requires Reaches(t, u) && Tagged(u) && R.Represents(u.l.rx, u.l.rec) && n <= |u.of|
    ensures Reaches(t, u') && u' == u.(l := u.l.(data := u.l.data[n..]), of := u.of[n..])
    decreases n
  {
    if n == 0 {
      u' := u;
      assert u.l.data[0..] == u.l.data && u.of[0..] == u.of;
    } else {
      ReachesStep(t, u, LoseData(0));
      var v := TrackedNext(u, LoseData(0));
      FrontLost(u);
      u' := LoseAhead(t, v, n - 1);
      assert u.l.data[1..][n - 1..] == u.l.data[n..] && u.of[1..][n - 1..] == u.of[n..];
    }
  }

  lemma FrontLost(u: Tracked)
    requires Tagged(u) && CanOccur(u.l, LoseData(0))
    ensures TrackedNext(u, LoseData(0)) == u.(l := u.l.(data := u.l.data[1..]), of := u.of[1..])
  {
    assert u.l.data[..0] + u.l.data[1..] == u.l.data[1..] && u.of[..0] + u.of[1..] == u.of[1..];
  }

  lemma {:induction false} LoseBehind(t: Tracked, u: Tracked, n: nat) returns (u': Tracked)
    requires Reaches(t, u) && Tagged(u) && R.Represents(u.l.rx, u.l.rec) && n <= |u.of|
    ensures Reaches(t, u') && u' == u.(l := u.l.(data := u.l.data[..n]), of := u.of[..n])
    decreases |u.of|
  {
    var last := |u.of| - 1;
    if n == |u.of| {
      u' := u;
      assert u.l.data[..n] == u.l.data && u.of[..n] == u.of;
    } else {
      ReachesStep(t, u, LoseData(last));
      var v := TrackedNext(u, LoseData(last));
      assert v.l.data == u.l.data[..last] && v.of == u.of[..last];
      u' := LoseBehind(t, v, n);
      assert u.l.data[..last][..n] == u.l.data[..n] && u.of[..last][..n] == u.of[..n];
    }
  }

  lemma {:induction false} LoseFcs(t: Tracked, u: Tracked, n: nat) returns (u': Tracked)
    requires Reaches(t, u) && Tagged(u) && R.Represents(u.l.rx, u.l.rec) && n <= |u.l.fc|
    ensures Reaches(t, u') && u' == u.(l := u.l.(fc := u.l.fc[n..]))
    decreases n
  {
    if n == 0 {
      u' := u;
      assert u.l.fc[0..] == u.l.fc;
    } else {
      ReachesStep(t, u, LoseFc(0));
      var v := TrackedNext(u, LoseFc(0));
      assert v.l.fc == u.l.fc[1..];
      u' := LoseFcs(t, v, n - 1);
      assert u.l.fc[1..][n - 1..] == u.l.fc[n..];
    }
  }

  /* ---- The sender goes on, one consecutive frame after another ---- */

  /** A sender of `pdu` free to hand over its next consecutive frame, `c` of them handed over. */
  predicate Free(s: S.Sender, pdu: seq<byte>, c: nat) {
    && IsPdu(pdu) && s.pdu == pdu && s.phase == S.SendingCf && !s.stMinTimer && !s.nAs && s.blockSize == 0
    && S.Valid(s.(stMinTimer := true)) && S.CfsSent(s) == c < CfCount(pdu)
  }

  /** The sender has handed over frame `c` and waits for its report; nothing else is in flight. */
  ghost predicate OneInFlight(u: Tracked, pdu: seq<byte>, c: nat) {
    && IsPdu(pdu) && SF_MAX_PAYLOAD < |pdu| && 1 <= c <= CfCount(pdu)
    && SR.Inv(u.l.tx) && R.Represents(u.l.rx, u.l.rec)
    && HasSent(u.l.tx, pdu, c)
    && u.l.data == [InFlight(FrameAt(pdu, c), c)] && u.of == [Current(u.l)]
  }

  predicate HasSent(tx: SR.Run, pdu: seq<byte>, c: nat) {
    tx.s.phase == S.SendingCf && tx.s.pdu == pdu && tx.s.blockSize == 0 && tx.s.nAs && S.CfsSent(tx.s) == c && |tx.handed| == c + 1
  }

  /** The receiver's side, and what has been delivered, are as they were. */
  predicate SameReceiver(u: Tracked, u': Tracked) {
    && u'.l.rx == u.l.rx && u'.l.rec == u.l.rec && u'.l.sent == u.l.sent && u'.l.delivered == u.l.delivered
    && u'.from == u.from && u'.origins == u.origins
  }

  lemma NextCfOf(s: S.Sender, pdu: seq<byte>, c: nat)
    requires Free(s, pdu, c)
    ensures var step := S.NextCf(s);
            && step.frame.Some? && step.frame.value.frame == FrameAt(pdu, c + 1) && step.notice.None?
            && step.s.phase == S.SendingCf && step.s.nAs && step.s.pdu == pdu && step.s.blockSize == 0 && S.CfsSent(step.s) == c + 1
  {
    S.NextCfKeepsValid(s);
  }

  /** The sender's step `step` hands over frame `c`. */
  lemma HandedOver(u: Tracked, tx: SR.Run, fc: seq<Message>, frame: Message, pdu: seq<byte>, c: nat)
    requires Tagged(u) && u.l.data == [] && |u.l.tx.handed| == c && 1 <= c <= CfCount(pdu) && IsPdu(pdu) && SF_MAX_PAYLOAD < |pdu|
    requires R.Represents(u.l.rx, u.l.rec) && SR.Inv(tx) && HasSent(tx, pdu, c) && frame == FrameAt(pdu, c)
    ensures var l' := u.l.(tx := tx, fc := fc, data := u.l.data + [InFlight(frame, |u.l.tx.handed|)]);
            OneInFlight(SenderTags(u, l'), pdu, c) && SameReceiver(u, SenderTags(u, l'))
  {
    assert [] + [InFlight(frame, c)] == [InFlight(frame, c)];
    assert u.of == [] && [] + [Current(u.l)] == [Current(u.l)];
  }

  /** After the separation time the next frame follows. */
  lemma PausedSends(t: Tracked, u: Tracked, pdu: seq<byte>, c: nat) returns (u': Tracked)
    requires Reaches(t, u) && Tagged(u) && R.Represents(u.l.rx, u.l.rec) && SR.Inv(u.l.tx) && SF_MAX_PAYLOAD < |pdu|
    requires u.l.tx.s.stMinTimer && Free(u.l.tx.s.(stMinTimer := false), pdu, c)
    requires u.l.data == [] && |u.l.tx.handed| == c + 1
    ensures Reaches(t, u') && OneInFlight(u', pdu, c + 1) && SameReceiver(u, u')
  {
    var e := AtSender(SR.StMin);
    var s := u.l.tx.s.(stMinTimer := false);
    NextCfOf(s, pdu, c);
    SR.NextKeepsInv(u.l.tx, SR.StMin);
    ReachesStep(t, u, e);
    u' := TrackedNext(u, e);
    var step := S.NextCf(s);
    assert S.React(u.l.tx.s, SR.MachineEvent(SR.StMin)) == step;
    HandedOver(u, SR.NextBy(u.l.tx, SR.StMin, step), u.l.fc, step.frame.value.frame, pdu, c + 1);
  }

  /** The link after an event at the sender that lets it go on as `s`. */
  predicate LetGoOn(u: Tracked, v: Tracked, e: SR.RunEvent, s: S.Sender) {
    && !e.Submit? && !e.Release?
    && s.bytesSent <= |s.pdu|
    && var step := S.ScheduleCf(s);
       v == SenderTags(u, u.l.(tx := SR.NextBy(u.l.tx, e, step), fc := v.l.fc,
                               data := if step.frame.Some? then u.l.data + [InFlight(step.frame.value.frame, |u.l.tx.handed|)] else u.l.data))
  }

  lemma GoesOn(t: Tracked, u: Tracked, v: Tracked, e: SR.RunEvent, s: S.Sender, pdu: seq<byte>, c: nat) returns (u': Tracked)
    requires Tagged(u) && R.Represents(u.l.rx, u.l.rec) && SF_MAX_PAYLOAD < |pdu| && Free(s, pdu, c)
    requires u.l.data == [] && |u.l.tx.handed| == c + 1
    requires Reaches(t, v) && Tagged(v) && SR.Inv(v.l.tx) && LetGoOn(u, v, e, s)
    ensures Reaches(t, u') && OneInFlight(u', pdu, c + 1) && SameReceiver(u, u')
  {
    if StMinMicros(s.stMin) > 0 {
      u' := PausedSends(t, v, pdu, c);
    } else {
      NextCfOf(s, pdu, c);
      u' := v;
      HandedOver(u, v.l.tx, v.l.fc, FrameAt(pdu, c + 1), pdu, c + 1);
    }
  }

  /** The report that a sender of more frames waits for lets it go on. */
  lemma ReportFrees(tx: SR.Run, pdu: seq<byte>, c: nat, report: SR.RunEvent)
    requires SR.Inv(tx) && IsPdu(pdu) && SF_MAX_PAYLOAD < |pdu| && 1 <= c < CfCount(pdu) && HasSent(tx, pdu, c)
    requires report == SR.Report(SR.Pending(S.WatchedReport(tx.s), tx.epoch), true)
    ensures SR.Enabled(tx, report) && Free(tx.s.(nAs := false), pdu, c)
    ensures S.React(tx.s, SR.MachineEvent(report)) == S.ScheduleCf(tx.s.(nAs := false))
  {
    assert tx.s.bytesSent < |pdu|;
  }

  lemma ReportLetsGoOn(u: Tracked, report: SR.RunEvent, s: S.Sender)
    requires Tagged(u) && CanOccur(u.l, AtSender(report)) && report.Report? && s.bytesSent <= |s.pdu|
    requires S.React(u.l.tx.s, SR.MachineEvent(report)) == S.ScheduleCf(s)
    ensures LetGoOn(u, TrackedNext(u, AtSender(report)), report, s)
    ensures TrackedNext(u, AtSender(report)).l.tx == SR.Next(u.l.tx, report)
  {
  }

  /** A successful report of frame `c` brings frame `c + 1`. */
  lemma ReportBringsNext(t: Tracked, u: Tracked, pdu: seq<byte>, c: nat) returns (u': Tracked)
    requires Reaches(t, u) && Tagged(u) && R.Represents(u.l.rx, u.l.rec) && SR.Inv(u.l.tx)
    requires IsPdu(pdu) && SF_MAX_PAYLOAD < |pdu| && 1 <= c < CfCount(pdu) && HasSent(u.l.tx, pdu, c) && u.l.data == []
    ensures Reaches(t, u') && OneInFlight(u', pdu, c + 1) && SameReceiver(u, u')
  {
    var s := u.l.tx.s.(nAs := false);
    var report := SR.Report(SR.Pending(S.WatchedReport(u.l.tx.s), u.l.tx.epoch), true);
    ReportFrees(u.l.tx, pdu, c, report);
    SR.NextKeepsInv(u.l.tx, report);
    ReachesStep(t, u, AtSender(report));
    ReportLetsGoOn(u, report, s);
    u' := GoesOn(t, u, TrackedNext(u, AtSender(report)), report, s, pdu, c);
  }

  /** A sender that waits after its first frame, granted unlimited frames. */
  lemma GrantFrees(s: S.Sender, fc: Message, pdu: seq<byte>, st: byte)
    requires S.Valid(s) && IsPdu(pdu) && SF_MAX_PAYLOAD < |pdu| && s.phase == S.WaitingForFc && s.pdu == pdu && S.CfsSent(s) == 0
    requires fc == FlowControlOf(ContinueToSend, 0, st)
    ensures Free(S.Granted(s, 0, st), pdu, 0) && S.OnFlowControl(s, fc) == S.ScheduleCf(S.Granted(s, 0, st))
  {
    assert DecodeFlowControl(fc) == Some((ContinueToSend, 0, st));
  }

  /** A grant in front lets a sender that waits after its first frame begin. */
  lemma GrantBringsFirst(t: Tracked, u: Tracked, pdu: seq<byte>) returns (u': Tracked)
    requires Reaches(t, u) && Tagged(u) && R.Represents(u.l.rx, u.l.rec) && SR.Inv(u.l.tx)
    requires IsPdu(pdu) && SF_MAX_PAYLOAD < |pdu| && u.l.tx.s.phase == S.WaitingForFc && u.l.tx.s.pdu == pdu
    requires |u.l.tx.handed| == 1 && u.l.data == []
    requires u.l.fc != [] && u.l.fc[0] == FlowControlOf(ContinueToSend, 0, u.l.rx.separationTime)
    ensures Reaches(t, u') && OneInFlight(u', pdu, 1) && SameReceiver(u, u')
  {
    var s := S.Granted(u.l.tx.s, 0, u.l.rx.separationTime);
    var e := SR.FlowControl(u.l.fc[0]);
    GrantFrees(u.l.tx.s, u.l.fc[0], pdu, u.l.rx.separationTime);
    SR.NextKeepsInv(u.l.tx, e);
    ReachesStep(t, u, DeliverFc);
    GrantLetsGoOn(u, e, s);
    u' := GoesOn(t, u, TrackedNext(u, DeliverFc), e, s, pdu, 0);
  }

  lemma GrantLetsGoOn(u: Tracked, e: SR.RunEvent, s: S.Sender)
    requires Tagged(u) && CanOccur(u.l, DeliverFc) && e == SR.FlowControl(u.l.fc[0]) && s.bytesSent <= |s.pdu|
    requires S.OnFlowControl(u.l.tx.s, u.l.fc[0]) == S.ScheduleCf(s)
    ensures LetGoOn(u, TrackedNext(u, DeliverFc), e, s) && TrackedNext(u, DeliverFc).l.tx == SR.Next(u.l.tx, e)
  {
  }

  /* ---- A reception of another transfer takes the frames ---- */

  /** A reception of another transfer, `k` consecutive frames into a PDU as long as `pdu`: its bytes are those of `head`
      and then those of `pdu`. */
  predicate Hosting(u: Tracked, pdu: seq<byte>, head: seq<byte>, k: nat) {
    && u.l.rx.blockSize == 0 && u.l.rec.Ongoing? && |u.l.rec.cfs| == k && u.l.rx.expectedTotal == |pdu|
    && u.from != [] && u.from[0] != Current(u.l)
    && |head| <= FF_FIRST_DATA + CF_MAX_DATA * k < |pdu|
    && u.l.rx.buffer == head + pdu[|head|..FF_FIRST_DATA + CF_MAX_DATA * k]
  }

  lemma FrameFits(rx: R.Receiver, rec: R.Reception, pdu: seq<byte>, k: nat)
    requires R.Represents(rx, rec) && rec.Ongoing? && |rec.cfs| == k && rx.expectedTotal == |pdu| && IsPdu(pdu)
    requires SF_MAX_PAYLOAD < |pdu| && FF_FIRST_DATA + CF_MAX_DATA * k < |pdu|
    ensures k + 1 <= CfCount(pdu)
    ensures var frame := FrameAt(pdu, k + 1);
            && DecodeFrameType(frame) == ConsecutiveFrame && R.LongEnough(rx, frame)
            && DecodeConsecutiveFrameSn(frame) == rx.expectedSn
            && R.Appended(rx, frame).buffer == rx.buffer + pdu[FF_FIRST_DATA + CF_MAX_DATA * k..BytesAfter(pdu, k + 1)]
  {
    S.OneMoreCf(pdu, FF_FIRST_DATA + CF_MAX_DATA * k, k);
    FrameHeaders(pdu, k + 1);
  }

  lemma TakenLater(rx: R.Receiver, rec: R.Reception, pdu: seq<byte>, k: nat)
    requires R.Represents(rx, rec) && rec.Ongoing? && |rec.cfs| == k && rx.expectedTotal == |pdu| && IsPdu(pdu) && rx.blockSize == 0
    requires SF_MAX_PAYLOAD < |pdu| && FF_FIRST_DATA + CF_MAX_DATA * (k + 1) < |pdu|
    ensures k + 1 <= CfCount(pdu)
    ensures var frame := FrameAt(pdu, k + 1);
            && !R.UsableFirst(frame) && !R.UsableSingle(frame)
            && R.AnswerFrame(rec, rx.capacity, rx.blockSize, frame).rec == R.Ongoing(rec.ff, rec.cfs + [frame])
            && R.OnFrame(rx, frame) == R.Quiet(R.Appended(rx, frame))
  {
    FrameFits(rx, rec, pdu, k);
    R.AppendedRepresents(rx, rec, FrameAt(pdu, k + 1));
  }

  lemma TakenLast(rx: R.Receiver, rec: R.Reception, pdu: seq<byte>, k: nat)
    requires R.Represents(rx, rec) && rec.Ongoing? && |rec.cfs| == k && rx.expectedTotal == |pdu| && IsPdu(pdu)
    requires SF_MAX_PAYLOAD < |pdu| <= FF_FIRST_DATA + CF_MAX_DATA * (k + 1) && FF_FIRST_DATA + CF_MAX_DATA * k < |pdu|
    ensures k + 1 <= CfCount(pdu)
    ensures var frame := FrameAt(pdu, k + 1);
            && !R.UsableFirst(frame) && !R.UsableSingle(frame)
            && R.OnFrame(rx, frame).notices == [R.Delivered(rx.buffer + pdu[FF_FIRST_DATA + CF_MAX_DATA * k..])]
  {
    FrameFits(rx, rec, pdu, k);
    assert BytesAfter(pdu, k + 1) == |pdu|;
    assert pdu[FF_FIRST_DATA + CF_MAX_DATA * k..|pdu|] == pdu[FF_FIRST_DATA + CF_MAX_DATA * k..];
  }

  /** A consecutive frame that the receiver only stores, alone in flight. */
  lemma StoredFrame(u: Tracked, frame: Message, index: nat, x: nat, rx: R.Receiver)
    requires Tagged(u) && R.Represents(u.l.rx, u.l.rec) && u.l.rec.Ongoing?
    requires u.l.data == [InFlight(frame, index)] && u.of == [x]
    requires R.OnFrame(u.l.rx, frame) == R.Quiet(rx) && !R.UsableFirst(frame)
    requires R.AnswerFrame(u.l.rec, u.l.rx.capacity, u.l.rx.blockSize, frame).rec == R.Ongoing(u.l.rec.ff, u.l.rec.cfs + [frame])
    ensures R.Represents(rx, R.Ongoing(u.l.rec.ff, u.l.rec.cfs + [frame]))
    ensures var u' := TrackedNext(u, DeliverData);
            && u'.l == u.l.(rx := rx, rec := R.Ongoing(u.l.rec.ff, u.l.rec.cfs + [frame]), data := [], taken := index + 1)
            && u' == Tracked(u'.l, [], index + 1, u.from + [x], u.origins)
  {
    R.ReactRefines(u.l.rx, u.l.rec, R.FrameArrives(frame));
    assert Aborts([]) == [] && u.l.aborted + [] == u.l.aborted;
  }

  /** The host after it has stored a frame. */
  lemma HostGrows(u: Tracked, u': Tracked, pdu: seq<byte>, head: seq<byte>, k: nat, frame: Message)
    requires Hosting(u, pdu, head, k) && FF_FIRST_DATA + CF_MAX_DATA * (k + 1) < |pdu|
    requires u'.l.rec == R.Ongoing(u.l.rec.ff, u.l.rec.cfs + [frame]) && u'.from == u.from + [Current(u.l)] && u'.l.sent == u.l.sent
    requires u'.l.rx == u.l.rx.(expectedSn := u'.l.rx.expectedSn, nCr := true, buffer := u'.l.rx.buffer)
    requires u'.l.rx.buffer == u.l.rx.buffer + pdu[FF_FIRST_DATA + CF_MAX_DATA * k..FF_FIRST_DATA + CF_MAX_DATA * (k + 1)]
    ensures Hosting(u', pdu, head, k + 1)
  {
    HeadGrows(head, pdu, FF_FIRST_DATA + CF_MAX_DATA * k, FF_FIRST_DATA + CF_MAX_DATA * (k + 1));
  }

  lemma HeadGrows(head: seq<byte>, pdu: seq<byte>, i: nat, j: nat)
    requires |head| <= i <= j <= |pdu|
    ensures head + pdu[|head|..i] + pdu[i..j] == head + pdu[|head|..j]
  {
  }

  /** The host takes the frame it waits for, and is not complete yet. */
  lemma HostTakes(t: Tracked, u: Tracked, pdu: seq<byte>, head: seq<byte>, k: nat) returns (u': Tracked)
    requires Reaches(t, u) && Tagged(u) && OneInFlight(u, pdu, k + 1) && Hosting(u, pdu, head, k)
    requires FF_FIRST_DATA + CF_MAX_DATA * (k + 1) < |pdu|
    ensures Reaches(t, u') && Hosting(u', pdu, head, k + 1)
    ensures u'.l.tx == u.l.tx && u'.l.data == [] && Tagged(u') && R.Represents(u'.l.rx, u'.l.rec)
    ensures u'.l.sent == u.l.sent && u'.l.delivered == u.l.delivered
  {
    var frame := FrameAt(pdu, k + 1);
    TakenLater(u.l.rx, u.l.rec, pdu, k);
    FrameFits(u.l.rx, u.l.rec, pdu, k);
    ReachesStep(t, u, DeliverData);
    StoredFrame(u, frame, k + 1, Current(u.l), R.Appended(u.l.rx, frame));
    u' := TrackedNext(u, DeliverData);
    HostGrows(u, u', pdu, head, k, frame);
  }

  /** A consecutive frame that completes the reception, alone in flight. */
  lemma CompletingFrame(u: Tracked, frame: Message, index: nat, x: nat, pdu: seq<byte>)
    requires Tagged(u) && R.Represents(u.l.rx, u.l.rec) && u.l.rec.Ongoing?
    requires u.l.data == [InFlight(frame, index)] && u.of == [x]
    requires R.OnFrame(u.l.rx, frame).notices == [R.Delivered(pdu)] && !R.UsableSingle(frame)
    ensures var u' := TrackedNext(u, DeliverData);
            && u'.l.sent == u.l.sent && u'.l.delivered == u.l.delivered + [pdu]
            && u'.origins == u.origins + [u.from + [x]]
  {
  }

  lemma HostCompletes(t: Tracked, u: Tracked, pdu: seq<byte>, head: seq<byte>, k: nat) returns (u': Tracked)
    requires Reaches(t, u) && Tagged(u) && OneInFlight(u, pdu, k + 1) && Hosting(u, pdu, head, k)
    requires FF_FIRST_DATA + CF_MAX_DATA * (k + 1) >= |pdu|
    ensures Reaches(t, u') && Spliced(u')
    ensures u'.l.sent == u.l.sent && u'.l.delivered == u.l.delivered + [head + pdu[|head|..]]
  {
    var i := FF_FIRST_DATA + CF_MAX_DATA * k;
    TakenLast(u.l.rx, u.l.rec, pdu, k);
    ReachesStep(t, u, DeliverData);
    CompletingFrame(u, FrameAt(pdu, k + 1), k + 1, Current(u.l), u.l.rx.buffer + pdu[i..]);
    u' := TrackedNext(u, DeliverData);
    HeadGrows(head, pdu, i, |pdu|);
    assert pdu[i..|pdu|] == pdu[i..] && pdu[|head|..|pdu|] == pdu[|head|..];
    MixedOrigin(u.origins, u.from, Current(u.l), u');
  }

  lemma MixedOrigin(origins: seq<seq<nat>>, from: seq<nat>, x: nat, u': Tracked)
    requires from != [] && from[0] != x && u'.origins == origins + [from + [x]]
    ensures Spliced(u')
  {
    var d := u'.origins[|origins|];
    assert d == from + [x];
    assert d[0] != d[|from|];
    assert Mixed(d);
  }

  /** One consecutive frame later: lost if the host does not wait for it, taken otherwise. */
  lemma StreamStep(t: Tracked, u: Tracked, pdu: seq<byte>, head: seq<byte>, k: nat, c: nat) returns (u': Tracked)
    requires Reaches(t, u) && Tagged(u) && OneInFlight(u, pdu, c) && Hosting(u, pdu, head, k) && c <= k + 1 <= CfCount(pdu)
    requires c == k + 1 ==> FF_FIRST_DATA + CF_MAX_DATA * (k + 1) < |pdu|
    ensures Reaches(t, u') && Tagged(u') && c + 1 <= CfCount(pdu) && OneInFlight(u', pdu, c + 1)
    ensures Hosting(u', pdu, head, if c == k + 1 then k + 1 else k)
    ensures u'.l.sent == u.l.sent && u'.l.delivered == u.l.delivered
  {
    var v: Tracked;
    if c == k + 1 {
      S.OneMoreCf(pdu, FF_FIRST_DATA + CF_MAX_DATA * (k + 1), k + 1);
      v := HostTakes(t, u, pdu, head, k);
    } else {
      v := LoseAhead(t, u, 1);
      assert v.l.data == [];
    }
    u' := ReportBringsNext(t, v, pdu, c);
  }

  /** Frame `c` of `pdu` is in flight to a host `k` frames on. */
  ghost predicate Underway(t: Tracked, u: Tracked, pdu: seq<byte>, head: seq<byte>, k: nat, c: nat) {
    Reaches(t, u) && Tagged(u) && OneInFlight(u, pdu, c) && Hosting(u, pdu, head, k) && c <= k + 1 <= CfCount(pdu)
  }

  predicate Completes(pdu: seq<byte>, k: nat) {
    FF_FIRST_DATA + CF_MAX_DATA * (k + 1) >= |pdu|
  }

  lemma StreamsOn(t: Tracked, u: Tracked, pdu: seq<byte>, head: seq<byte>, k: nat, c: nat) returns (u': Tracked)
    requires Underway(t, u, pdu, head, k, c) && (c == k + 1 ==> !Completes(pdu, k))
    ensures c + 1 <= CfCount(pdu) && Underway(t, u', pdu, head, if c == k + 1 then k + 1 else k, c + 1)
    ensures u'.l.sent == u.l.sent && u'.l.delivered == u.l.delivered
  {
    u' := StreamStep(t, u, pdu, head, k, c);
    if c == k + 1 {
      S.OneMoreCf(pdu, FF_FIRST_DATA + CF_MAX_DATA * (k + 1), k + 1);
    }
  }

  lemma StreamEnds(t: Tracked, u: Tracked, pdu: seq<byte>, head: seq<byte>, k: nat) returns (u': Tracked)
    requires Underway(t, u, pdu, head, k, k + 1) && Completes(pdu, k)
    ensures Reaches(t, u') && SplicedOnto(u.l.sent, u.l.delivered, u', pdu, head)
  {
    u' := HostCompletes(t, u, pdu, head, k);
  }

  /** A PDU was delivered that has the bytes of `head` and then those of `pdu`. */
  predicate SplicedOnto(sent: seq<seq<byte>>, delivered: seq<seq<byte>>, u': Tracked, pdu: seq<byte>, head: seq<byte>) {
    Spliced(u') && u'.l.sent == sent && |head| <= |pdu| && u'.l.delivered == delivered + [head + pdu[|head|..]]
  }

  ghost predicate CarriedOn(holds: (Tracked, nat) -> bool, c: nat) {
    exists v: Tracked :: holds(v, c)
  }

  /** What can be carried on frame by frame, but not for ever, comes to an end. */
  lemma {:induction false} Climbs(holds: (Tracked, nat) -> bool, ends: (Tracked, nat) -> bool, top: nat, u: Tracked, c: nat)
    returns (v: Tracked, j: nat)
    requires holds(u, c) && c <= top
    requires forall w: Tracked, i: nat :: holds(w, i) ==> i <= top && (ends(w, i) || CarriedOn(holds, i + 1))
    ensures holds(v, j) && ends(v, j)
    decreases top - c
  {
    if ends(u, c) {
      v, j := u, c;
    } else {
      var w: Tracked :| holds(w, c + 1);
      v, j := Climbs(holds, ends, top, w, c + 1);
    }
  }

  function HostFrames(u: Tracked): nat {
    if u.l.rec.Ongoing? then |u.l.rec.cfs| else 0
  }

  /** Frame `c` is on its way from `v`, which was reached from `u` without a delivery. */
  ghost predicate Streaming(t: Tracked, u: Tracked, pdu: seq<byte>, head: seq<byte>, v: Tracked, c: nat) {
    Underway(t, v, pdu, head, HostFrames(v), c) && v.l.sent == u.l.sent && v.l.delivered == u.l.delivered
  }

  ghost predicate StreamingSomewhere(t: Tracked, u: Tracked, pdu: seq<byte>, head: seq<byte>, c: nat) {
    exists w: Tracked :: Streaming(t, u, pdu, head, w, c)
  }

  predicate AtLast(pdu: seq<byte>, v: Tracked, c: nat) {
    c == HostFrames(v) + 1 && Completes(pdu, HostFrames(v))
  }

  lemma StreamingGoesOn(t: Tracked, u: Tracked, pdu: seq<byte>, head: seq<byte>, v: Tracked, c: nat)
    requires Streaming(t, u, pdu, head, v, c)
    ensures c <= CfCount(pdu)
    ensures !AtLast(pdu, v, c) ==> StreamingSomewhere(t, u, pdu, head, c + 1)
  {
    if !AtLast(pdu, v, c) {
      var w := StreamsOn(t, v, pdu, head, HostFrames(v), c);
      assert Streaming(t, u, pdu, head, w, c + 1);
    }
  }

  lemma StreamingEnds(t: Tracked, u: Tracked, pdu: seq<byte>, head: seq<byte>, v: Tracked, c: nat) returns (u': Tracked)
    requires Streaming(t, u, pdu, head, v, c) && AtLast(pdu, v, c)
    ensures Reaches(t, u') && SplicedOnto(u.l.sent, u.l.delivered, u', pdu, head)
  {
    u' := StreamEnds(t, v, pdu, head, HostFrames(v));
  }

  /** From one consecutive frame to the next, to the end. */
  lemma Streams(t: Tracked, u: Tracked, pdu: seq<byte>, head: seq<byte>, c: nat) returns (u': Tracked)
    requires Streaming(t, u, pdu, head, u, c)
    ensures Reaches(t, u') && SplicedOnto(u.l.sent, u.l.delivered, u', pdu, head)
  {
    ghost var holds := (v: Tracked, j: nat) => Streaming(t, u, pdu, head, v, j);
    ghost var ends := (v: Tracked, j: nat) => AtLast(pdu, v, j);
    forall v: Tracked, j: nat | holds(v, j)
      ensures j <= CfCount(pdu) && (ends(v, j) || CarriedOn(holds, j + 1))
    {
      StreamingGoesOn(t, u, pdu, head, v, j);
      if !ends(v, j) {
        var w: Tracked :| Streaming(t, u, pdu, head, w, j + 1);
        assert holds(w, j + 1);
      }
    }
    StreamingGoesOn(t, u, pdu, head, u, c);
    var v, j := Climbs(holds, ends, CfCount(pdu), u, c);
    u' := StreamingEnds(t, u, pdu, head, v, j);
  }

  /* ---- From an exposed start to a splice ---- */

  /** The new transfer waits for flow control, a reception of another one is open, and a grant is in flight. */
  ghost predicate Poised(u: Tracked, pdu: seq<byte>, head: seq<byte>, k: nat) {
    && IsPdu(pdu) && SF_MAX_PAYLOAD < |pdu| && Tagged(u) && SR.Inv(u.l.tx) && R.Represents(u.l.rx, u.l.rec)
    && u.l.tx.s.phase == S.WaitingForFc && u.l.tx.s.pdu == pdu && |u.l.tx.handed| == 1
    && Hosting(u, pdu, head, k) && u.l.data == []
  }

  lemma PoisedSplices(t: Tracked, u: Tracked, pdu: seq<byte>, head: seq<byte>, k: nat, p: nat) returns (u': Tracked)
    requires Reaches(t, u) && Poised(u, pdu, head, k)
    requires p < |u.l.fc| && u.l.fc[p] == FlowControlOf(ContinueToSend, 0, u.l.rx.separationTime)
    ensures Reaches(t, u') && SplicedOnto(u.l.sent, u.l.delivered, u', pdu, head)
  {
    var v := LoseFcs(t, u, p);
    var w := GrantBringsFirst(t, v, pdu);
    S.OneMoreCf(pdu, FF_FIRST_DATA + CF_MAX_DATA * k, k);
    u' := Streams(t, w, pdu, head, 1);
  }

  /** The link right after Send took `pdu`, harmless or not. */
  ghost function Started(t: Tracked, pdu: seq<byte>): Tracked
    requires Tagged(t) && CanOccur(t.l, AtSender(SR.Submit(pdu)))
  {
    TrackedNext(t, AtSender(SR.Submit(pdu)))
  }

  lemma StartedIs(t: Tracked, pdu: seq<byte>)
    requires Safety.Inv(t) && CanOccur(t.l, AtSender(SR.Submit(pdu))) && SR.Begins(t.l.tx, SR.Submit(pdu)) && SF_MAX_PAYLOAD < |pdu|
    ensures var u := Started(t, pdu);
            && Safety.Begun(t, u, pdu) && SR.Inv(u.l.tx) && Tagged(u) && u.l.tx.s.phase == S.WaitingForFc
  {
    Safety.BegunFrames(t, SR.Submit(pdu));
    SR.NextKeepsInv(t.l.tx, SR.Submit(pdu));
  }

  lemma GrantIsUnlimited(l: Link, p: nat)
    requires Safety.FcOk(l) && p < |l.fc| && IsGrant(l.fc[p])
    ensures l.fc[p] == FlowControlOf(ContinueToSend, l.rx.blockSize, l.rx.separationTime)
  {
    assert DecodeFlowControl(FlowControlOf(Overflow, l.rx.blockSize, l.rx.separationTime)) == Some((Overflow, l.rx.blockSize, l.rx.separationTime));
  }

  /** A reception is open and a grant is in flight: whatever PDU of the announced length starts now, once its first frame
      is lost the open reception can be completed with its bytes. */
  lemma OpenReceptionSplices(t: Tracked, pdu: seq<byte>, p: nat) returns (u: Tracked)
    requires Safety.Inv(t) && t.l.rx.blockSize == 0 && CanOccur(t.l, AtSender(SR.Submit(pdu))) && SR.Begins(t.l.tx, SR.Submit(pdu))
    requires t.l.rec.Ongoing? && |pdu| == t.l.rx.expectedTotal && p < |t.l.fc| && IsGrant(t.l.fc[p])
    ensures Tagged(Started(t, pdu)) && Reaches(Started(t, pdu), u)
    ensures SplicedOnto(t.l.sent + [pdu], t.l.delivered, u, pdu, t.l.rx.buffer)
  {
    var start := Started(t, pdu);
    StartedIs(t, pdu);
    ReachesSelf(start);
    var v := LoseAhead(start, start, |start.of|);
    GrantIsUnlimited(t.l, p);
    assert pdu[|t.l.rx.buffer|..|t.l.rx.buffer|] == [];
    u := PoisedSplices(start, v, pdu, t.l.rx.buffer, |t.l.rec.cfs|, p);
  }

  /** The first frame of an old transfer arrives alone and opens a reception. */
  lemma OpeningArrives(t: Tracked, u: Tracked, earlier: seq<byte>, x: nat) returns (u': Tracked)
    requires Reaches(t, u) && Tagged(u) && R.Represents(u.l.rx, u.l.rec) && u.l.rx.blockSize == 0
    requires IsPdu(earlier) && SF_MAX_PAYLOAD < |earlier| <= u.l.rx.capacity
    requires u.l.data == [InFlight(FrameAt(earlier, 0), 0)] && u.of == [x]
    ensures Reaches(t, u') && Tagged(u') && R.Represents(u'.l.rx, u'.l.rec)
    ensures u'.l.rec == R.Ongoing(FrameAt(earlier, 0), []) && u'.l.rx.expectedTotal == |earlier| && u'.l.rx.buffer == earlier[..FF_FIRST_DATA]
    ensures u'.l.rx.blockSize == 0 && u'.l.rx.separationTime == u.l.rx.separationTime
    ensures u'.l.fc == u.l.fc + [FlowControlOf(ContinueToSend, 0, u.l.rx.separationTime)]
    ensures u'.l.data == [] && u'.of == [] && u'.from == [x] && u'.l.tx == u.l.tx && u'.l.sent == u.l.sent && u'.l.delivered == u.l.delivered
  {
    var frame := FrameAt(earlier, 0);
    Safety.FirstFrameAnswer(earlier, u.l.rx, u.l.rec);
    Safety.FirstOrSingleHeader(earlier);
    FrameHeaders(earlier, 0);
    ReachesStep(t, u, DeliverData);
    u' := TrackedNext(u, DeliverData);
    R.ReactRefines(u.l.rx, u.l.rec, R.FrameArrives(frame));
    assert R.OnFrame(u.l.rx, frame).r.buffer == frame[2..] && R.OnFrame(u.l.rx, frame).r.expectedTotal == |earlier|;
  }

  lemma OpeningFrame(t: Tracked, i: nat)
    requires Tagged(t) && Safety.FramesOk(t.l.sent, t.l.data, t.of, |t.l.tx.handed|)
    requires i < |t.of| && Opens(t.l.rx, t.l.data[i])
    ensures t.of[i] < |t.l.sent|
    ensures var earlier := t.l.sent[t.of[i]];
            && IsPdu(earlier) && SF_MAX_PAYLOAD < |earlier| <= t.l.rx.capacity
            && t.l.data[i] == InFlight(FrameAt(earlier, 0), 0) && DecodeFirstFrameTotalLength(t.l.data[i].frame) == |earlier|
  {
    assert Safety.FrameOf(t.l.sent, t.l.data[i], t.of[i]);
    FrameHeaders(t.l.sent[t.of[i]], t.l.data[i].index);
  }

  /** Every other frame is lost, the new transfer's included. */
  lemma LeftAlone(t: Tracked, u: Tracked, d: InFlight, x: nat, i: nat) returns (u': Tracked)
    requires Reaches(t, u) && Tagged(u) && R.Represents(u.l.rx, u.l.rec) && i < |u.of| && u.l.data[i] == d && u.of[i] == x
    ensures Reaches(t, u') && u' == u.(l := u.l.(data := [d]), of := [x])
  {
    var v := LoseBehind(t, u, i + 1);
    u' := LoseAhead(t, v, i);
    assert u.l.data[..i + 1][i..] == [d] && u.of[..i + 1][i..] == [x];
  }

  /** A first frame in flight that opens a reception does the same for any PDU as long as its own. */
  lemma OpeningSplices(t: Tracked, pdu: seq<byte>, i: nat) returns (u: Tracked)
    requires Safety.Inv(t) && t.l.rx.blockSize == 0 && CanOccur(t.l, AtSender(SR.Submit(pdu))) && SR.Begins(t.l.tx, SR.Submit(pdu))
    requires i < |t.of| && Opens(t.l.rx, t.l.data[i]) && |pdu| == DecodeFirstFrameTotalLength(t.l.data[i].frame)
    ensures Tagged(Started(t, pdu)) && Reaches(Started(t, pdu), u) && t.of[i] < |t.l.sent|
    ensures |t.l.sent[t.of[i]]| == |pdu| && SplicedOnto(t.l.sent + [pdu], t.l.delivered, u, pdu, t.l.sent[t.of[i]][..FF_FIRST_DATA])
  {
    OpeningFrame(t, i);
    StartedIs(t, pdu);
    ReachesSelf(Started(t, pdu));
    var alone := LeftAlone(Started(t, pdu), Started(t, pdu), t.l.data[i], t.of[i], i);
    u := LoneOpeningSplices(Started(t, pdu), alone, pdu, t.l.sent[t.of[i]], t.of[i]);
  }

  lemma LoneOpeningSplices(t: Tracked, u: Tracked, pdu: seq<byte>, earlier: seq<byte>, x: nat) returns (u': Tracked)
    requires Reaches(t, u) && Tagged(u) && SR.Inv(u.l.tx) && R.Represents(u.l.rx, u.l.rec) && u.l.rx.blockSize == 0
    requires IsPdu(earlier) && SF_MAX_PAYLOAD < |earlier| <= u.l.rx.capacity && |pdu| == |earlier|
    requires u.l.data == [InFlight(FrameAt(earlier, 0), 0)] && u.of == [x] && x != Current(u.l)
    requires u.l.tx.s.phase == S.WaitingForFc && u.l.tx.s.pdu == pdu && |u.l.tx.handed| == 1
    ensures Reaches(t, u') && SplicedOnto(u.l.sent, u.l.delivered, u', pdu, earlier[..FF_FIRST_DATA])
  {
    var host := OpeningArrives(t, u, earlier, x);
    assert pdu[FF_FIRST_DATA..FF_FIRST_DATA] == [];
    assert earlier[..FF_FIRST_DATA] + [] == earlier[..FF_FIRST_DATA];
    u' := PoisedSplices(t, host, pdu, earlier[..FF_FIRST_DATA], 0, |host.l.fc| - 1);
  }

  /* ---- The exact condition ---- */

  /** Send takes `pdu`, and in the run `es` after it a PDU is delivered that mixes transfers. */
  ghost predicate SplicesBy(t: Tracked, pdu: seq<byte>, es: seq<LinkEvent>)
    requires Tagged(t)
  {
    && CanOccur(t.l, AtSender(SR.Submit(pdu))) && SR.Begins(t.l.tx, SR.Submit(pdu)) && Tagged(Started(t, pdu))
    && var end := TrackedAfter(Started(t, pdu), es);
       end.Some? && Spliced(end.value)
  }

  /** A harmless start is never followed by a splice, whatever the block size and whatever is lost. */
  lemma HarmlessNeverSplices(t: Tracked, pdu: seq<byte>, es: seq<LinkEvent>)
    requires Safety.Inv(t) && Harmless(t.l, pdu)
    ensures !SplicesBy(t, pdu, es)
  {
    if SplicesBy(t, pdu, es) {
      Safety.BeginKeepsInv(t, SR.Submit(pdu));
      Safety.EveryRunKeepsInv(Started(t, pdu), es);
      Safety.WholeIsUnspliced(TrackedAfter(Started(t, pdu), es).value);
    }
  }

  /** A PDU as long as the one the exposed link has open, or is about to open, can be spliced onto it. */
  lemma ExposedSplices(t: Tracked) returns (pdu: seq<byte>, es: seq<LinkEvent>)
    requires Safety.Inv(t) && t.l.tx.s.phase == S.Idle && t.l.rx.blockSize == 0 && Exposed(t.l)
    ensures SplicesBy(t, pdu, es)
  {
    var u: Tracked;
    if i :| 0 <= i < |t.l.data| && Opens(t.l.rx, t.l.data[i]) {
      OpeningFrame(t, i);
      pdu := t.l.sent[t.of[i]];
      u := OpeningSplices(t, pdu, i);
    } else {
      var p :| 0 <= p < |t.l.fc| && IsGrant(t.l.fc[p]);
      pdu := t.l.sent[t.from[0]];
      u := OpenReceptionSplices(t, pdu, p);
    }
    es :| TrackedAfter(Started(t, pdu), es) == Some(u);
  }

  /** Unlimited blocks, after any run that started transfers where it was harmless, the sender idle: a start can be
      followed by a splice, for some PDU and some losses, if and only if the link is exposed; and never by sending a PDU of
      a single frame. */
  lemma SplicesExactlyWhenExposed(txCapacity: nat, rxCapacity: nat, separationTime: byte, es: seq<LinkEvent>)
    requires TrackedAfter(Start(txCapacity, rxCapacity, 0, separationTime), es).Some?
    requires TrackedAfter(Start(txCapacity, rxCapacity, 0, separationTime), es).value.l.tx.s.phase == S.Idle
    ensures var t := TrackedAfter(Start(txCapacity, rxCapacity, 0, separationTime), es).value;
            && (Exposed(t.l) <==> exists pdu: seq<byte>, fs: seq<LinkEvent> :: SplicesBy(t, pdu, fs))
            && (forall pdu: seq<byte>, fs: seq<LinkEvent> :: |pdu| <= SF_MAX_PAYLOAD ==> !SplicesBy(t, pdu, fs))
  {
    var start := Start(txCapacity, rxCapacity, 0, separationTime);
    var t := TrackedAfter(start, es).value;
    Safety.StartIsSound(txCapacity, rxCapacity, 0, separationTime);
    Safety.EveryRunKeepsInv(start, es);
    BlockSizeStays(start, es);
    forall pdu: seq<byte>, fs: seq<LinkEvent> | Harmless(t.l, pdu)
      ensures !SplicesBy(t, pdu, fs)
    {
      HarmlessNeverSplices(t, pdu, fs);
    }
    if Exposed(t.l) {
      var pdu, fs := ExposedSplices(t);
    }
  }

  lemma {:induction false} BlockSizeStays(t: Tracked, es: seq<LinkEvent>)
    requires Safety.Inv(t) && TrackedAfter(t, es).Some?
    ensures TrackedAfter(t, es).value.l.rx.blockSize == t.l.rx.blockSize
    decreases |es|
  {
    if es != [] {
      BlockSizeStays(t, es[..|es| - 1]);
      var u := TrackedAfter(t, es[..|es| - 1]).value;
      Safety.EveryRunKeepsInv(t, es[..|es| - 1]);
      BlockSizeKept(u.l, es[|es| - 1]);
    }
  }

  lemma BlockSizeKept(l: Link, e: LinkEvent)
    requires CanOccur(l, e)
    ensures Next(l, e).rx.blockSize == l.rx.blockSize
  {
  }
}
