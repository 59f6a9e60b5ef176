/**
 The link of IsoTpLink with the origin of everything on it: which transfer each
 frame in flight, each frame of the reception in progress and each frame of a
 delivered PDU belongs to.
 */
module IsoTpLinkOrigins {
  import opened CanTypes
  import opened IsoTpCodec
  import opened IsoTpLink
  import S = IsoTpSender
  import SR = IsoTpSenderRuns
  import R = IsoTpReceiver

  /**
   Transfers are numbered by their place in `l.sent`. `of` lists those of the
   frames in `l.data`, `from` those of the frames of the reception in progress,
   `origins` those of the frames of each PDU delivered. `position` is one more
   than the position, in its transfer, of the last data frame that arrived.
   */
  datatype Tracked = Tracked(l: Link, of: seq<nat>, position: nat, from: seq<nat>, origins: seq<seq<nat>>)

  ghost predicate Tagged(t: Tracked) {
    |t.of| == |t.l.data|
  }

  /** The transfer begun last. */
  function Current(l: Link): nat {
    if l.sent == [] then 0 else |l.sent| - 1
  }

  /** The frame a sender's step hands over belongs to the transfer begun last. */
  function SenderTags(t: Tracked, l': Link): Tracked {
    t.(l := l', of := if |l'.data| > |t.l.data| then t.of + [Current(l')] else t.of)
  }

  /** The frames of the reception after data frame `frame` of transfer `x` has arrived. */
  function FromAfter(from: seq<nat>, rec: R.Reception, rec': R.Reception, frame: Message, x: nat): seq<nat> {
    if rec'.NoReception? then []
    else if R.UsableFirst(frame) then [x]
    else if rec.Ongoing? && |rec'.cfs| > |rec.cfs| then from + [x]
    else from
  }

  ghost function DataTags(t: Tracked, l': Link): Tracked
    requires Tagged(t) && t.l.data != []
  {
    var frame, x := t.l.data[0].frame, t.of[0];
    Tracked(l', t.of[1..], t.l.data[0].index + 1, FromAfter(t.from, t.l.rec, l'.rec, frame, x),
            if |l'.delivered| > |t.l.delivered|
            then t.origins + [if R.UsableSingle(frame) then [x] else t.from + [x]] else t.origins)
  }

  ghost function TrackedNext(t: Tracked, e: LinkEvent): Tracked
    requires Tagged(t) && CanOccur(t.l, e)
  {
    var l' := Next(t.l, e);
    match e
    case AtSender(_) => SenderTags(t, l')
    case DeliverFc => SenderTags(t, l')
    case AtReceiver(_) => t.(l := l', from := if l'.rec.Ongoing? then t.from else [])
    case DeliverData => DataTags(t, l')
    case LoseData(i) => t.(l := l', of := t.of[..i] + t.of[i + 1..])
    case LoseFc(_) => t.(l := l')
  }

  lemma TagsFollow(t: Tracked, e: LinkEvent)
    requires Tagged(t) && CanOccur(t.l, e)
    ensures Tagged(TrackedNext(t, e))
  {
  }

  ghost function TrackedAfter(t: Tracked, es: seq<LinkEvent>): (r: Option<Tracked>)
    requires Tagged(t)
    ensures r.Some? ==> Tagged(r.value)
    decreases |es|
  {
    if es == [] then Some(t)
    else
      var before := TrackedAfter(t, es[..|es| - 1]);
      var e := es[|es| - 1];
      if before.Some? && Enabled(before.value.l, e) then
        TagsFollow(before.value, e);
        Some(TrackedNext(before.value, e))
      else None
  }

  function Start(txCapacity: nat, rxCapacity: nat, blockSize: byte, separationTime: byte): Tracked {
    Tracked(Initial(txCapacity, rxCapacity, blockSize, separationTime), [], 0, [], [])
  }

  /** Frames of more than one transfer. */
  predicate Mixed(transfers: seq<nat>) {
    exists i, j :: 0 <= i < j < |transfers| && transfers[i] != transfers[j]
  }

  /** Some PDU delivered was put together from frames of different transfers. */
  predicate Spliced(t: Tracked) {
    exists d :: 0 <= d < |t.origins| && Mixed(t.origins[d])
  }

  lemma LinkOfNext(t: Tracked, e: LinkEvent)
    requires Tagged(t) && CanOccur(t.l, e)
    ensures TrackedNext(t, e).l == Next(t.l, e)
  {
  }

  /** Origins are only remembered: the link itself runs as it does without them. */
  lemma {:induction false} TrackingFollows(t: Tracked, es: seq<LinkEvent>)
    requires Tagged(t)
    ensures After(t.l, es) == (if TrackedAfter(t, es).Some? then Some(TrackedAfter(t, es).value.l) else None)
    decreases |es|
  {
    if es != [] {
      var before := TrackedAfter(t, es[..|es| - 1]);
      TrackingFollows(t, es[..|es| - 1]);
      if before.Some? && Enabled(before.value.l, es[|es| - 1]) {
        LinkOfNext(before.value, es[|es| - 1]);
      }
    }
  }
}
