/**
 Runs of a server: whatever frames, PDUs, timeouts and registrations come, which
 commands are accepted and what the application is told.
 */
module CanProtocolServerRuns {
  import opened CanTypes
  import opened CanProtocol
  import opened CanProtocolServer

  /** An accepted command of a validated category. */
  datatype Taken = Taken(number: byte, emergency: bool)

  /** `passed` lists the frames let through the rate gate since the period began (true: emergency), `periods` those of
      the periods before; `taken` and `notices` record the run. */
  datatype Run = Run(s: Server, taken: seq<Taken>, passed: seq<bool>, periods: seq<seq<bool>>, notices: seq<Notice>)

  datatype RunEvent = Input(e: Event) | CategoriesChange(categories: seq<Category>)

  predicate Enabled(r: Run, e: RunEvent) {
    e.Input? ==> CanHappen(r.s, e.e)
  }

  /** The command that `s` accepts on `e`, if it does. */
  datatype Acceptance = Acceptance(a: Address, category: Category, payload: seq<byte>)

  function AcceptedOf(s: Server, a: Address, payload: seq<byte>, verdict: DispatchResult): Option<Acceptance> {
    match AdmissionOf(s, a, payload)
    case Admit(category) => if verdict == Handled then Some(Acceptance(a, category, payload)) else None
    case _ => None
  }

  /** Each kind of frame has a budget of its own for the period. */
  predicate HasRoom(s: Server, emergency: bool) {
    if emergency then s.emergencyUsed < s.config.maxEmergencies else s.used < s.config.maxMessages
  }

  /** The frame is for this node, alone or with all others. */
  predicate ForUs(s: Server, e: Event) {
    (e.Frame? || e.Pdu?) && (e.a.nodeId == s.config.nodeId || e.a.nodeId == BROADCAST)
  }

  predicate Passes(s: Server, e: Event) {
    e.Frame? && ForUs(s, e) && HasRoom(s, IsEmergencyAddress(e.a))
  }

  function Accepted(s: Server, e: Event): Option<Acceptance> {
    match e
    case Frame(a, data, claimed, verdict) =>
      if Passes(s, e) && !claimed then AcceptedOf(s, a, data, verdict) else None
    case Pdu(a, payload, verdict) =>
      if ForUs(s, e) then AcceptedOf(s, a, payload, verdict) else None
    case _ => None
  }

  /** What an acceptance adds to the record. */
  function TakenFrom(x: Option<Acceptance>): seq<Taken> {
    if x.Some? && x.value.category.validated && x.value.payload != []
    then [Taken(x.value.payload[0], IsEmergencyAddress(x.value.a))] else []
  }

  function PassedAfter(s: Server, e: Event, passed: seq<bool>): seq<bool> {
    if Passes(s, e) then passed + [IsEmergencyAddress(e.a)] else passed
  }

  function NoticesOf(notice: Option<Notice>): seq<Notice> {
    if notice.Some? then [notice.value] else []
  }

  function Next(r: Run, e: RunEvent): Run
    requires Enabled(r, e)
  {
    match e
    case CategoriesChange(categories) => r.(s := r.s.(categories := categories))
    case Input(e) =>
      var step := React(r.s, e);
      Run(step.s,
          r.taken + TakenFrom(Accepted(r.s, e)),
          if e.RatePeriodEnds? then [] else PassedAfter(r.s, e, r.passed),
          if e.RatePeriodEnds? then r.periods + [r.passed] else r.periods,
          r.notices + NoticesOf(step.notice))
  }

  function Initial(config: Config): Run {
    Run(Server(config, [Category(SYSTEM_CATEGORY, false)], 0, 0, Counters(0, 0, 0, 0), 0, false, false, false), [], [], [], [])
  }

  function After(r: Run, es: seq<RunEvent>): Option<Run>
    decreases |es|
  {
    if es == [] then Some(r)
    else
      var before := After(r, es[..|es| - 1]);
      if before.Some? && Enabled(before.value, es[|es| - 1]) then Some(Next(before.value, es[|es| - 1])) else None
  }

  /* ---- What holds in every run ---- */

  /** Each accepted ordinary command carries the number after the one accepted before it, emergencies any number. */
  predicate Successive(taken: seq<Taken>) {
    forall i :: 0 < i < |taken| && !taken[i].emergency ==> taken[i].number == Next8(taken[i - 1].number)
  }

  predicate SequenceOk(s: Server, taken: seq<Taken>) {
    && Successive(taken)
    && (s.initialized <==> taken != [])
    && (taken != [] ==> s.last == taken[|taken| - 1].number)
  }

  function Count(passed: seq<bool>, emergency: bool): nat {
    if passed == [] then 0 else Count(passed[..|passed| - 1], emergency) + if passed[|passed| - 1] == emergency then 1 else 0
  }

  /** Each kind of frame stays within its own budget, whatever the other kind does. */
  predicate WithinBudgets(passed: seq<bool>, config: Config) {
    Count(passed, false) <= config.maxMessages && Count(passed, true) <= config.maxEmergencies
  }

  predicate BudgetsOk(s: Server, passed: seq<bool>, periods: seq<seq<bool>>) {
    && s.used == Count(passed, false) && s.emergencyUsed == Count(passed, true)
    && WithinBudgets(passed, s.config)
    && (forall i :: 0 <= i < |periods| ==> WithinBudgets(periods[i], s.config))
  }

  /** Online and Offline alternate, Online first; the liveness timer runs exactly while the client is online. */
  predicate NoticesOk(s: Server, notices: seq<Notice>) {
    && (forall i :: 0 <= i < |notices| ==> (notices[i] == Online <==> i % 2 == 0))
    && (s.online <==> |notices| % 2 == 1)
    && (s.livenessTimer <==> s.online)
  }

  predicate Inv(r: Run) {
    SequenceOk(r.s, r.taken) && BudgetsOk(r.s, r.passed, r.periods) && NoticesOk(r.s, r.notices)
  }

  /** What dispatching a payload does to sequence and liveness, told by whether the command is accepted. */
  predicate DispatchEffect(s: Server, x: Option<Acceptance>, step: Step) {
    && step.s.used == s.used && step.s.emergencyUsed == s.emergencyUsed && step.s.config == s.config
    && (x.None? ==>
          && step.s.last == s.last && step.s.initialized == s.initialized
          && step.s.online == s.online && step.s.livenessTimer == s.livenessTimer && step.notice.None?)
    && (x.Some? ==>
          && step.s.online && step.s.livenessTimer && step.ack.None?
          && step.notice == (if s.online then None else Some(Online))
          && (x.value.category.validated ==>
                && x.value.payload != []
                && step.s.last == x.value.payload[0] && step.s.initialized
                && (!IsEmergencyAddress(x.value.a) && s.initialized ==> x.value.payload[0] == Next8(s.last)))
          && (!x.value.category.validated ==> step.s.last == s.last && step.s.initialized == s.initialized))
  }

  lemma DispatchHasEffect(s: Server, a: Address, payload: seq<byte>, verdict: DispatchResult)
    requires IsAddress(a)
    ensures DispatchEffect(s, AcceptedOf(s, a, payload, verdict), Dispatch(s, a, payload, verdict))
  {
  }

  /** A frame or PDU that is not accepted, for whatever reason, leaves sequence and liveness as they were. */
  lemma RejectionLeavesNoTrace(s: Server, e: Event)
    requires CanHappen(s, e) && (e.Frame? || e.Pdu?) && Accepted(s, e).None?
    ensures var s' := React(s, e).s;
            s'.last == s.last && s'.initialized == s.initialized && s'.online == s.online && s'.livenessTimer == s.livenessTimer
    ensures React(s, e).notice.None?
  {
    if e.Frame? {
      DispatchHasEffect(Charge(s, IsEmergencyAddress(e.a)).1, e.a, e.data, e.verdict);
      ChargeKeepsAdmission(s, e.a, e.data, e.verdict);
    } else {
      DispatchHasEffect(s, e.a, e.payload, e.verdict);
    }
  }

  lemma ChargeKeepsAdmission(s: Server, a: Address, payload: seq<byte>, verdict: DispatchResult)
    ensures AcceptedOf(Charge(s, IsEmergencyAddress(a)).1, a, payload, verdict) == AcceptedOf(s, a, payload, verdict)
  {
  }

  /** A frame for this node that the rate gate refuses. */
  predicate Limited(s: Server, e: Event) {
    e.Frame? && ForUs(s, e) && !HasRoom(s, IsEmergencyAddress(e.a))
  }

  /** A payload that reaches the dispatcher. */
  predicate Dispatched(s: Server, e: Event) {
    (e.Frame? && Passes(s, e) && !e.claimed) || (e.Pdu? && ForUs(s, e))
  }

  function TickIf(n: nat, b: bool): nat {
    if b then Tick(n) else n
  }

  /** Each counter moves for exactly its own events: refusals of either budget, dispatched payloads that are not
      accepted, accepted emergencies. */
  lemma CountersCountTheirEvents(s: Server, e: Event)
    requires CanHappen(s, e)
    ensures React(s, e).s.counters ==
              Counters(TickIf(s.counters.rateLimited, Limited(s, e) && !IsEmergencyAddress(e.a)),
                       TickIf(s.counters.emergencyRateLimited, Limited(s, e) && IsEmergencyAddress(e.a)),
                       TickIf(s.counters.invalidFrames, Dispatched(s, e) && Accepted(s, e).None?),
                       TickIf(s.counters.emergencyAdmitted, Accepted(s, e).Some? && IsEmergencyAddress(Accepted(s, e).value.a)))
  {
    match e {
      case Frame(a, data, _, verdict) =>
        DispatchCounts(Charge(s, IsEmergencyAddress(a)).1, a, data, verdict);
        ChargeKeepsAdmission(s, a, data, verdict);
      case Pdu(a, payload, verdict) => DispatchCounts(s, a, payload, verdict);
      case _ =>
    }
  }

  lemma DispatchCounts(s: Server, a: Address, payload: seq<byte>, verdict: DispatchResult)
    requires IsAddress(a)
    ensures var x := AcceptedOf(s, a, payload, verdict);
            Dispatch(s, a, payload, verdict).s.counters ==
              s.counters.(invalidFrames := TickIf(s.counters.invalidFrames, x.None?),
                          emergencyAdmitted := TickIf(s.counters.emergencyAdmitted, x.Some? && IsEmergencyAddress(a)))
  {
  }

  lemma CountAppend(passed: seq<bool>, b: bool, emergency: bool)
    ensures Count(passed + [b], emergency) == Count(passed, emergency) + if b == emergency then 1 else 0
  {
    assert (passed + [b])[..|passed|] == passed;
  }

  /** The budgets after the rate gate has seen the event. */
  function Gated(s: Server, e: Event): Server {
    if Passes(s, e) then
      if IsEmergencyAddress(e.a) then s.(emergencyUsed := s.emergencyUsed + 1) else s.(used := s.used + 1)
    else s
  }

  lemma FrameEffect(s: Server, e: Event)
    requires CanHappen(s, e) && e.Frame?
    ensures DispatchEffect(Gated(s, e), Accepted(s, e), React(s, e))
  {
    var charged := Charge(s, IsEmergencyAddress(e.a)).1;
    DispatchHasEffect(charged, e.a, e.data, e.verdict);
    ChargeKeepsAdmission(s, e.a, e.data, e.verdict);
    if Passes(s, e) {
      assert charged == Gated(s, e);
      if !e.claimed {
        assert React(s, e) == Dispatch(charged, e.a, e.data, e.verdict);
      }
    }
  }

  lemma PduEffect(s: Server, e: Event)
    requires CanHappen(s, e) && e.Pdu?
    ensures DispatchEffect(Gated(s, e), Accepted(s, e), React(s, e))
  {
    DispatchHasEffect(s, e.a, e.payload, e.verdict);
  }

  lemma SequenceAfter(s: Server, x: Option<Acceptance>, step: Step, taken: seq<Taken>)
    requires SequenceOk(s, taken) && DispatchEffect(s, x, step)
    ensures SequenceOk(step.s, taken + TakenFrom(x))
  {
    if TakenFrom(x) == [] {
      assert taken + [] == taken;
    }
  }

  lemma NoticesAfter(s: Server, x: Option<Acceptance>, step: Step, notices: seq<Notice>)
    requires NoticesOk(s, notices) && DispatchEffect(s, x, step)
    ensures NoticesOk(step.s, notices + NoticesOf(step.notice))
  {
    if step.notice.None? {
      assert notices + [] == notices;
    }
  }

  lemma BudgetsAfter(s: Server, e: Event, passed: seq<bool>, periods: seq<seq<bool>>)
    requires BudgetsOk(s, passed, periods)
    ensures BudgetsOk(Gated(s, e), PassedAfter(s, e, passed), periods)
  {
    if Passes(s, e) {
      CountAppend(passed, IsEmergencyAddress(e.a), false);
      CountAppend(passed, IsEmergencyAddress(e.a), true);
    }
  }

  lemma GateKeepsRecords(s: Server, e: Event, taken: seq<Taken>, notices: seq<Notice>)
    requires SequenceOk(s, taken) && NoticesOk(s, notices)
    ensures SequenceOk(Gated(s, e), taken) && NoticesOk(Gated(s, e), notices)
  {
  }

  lemma BudgetsKept(s: Server, x: Option<Acceptance>, step: Step, passed: seq<bool>, periods: seq<seq<bool>>)
    requires BudgetsOk(s, passed, periods) && DispatchEffect(s, x, step)
    ensures BudgetsOk(step.s, passed, periods)
  {
  }

  lemma PeriodKeepsInv(r: Run)
    requires Inv(r)
    ensures Inv(Next(r, Input(RatePeriodEnds)))
  {
    assert r.taken + [] == r.taken;
    assert r.notices + [] == r.notices;
  }

  lemma TimeoutTells(s: Server, notices: seq<Notice>)
    requires NoticesOk(s, notices) && s.livenessTimer
    ensures NoticesOk(s.(online := false, livenessTimer := false), notices + [Offline])
  {
  }

  lemma TimeoutKeepsInv(r: Run)
    requires Inv(r) && r.s.livenessTimer
    ensures Inv(Next(r, Input(ClientTimeout)))
  {
    TimeoutTells(r.s, r.notices);
    assert r.taken + [] == r.taken;
  }

  lemma InputKeepsInv(r: Run, e: Event)
    requires Inv(r) && CanHappen(r.s, e) && (e.Frame? || e.Pdu?)
    ensures Inv(Next(r, Input(e)))
  {
    if e.Frame? { FrameEffect(r.s, e); } else { PduEffect(r.s, e); }
    StepKeepsInv(r, e, Gated(r.s, e), Accepted(r.s, e), React(r.s, e));
  }

  lemma StepKeepsInv(r: Run, e: Event, gated: Server, x: Option<Acceptance>, step: Step)
    requires Inv(r) && (e.Frame? || e.Pdu?) && gated == Gated(r.s, e) && DispatchEffect(gated, x, step)
    ensures SequenceOk(step.s, r.taken + TakenFrom(x)) && BudgetsOk(step.s, PassedAfter(r.s, e, r.passed), r.periods)
    ensures NoticesOk(step.s, r.notices + NoticesOf(step.notice))
  {
    GateKeepsRecords(r.s, e, r.taken, r.notices);
    BudgetsAfter(r.s, e, r.passed, r.periods);
    BudgetsKept(gated, x, step, PassedAfter(r.s, e, r.passed), r.periods);
    SequenceAfter(gated, x, step, r.taken);
    NoticesAfter(gated, x, step, r.notices);
  }

  /** Over any run: accepted commands follow one another, budgets hold in every period, notices alternate. */
  lemma {:induction false} EveryRunIsSound(config: Config, es: seq<RunEvent>)
    requires After(Initial(config), es).Some?
    ensures Inv(After(Initial(config), es).value)
  {
    if es != [] {
      EveryRunIsSound(config, es[..|es| - 1]);
      var r := After(Initial(config), es[..|es| - 1]).value;
      match es[|es| - 1] {
        case CategoriesChange(_) =>
        case Input(e) =>
          match e {
            case RatePeriodEnds => PeriodKeepsInv(r);
            case ClientTimeout => TimeoutKeepsInv(r);
            case _ => InputKeepsInv(r, e);
          }
      }
    }
  }

  /* ---- The rate gate, told from the record ---- */

  function Budget(config: Config, emergency: bool): nat {
    if emergency then config.maxEmergencies else config.maxMessages
  }

  /** In any run a frame for this node is let through exactly while fewer of its own kind than its own budget have been, in
      this period; the other kind has no say in it, and a frame that is held back is counted and does nothing else. */
  lemma GateIsExact(r: Run, e: Event)
    requires Inv(r) && CanHappen(r.s, e) && e.Frame? && ForUs(r.s, e)
    ensures var emergency, r' := IsEmergencyAddress(e.a), Next(r, Input(e));
            var room := Count(r.passed, emergency) < Budget(r.s.config, emergency);
            && r'.passed == (if room then r.passed + [emergency] else r.passed)
            && r'.periods == r.periods
            && (!room ==>
                  var c := r.s.counters;
                  && r'.s == r.s.(counters := if emergency then c.(emergencyRateLimited := Tick(c.emergencyRateLimited))
                                              else c.(rateLimited := Tick(c.rateLimited)))
                  && React(r.s, e).ack.None? && React(r.s, e).notice.None?)
  {
  }

  /** Nothing that is for other nodes does anything. */
  lemma OthersAreIgnored(s: Server, e: Event)
    requires CanHappen(s, e) && (e.Frame? || e.Pdu?) && !ForUs(s, e)
    ensures React(s, e) == Step(s, None, None)
  {
  }

  /** A frame that the segmentation layer claims is charged to its budget and does nothing else. */
  lemma ClaimedIsOnlyCharged(s: Server, e: Event)
    requires CanHappen(s, e) && Passes(s, e) && e.claimed
    ensures React(s, e) == Step(Gated(s, e), None, None)
  {
  }

  /* ---- Which commands are accepted and what is answered ---- */

  /** The last number taken, if any, says which one is next. */
  predicate InSequence(taken: seq<Taken>, number: byte) {
    taken != [] ==> number == Next8(taken[|taken| - 1].number)
  }

  ghost predicate Known(categories: seq<Category>, id: nat, category: Category) {
    exists i :: 0 <= i < |categories| && categories[i] == category && category.id == id
      && forall j :: 0 <= j < i ==> categories[j].id != id
  }

  lemma {:induction false} FoundIsKnown(categories: seq<Category>, id: nat)
    ensures FindCategory(categories, id).None? <==> forall i :: 0 <= i < |categories| ==> categories[i].id != id
    ensures FindCategory(categories, id).Some? ==> Known(categories, id, FindCategory(categories, id).value)
  {
    if categories != [] {
      var rest := categories[1..];
      FoundIsKnown(rest, id);
      if categories[0].id == id {
        assert Known(categories, id, categories[0]);
      } else if FindCategory(rest, id).Some? {
        var x := FindCategory(rest, id).value;
        var i :| 0 <= i < |rest| && rest[i] == x && x.id == id && forall j :: 0 <= j < i ==> rest[j].id != id;
        assert categories[i + 1] == x && forall j :: 0 <= j < i + 1 ==> categories[j].id != id;
      } else {
        forall i | 0 <= i < |categories|
          ensures categories[i].id != id
        {
          if i > 0 { assert categories[i] == rest[i - 1]; }
        }
      }
    }
  }

  /** What the server does with a payload that reaches its dispatcher: whether it takes it, and how it answers. */
  datatype Treatment = Ignored | Answered(status: AckStatus, expected: byte) | TakenUp

  /** From the command's category, the numbers taken before, and the handler's verdict. */
  function TreatmentOf(category: Option<Category>, taken: seq<Taken>, a: Address, payload: seq<byte>, verdict: DispatchResult): Treatment {
    if a.messageType > 0x7F || category.None? then Ignored
    else if category.value.validated && payload == [] then Answered(InvalidPayload, 0)
    else if category.value.validated && a.priority != 0 && !InSequence(taken, payload[0]) then
      Answered(SequenceError, Next8(taken[|taken| - 1].number))
    else
      match verdict
      case Handled => TakenUp
      case Rejected => Answered(InvalidPayload, 0)
      case UnknownMessageType => Answered(UnknownCommand, 0)
  }

  /** In any run, a payload that reaches the dispatcher is treated as the record demands: the category is the first one
      registered under its identifier. */
  lemma TreatedByTheRecord(r: Run, e: Event, category: Option<Category>)
    requires Inv(r) && CanHappen(r.s, e) && Dispatched(r.s, e)
    requires if category.Some? then Known(r.s.categories, e.a.category, category.value)
             else forall i :: 0 <= i < |r.s.categories| ==> r.s.categories[i].id != e.a.category
    ensures var payload := if e.Frame? then e.data else e.payload;
            var treatment := TreatmentOf(category, r.taken, e.a, payload, e.verdict);
            && React(r.s, e).ack == (if treatment.Answered?
                                     then Some(Ack(e.a.category, e.a.messageType, treatment.status, treatment.expected)) else None)
            && (Accepted(r.s, e).Some? <==> treatment.TakenUp?)
            && Next(r, Input(e)).taken == r.taken + (if treatment.TakenUp? && category.value.validated
                                                     then [Taken(payload[0], e.a.priority == 0)] else [])
  {
    FoundIsKnown(r.s.categories, e.a.category);
  }
}
