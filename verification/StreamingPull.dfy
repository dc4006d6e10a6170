/** The StreamingPull trigger worker as a protocol: callbacks that leave events under a lock and raise a
    flag, and a worker that waits for the flag, takes the events and runs triggers. Every lock region
    and every flag operation is a step of its own. */
module StreamingPull {
  import opened Wrappers
  import opened Backoff

  datatype PubSubEvent = PubSubEvent(messageId: string, historyId: Option<int>)

  datatype Config = Config(warnThreshold: nat, maxFailures: nat, baseDelay: real, maxDelay: real)

  const JITTER_RATIO: real := 0.1

  ghost predicate ValidConfig(c: Config) {
    c.warnThreshold >= 1 && c.maxFailures >= 1 && c.baseDelay > 0.0 && c.maxDelay > 0.0
  }

  /** Where the worker is: before its stop check, waiting for the flag, before the stop check of the inner
      loop, about to dequeue, with an event in hand, in a trigger, in the pause after a failure, with the
      fatal error raised but its flags not yet set, or gone. */
  datatype Worker =
    | Top
    | Waiting
    | DrainTop
    | Draining
    | Holding(event: PubSubEvent)
    | Triggering(idle: bool)
    | Pausing(idle: bool)
    | Failing
    | SettingStop
    | Halted

  datatype Pause = Pause(failures: nat, seconds: real)

  /** The fields shared under locks and as flags; `setters` counts the callbacks that are between their
      lock region and their flag set. */
  datatype Shared = Shared(
    pending: Option<PubSubEvent>,
    pendingCount: nat,
    backlogWarned: bool,
    triggerFlag: bool,
    stopFlag: bool,
    workerFailed: bool,
    setters: nat)

  /** The worker's own variables. */
  datatype Local = Local(at: Worker, lastHistoryId: Option<int>, failures: nat)

  /** The history: events accepted, how many of them were dequeued, the ids that message triggers were
      started for, how many triggers were started, how each finished one ended, the pauses taken, and
      whether somebody else stopped the runner. */
  datatype Trace = Trace(
    accepted: seq<PubSubEvent>,
    dequeued: nat,
    triggered: seq<int>,
    started: nat,
    results: seq<bool>,
    pauses: seq<Pause>,
    externalStop: bool)

  datatype State = State(sh: Shared, lo: Local, tr: Trace)

  const INITIAL :=
    State(Shared(None, 0, false, false, false, false, 0), Local(Top, None, 0), Trace([], 0, [], 0, [], [], false))

  datatype Step =
    | Accept(event: PubSubEvent)
    | RaiseFlag
    | StopFromOutside
    | RaiseFlagAtStop
    | CheckStop
    | Wake
    | TimeOut(idleElapsed: bool)
    | CheckStopInside
    | Dequeue
    | Decide
    | Finish(ok: bool, jitter: real)
    | EndPause
    | SetFailed
    | SetStop

  /******* The steps *******/

  /** Which event stays pending when another one arrives. */
  function Merged(pending: Option<PubSubEvent>, e: PubSubEvent): PubSubEvent {
    if pending.None? then e
    else if e.historyId.None? || pending.value.historyId.None? then e
    else if e.historyId.value >= pending.value.historyId.value then e
    else pending.value
  }

  predicate Duplicate(e: PubSubEvent, last: Option<int>) {
    e.historyId.Some? && last.Some? && e.historyId.value <= last.value
  }

  predicate Enabled(c: Config, s: State, step: Step) {
    match step
    case Accept(_) => true
    case RaiseFlag => s.sh.setters > 0
    case StopFromOutside => true
    case RaiseFlagAtStop => s.tr.externalStop
    case CheckStop => s.lo.at.Top?
    case Wake => s.lo.at.Waiting? && s.sh.triggerFlag
    case TimeOut(_) => s.lo.at.Waiting? && !s.sh.triggerFlag
    case CheckStopInside => s.lo.at.DrainTop?
    case Dequeue => s.lo.at.Draining?
    case Decide => s.lo.at.Holding?
    case Finish(ok, jitter) =>
      s.lo.at.Triggering? && (!ok ==> JitterInRange(s.lo.failures + 1, c.baseDelay, c.maxDelay, JITTER_RATIO, jitter))
    case EndPause => s.lo.at.Pausing?
    case SetFailed => s.lo.at.Failing?
    case SetStop => s.lo.at.SettingStop?
  }

  function AfterTrigger(idle: bool): Worker {
    if idle then Top else DrainTop
  }

  function Queue(c: Config, s: State, e: PubSubEvent): State {
    var sh := s.sh.(pending := Some(Merged(s.sh.pending, e)), pendingCount := s.sh.pendingCount + 1,
                    backlogWarned := s.sh.backlogWarned || s.sh.pendingCount + 1 >= c.warnThreshold,
                    setters := s.sh.setters + 1);
    s.(sh := sh, tr := s.tr.(accepted := s.tr.accepted + [e]))
  }

  function TakePending(s: State): State {
    s.(sh := s.sh.(pending := None, pendingCount := 0, backlogWarned := false, triggerFlag := false),
       lo := s.lo.(at := if s.sh.pending.Some? then Holding(s.sh.pending.value) else Top),
       tr := s.tr.(dequeued := s.tr.dequeued + s.sh.pendingCount))
  }

  function GoTo(s: State, w: Worker): State {
    s.(lo := s.lo.(at := w))
  }

  function Start(s: State, idle: bool): State {
    GoTo(s, Triggering(idle)).(tr := s.tr.(started := s.tr.started + 1))
  }

  function DecideOn(s: State): State
    requires s.lo.at.Holding?
  {
    var e := s.lo.at.event;
    if Duplicate(e, s.lo.lastHistoryId) then GoTo(s, DrainTop)
    else
      var s' := Start(s, false);
      if e.historyId.None? then s'
      else s'.(lo := s'.lo.(lastHistoryId := e.historyId),
               tr := s'.tr.(triggered := s.tr.triggered + [e.historyId.value]))
  }

  function FinishTrigger(c: Config, s: State, ok: bool, jitter: real): State
    requires s.lo.at.Triggering?
  {
    var results := s.tr.results + [ok];
    if ok then s.(lo := s.lo.(failures := 0, at := AfterTrigger(s.lo.at.idle)), tr := s.tr.(results := results))
    else
      var k := s.lo.failures + 1;
      if k >= c.maxFailures then s.(lo := s.lo.(failures := k, at := Failing), tr := s.tr.(results := results))
      else
        var delay := NextDelay(k, c.baseDelay, c.maxDelay, JITTER_RATIO, jitter).GetOr(0.0);
        s.(lo := s.lo.(failures := k, at := Pausing(s.lo.at.idle)),
           tr := s.tr.(results := results, pauses := s.tr.pauses + [Pause(k, delay)]))
  }

  function Next(c: Config, s: State, step: Step): State
    requires Enabled(c, s, step)
  {
    match step
    case Accept(e) => Queue(c, s, e)
    case RaiseFlag => s.(sh := s.sh.(triggerFlag := true, setters := s.sh.setters - 1))
    case StopFromOutside => s.(sh := s.sh.(stopFlag := true), tr := s.tr.(externalStop := true))
    case RaiseFlagAtStop => s.(sh := s.sh.(triggerFlag := true))
    case CheckStop => GoTo(s, if s.sh.stopFlag then Halted else Waiting)
    case Wake => GoTo(s, DrainTop)
    case TimeOut(idleElapsed) => if idleElapsed then Start(s, true) else GoTo(s, Top)
    case CheckStopInside => GoTo(s, if s.sh.stopFlag then Top else Draining)
    case Dequeue => TakePending(s)
    case Decide => DecideOn(s)
    case Finish(ok, jitter) => FinishTrigger(c, s, ok, jitter)
    case EndPause =>
      GoTo(s, if !s.sh.stopFlag then AfterTrigger(s.lo.at.idle) else if s.lo.at.idle then Halted else Top)
    case SetFailed => GoTo(s, SettingStop).(sh := s.sh.(workerFailed := true))
    case SetStop => GoTo(s, Halted).(sh := s.sh.(stopFlag := true))
  }

  ghost predicate IsRun(c: Config, states: seq<State>, steps: seq<Step>) {
    && |states| == |steps| + 1
    && states[0] == INITIAL
    && forall i :: 0 <= i < |steps| ==> Enabled(c, states[i], steps[i]) && states[i + 1] == Next(c, states[i], steps[i])
  }

  /******* No lost wake-up, and no lost event *******/

  predicate WakeupKept(s: State) {
    s.sh.pending.Some? ==> s.sh.triggerFlag || s.sh.setters > 0
  }

  predicate Conserved(s: State) {
    s.tr.dequeued + s.sh.pendingCount == |s.tr.accepted| && (s.sh.pendingCount == 0 <==> s.sh.pending.None?)
  }

  /** The id is at most one that was triggered, is pending, or is in the worker's hand. */
  predicate Covered(s: State, id: int) {
    || (s.lo.lastHistoryId.Some? && id <= s.lo.lastHistoryId.value)
    || (s.sh.pending.Some? && s.sh.pending.value.historyId.Some? && id <= s.sh.pending.value.historyId.value)
    || (s.lo.at.Holding? && s.lo.at.event.historyId.Some? && id <= s.lo.at.event.historyId.value)
  }

  predicate AllCovered(s: State) {
    forall i :: 0 <= i < |s.tr.accepted| && s.tr.accepted[i].historyId.Some? ==>
      Covered(s, s.tr.accepted[i].historyId.value)
  }

  /** The pending event is one of the accepted ones. */
  predicate PendingAccepted(s: State) {
    s.sh.pending.Some? ==> s.sh.pending.value in s.tr.accepted
  }

  /** Queueing the event pushes out a pending id that nothing else covers: the event has no id, and the
      pending one has an id beyond the last triggered one and the one in the worker's hand. */
  predicate Displaces(s: State, e: PubSubEvent) {
    && e.historyId.None? && s.sh.pending.Some? && s.sh.pending.value.historyId.Some?
    && !Covered(s.(sh := s.sh.(pending := None)), s.sh.pending.value.historyId.value)
  }

  predicate DisplacesAt(states: seq<State>, steps: seq<Step>, i: nat)
    requires i < |steps| && |states| == |steps| + 1
  {
    steps[i].Accept? && Displaces(states[i], steps[i].event)
  }

  ghost predicate NoIdDisplaced(states: seq<State>, steps: seq<Step>, n: nat)
    requires n <= |steps| && |states| == |steps| + 1
  {
    forall i :: 0 <= i < n ==> !DisplacesAt(states, steps, i)
  }

  predicate Increasing(ids: seq<int>) {
    forall i, j :: 0 <= i < j < |ids| ==> ids[i] < ids[j]
  }

  predicate TriggersIncrease(s: State) {
    && Increasing(s.tr.triggered)
    && s.lo.lastHistoryId == if s.tr.triggered == [] then None else Some(s.tr.triggered[|s.tr.triggered| - 1])
  }

  /******* Failures *******/

  /** How many of the last results in a row are failures. */
  function TrailingFailures(results: seq<bool>): nat {
    if results == [] || results[|results| - 1] then 0 else 1 + TrailingFailures(results[..|results| - 1])
  }

  predicate FailuresCounted(c: Config, s: State) {
    && s.lo.failures == TrailingFailures(s.tr.results)
    && s.tr.started == |s.tr.results| + (if s.lo.at.Triggering? then 1 else 0)
    && (s.lo.failures >= c.maxFailures ==> s.lo.at.Failing? || s.lo.at.SettingStop? || s.lo.at.Halted?)
    && (s.lo.at.Failing? || s.lo.at.SettingStop? || s.sh.workerFailed ==> s.lo.failures == c.maxFailures)
    && (s.sh.workerFailed <==> s.lo.at.SettingStop? || (s.lo.at.Halted? && s.lo.failures >= c.maxFailures))
    && (!s.tr.externalStop && s.sh.stopFlag ==> s.lo.at.Halted?)
    && (!s.tr.externalStop && s.lo.at.Halted? ==> s.sh.workerFailed)
  }

  predicate PausesInBounds(c: Config, s: State) {
    forall i :: 0 <= i < |s.tr.pauses| ==>
      && s.tr.pauses[i].failures >= 1
      && var delay := CappedDelay(s.tr.pauses[i].failures, c.baseDelay, c.maxDelay);
         delay <= s.tr.pauses[i].seconds <= c.maxDelay && s.tr.pauses[i].seconds <= delay + delay * JITTER_RATIO
  }

  ghost predicate Inv(c: Config, s: State) {
    && WakeupKept(s) && Conserved(s) && PendingAccepted(s) && TriggersIncrease(s)
    && FailuresCounted(c, s) && PausesInBounds(c, s)
  }

  lemma StepKeepsEvents(c: Config, s: State, step: Step)
    requires WakeupKept(s) && Conserved(s) && PendingAccepted(s) && Enabled(c, s, step)
    ensures WakeupKept(Next(c, s, step)) && Conserved(Next(c, s, step)) && PendingAccepted(Next(c, s, step))
  {
    if step.Accept? {
      assert step.event in s.tr.accepted + [step.event];
    }
  }

  lemma StepKeepsTriggers(c: Config, s: State, step: Step)
    requires TriggersIncrease(s) && Enabled(c, s, step)
    ensures TriggersIncrease(Next(c, s, step))
  {
  }

  lemma StaysCovered(c: Config, s: State, step: Step, id: int)
    requires Enabled(c, s, step) && Covered(s, id) && (step.Accept? ==> !Displaces(s, step.event))
    ensures Covered(Next(c, s, step), id)
  {
  }

  lemma StepKeepsCovered(c: Config, s: State, step: Step)
    requires Enabled(c, s, step) && AllCovered(s) && (step.Accept? ==> !Displaces(s, step.event))
    ensures AllCovered(Next(c, s, step))
  {
    var s' := Next(c, s, step);
    forall i | 0 <= i < |s'.tr.accepted| && s'.tr.accepted[i].historyId.Some?
      ensures Covered(s', s'.tr.accepted[i].historyId.value)
    {
      if i < |s.tr.accepted| {
        assert s'.tr.accepted[i] == s.tr.accepted[i];
        StaysCovered(c, s, step, s.tr.accepted[i].historyId.value);
      }
    }
  }

  /** Queueing an event keeps every accepted id covered if and only if it displaces none. */
  lemma QueueKeepsCoveredIff(c: Config, s: State, e: PubSubEvent)
    requires AllCovered(s) && PendingAccepted(s)
    ensures AllCovered(Queue(c, s, e)) <==> !Displaces(s, e)
  {
    if Displaces(s, e) {
      var i :| 0 <= i < |s.tr.accepted| && s.tr.accepted[i] == s.sh.pending.value;
      assert Queue(c, s, e).tr.accepted[i] == s.sh.pending.value;
    } else {
      StepKeepsCovered(c, s, Accept(e));
    }
  }

  lemma FinishKeepsFailures(c: Config, s: State, ok: bool, jitter: real)
    requires ValidConfig(c) && FailuresCounted(c, s) && PausesInBounds(c, s) && Enabled(c, s, Finish(ok, jitter))
    ensures var s' := FinishTrigger(c, s, ok, jitter);
            FailuresCounted(c, s') && PausesInBounds(c, s')
  {
    assert (s.tr.results + [ok])[..|s.tr.results|] == s.tr.results;
    if !ok {
      DelayInBounds(s.lo.failures + 1, c.baseDelay, c.maxDelay, JITTER_RATIO, jitter);
    }
  }

  lemma StepKeepsFailures(c: Config, s: State, step: Step)
    requires ValidConfig(c) && FailuresCounted(c, s) && PausesInBounds(c, s) && Enabled(c, s, step)
    ensures FailuresCounted(c, Next(c, s, step)) && PausesInBounds(c, Next(c, s, step))
  {
    if step.Finish? {
      FinishKeepsFailures(c, s, step.ok, step.jitter);
    }
  }

  lemma StepKeepsInv(c: Config, s: State, step: Step)
    requires ValidConfig(c) && Inv(c, s) && Enabled(c, s, step)
    ensures Inv(c, Next(c, s, step))
  {
    StepKeepsEvents(c, s, step);
    StepKeepsTriggers(c, s, step);
    StepKeepsFailures(c, s, step);
  }

  lemma {:induction false} RunKeepsInv(c: Config, states: seq<State>, steps: seq<Step>, i: nat)
    requires ValidConfig(c) && IsRun(c, states, steps) && i < |states|
    ensures Inv(c, states[i])
  {
    if i > 0 {
      RunKeepsInv(c, states, steps, i - 1);
      StepKeepsInv(c, states[i - 1], steps[i - 1]);
    }
  }

  /******* What every run keeps *******/

  lemma {:induction false} RunKeepsCovered(c: Config, states: seq<State>, steps: seq<Step>, i: nat)
    requires IsRun(c, states, steps) && i < |states| && NoIdDisplaced(states, steps, i)
    ensures AllCovered(states[i])
  {
    if i > 0 {
      RunKeepsCovered(c, states, steps, i - 1);
      assert !DisplacesAt(states, steps, i - 1);
      StepKeepsCovered(c, states[i - 1], steps[i - 1]);
    }
  }

  /** In every reachable state: a pending event has its wake-up, no event is lost or counted twice, the
      ids of message triggers strictly increase, and, when no id was displaced and nothing is pending or in
      the worker's hand, the last triggered id is at least every accepted one. */
  lemma NoEventIsLost(c: Config, states: seq<State>, steps: seq<Step>, i: nat)
    requires ValidConfig(c) && IsRun(c, states, steps) && i < |states|
    ensures var s := states[i];
            && (s.sh.pending.Some? ==> s.sh.triggerFlag || s.sh.setters > 0)
            && s.tr.dequeued + s.sh.pendingCount == |s.tr.accepted|
            && Increasing(s.tr.triggered)
            && (NoIdDisplaced(states, steps, i) && s.sh.pending.None? && !s.lo.at.Holding? ==> AllTriggered(s))
  {
    RunKeepsInv(c, states, steps, i);
    var s := states[i];
    if NoIdDisplaced(states, steps, i) && s.sh.pending.None? && !s.lo.at.Holding? {
      RunKeepsCovered(c, states, steps, i);
      AtRestAllTriggered(s);
    }
  }

  /** The last triggered id is at least every accepted one. */
  predicate AllTriggered(s: State) {
    forall j :: 0 <= j < |s.tr.accepted| && s.tr.accepted[j].historyId.Some? ==>
      s.tr.triggered != [] && s.tr.accepted[j].historyId.value <= s.tr.triggered[|s.tr.triggered| - 1]
  }

  lemma AtRestAllTriggered(s: State)
    requires AllCovered(s) && TriggersIncrease(s) && s.sh.pending.None? && !s.lo.at.Holding?
    ensures AllTriggered(s)
  {
    forall j | 0 <= j < |s.tr.accepted| && s.tr.accepted[j].historyId.Some?
      ensures s.tr.triggered != [] && s.tr.accepted[j].historyId.value <= s.tr.triggered[|s.tr.triggered| - 1]
    {
      assert Covered(s, s.tr.accepted[j].historyId.value);
    }
  }

  /** A displaced id can be lost: an event with an id, then one without before the worker wakes up, and no
      trigger is ever started for the id. */
  lemma DisplacedIdIsLost(c: Config, id: int) returns (states: seq<State>, steps: seq<Step>)
    ensures |steps| > 1 && IsRun(c, states, steps) && DisplacesAt(states, steps, 1)
    ensures var s := states[|steps|];
            && s.sh.pending.None? && !s.lo.at.Holding? && s.tr.started == 1
            && PubSubEvent("a", Some(id)) in s.tr.accepted && !AllTriggered(s)
  {
    steps := [Accept(PubSubEvent("a", Some(id))), Accept(PubSubEvent("b", None)), RaiseFlag, CheckStop, Wake,
              CheckStopInside, Dequeue, Decide];
    var s1 := Next(c, INITIAL, steps[0]);
    var s2 := Next(c, s1, steps[1]);
    var s3 := Next(c, s2, steps[2]);
    var s4 := Next(c, s3, steps[3]);
    var s5 := Next(c, s4, steps[4]);
    var s6 := Next(c, s5, steps[5]);
    var s7 := Next(c, s6, steps[6]);
    var s8 := Next(c, s7, steps[7]);
    states := [INITIAL, s1, s2, s3, s4, s5, s6, s7, s8];
    assert s8.tr.accepted[0] == PubSubEvent("a", Some(id));
  }

  predicate AtMost(id: int, e: PubSubEvent) {
    e.historyId.Some? && id <= e.historyId.value
  }

  /** Why ids are needed: when an event is queued behind a pending one, every id that either of them
      covers stays covered if and only if it is not an event without an id behind one with an id. */
  lemma MergeKeepsIdsIff(p: PubSubEvent, e: PubSubEvent)
    ensures (forall id :: AtMost(id, p) || AtMost(id, e) ==> AtMost(id, Merged(Some(p), e)))
       <==> !(e.historyId.None? && p.historyId.Some?)
  {
    if e.historyId.None? && p.historyId.Some? {
      assert AtMost(p.historyId.value, p) && !AtMost(p.historyId.value, Merged(Some(p), e));
    }
  }

  /** Barring a stop from outside, the worker halts exactly when the last `maxFailures` started triggers,
      idle and message ones together, all failed: once they did it is on its way out, and it is not gone
      before. Each pause lies between the capped exponential delay of its failure and the maximum. */
  lemma HaltsExactlyOnFailures(c: Config, states: seq<State>, steps: seq<Step>, i: nat)
    requires ValidConfig(c) && IsRun(c, states, steps) && i < |states|
    ensures var s := states[i];
            && (TrailingFailures(s.tr.results) >= c.maxFailures ==>
                  TrailingFailures(s.tr.results) == c.maxFailures && s.tr.started == |s.tr.results|
                  && (s.lo.at.Failing? || s.lo.at.SettingStop? || s.lo.at.Halted?))
            && (!s.tr.externalStop ==>
                  (s.lo.at.Failing? || s.lo.at.SettingStop? || s.lo.at.Halted?
                   <==> TrailingFailures(s.tr.results) >= c.maxFailures))
            && (!s.tr.externalStop && s.lo.at.Halted? ==> s.sh.workerFailed && s.sh.stopFlag)
            && (forall j :: 0 <= j < |s.tr.pauses| ==>
                  s.tr.pauses[j].failures >= 1
                  && var delay := CappedDelay(s.tr.pauses[j].failures, c.baseDelay, c.maxDelay);
                     delay <= s.tr.pauses[j].seconds <= c.maxDelay
                     && s.tr.pauses[j].seconds <= delay + delay * JITTER_RATIO)
  {
    RunKeepsInv(c, states, steps, i);
    HaltedHasStop(c, states, steps, i);
  }

  lemma {:induction false} HaltedHasStop(c: Config, states: seq<State>, steps: seq<Step>, i: nat)
    requires ValidConfig(c) && IsRun(c, states, steps) && i < |states|
    ensures states[i].lo.at.Halted? ==> states[i].sh.stopFlag
    ensures states[i].lo.failures <= c.maxFailures
  {
    if i > 0 {
      HaltedHasStop(c, states, steps, i - 1);
      RunKeepsInv(c, states, steps, i - 1);
    }
  }

  /** The failures that are followed by a pause: each but those that make the worker give up. */
  function PausesDue(c: Config, results: seq<bool>): seq<nat> {
    if results == [] then []
    else PausesDue(c, results[..|results| - 1])
         + (if 0 < TrailingFailures(results) < c.maxFailures then [TrailingFailures(results)] else [])
  }

  predicate PausesTaken(c: Config, s: State) {
    && |s.tr.pauses| == |PausesDue(c, s.tr.results)|
    && forall i :: 0 <= i < |s.tr.pauses| ==> s.tr.pauses[i].failures == PausesDue(c, s.tr.results)[i]
  }

  lemma FinishTakesPause(c: Config, s: State, ok: bool, jitter: real)
    requires ValidConfig(c) && FailuresCounted(c, s) && PausesInBounds(c, s) && Enabled(c, s, Finish(ok, jitter))
    requires PausesTaken(c, s)
    ensures PausesTaken(c, FinishTrigger(c, s, ok, jitter))
  {
    assert (s.tr.results + [ok])[..|s.tr.results|] == s.tr.results;
    FinishKeepsFailures(c, s, ok, jitter);
  }

  /** Exactly the failures that do not make the worker give up are followed by a pause each, in order. */
  lemma {:induction false} EveryFailurePauses(c: Config, states: seq<State>, steps: seq<Step>, i: nat)
    requires ValidConfig(c) && IsRun(c, states, steps) && i < |states|
    ensures PausesTaken(c, states[i])
  {
    if i > 0 {
      EveryFailurePauses(c, states, steps, i - 1);
      RunKeepsInv(c, states, steps, i - 1);
      if steps[i - 1].Finish? {
        FinishTakesPause(c, states[i - 1], steps[i - 1].ok, steps[i - 1].jitter);
      }
    }
  }

  /** The warning about a backlog stands exactly while enough events are pending. */
  lemma {:induction false} BacklogWarnedIff(c: Config, states: seq<State>, steps: seq<Step>, i: nat)
    requires ValidConfig(c) && IsRun(c, states, steps) && i < |states|
    ensures states[i].sh.backlogWarned <==> states[i].sh.pendingCount >= c.warnThreshold
  {
    if i > 0 {
      BacklogWarnedIff(c, states, steps, i - 1);
    }
  }

  /******* When a trigger starts *******/

  /** A trigger was already started for the event's id or a later one. */
  predicate AlreadyTriggered(t: Trace, e: PubSubEvent) {
    e.historyId.Some? && exists i :: 0 <= i < |t.triggered| && e.historyId.value <= t.triggered[i]
  }

  /** The step starts a trigger: enough idle time has passed, or the event in hand brings something new. */
  predicate StartsTrigger(s: State, step: Step) {
    step == TimeOut(true) || (step.Decide? && s.lo.at.Holding? && !AlreadyTriggered(s.tr, s.lo.at.event))
  }

  lemma DuplicateIff(s: State, e: PubSubEvent)
    requires TriggersIncrease(s)
    ensures Duplicate(e, s.lo.lastHistoryId) <==> AlreadyTriggered(s.tr, e)
  {
    var ids := s.tr.triggered;
    if ids != [] && e.historyId.Some? {
      assert forall i :: 0 <= i < |ids| ==> ids[i] <= ids[|ids| - 1];
    }
  }

  /** In every run a step starts a trigger, and only one, exactly when idle time has passed or the event in
      hand has no id or one beyond all that were triggered; then its id, if any, joins those. */
  lemma TriggerStartsIff(c: Config, states: seq<State>, steps: seq<Step>, i: nat)
    requires ValidConfig(c) && IsRun(c, states, steps) && i < |steps|
    ensures var t, t' := states[i].tr, states[i + 1].tr;
            && t'.started == t.started + (if StartsTrigger(states[i], steps[i]) then 1 else 0)
            && t'.triggered == t.triggered
                 + (if steps[i].Decide? && StartsTrigger(states[i], steps[i]) && states[i].lo.at.event.historyId.Some?
                    then [states[i].lo.at.event.historyId.value] else [])
  {
    RunKeepsInv(c, states, steps, i);
    if steps[i].Decide? {
      DuplicateIff(states[i], states[i].lo.at.event);
    }
  }

  predicate OnTheWayOut(w: Worker) {
    w.Failing? || w.SettingStop? || w.Halted?
  }

  /** Once the worker is on its way out it starts no trigger any more. */
  lemma {:induction false} NoTriggerAfterwards(c: Config, states: seq<State>, steps: seq<Step>, i: nat, j: nat)
    requires IsRun(c, states, steps) && i <= j < |states| && OnTheWayOut(states[i].lo.at)
    ensures OnTheWayOut(states[j].lo.at)
    ensures states[j].tr.started == states[i].tr.started && states[j].tr.results == states[i].tr.results
    ensures states[j].tr.triggered == states[i].tr.triggered
    decreases j
  {
    if i < j {
      NoTriggerAfterwards(c, states, steps, i, j - 1);
      assert states[j] == Next(c, states[j - 1], steps[j - 1]);
    }
  }

  /******* A wake-up is answered *******/

  /** The step the worker takes when it is left alone, its triggers succeed and no idle time has passed. */
  function WorkerStep(s: State): Step
    requires !OnTheWayOut(s.lo.at)
  {
    match s.lo.at
    case Top => CheckStop
    case Waiting => if s.sh.triggerFlag then Wake else TimeOut(false)
    case DrainTop => CheckStopInside
    case Draining => Dequeue
    case Holding(_) => Decide
    case Triggering(_) => Finish(true, 0.0)
    case _ => EndPause
  }

  function LeftAlone(c: Config, s: State, n: nat): State
    decreases n
  {
    if n == 0 || OnTheWayOut(s.lo.at) then s else LeftAlone(c, Next(c, s, WorkerStep(s)), n - 1)
  }

  /** How many steps the worker is away from dequeuing what is pending. */
  function StepsToDequeue(w: Worker): nat {
    match w
    case Holding(_) => 8
    case Triggering(idle) => 7
    case Pausing(idle) => 7
    case Top => 5
    case Waiting => 4
    case DrainTop => 3
    case Draining => 2
    case _ => 0
  }

  /** From any state without a stop, with the callbacks done and an event pending, a worker that is left
      alone has exactly that event in its hand in fewer than eight steps. */
  lemma {:induction false} PendingIsTaken(c: Config, s: State) returns (n: nat)
    requires WakeupKept(s) && s.sh.setters == 0 && s.sh.pending.Some? && !s.sh.stopFlag && !OnTheWayOut(s.lo.at)
    ensures n < StepsToDequeue(s.lo.at) <= 8
    ensures LeftAlone(c, s, n).lo.at == Holding(s.sh.pending.value) && LeftAlone(c, s, n).sh.pending.None?
    ensures LeftAlone(c, s, n).tr.dequeued == s.tr.dequeued + s.sh.pendingCount
    decreases StepsToDequeue(s.lo.at)
  {
    var s' := Next(c, s, WorkerStep(s));
    if s.lo.at.Draining? {
      n := 1;
      assert LeftAlone(c, s', 0) == s';
    } else {
      n := PendingIsTaken(c, s');
      n := n + 1;
    }
  }

  lemma {:induction false} LeftAloneOnce(c: Config, s: State, n: nat)
    requires !OnTheWayOut(LeftAlone(c, s, n).lo.at)
    ensures LeftAlone(c, s, n + 1) == Next(c, LeftAlone(c, s, n), WorkerStep(LeftAlone(c, s, n)))
    decreases n
  {
    if n > 0 && !OnTheWayOut(s.lo.at) {
      LeftAloneOnce(c, Next(c, s, WorkerStep(s)), n - 1);
    } else if n == 0 {
      assert LeftAlone(c, Next(c, s, WorkerStep(s)), 0) == Next(c, s, WorkerStep(s));
    }
  }

  lemma {:induction false} LeftAloneIncreases(c: Config, s: State, n: nat)
    requires TriggersIncrease(s)
    ensures TriggersIncrease(LeftAlone(c, s, n))
    decreases n
  {
    if n > 0 && !OnTheWayOut(s.lo.at) {
      StepKeepsTriggers(c, s, WorkerStep(s));
      LeftAloneIncreases(c, Next(c, s, WorkerStep(s)), n - 1);
    }
  }

  /** So a pending event ends in a trigger of its own, unless one was already started for its id or a later
      one. */
  lemma PendingIsAnswered(c: Config, s: State) returns (n: nat)
    requires WakeupKept(s) && s.sh.setters == 0 && s.sh.pending.Some? && !s.sh.stopFlag && !OnTheWayOut(s.lo.at)
    requires TriggersIncrease(s)
    ensures n < StepsToDequeue(s.lo.at) && LeftAlone(c, s, n).lo.at == Holding(s.sh.pending.value)
    ensures var t, t' := LeftAlone(c, s, n).tr, LeftAlone(c, s, n + 1).tr;
            && t'.started == t.started + (if AlreadyTriggered(t, s.sh.pending.value) then 0 else 1)
            && (!AlreadyTriggered(t, s.sh.pending.value) ==> LeftAlone(c, s, n + 1).lo.at == Triggering(false))
  {
    n := PendingIsTaken(c, s);
    LeftAloneOnce(c, s, n);
    LeftAloneIncreases(c, s, n);
    DuplicateIff(LeftAlone(c, s, n), s.sh.pending.value);
  }

  /** And with nothing pending, a worker that is left alone is soon back waiting with the flag down, having
      started no more than the trigger for an event in its hand. */
  lemma {:induction false} QuietWorkerSleeps(c: Config, s: State) returns (n: nat)
    requires s.sh.setters == 0 && s.sh.pending.None? && !s.sh.stopFlag && !OnTheWayOut(s.lo.at)
    ensures n < StepsToSleep(s) <= 8
    ensures LeftAlone(c, s, n).lo.at.Waiting? && !LeftAlone(c, s, n).sh.triggerFlag
    ensures LeftAlone(c, s, n).tr.started <= s.tr.started + (if s.lo.at.Holding? then 1 else 0)
    decreases StepsToSleep(s)
  {
    if s.lo.at.Waiting? && !s.sh.triggerFlag {
      n := 0;
    } else {
      n := QuietWorkerSleeps(c, Next(c, s, WorkerStep(s)));
      n := n + 1;
    }
  }

  /** One more than the steps until the worker waits with the flag down, when nothing is pending. */
  function StepsToSleep(s: State): nat {
    match s.lo.at
    case Holding(_) => 7
    case Triggering(idle) => if idle then 7 else 6
    case Pausing(idle) => if idle then 7 else 6
    case Top => if s.sh.triggerFlag then 6 else 2
    case Waiting => if s.sh.triggerFlag then 5 else 1
    case DrainTop => 4
    case Draining => 3
    case _ => 0
  }

  /******* A stop is answered *******/

  /** How many steps the worker is away from being gone, once it is told to stop. */
  function StepsToHalt(w: Worker): nat {
    match w
    case Draining => 6
    case Holding(_) => 5
    case Triggering(_) => 4
    case Waiting => 3
    case DrainTop => 2
    case Pausing(_) => 2
    case Top => 1
    case _ => 0
  }

  /** From any state with the stop flag set, a worker that is left alone is gone within six steps, and on the
      way starts no more than the one trigger for an event that it has in its hand or takes. */
  lemma {:induction false} StopIsAnswered(c: Config, s: State) returns (n: nat)
    requires s.sh.stopFlag && !OnTheWayOut(s.lo.at)
    ensures n <= StepsToHalt(s.lo.at) <= 6 && LeftAlone(c, s, n).lo.at.Halted?
    ensures LeftAlone(c, s, n).tr.started
         <= s.tr.started + (if s.lo.at.Draining? || s.lo.at.Holding? then 1 else 0)
    decreases StepsToHalt(s.lo.at)
  {
    var s' := Next(c, s, WorkerStep(s));
    if s'.lo.at.Halted? {
      n := 1;
      assert LeftAlone(c, s', 0) == s';
    } else {
      n := StopIsAnswered(c, s');
      n := n + 1;
    }
  }

  /******* The runner *******/

  class StreamingPullRunner {
    const config: Config
    var pendingEvent: Option<PubSubEvent>
    var pendingCount: nat
    var backlogWarned: bool
    var triggerEvent: bool
    var stopEvent: bool
    var workerFailed: bool
    var setters: nat
    var worker: Worker
    var lastHistoryId: Option<int>
    var consecutiveFailures: nat
    ghost var trace: Trace

    constructor (config: Config)
      ensures this.config == config && View() == INITIAL
    {
      this.config := config;
      pendingEvent, pendingCount, backlogWarned := None, 0, false;
      triggerEvent, stopEvent, workerFailed, setters := false, false, false, 0;
      worker, lastHistoryId, consecutiveFailures := Top, None, 0;
      trace := INITIAL.tr;
    }

    ghost function View(): State
      reads this
    {
      State(Shared(pendingEvent, pendingCount, backlogWarned, triggerEvent, stopEvent, workerFailed, setters),
            Local(worker, lastHistoryId, consecutiveFailures), trace)
    }

    /** The lock region of a callback; it returns what the callback logs. */
    method QueueUnderLock(e: PubSubEvent) returns (collapsed: nat, selected: Option<int>)
      modifies this
      ensures View() == Next(config, old(View()), Accept(e))
      ensures collapsed == old(pendingCount) + 1 && selected == pendingEvent.value.historyId
    {
      trace := trace.(accepted := trace.accepted + [e]);
      setters := setters + 1;
      pendingCount := pendingCount + 1;
      if pendingEvent.None? {
        pendingEvent := Some(e);
      } else if e.historyId.None? || pendingEvent.value.historyId.None? {
        pendingEvent := Some(e);
      } else if e.historyId.value >= pendingEvent.value.historyId.value {
        pendingEvent := Some(e);
      }
      if pendingCount >= config.warnThreshold && !backlogWarned {
        backlogWarned := true;
      }
      return pendingCount, pendingEvent.value.historyId;
    }

    /** The flag that a callback sets after its lock region. */
    method SetTriggerEvent()
      requires setters > 0
      modifies this
      ensures View() == Next(config, old(View()), RaiseFlag)
    {
      triggerEvent, setters := true, setters - 1;
    }

    /** The lock region of the worker: the pending events are taken and the flag is cleared with them. */
    method DequeueEvent() returns (latest: Option<PubSubEvent>, collapsed: nat)
      requires worker.Draining?
      modifies this
      ensures View() == Next(config, old(View()), Dequeue)
      ensures latest == old(pendingEvent) && collapsed == old(pendingCount)
    {
      latest, collapsed := pendingEvent, pendingCount;
      trace := trace.(dequeued := trace.dequeued + collapsed);
      pendingEvent, pendingCount, backlogWarned, triggerEvent := None, 0, false, false;
      worker := if latest.Some? then Holding(latest.value) else Top;
    }

    /** The worker skips an event whose id is not beyond the last one, or starts a trigger for it. */
    method DecideTrigger()
      requires worker.Holding?
      modifies this
      ensures View() == Next(config, old(View()), Decide)
    {
      var latest := worker.event;
      if latest.historyId.Some? && lastHistoryId.Some? && latest.historyId.value <= lastHistoryId.value {
        worker := DrainTop;
        return;
      }
      if latest.historyId.Some? {
        lastHistoryId := latest.historyId;
        trace := trace.(triggered := trace.triggered + [latest.historyId.value]);
      }
      worker := Triggering(false);
      trace := trace.(started := trace.started + 1);
    }

    /** What follows a trigger: the count starts again, or the worker pauses, or it gives up. */
    method FinishTrigger(ok: bool, jitter: real)
      requires worker.Triggering?
      requires ok || JitterInRange(consecutiveFailures + 1, config.baseDelay, config.maxDelay, JITTER_RATIO, jitter)
      modifies this
      ensures View() == Next(config, old(View()), Finish(ok, jitter))
    {
      var idle := worker.idle;
      trace := trace.(results := trace.results + [ok]);
      if ok {
        consecutiveFailures, worker := 0, AfterTrigger(idle);
        return;
      }
      consecutiveFailures := consecutiveFailures + 1;
      if consecutiveFailures >= config.maxFailures {
        worker := Failing;
        return;
      }
      var delay := NextDelay(consecutiveFailures, config.baseDelay, config.maxDelay, JITTER_RATIO, jitter).GetOr(0.0);
      trace := trace.(pauses := trace.pauses + [Pause(consecutiveFailures, delay)]);
      worker := Pausing(idle);
    }

    method Perform(step: Step)
      requires Enabled(config, View(), step)
      modifies this
      ensures View() == Next(config, old(View()), step)
    {
      match step
      case Accept(e) => var _, _ := QueueUnderLock(e);
      case RaiseFlag => SetTriggerEvent();
      case StopFromOutside =>
        stopEvent := true;
        trace := trace.(externalStop := true);
      case RaiseFlagAtStop => triggerEvent := true;
      case CheckStop => worker := if stopEvent then Halted else Waiting;
      case Wake => worker := DrainTop;
      case TimeOut(idleElapsed) =>
        worker := if idleElapsed then Triggering(true) else Top;
        trace := if idleElapsed then trace.(started := trace.started + 1) else trace;
      case CheckStopInside => worker := if stopEvent then Top else Draining;
      case Dequeue => var _, _ := DequeueEvent();
      case Decide => DecideTrigger();
      case Finish(ok, jitter) => FinishTrigger(ok, jitter);
      case EndPause => worker := if !stopEvent then AfterTrigger(worker.idle) else if worker.idle then Halted else Top;
      case SetFailed => workerFailed, worker := true, SettingStop;
      case SetStop => stopEvent, worker := true, Halted;
    }

    /** Any interleaving of callbacks, stops and worker steps keeps every invariant of the protocol. */
    method Execute(ghost states: seq<State>, steps: seq<Step>)
      requires ValidConfig(config) && View() == INITIAL && IsRun(config, states, steps)
      modifies this
      ensures View() == states[|steps|] && Inv(config, View())
    {
      var i := 0;
      while i < |steps|
        invariant 0 <= i <= |steps| && View() == states[i]
      {
        Perform(steps[i]);
        i := i + 1;
      }
      RunKeepsInv(config, states, steps, |steps|);
    }
  }
}
