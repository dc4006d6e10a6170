/** The incident machine: what a run's result does to the stored incident, kept beside the event log that
    independent checks read. */
module Incidents {
  import opened Wrappers
  import opened Records

  datatype Active = Active(kind: FailureKind, suppressed: nat)

  /** A handled run: its result, whether alerts can be sent at all, how the send ends, and where a write
      fails, if one does. */
  datatype Fault = NoFault | StateWriteFails | EventAppendFails
  datatype Handling = Handling(
    failure: Option<FailureKind>,
    shouldAlert: bool,
    hasWebhook: bool,
    dryRun: bool,
    sendOk: bool,
    fault: Fault)

  datatype Incident = Incident(active: Option<Active>, log: seq<Event>)

  /******* Handling a result *******/

  function IncidentEvent(name: EventName, kind: FailureKind): Event {
    Event(name, Null, Str(FailureText(kind)), Null)
  }

  predicate Opening(i: Incident, h: Handling) {
    h.failure.Some? && h.shouldAlert && !h.dryRun && h.hasWebhook
    && !(i.active.Some? && i.active.value.kind == h.failure.value) && h.sendOk && !h.fault.StateWriteFails?
  }

  /** The state is saved first and the event appended after it. */
  function Written(i: Incident, active: Option<Active>, e: Event, fault: Fault): Incident {
    match fault
    case StateWriteFails => i
    case EventAppendFails => i.(active := active)
    case NoFault => Incident(active, i.log + [e])
  }

  function Handled(i: Incident, h: Handling): Incident {
    if h.dryRun || !h.hasWebhook then i
    else if h.failure.Some? then
      var kind := h.failure.value;
      if !h.shouldAlert then i
      else if i.active.Some? && i.active.value.kind == kind
      then Written(i, Some(Active(kind, i.active.value.suppressed + 1)), IncidentEvent(IncidentSuppressed, kind),
                   h.fault)
      else if h.sendOk then Written(i, Some(Active(kind, 0)), IncidentEvent(IncidentOpened, kind), h.fault)
      else i
    else if i.active.Some? && h.sendOk
    then Written(i, None, IncidentEvent(IncidentRecovered, i.active.value.kind), h.fault)
    else i
  }

  /** Handling a result appends to the event log, and never a checkpoint: the frontier stays where it is. */
  lemma HandlingKeepsFrontier(i: Incident, h: Handling)
    ensures i.log <= Handled(i, h).log && !HasCheckpoint(Handled(i, h).log[|i.log|..])
    ensures Frontier(Handled(i, h).log) == Frontier(i.log)
  {
    var logged := Handled(i, h).log[|i.log|..];
    assert Handled(i, h).log == i.log + logged;
    FrontierConcat(i.log, logged);
  }

  class IncidentStateStore {
    var activeKind: Option<FailureKind>
    var suppressedCount: nat
    var events: seq<Event>

    constructor ()
      ensures View() == Incident(None, [])
    {
      activeKind, suppressedCount, events := None, 0, [];
    }

    ghost function View(): Incident
      reads this
    {
      Incident(if activeKind.Some? then Some(Active(activeKind.value, suppressedCount)) else None, events)
    }

    method SuppressIncident(kind: FailureKind, fault: Fault)
      modifies this
      ensures fault.StateWriteFails? ==> unchanged(this)
      ensures !fault.StateWriteFails? ==> activeKind == old(activeKind) && suppressedCount == old(suppressedCount) + 1
      ensures events == if fault.NoFault? then old(events) + [IncidentEvent(IncidentSuppressed, kind)] else old(events)
    {
      if fault.StateWriteFails? {
        return;
      }
      suppressedCount := suppressedCount + 1;
      if fault.NoFault? {
        events := events + [IncidentEvent(IncidentSuppressed, kind)];
      }
    }

    method OpenIncident(kind: FailureKind, fault: Fault)
      modifies this
      ensures View() == Written(old(View()), Some(Active(kind, 0)), IncidentEvent(IncidentOpened, kind), fault)
    {
      if fault.StateWriteFails? {
        return;
      }
      activeKind, suppressedCount := Some(kind), 0;
      if fault.NoFault? {
        events := events + [IncidentEvent(IncidentOpened, kind)];
      }
    }

    method RecoverIncident(fault: Fault)
      modifies this
      ensures activeKind == if fault.StateWriteFails? then old(activeKind) else None
      ensures fault.StateWriteFails? || old(activeKind).None? ==> unchanged(this)
      ensures events == if fault.NoFault? && old(activeKind).Some?
                        then old(events) + [IncidentEvent(IncidentRecovered, old(activeKind).value)] else old(events)
    {
      if activeKind.None? || fault.StateWriteFails? {
        return;
      }
      var kind := activeKind.value;
      activeKind, suppressedCount := None, 0;
      if fault.NoFault? {
        events := events + [IncidentEvent(IncidentRecovered, kind)];
      }
    }

    /** `_handle_incident_lifecycle`: repeats are suppressed without a send; opening and recovering follow
        only a send that succeeded. */
    method HandleIncidentLifecycle(h: Handling)
      modifies this
      ensures View() == Handled(old(View()), h)
    {
      if h.failure.Some? && h.shouldAlert && !h.dryRun && h.hasWebhook {
        var kind := h.failure.value;
        if activeKind == Some(kind) {
          SuppressIncident(kind, h.fault);
          return;
        }
        if h.sendOk {
          OpenIncident(kind, h.fault);
        }
        return;
      }
      if h.failure.None? && activeKind.Some? && !h.dryRun && h.hasWebhook {
        if h.sendOk {
          RecoverIncident(h.fault);
        }
      }
    }
  }

  /******* The checks *******/

  predicate IsIncidentEvent(e: Event) {
    e.name.IncidentOpened? || e.name.IncidentSuppressed? || e.name.IncidentRecovered?
  }

  function KindOf(e: Event): Option<string> {
    if e.kind.Str? && e.kind.s != "" then Some(e.kind.s) else None
  }

  predicate Mismatch(kind: Option<string>, active: string) {
    kind.Some? && kind.value != active
  }

  /** The lifecycle checker after some rows: violated, or with the kind it takes for active. */
  datatype Lifecycle = Violated | Tracking(active: Option<string>)

  function CheckRow(l: Lifecycle, e: Event): Lifecycle {
    if l.Violated? || !IsIncidentEvent(e) then l
    else if e.name.IncidentOpened? then (if l.active.Some? then Violated else Tracking(KindOf(e)))
    else if l.active.None? || Mismatch(KindOf(e), l.active.value) then Violated
    else if e.name.IncidentRecovered? then Tracking(None)
    else l
  }

  function CheckRows(rows: seq<Event>): Lifecycle {
    if rows == [] then Tracking(None) else CheckRow(CheckRows(rows[..|rows| - 1]), rows[|rows| - 1])
  }

  lemma {:induction false} ViolationLasts(rows: seq<Event>, n: nat)
    requires n <= |rows| && CheckRows(rows[..n]).Violated?
    ensures CheckRows(rows).Violated?
  {
    if n == |rows| {
      assert rows[..n] == rows;
    } else {
      assert rows[..|rows| - 1][..n] == rows[..n];
      ViolationLasts(rows[..|rows| - 1], n);
    }
  }

  /** The last event that opened or recovered an incident. */
  function LastTurn(rows: seq<Event>): Option<Event> {
    if rows == [] then None
    else
      var last := rows[|rows| - 1];
      if last.name.IncidentOpened? || last.name.IncidentRecovered? then Some(last) else LastTurn(rows[..|rows| - 1])
  }

  /** The kind of the incident that the rows leave open; one without a kind counts as none. */
  function OpenKind(rows: seq<Event>): Option<string> {
    var turn := LastTurn(rows);
    if turn.Some? && turn.value.name.IncidentOpened? then KindOf(turn.value) else None
  }

  /** The event is one that may follow the rows before it: an opening while nothing is open, and a
      suppression or a recovery while an incident of its kind is. */
  predicate Fits(before: seq<Event>, e: Event) {
    && (e.name.IncidentOpened? ==> OpenKind(before).None?)
    && (e.name.IncidentSuppressed? || e.name.IncidentRecovered? ==>
          OpenKind(before).Some? && (KindOf(e).None? || KindOf(e) == OpenKind(before)))
  }

  predicate FitsAt(rows: seq<Event>, n: nat)
    requires n < |rows|
  {
    Fits(rows[..n], rows[n])
  }

  /** The lifecycle checker accepts any rows if and only if each of them fits the ones before it, and then it
      tracks the incident they leave open. */
  lemma {:induction false} CheckerAcceptsIff(rows: seq<Event>)
    ensures CheckRows(rows).Tracking? <==> forall n :: 0 <= n < |rows| ==> FitsAt(rows, n)
    ensures CheckRows(rows).Tracking? ==> CheckRows(rows).active == OpenKind(rows)
  {
    if rows != [] {
      var before, last := rows[..|rows| - 1], |rows| - 1;
      CheckerAcceptsIff(before);
      forall n | 0 <= n < last ensures FitsAt(rows, n) <==> FitsAt(before, n) {
        assert rows[..n] == before[..n];
      }
      assert FitsAt(rows, last) <==> Fits(before, rows[last]);
      if CheckRows(rows).Violated? && CheckRows(before).Violated? {
        var n :| 0 <= n < |before| && !FitsAt(before, n);
        assert !FitsAt(rows, n);
      }
    }
  }

  method CheckIncidentEventLifecycle(rows: seq<Event>) returns (ok: bool)
    ensures ok <==> CheckRows(rows).Tracking?
  {
    var active: Option<string> := None;
    for i := 0 to |rows|
      invariant CheckRows(rows[..i]) == Tracking(active)
    {
      var row := rows[i];
      assert rows[..i + 1][..i] == rows[..i];
      if !IsIncidentEvent(row) {
        continue;
      }
      var kind := KindOf(row);
      var wrong := if row.name.IncidentOpened? then active.Some? else active.None? || Mismatch(kind, active.value);
      if wrong {
        ViolationLasts(rows, i + 1);
        return false;
      }
      if row.name.IncidentOpened? {
        active := kind;
      } else if row.name.IncidentRecovered? {
        active := None;
      }
    }
    assert rows[..|rows|] == rows;
    return true;
  }

  function LastIncidentEvent(rows: seq<Event>): Option<Event> {
    if rows == [] then None
    else if IsIncidentEvent(rows[|rows| - 1]) then Some(rows[|rows| - 1])
    else LastIncidentEvent(rows[..|rows| - 1])
  }

  /** `check_incident_consistency` on files that can be read. */
  predicate StateMatchesEvents(active: Option<Active>, rows: seq<Event>) {
    var last := LastIncidentEvent(rows);
    if active.None? then last.None? || last.value.name.IncidentRecovered?
    else
      last.None?
      || (!last.value.name.IncidentRecovered?
          && !Mismatch(KindOf(last.value), FailureText(active.value.kind)))
  }

  /** How often the incident was suppressed since it was last opened. */
  function SuppressedSinceOpen(rows: seq<Event>): nat {
    if rows == [] || rows[|rows| - 1].name.IncidentOpened? then 0
    else SuppressedSinceOpen(rows[..|rows| - 1]) + (if rows[|rows| - 1].name.IncidentSuppressed? then 1 else 0)
  }

  /******* Every history *******/

  /** Runs are handled, and other events are logged in between. */
  datatype Step = Handle(handling: Handling) | LogOther(event: Event)

  /** No event is lost: a failing write of the state is harmless, since the event is appended after it. */
  predicate Proper(step: Step) {
    match step
    case Handle(h) => !h.fault.EventAppendFails?
    case LogOther(e) => !IsIncidentEvent(e)
  }

  function After(i: Incident, step: Step): Incident {
    match step
    case Handle(h) => Handled(i, h)
    case LogOther(e) => i.(log := i.log + [e])
  }

  function AfterAll(steps: seq<Step>): Incident {
    if steps == [] then Incident(None, []) else After(AfterAll(steps[..|steps| - 1]), steps[|steps| - 1])
  }

  /** Some run opened an incident while one of another kind was active. */
  ghost predicate OpenedOverAnother(steps: seq<Step>) {
    exists n :: 0 <= n < |steps| && OpensOver(steps, n)
  }

  ghost predicate OpensOver(steps: seq<Step>, n: nat)
    requires n < |steps|
  {
    steps[n].Handle? && Opening(AfterAll(steps[..n]), steps[n].handling) && AfterAll(steps[..n]).active.Some?
  }

  predicate AllProper(steps: seq<Step>) {
    forall n :: 0 <= n < |steps| ==> Proper(steps[n])
  }

  function ActiveText(i: Incident): Option<string> {
    if i.active.Some? then Some(FailureText(i.active.value.kind)) else None
  }

  lemma DistinctTexts(a: FailureKind, b: FailureKind)
    ensures FailureText(a) == FailureText(b) <==> a == b
  {
    assert FailureText(a)[0] == FailureText(b)[0] && |FailureText(a)| == |FailureText(b)| ==> a == b;
  }

  /** One step: the checker keeps tracking the active incident unless the step opens over another. */
  lemma StepTracks(i: Incident, step: Step)
    requires Proper(step)
    ensures CheckRows(i.log) == Tracking(ActiveText(i)) ==>
              CheckRows(After(i, step).log)
              == if step.Handle? && Opening(i, step.handling) && i.active.Some? then Violated
                 else Tracking(ActiveText(After(i, step)))
    ensures CheckRows(i.log).Violated? ==> CheckRows(After(i, step).log).Violated?
  {
    var log' := After(i, step).log;
    if log' != i.log {
      assert log'[..|log'| - 1] == i.log;
    }
  }

  lemma {:induction false} CheckerTracks(steps: seq<Step>)
    requires AllProper(steps)
    ensures CheckRows(AfterAll(steps).log)
         == if OpenedOverAnother(steps) then Violated else Tracking(ActiveText(AfterAll(steps)))
  {
    if steps != [] {
      var n := |steps| - 1;
      var before := steps[..n];
      CheckerTracks(before);
      StepTracks(AfterAll(before), steps[n]);
      forall m | 0 <= m < n ensures OpensOver(steps, m) <==> OpensOver(before, m) {
        assert before[..m] == steps[..m];
      }
      if OpenedOverAnother(before) {
        var m :| 0 <= m < |before| && OpensOver(before, m);
        assert OpensOver(steps, m);
      } else if OpenedOverAnother(steps) {
        var m :| 0 <= m < |steps| && OpensOver(steps, m);
        assert m == n || OpensOver(before, m);
      } else {
        assert !OpensOver(steps, n);
      }
    }
  }

  /** The event log that handling leaves passes the lifecycle check if and only if no incident was opened
      while one of another kind was active. */
  lemma LifecyclePassesIff(steps: seq<Step>)
    requires AllProper(steps)
    ensures CheckRows(AfterAll(steps).log).Tracking? <==> !OpenedOverAnother(steps)
  {
    CheckerTracks(steps);
  }

  /******* When an incident is active *******/

  /** A failure about which the handler would alert. */
  predicate Alerting(h: Handling) {
    h.failure.Some? && h.shouldAlert && !h.dryRun && h.hasWebhook
  }

  /** The alert about a failure was sent and the state written. */
  predicate AlertSaved(step: Step) {
    step.Handle? && Alerting(step.handling) && step.handling.sendOk && !step.handling.fault.StateWriteFails?
  }

  /** A success whose recovery message, if one was due, was sent and whose state, if any, was written. */
  predicate RecoverySaved(step: Step) {
    && step.Handle? && step.handling.failure.None? && !step.handling.dryRun && step.handling.hasWebhook
    && step.handling.sendOk && !step.handling.fault.StateWriteFails?
  }

  /** Step `n` saved an alert, and no recovery was saved since. */
  predicate StandsOpen(steps: seq<Step>, n: nat) {
    n < |steps| && AlertSaved(steps[n]) && forall m :: n < m < |steps| ==> !RecoverySaved(steps[m])
  }

  /** And no other alert either. */
  predicate LastOpening(steps: seq<Step>, n: nat) {
    StandsOpen(steps, n) && forall m :: n < m < |steps| ==> !AlertSaved(steps[m])
  }

  lemma StandsOpenOneMore(steps: seq<Step>, n: nat)
    requires n < |steps| - 1
    ensures StandsOpen(steps, n) <==> StandsOpen(steps[..|steps| - 1], n) && !RecoverySaved(steps[|steps| - 1])
    ensures LastOpening(steps, n)
       <==> LastOpening(steps[..|steps| - 1], n) && !RecoverySaved(steps[|steps| - 1])
            && !AlertSaved(steps[|steps| - 1])
  {
    var before := steps[..|steps| - 1];
    assert forall m :: 0 <= m < |before| ==> before[m] == steps[m];
    assert steps[n] == before[n];
    if StandsOpen(before, n) && !RecoverySaved(steps[|steps| - 1]) {
      forall m | n < m < |steps| ensures !RecoverySaved(steps[m]) {
        assert m < |before| ==> steps[m] == before[m];
      }
    }
    if LastOpening(before, n) && !AlertSaved(steps[|steps| - 1]) {
      forall m | n < m < |steps| ensures !AlertSaved(steps[m]) {
        assert m < |before| ==> steps[m] == before[m];
      }
    }
  }

  /** After every history an incident is active if and only if an alert was saved and no recovery since.
      Lost events make no difference. */
  lemma {:induction false} ActiveIff(steps: seq<Step>)
    ensures AfterAll(steps).active.Some? <==> exists n: nat :: StandsOpen(steps, n)
  {
    if steps != [] {
      var before, last := steps[..|steps| - 1], |steps| - 1;
      ActiveIff(before);
      forall n: nat | n < last ensures StandsOpen(steps, n) <==> StandsOpen(before, n) && !RecoverySaved(steps[last]) {
        StandsOpenOneMore(steps, n);
      }
      assert StandsOpen(steps, last) <==> AlertSaved(steps[last]);
    }
  }

  /** And its kind is that of the last saved alert. */
  lemma {:induction false} ActiveKindIs(steps: seq<Step>, n: nat)
    requires LastOpening(steps, n)
    ensures AfterAll(steps).active.Some? && Some(AfterAll(steps).active.value.kind) == steps[n].handling.failure
  {
    if n < |steps| - 1 {
      StandsOpenOneMore(steps, n);
      ActiveKindIs(steps[..|steps| - 1], n);
    }
  }

  /** The event that handling appends: a suppression while an incident of the failure's kind is active, an
      opening when its alert was sent otherwise, and a recovery under the kind that was active. */
  lemma HandlingLogs(steps: seq<Step>, n: nat)
    requires n < |steps| && steps[n].Handle?
    ensures var h, active := steps[n].handling, AfterAll(steps[..n]).active;
            AfterAll(steps[..n + 1]).log == AfterAll(steps[..n]).log
              + (if !h.fault.NoFault? then []
                 else if Alerting(h) && active.Some? && active.value.kind == h.failure.value
                 then [Event(IncidentSuppressed, Null, Str(FailureText(h.failure.value)), Null)]
                 else if Alerting(h) && h.sendOk
                 then [Event(IncidentOpened, Null, Str(FailureText(h.failure.value)), Null)]
                 else if RecoverySaved(steps[n]) && active.Some?
                 then [Event(IncidentRecovered, Null, Str(FailureText(active.value.kind)), Null)]
                 else [])
  {
    assert steps[..n + 1][..n] == steps[..n];
  }

  lemma LogOneMore(log: seq<Event>, e: Event)
    ensures LastIncidentEvent(log + [e]) == if IsIncidentEvent(e) then Some(e) else LastIncidentEvent(log)
    ensures SuppressedSinceOpen(log + [e])
         == if e.name.IncidentOpened? then 0
            else SuppressedSinceOpen(log) + (if e.name.IncidentSuppressed? then 1 else 0)
  {
    assert (log + [e])[..|log|] == log;
  }

  predicate Matches(i: Incident) {
    && StateMatchesEvents(i.active, i.log)
    && (i.active.Some? ==> i.active.value.suppressed == SuppressedSinceOpen(i.log) && LastIncidentEvent(i.log).Some?)
    && (i.active.Some? ==> KindOf(LastIncidentEvent(i.log).value) == Some(FailureText(i.active.value.kind)))
  }

  lemma StepKeepsState(i: Incident, step: Step)
    requires Proper(step) && Matches(i)
    ensures Matches(After(i, step))
  {
    match step
    case LogOther(e) => LogOneMore(i.log, e);
    case Handle(h) =>
      if h.failure.Some? {
        LogOneMore(i.log, IncidentEvent(IncidentOpened, h.failure.value));
        LogOneMore(i.log, IncidentEvent(IncidentSuppressed, h.failure.value));
      } else if i.active.Some? {
        LogOneMore(i.log, IncidentEvent(IncidentRecovered, i.active.value.kind));
      }
  }

  /** Whatever is opened, suppressed or recovered, and however sends end, the stored state always agrees
      with the last incident event, and while an incident is active its stored count is the number of
      suppressions since the last open. */
  lemma {:induction false} StateAlwaysMatches(steps: seq<Step>)
    requires AllProper(steps)
    ensures var i := AfterAll(steps);
            && StateMatchesEvents(i.active, i.log)
            && (i.active.Some? ==> i.active.value.suppressed == SuppressedSinceOpen(i.log))
  {
    AlwaysMatches(steps);
  }

  lemma {:induction false} AlwaysMatches(steps: seq<Step>)
    requires AllProper(steps)
    ensures Matches(AfterAll(steps))
  {
    if steps != [] {
      AlwaysMatches(steps[..|steps| - 1]);
      StepKeepsState(AfterAll(steps[..|steps| - 1]), steps[|steps| - 1]);
    }
  }

  /** When the state is saved but its event is lost, the state check still passes if and only if the run
      repeated the active kind, or opened the first incident that the log would have known. */
  lemma LostEventPassesIff(i: Incident, h: Handling)
    requires Matches(i) && h.fault.EventAppendFails? && Handled(i, h) != i
    ensures StateMatchesEvents(Handled(i, h).active, Handled(i, h).log)
       <==> h.failure.Some?
            && (LastIncidentEvent(i.log).None? || (i.active.Some? && i.active.value.kind == h.failure.value))
  {
    if h.failure.Some? && i.active.Some? {
      DistinctTexts(h.failure.value, i.active.value.kind);
    }
  }
}
