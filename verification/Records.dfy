/** The JSON values and records that the event log holds. */
module Records {
  import opened Wrappers

  /** A JSON value as far as the program tells values apart: null (or a missing key), a string, or
      something else that counts as true. */
  datatype JsonValue = Null | Str(s: string) | Other(repr: string) {

    predicate Truthy() {
      Other? || (Str? && s != "")
    }

    function StrOrNull(): JsonValue {
      if Str? then this else Null
    }
  }

  datatype FailureKind =
    | SourceFailed
    | AuthFailed
    | MessageDetailFailed
    | DeliveryFailed
    | CheckpointFailed
    | ConfigFailed

  datatype EventName =
    | CheckpointAdvanced
    | InitialSyncCompleted
    | InitialSyncNotificationSent
    | IncidentOpened
    | IncidentSuppressed
    | IncidentRecovered
    | Failed(failure: FailureKind)

  /** The value a failure kind has in the run log. */
  function FailureText(kind: FailureKind): (s: string)
    ensures s != ""
  {
    match kind
    case SourceFailed => "source_failed"
    case AuthFailed => "auth_failed"
    case MessageDetailFailed => "message_detail_failed"
    case DeliveryFailed => "delivery_failed"
    case CheckpointFailed => "checkpoint_failed"
    case ConfigFailed => "config_failed"
  }

  /** What one run reports; ids and times are strings that the program creates. */
  datatype RunResult = RunResult(
    runId: string,
    endedAt: string,
    checkpointBefore: JsonValue,
    checkpointAfter: JsonValue,
    processedCount: nat,
    matchedCount: nat,
    notifiedCount: nat,
    nonTargetCount: nat,
    failureKind: Option<FailureKind>,
    failureMessageId: JsonValue,
    shouldRetry: bool,
    shouldAlert: bool,
    authStatus: JsonValue)

  /** One record of the event log; `detail` stands for the keys no modelled reader looks at. */
  datatype Event = Event(name: EventName, checkpoint: JsonValue, kind: JsonValue, detail: JsonValue)

  predicate IsCheckpointEvent(e: Event) {
    e.name.CheckpointAdvanced? || e.name.InitialSyncCompleted?
  }

  /** The checkpoint of the last checkpoint event, or null when there is none. */
  function Frontier(recs: seq<Event>): JsonValue {
    if recs == [] then Null
    else if IsCheckpointEvent(recs[|recs| - 1]) then recs[|recs| - 1].checkpoint
    else Frontier(recs[..|recs| - 1])
  }

  predicate HasCheckpoint(recs: seq<Event>) {
    exists i :: 0 <= i < |recs| && IsCheckpointEvent(recs[i])
  }

  lemma FrontierAppend(recs: seq<Event>, e: Event)
    ensures Frontier(recs + [e]) == if IsCheckpointEvent(e) then e.checkpoint else Frontier(recs)
  {
    assert (recs + [e])[..|recs|] == recs;
  }

  lemma HasCheckpointConcat(a: seq<Event>, b: seq<Event>)
    ensures HasCheckpoint(a + b) <==> HasCheckpoint(a) || HasCheckpoint(b)
  {
    if HasCheckpoint(a) {
      var i :| 0 <= i < |a| && IsCheckpointEvent(a[i]);
      assert IsCheckpointEvent((a + b)[i]);
    }
    if HasCheckpoint(b) {
      var i :| 0 <= i < |b| && IsCheckpointEvent(b[i]);
      assert IsCheckpointEvent((a + b)[|a| + i]);
    }
  }

  lemma {:induction false} FrontierConcat(a: seq<Event>, b: seq<Event>)
    ensures Frontier(a + b) == if HasCheckpoint(b) then Frontier(b) else Frontier(a)
  {
    if b == [] {
      assert a + b == a;
    } else {
      var last := b[|b| - 1];
      assert (a + b)[..|a + b| - 1] == a + b[..|b| - 1];
      FrontierConcat(a, b[..|b| - 1]);
      HasCheckpointConcat(b[..|b| - 1], [last]);
      assert b == b[..|b| - 1] + [last];
    }
  }

  lemma NoCheckpointNoFrontier(recs: seq<Event>)
    requires !HasCheckpoint(recs)
    ensures Frontier(recs) == Null
  {
    FrontierConcat([], recs);
    assert [] + recs == recs;
  }
}
