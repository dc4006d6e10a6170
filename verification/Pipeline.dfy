/** One run of the ordered-frontier pipeline: load the checkpoint, initialise if needed, select the
    messages behind it, and for each one notify and only then commit; stop at the first failure. */
module Pipeline {
  import opened Wrappers
  import opened JsonLines
  import opened Records
  import opened CheckpointIndex
  import opened CheckpointStore
  import opened MailSource
  import opened RunSummary

  /******* What the outside does during one run *******/

  datatype Service = Ready | TransientlyDown | PermanentlyDown
  datatype Latest = LatestIs(id: JsonValue) | LatestRaised(transient: bool)
  datatype Setup = SetupSent | SetupNotSent | SetupRaised
  datatype Classified = ClassifyOk | ClassifyRaised
  datatype Notified = Sent | NotSent | NotifyRaised

  /** The places where a run updates a cache, each of which succeeds or fails on its own. */
  datatype CacheWrite =
    | OnLoad
    | OnRescan
    | OnBootstrap
    | OnLegacyLoad
    | OnLegacyRescan
    | OnInitialSync
    | OnCommit(id: string)
    | OnResult

  /** Every outcome that a run may meet. Each message is looked at only once per run, so outcomes per
      message are functions of its id. */
  datatype Outcomes = Outcomes(
    bootstrap: AppendOutcome,
    latest: Latest,
    initialAppend: AppendOutcome,
    setup: Setup,
    markAppend: AppendOutcome,
    recoveryRaises: bool,
    service: Service,
    listing: Listing,
    detailOk: string -> bool,
    classify: string -> Classified,
    notify: string -> Notified,
    commit: string -> AppendOutcome,
    commitFailureAppend: AppendOutcome,
    failureAppend: AppendOutcome,
    markRaises: bool,
    indexOk: CacheWrite -> bool,
    snapshotOk: CacheWrite -> bool,
    resultAppend: AppendOutcome,
    runId: string,
    endedAt: string,
    authStatus: JsonValue)

  datatype Settings = Settings(matches: string -> bool, maxMessages: nat, skipExisting: bool, dryRun: bool)

  /** The durable state a run reads and writes, together with the history it is judged by: the ids whose
      notification returned true and the ids whose commit append failed, in order. */
  datatype World = World(
    log: seq<Event>,
    rows: seq<RunRow>,
    stateLast: JsonValue,
    stateExists: bool,
    delivered: seq<string>,
    failedCommits: seq<string>)

  datatype Failure = Failure(kind: FailureKind, messageId: JsonValue, shouldRetry: bool, shouldAlert: bool)

  datatype RunState = RunState(
    before: JsonValue,
    after: JsonValue,
    processed: nat,
    matched: nat,
    notified: nat,
    nonTarget: nat,
    failure: Option<Failure>)

  datatype Progress = Progress(world: World, run: RunState)

  /******* The run, step by step *******/

  const UNEXPECTED := Failure(SourceFailed, Null, true, true)

  function Raise(p: Progress, f: Failure): Progress {
    p.(run := p.run.(failure := Some(f)))
  }

  function WithLog(w: World, e: Event, out: AppendOutcome): World {
    w.(log := Appended(w.log, e, out))
  }

  function FailureEvent(f: Failure): Event {
    Event(Failed(f.kind), Null, Null, f.messageId)
  }

  function AfterAdvance(w: World, id: string, out: AppendOutcome, snapshotOk: bool): World {
    var w' := WithLog(w, Event(CheckpointAdvanced, Str(id), Null, Null), out);
    if out.Done? && snapshotOk then w'.(stateLast := Str(id), stateExists := true) else w'
  }

  function CommitFailure(id: string): Failure {
    Failure(CheckpointFailed, Str(id), false, true)
  }

  function Commit(s: Settings, o: Outcomes, p: Progress, id: string): Progress {
    if s.dryRun then p.(run := p.run.(after := Str(id)))
    else
      var w := AfterAdvance(p.world, id, o.commit(id), o.snapshotOk(OnCommit(id)));
      if o.commit(id).Done? then Progress(w, p.run.(after := Str(id)))
      else
        var w' := w.(failedCommits := w.failedCommits + [id]);
        Raise(Progress(WithLog(w', FailureEvent(CommitFailure(id)), o.commitFailureAppend), p.run), CommitFailure(id))
  }

  function ProcessMessage(s: Settings, o: Outcomes, p: Progress, id: string): Progress {
    if !o.detailOk(id) then Raise(p, Failure(MessageDetailFailed, Str(id), true, true))
    else
      var p1 := p.(run := p.run.(processed := p.run.processed + 1));
      if o.classify(id).ClassifyRaised? then Raise(p1, UNEXPECTED)
      else if !s.matches(id) then Commit(s, o, p1.(run := p1.run.(nonTarget := p1.run.nonTarget + 1)), id)
      else
        var p2 := p1.(run := p1.run.(matched := p1.run.matched + 1));
        if s.dryRun then Commit(s, o, p2.(run := p2.run.(notified := p2.run.notified + 1)), id)
        else match o.notify(id)
             case NotifyRaised => Raise(p2, UNEXPECTED)
             case NotSent => Raise(p2, Failure(DeliveryFailed, Str(id), true, true))
             case Sent =>
               var w := p2.world.(delivered := p2.world.delivered + [id]);
               Commit(s, o, Progress(w, p2.run.(notified := p2.run.notified + 1)), id)
  }

  function ProcessAll(s: Settings, o: Outcomes, p: Progress, ids: seq<string>): Progress
    decreases ids
  {
    if ids == [] || p.run.failure.Some? then p else ProcessAll(s, o, ProcessMessage(s, o, p, ids[0]), ids[1..])
  }

  function SendSetup(o: Outcomes, p: Progress): Progress {
    match o.setup
    case SetupRaised => Raise(p, UNEXPECTED)
    case SetupNotSent => p
    case SetupSent =>
      var p' := p.(world := WithLog(p.world, Event(InitialSyncNotificationSent, Null, Null, Null), o.markAppend));
      if o.markAppend.Done? then p' else Raise(p', UNEXPECTED)
  }

  const SKIP_EXISTING := Str("skip_existing")
  const BACKFILL := Str("backfill")

  function ServiceFailure(service: Service): Option<Failure> {
    match service
    case Ready => None
    case TransientlyDown => Some(Failure(SourceFailed, Null, true, false))
    case PermanentlyDown => Some(Failure(AuthFailed, Null, false, true))
  }

  function SourceFailure(transient: bool): Failure {
    Failure(SourceFailed, Null, transient, !transient)
  }

  function CompleteFirstSync(s: Settings, o: Outcomes, p: Progress, checkpoint: JsonValue): Progress {
    var mode := if s.skipExisting then SKIP_EXISTING else BACKFILL;
    var w := WithLog(p.world, Event(InitialSyncCompleted, checkpoint, Null, mode), o.initialAppend);
    if !o.initialAppend.Done? then Raise(p.(world := w), Failure(CheckpointFailed, checkpoint, false, true))
    else
      var w' := if o.snapshotOk(OnInitialSync) then w.(stateLast := checkpoint, stateExists := true) else w;
      var p' := SendSetup(o, p.(world := w'));
      if p'.run.failure.Some? then p' else p'.(run := p'.run.(before := checkpoint, after := checkpoint))
  }

  function Initialize(s: Settings, o: Outcomes, p: Progress): Progress {
    if s.dryRun then p
    else match InitialSyncOf(p.world.log, p.world.stateLast, p.world.stateExists)
         case Completed(_, _, sent) => if sent then p else SendSetup(o, p)
         case NotCompleted =>
           if !s.skipExisting then CompleteFirstSync(s, o, p, p.run.before)
           else if ServiceFailure(o.service).Some? then Raise(p, ServiceFailure(o.service).value)
           else match o.latest
                case LatestRaised(transient) => Raise(p, SourceFailure(transient))
                case LatestIs(id) => CompleteFirstSync(s, o, p, id)
  }

  function Fetch(s: Settings, o: Outcomes, p: Progress): Progress {
    if p.run.failure.Some? then p
    else if o.recoveryRaises && !s.dryRun then Raise(p, UNEXPECTED)
    else if ServiceFailure(o.service).Some? then Raise(p, ServiceFailure(o.service).value)
    else match Select(o.listing, p.run.before, s.maxMessages)
         case ListingFailed(transient) => Raise(p, SourceFailure(transient))
         case CheckpointNotFound => Raise(p, Failure(SourceFailed, Null, false, true))
         case Selected(ids) => ProcessAll(s, o, p, ids)
  }

  function RecordFailure(o: Outcomes, p: Progress): Progress {
    if p.run.failure.None? then p
    else p.(world := WithLog(p.world, FailureEvent(p.run.failure.value), o.failureAppend))
  }

  /** The failures after which the transient issue is marked; that may raise once more, outside the error
      handling. */
  predicate MarkRaises(s: Settings, o: Outcomes, run: RunState) {
    && run.failure.Some? && run.failure.value.kind.SourceFailed? && run.failure.value.shouldRetry
    && o.markRaises && !s.dryRun
  }

  function ResultOf(o: Outcomes, run: RunState): RunResult {
    RunResult(o.runId, o.endedAt, run.before, run.after, run.processed, run.matched, run.notified, run.nonTarget,
              if run.failure.Some? then Some(run.failure.value.kind) else None,
              if run.failure.Some? then run.failure.value.messageId else Null,
              run.failure.Some? && run.failure.value.shouldRetry, run.failure.Some? && run.failure.value.shouldAlert,
              o.authStatus)
  }

  /** The result becomes a row of the run log; when that fails the run counts as failed. */
  function Persist(o: Outcomes, p: Progress): Progress {
    var rows := if o.resultAppend.FailedEmpty? then p.world.rows else p.world.rows + [RowOf(ResultOf(o, p.run))];
    var w := p.world.(rows := rows);
    if o.resultAppend.Done? then p.(world := w.(stateExists := w.stateExists || o.snapshotOk(OnResult)))
    else Progress(w, p.run.(failure := Some(Failure(CheckpointFailed, p.run.after, false, true))))
  }

  datatype Outcome = Finished(progress: Progress) | Crashed(world: World)

  function Fresh(w: World, checkpoint: JsonValue): Progress {
    Progress(w, RunState(checkpoint, checkpoint, 0, 0, 0, 0, None))
  }

  predicate Bootstraps(w: World) {
    w.log == [] && w.stateLast.Truthy()
  }

  function LoadedWorld(o: Outcomes, w: World): World {
    if Bootstraps(w)
    then WithLog(w, Event(CheckpointAdvanced, w.stateLast, Null, BOOTSTRAP), o.bootstrap) else w
  }

  function LoadedCheckpoint(w: World): JsonValue {
    if HasCheckpoint(w.log) then Frontier(w.log) else w.stateLast
  }

  /** A run up to and including the recording of its failure. */
  function Processed(s: Settings, o: Outcomes, w: World): Progress {
    RecordFailure(o, Fetch(s, o, Initialize(s, o, Fresh(LoadedWorld(o, w), LoadedCheckpoint(w)))))
  }

  /** The whole run. An exception leaves it when the bootstrap append fails while loading, and when marking
      the transient issue fails after the failure was recorded; then there is no result. */
  function RunOnceOf(s: Settings, o: Outcomes, w: World): Outcome {
    if Bootstraps(w) && !o.bootstrap.Done? then Crashed(LoadedWorld(o, w))
    else
      var p := Processed(s, o, w);
      if MarkRaises(s, o, p.run) then Crashed(p.world) else Finished(Persist(o, p))
  }

  function WorldAfter(s: Settings, o: Outcomes, w: World): World {
    match RunOnceOf(s, o, w)
    case Finished(p) => p.world
    case Crashed(w') => w'
  }

  /******* The pipeline over the checkpoint store *******/

  class NotificationPipeline {
    const store: JsonlCheckpointStore
    const runs: RunSummaryStore
    const settings: Settings
    ghost var delivered: seq<string>
    ghost var failedCommits: seq<string>

    constructor (store: JsonlCheckpointStore, runs: RunSummaryStore, settings: Settings)
      ensures this.store == store && this.runs == runs && this.settings == settings
      ensures delivered == [] && failedCommits == []
    {
      this.store, this.runs, this.settings := store, runs, settings;
      delivered, failedCommits := [], [];
    }

    ghost function View(): World
      reads this, store, runs
    {
      World(store.recs, runs.rows, store.stateLast, store.stateExists, delivered, failedCommits)
    }

    /** Notify has returned; the checkpoint is committed only after it. */
    method CommitCheckpoint(o: Outcomes, run: RunState, id: string) returns (run': RunState)
      requires store.Valid()
      modifies this, store
      ensures store.Valid()
      ensures Progress(View(), run') == Commit(settings, o, Progress(old(View()), run), id)
    {
      if settings.dryRun {
        return run.(after := Str(id));
      }
      var ok := store.AdvanceCheckpoint(id, o.commit(id), o.indexOk(OnCommit(id)), o.snapshotOk(OnCommit(id)));
      if ok {
        return run.(after := Str(id));
      }
      failedCommits := failedCommits + [id];
      var _ := store.AppendEvent(FailureEvent(CommitFailure(id)), o.commitFailureAppend, false);
      return run.(failure := Some(CommitFailure(id)));
    }

    method ProcessOne(o: Outcomes, run: RunState, id: string) returns (run': RunState)
      requires store.Valid()
      modifies this, store
      ensures store.Valid()
      ensures Progress(View(), run') == ProcessMessage(settings, o, Progress(old(View()), run), id)
    {
      run' := run;
      if !o.detailOk(id) {
        return run'.(failure := Some(Failure(MessageDetailFailed, Str(id), true, true)));
      }
      run' := run'.(processed := run'.processed + 1);
      if o.classify(id).ClassifyRaised? {
        return run'.(failure := Some(UNEXPECTED));
      }
      if !settings.matches(id) {
        run' := run'.(nonTarget := run'.nonTarget + 1);
        run' := CommitCheckpoint(o, run', id);
        return;
      }
      run' := run'.(matched := run'.matched + 1);
      if !settings.dryRun {
        match o.notify(id) {
          case NotifyRaised => return run'.(failure := Some(UNEXPECTED));
          case NotSent => return run'.(failure := Some(Failure(DeliveryFailed, Str(id), true, true)));
          case Sent => delivered := delivered + [id];
        }
      }
      run' := run'.(notified := run'.notified + 1);
      run' := CommitCheckpoint(o, run', id);
    }

    method ProcessMessages(o: Outcomes, run: RunState, ids: seq<string>) returns (run': RunState)
      requires store.Valid() && run.failure.None?
      modifies this, store
      ensures store.Valid()
      ensures Progress(View(), run') == ProcessAll(settings, o, Progress(old(View()), run), ids)
    {
      run' := run;
      var i := 0;
      while i < |ids| && run'.failure.None?
        invariant 0 <= i <= |ids| && store.Valid()
        invariant ProcessAll(settings, o, Progress(View(), run'), ids[i..])
               == ProcessAll(settings, o, Progress(old(View()), run), ids)
      {
        assert ids[i..][0] == ids[i] && ids[i..][1..] == ids[i + 1..];
        run' := ProcessOne(o, run', ids[i]);
        i := i + 1;
      }
    }

    method SendSetupNotification(o: Outcomes, run: RunState) returns (run': RunState)
      requires store.Valid()
      modifies store
      ensures store.Valid()
      ensures Progress(View(), run') == SendSetup(o, Progress(old(View()), run))
    {
      match o.setup
      case SetupRaised => return run.(failure := Some(UNEXPECTED));
      case SetupNotSent => return run;
      case SetupSent =>
        var ok := store.AppendEvent(Event(InitialSyncNotificationSent, Null, Null, Null), o.markAppend, false);
        return if ok then run else run.(failure := Some(UNEXPECTED));
    }

    method InitializeIfNeeded(o: Outcomes, run: RunState) returns (run': RunState)
      requires store.Valid() && run.failure.None?
      modifies store
      ensures store.Valid()
      ensures Progress(View(), run') == Initialize(settings, o, Progress(old(View()), run))
    {
      if settings.dryRun {
        return run;
      }
      var initial := store.LoadInitialSyncState(o.indexOk(OnLegacyLoad), o.indexOk(OnLegacyRescan));
      if initial.value.Completed? {
        if initial.value.notificationSent {
          return run;
        }
        run' := SendSetupNotification(o, run);
        return;
      }
      var checkpoint := run.before;
      if settings.skipExisting {
        if ServiceFailure(o.service).Some? {
          return run.(failure := ServiceFailure(o.service));
        }
        match o.latest {
          case LatestRaised(transient) => return run.(failure := Some(SourceFailure(transient)));
          case LatestIs(id) => checkpoint := id;
        }
      }
      var mode := if settings.skipExisting then SKIP_EXISTING else BACKFILL;
      var ok := store.CompleteInitialSync(checkpoint, mode, o.initialAppend,
                                          o.indexOk(OnInitialSync), o.snapshotOk(OnInitialSync));
      if !ok {
        return run.(failure := Some(Failure(CheckpointFailed, checkpoint, false, true)));
      }
      run' := SendSetupNotification(o, run);
      if run'.failure.None? {
        run' := run'.(before := checkpoint, after := checkpoint);
      }
    }

    method FetchAndProcess(o: Outcomes, run: RunState) returns (run': RunState)
      requires store.Valid() && run.failure.None?
      modifies this, store
      ensures store.Valid()
      ensures Progress(View(), run') == Fetch(settings, o, Progress(old(View()), run))
    {
      if o.recoveryRaises && !settings.dryRun {
        return run.(failure := Some(UNEXPECTED));
      }
      if ServiceFailure(o.service).Some? {
        return run.(failure := ServiceFailure(o.service));
      }
      var selection := SelectNewMessages(o.listing, run.before, settings.maxMessages);
      match selection
      case ListingFailed(transient) => return run.(failure := Some(SourceFailure(transient)));
      case CheckpointNotFound => return run.(failure := Some(Failure(SourceFailed, Null, false, true)));
      case Selected(ids) => run' := ProcessMessages(o, run, ids);
    }

    method LoadCheckpoint(o: Outcomes) returns (checkpoint: Option<JsonValue>)
      requires store.Valid()
      modifies store
      ensures store.Valid()
      ensures View() == LoadedWorld(o, old(View()))
      ensures checkpoint == if Bootstraps(old(View())) && !o.bootstrap.Done? then None
                            else Some(LoadedCheckpoint(old(View())))
    {
      checkpoint := store.LoadCheckpoint(o.indexOk(OnLoad), o.indexOk(OnRescan), o.bootstrap, o.indexOk(OnBootstrap));
    }

    /** Records a failure and marks the transient issue; false where marking it raises. */
    method HandleError(o: Outcomes, run: RunState) returns (ok: bool)
      requires store.Valid()
      modifies store
      ensures store.Valid()
      ensures Progress(View(), run) == RecordFailure(o, Progress(old(View()), run))
      ensures ok <==> !MarkRaises(settings, o, run)
    {
      ok := true;
      if run.failure.Some? {
        var _ := store.AppendEvent(FailureEvent(run.failure.value), o.failureAppend, false);
        if run.failure.value.kind.SourceFailed? && run.failure.value.shouldRetry {
          ok := settings.dryRun || !o.markRaises;
        }
      }
    }

    method PersistRunResult(o: Outcomes, run: RunState) returns (run': RunState)
      requires store.Valid()
      modifies store, runs
      ensures store.Valid()
      ensures Progress(View(), run') == Persist(o, Progress(old(View()), run))
    {
      run' := run;
      var ok := runs.AppendRunResult(ResultOf(o, run), o.resultAppend, o.indexOk(OnResult), o.snapshotOk(OnResult));
      if ok {
        store.stateExists := store.stateExists || o.snapshotOk(OnResult);
      } else {
        run' := run'.(failure := Some(Failure(CheckpointFailed, run.after, false, true)));
      }
    }

    /** One run; `None` where the source leaves `run_once` with an exception. The log has to be one that
        was only appended to, which every run keeps. */
    method RunOnce(o: Outcomes) returns (result: Option<RunState>)
      requires store.Valid()
      modifies this, store, runs
      ensures store.Valid()
      ensures RunOnceOf(settings, o, old(View()))
           == if result.Some? then Finished(Progress(View(), result.value)) else Crashed(View())
    {
      var checkpoint := LoadCheckpoint(o);
      if checkpoint.None? {
        return None;
      }
      var run := RunState(checkpoint.value, checkpoint.value, 0, 0, 0, 0, None);
      run := InitializeIfNeeded(o, run);
      if run.failure.None? {
        run := FetchAndProcess(o, run);
      }
      var handled := HandleError(o, run);
      if !handled {
        return None;
      }
      run := PersistRunResult(o, run);
      return Some(run);
    }
  }
}
