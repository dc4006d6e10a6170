/** What a run leaves behind: the row of the run log, the failure it tells of, and the summary built from it. */
module RunRows {
  import opened Wrappers
  import opened Records
  import opened CheckpointStore
  import opened MailSource
  import opened RunSummary
  import opened Pipeline
  import opened FrontierSafety
  import opened RunReport

  /******* What the steps of a run leave alone *******/

  predicate SameStart(p: Progress, q: Progress) {
    q.world.rows == p.world.rows && q.run.before == p.run.before
  }

  lemma {:induction false} MessagesKeepStart(s: Settings, o: Outcomes, p: Progress, ids: seq<string>)
    ensures SameStart(p, ProcessAll(s, o, p, ids))
    decreases ids
  {
    if ids != [] && p.run.failure.None? {
      MessagesKeepStart(s, o, ProcessMessage(s, o, p, ids[0]), ids[1..]);
    }
  }

  lemma FetchKeepsStart(s: Settings, o: Outcomes, p: Progress)
    ensures SameStart(p, Fetch(s, o, p))
  {
    match Select(o.listing, p.run.before, s.maxMessages)
    case Selected(ids) => MessagesKeepStart(s, o, p, ids);
    case _ =>
  }

  lemma ProcessedStarts(s: Settings, o: Outcomes, w: World)
    ensures Processed(s, o, w).world.rows == w.rows
    ensures Processed(s, o, w).run.before
         == Initialize(s, o, Fresh(LoadedWorld(o, w), LoadedCheckpoint(w))).run.before
  {
    FetchKeepsStart(s, o, Initialize(s, o, Fresh(LoadedWorld(o, w), LoadedCheckpoint(w))));
  }

  /******* The setup message *******/

  predicate HasEvent(log: seq<Event>, name: EventName) {
    exists i :: 0 <= i < |log| && log[i].name == name
  }

  /** The first synchronisation is in the log and its setup message is not. */
  predicate SetupDue(log: seq<Event>) {
    HasEvent(log, InitialSyncCompleted) && !HasEvent(log, InitialSyncNotificationSent)
  }

  lemma {:induction false} LastInitialSyncIff(log: seq<Event>)
    ensures LastInitialSync(log).Some? <==> HasEvent(log, InitialSyncCompleted)
  {
    if log != [] {
      var before := log[..|log| - 1];
      LastInitialSyncIff(before);
      if HasEvent(log, InitialSyncCompleted) && !log[|log| - 1].name.InitialSyncCompleted? {
        var i :| 0 <= i < |log| && log[i].name == InitialSyncCompleted;
        assert before[i] == log[i];
      }
    }
  }

  /** A log with a checkpoint is never initialised again, and its setup message is sent exactly when due. */
  lemma InitialSyncWithCheckpoint(log: seq<Event>, stateLast: JsonValue, stateExists: bool)
    requires HasCheckpoint(log)
    ensures InitialSyncOf(log, stateLast, stateExists).Completed?
    ensures InitialSyncOf(log, stateLast, stateExists).notificationSent <==> !SetupDue(log)
  {
    LastInitialSyncIff(log);
  }

  /** With a checkpoint in the log, initialising is at most sending the setup message. */
  lemma InitializeIs(s: Settings, o: Outcomes, p: Progress)
    requires HasCheckpoint(p.world.log)
    ensures Initialize(s, o, p) == if !s.dryRun && SetupDue(p.world.log) then SendSetup(o, p) else p
  {
    InitialSyncWithCheckpoint(p.world.log, p.world.stateLast, p.world.stateExists);
  }

  /******* The messages a run looks at *******/

  /** The messages up to the first one that does not pass, that one included. */
  function LookedAt(s: Settings, o: Outcomes, ids: seq<string>): seq<string> {
    if ids == [] then []
    else if PassesClean(s, o, ids[0]) then [ids[0]] + LookedAt(s, o, ids[1..])
    else [ids[0]]
  }

  datatype Counter = Detailed | Target | Told | Skipped

  /** What each counter of a run counts. */
  predicate Counts(s: Settings, o: Outcomes, x: Counter, id: string) {
    && o.detailOk(id)
    && (x.Detailed? || o.classify(id).ClassifyOk?)
    && (x.Target? || x.Told? ==> s.matches(id))
    && (x.Told? ==> o.notify(id).Sent?)
    && (x.Skipped? ==> !s.matches(id))
  }

  function Those(s: Settings, o: Outcomes, x: Counter, ids: seq<string>): seq<string> {
    if ids == [] then [] else (if Counts(s, o, x, ids[0]) then [ids[0]] else []) + Those(s, o, x, ids[1..])
  }

  /** From `p` to `q` the run looked at exactly `looked`. */
  predicate Advanced(s: Settings, o: Outcomes, p: Progress, looked: seq<string>, q: Progress) {
    && q.run.processed == p.run.processed + |Those(s, o, Detailed, looked)|
    && q.run.matched == p.run.matched + |Those(s, o, Target, looked)|
    && q.run.notified == p.run.notified + |Those(s, o, Told, looked)|
    && q.run.nonTarget == p.run.nonTarget + |Those(s, o, Skipped, looked)|
    && q.world.delivered == p.world.delivered + Those(s, o, Told, looked)
  }

  lemma MessageAdvances(s: Settings, o: Outcomes, p: Progress, id: string)
    requires !s.dryRun && p.run.failure.None?
    ensures Advanced(s, o, p, [id], ProcessMessage(s, o, p, id))
    ensures ProcessMessage(s, o, p, id).run.failure.None? <==> PassesClean(s, o, id)
  {
    MessageReports(s, o, p, id);
    assert [id][1..] == [];
  }

  lemma ThoseCons(s: Settings, o: Outcomes, x: Counter, id: string, ids: seq<string>)
    ensures Those(s, o, x, [id] + ids) == Those(s, o, x, [id]) + Those(s, o, x, ids)
  {
    assert ([id] + ids)[1..] == ids && [id][1..] == [];
  }

  lemma AdvancedTwice(
    s: Settings, o: Outcomes, p: Progress, id: string, q: Progress, looked: seq<string>, r: Progress)
    requires Advanced(s, o, p, [id], q) && Advanced(s, o, q, looked, r)
    ensures Advanced(s, o, p, [id] + looked, r)
  {
    forall x: Counter ensures Those(s, o, x, [id] + looked) == Those(s, o, x, [id]) + Those(s, o, x, looked) {
      ThoseCons(s, o, x, id, looked);
    }
  }

  lemma {:induction false} MessagesAdvance(s: Settings, o: Outcomes, p: Progress, ids: seq<string>)
    requires !s.dryRun && p.run.failure.None?
    ensures Advanced(s, o, p, LookedAt(s, o, ids), ProcessAll(s, o, p, ids))
    decreases ids
  {
    if ids != [] {
      var q := ProcessMessage(s, o, p, ids[0]);
      MessageAdvances(s, o, p, ids[0]);
      if PassesClean(s, o, ids[0]) {
        MessagesAdvance(s, o, q, ids[1..]);
        AdvancedTwice(s, o, p, ids[0], q, LookedAt(s, o, ids[1..]), ProcessAll(s, o, q, ids[1..]));
      } else {
        assert ProcessAll(s, o, q, ids[1..]) == q;
      }
    }
  }

  /** What a run looks at when the log has a checkpoint: nothing after a setup message that was due and
      failed, or when fetching fails. */
  function LookedAtBy(s: Settings, o: Outcomes, w: World): seq<string> {
    if SetupDue(w.log) && SetupFails(o) then [] else LookedAt(s, o, Fetched(s, o, Frontier(w.log)))
  }

  lemma ProcessedAdvances(s: Settings, o: Outcomes, w: World)
    requires !s.dryRun && HasCheckpoint(w.log)
    ensures Advanced(s, o, Fresh(w, Frontier(w.log)), LookedAtBy(s, o, w), Processed(s, o, w))
  {
    var p0 := Fresh(w, Frontier(w.log));
    var p := Initialize(s, o, p0);
    InitializeIs(s, o, p0);
    SetupReports(o, p0);
    if p.run.failure.None? {
      MessagesAdvance(s, o, p, Fetched(s, o, Frontier(w.log)));
    }
  }

  /******* The row *******/

  /** A run with a result adds one row to the run log, or none if that append wrote nothing; a result that
      could not be stored turns into a failure of its own. The row carries
      what the run was given and where it started: at the frontier of the log, at the snapshot's checkpoint
      of an older installation, or at the newest message when the first synchronisation skips. */
  lemma RunAddsOneRow(s: Settings, o: Outcomes, w: World) returns (row: RunRow)
    requires RunOnceOf(s, o, w).Finished?
    ensures RunOnceOf(s, o, w).progress.world.rows == if o.resultAppend.FailedEmpty? then w.rows else w.rows + [row]
    ensures row.runId == Str(o.runId) && row.endedAt == Str(o.endedAt) && row.authStatus == o.authStatus
    ensures HasCheckpoint(w.log) ==> row.checkpointBefore == Frontier(w.log)
    ensures Bootstraps(w) ==> row.checkpointBefore == w.stateLast
    ensures !HasCheckpoint(w.log) && w.stateLast == Null && !w.stateExists && s.skipExisting && !s.dryRun
            && o.service.Ready? && o.latest.LatestIs? && o.initialAppend.Done? && !SetupFails(o)
            ==> row.checkpointBefore == o.latest.id
    ensures !s.dryRun && GoodListing(o.listing) && (w.stateExists || w.stateLast == Null) ==>
              (row.checkpointAfter == Frontier(RunOnceOf(s, o, w).progress.world.log) <==> RunReports(s, o, w))
    ensures var failure := RunOnceOf(s, o, w).progress.run.failure;
            if o.resultAppend.Done? then failure.None? <==> row.failureKind == Null
            else failure == Some(Failure(CheckpointFailed, row.checkpointAfter, false, true))
  {
    var p0, q := Fresh(LoadedWorld(o, w), LoadedCheckpoint(w)), Processed(s, o, w);
    row := RowOf(ResultOf(o, q.run));
    ProcessedStarts(s, o, w);
    if HasCheckpoint(LoadedWorld(o, w).log) {
      InitializeIs(s, o, p0);
      SetupReports(o, p0);
    } else {
      LastInitialSyncIff(w.log);
      FirstSyncReports(s, o, p0, if o.latest.LatestIs? then o.latest.id else Null);
    }
    if !s.dryRun && GoodListing(o.listing) && (w.stateExists || w.stateLast == Null) {
      ProcessedReportsIff(s, o, w);
    }
  }

  /** A run behind a checkpoint delivers exactly the target messages among those it looked at whose
      notification returned true, in that order, and the counters of its row count those messages: with
      their details read, classified as targets, told, and classified as none. */
  lemma RowCounts(s: Settings, o: Outcomes, w: World, row: RunRow)
    requires HasCheckpoint(w.log) && !s.dryRun && RunOnceOf(s, o, w).Finished?
    requires RunOnceOf(s, o, w).progress.world.rows == w.rows + [row]
    ensures var looked := LookedAtBy(s, o, w);
            && RunOnceOf(s, o, w).progress.world.delivered == w.delivered + Those(s, o, Told, looked)
            && row.report.Some?
            && row.report.value.processed == |Those(s, o, Detailed, looked)|
            && row.report.value.matched == |Those(s, o, Target, looked)|
            && row.report.value.notified == |Those(s, o, Told, looked)|
            && row.report.value.nonTarget == |Those(s, o, Skipped, looked)|
  {
    ProcessedAdvances(s, o, w);
    ProcessedStarts(s, o, w);
    RowIs(s, o, w, row);
  }

  lemma RowIs(s: Settings, o: Outcomes, w: World, row: RunRow)
    requires RunOnceOf(s, o, w).Finished? && RunOnceOf(s, o, w).progress.world.rows == w.rows + [row]
    ensures row == RowOf(ResultOf(o, Processed(s, o, w).run))
  {
    ProcessedStarts(s, o, w);
    assert (w.rows + [row])[|w.rows|] == row;
  }

  /******* The failure a run tells of *******/

  /** The row names the failure, and the event log ends with it when the append of that event wrote its line. */
  predicate Tells(o: Outcomes, row: RunRow, log: seq<Event>, kind: FailureKind, id: JsonValue, retry: bool,
                  alert: bool)
  {
    && row.failureKind == Str(FailureText(kind))
    && row.report.Some? && row.report.value.failureMessageId == id
    && row.report.value.shouldRetry == retry && row.report.value.shouldAlert == alert
    && (!o.failureAppend.FailedEmpty? ==> log != [] && log[|log| - 1] == Event(Failed(kind), Null, Null, id))
  }

  lemma TellsIt(s: Settings, o: Outcomes, w: World, row: RunRow, f: Failure)
    requires RunOnceOf(s, o, w).Finished? && RunOnceOf(s, o, w).progress.world.rows == w.rows + [row]
    requires Processed(s, o, w).run.failure == Some(f)
    ensures Tells(o, row, RunOnceOf(s, o, w).progress.world.log, f.kind, f.messageId, f.shouldRetry, f.shouldAlert)
  {
    RowIs(s, o, w, row);
  }

  /** The failure with which the messages stop. */
  lemma {:induction false} MessagesStop(s: Settings, o: Outcomes, p: Progress, ids: seq<string>)
    requires !s.dryRun && p.run.failure.None?
    ensures var n := CleanCount(s, o, ids);
            if n == |ids| then ProcessAll(s, o, p, ids).run.failure.None?
            else && ProcessAll(s, o, p, ids).run.failure.Some?
                 && exists q :: MessageFailure(s, o, q, ids[n], ProcessAll(s, o, p, ids).run.failure.value)
    decreases ids
  {
    if ids != [] {
      var q := ProcessMessage(s, o, p, ids[0]);
      MessageReports(s, o, p, ids[0]);
      if PassesClean(s, o, ids[0]) {
        MessagesStop(s, o, q, ids[1..]);
      } else {
        assert MessageFailure(s, o, p, ids[0], q.run.failure.value);
        assert ProcessAll(s, o, q, ids[1..]) == q;
      }
    }
  }

  ghost predicate MessageFailure(s: Settings, o: Outcomes, p: Progress, id: string, f: Failure) {
    p.run.failure.None? && ProcessMessage(s, o, p, id).run.failure == Some(f)
  }

  /** A run behind a checkpoint that comes to its messages fails with the first one that does not pass, and
      its row tells at which step that one stopped; otherwise its row has no failure. */
  lemma RowTellsMessageFailure(s: Settings, o: Outcomes, w: World, row: RunRow)
    requires HasCheckpoint(w.log) && !s.dryRun && !(SetupDue(w.log) && SetupFails(o)) && !o.recoveryRaises
    requires o.service.Ready? && Select(o.listing, Frontier(w.log), s.maxMessages).Selected?
    requires RunOnceOf(s, o, w).Finished? && RunOnceOf(s, o, w).progress.world.rows == w.rows + [row]
    ensures var ids := Select(o.listing, Frontier(w.log), s.maxMessages).ids;
            var n, log := CleanCount(s, o, ids), RunOnceOf(s, o, w).progress.world.log;
            if n == |ids| then row.failureKind == Null
            else if !o.detailOk(ids[n]) then Tells(o, row, log, MessageDetailFailed, Str(ids[n]), true, true)
            else if o.classify(ids[n]).ClassifyRaised? || (s.matches(ids[n]) && o.notify(ids[n]).NotifyRaised?)
            then Tells(o, row, log, SourceFailed, Null, true, true)
            else if s.matches(ids[n]) && o.notify(ids[n]).NotSent?
            then Tells(o, row, log, DeliveryFailed, Str(ids[n]), true, true)
            else Tells(o, row, log, CheckpointFailed, Str(ids[n]), false, true)
  {
    var p0 := Fresh(w, Frontier(w.log));
    var p := Initialize(s, o, p0);
    InitializeIs(s, o, p0);
    SetupReports(o, p0);
    var ids := Select(o.listing, Frontier(w.log), s.maxMessages).ids;
    MessagesStop(s, o, p, ids);
    var q := ProcessAll(s, o, p, ids);
    assert Processed(s, o, w) == RecordFailure(o, q);
    if q.run.failure.Some? {
      TellsIt(s, o, w, row, q.run.failure.value);
    } else {
      RowIs(s, o, w, row);
    }
  }

  /** A run behind a checkpoint that does not come to its messages: a setup message or a recovery that raises,
      a mail service that is down for a while or for good, a listing that fails, and a checkpoint that is
      not listed each leave their own row. Only failures that pass by themselves ask for no alert. */
  lemma RowTellsSourceFailure(s: Settings, o: Outcomes, w: World, row: RunRow)
    requires HasCheckpoint(w.log) && !s.dryRun
    requires RunOnceOf(s, o, w).Finished? && RunOnceOf(s, o, w).progress.world.rows == w.rows + [row]
    ensures var log := RunOnceOf(s, o, w).progress.world.log;
            var selection := Select(o.listing, Frontier(w.log), s.maxMessages);
            if (SetupDue(w.log) && SetupFails(o)) || o.recoveryRaises
            then Tells(o, row, log, SourceFailed, Null, true, true)
            else if o.service.TransientlyDown? then Tells(o, row, log, SourceFailed, Null, true, false)
            else if o.service.PermanentlyDown? then Tells(o, row, log, AuthFailed, Null, false, true)
            else if selection.ListingFailed?
            then Tells(o, row, log, SourceFailed, Null, selection.transient, !selection.transient)
            else selection.CheckpointNotFound? ==> Tells(o, row, log, SourceFailed, Null, false, true)
  {
    var p0 := Fresh(w, Frontier(w.log));
    var p := Initialize(s, o, p0);
    InitializeIs(s, o, p0);
    SetupReports(o, p0);
    var q := Fetch(s, o, p);
    assert Processed(s, o, w) == RecordFailure(o, q);
    if q.run.failure.Some? {
      TellsIt(s, o, w, row, q.run.failure.value);
    }
  }

  /** A failure that is noted as a transient issue of the mail source. */
  predicate NotesIssue(s: Settings, o: Outcomes, w: World) {
    var selection := Select(o.listing, Frontier(w.log), s.maxMessages);
    || (SetupDue(w.log) && SetupFails(o)) || o.recoveryRaises || o.service.TransientlyDown?
    || (o.service.Ready? && selection.ListingFailed? && selection.transient)
    || (o.service.Ready? && selection.Selected? && StopsUnexpectedly(s, o, selection.ids))
  }

  /** The first message that does not pass makes the classifier or the notifier raise. */
  predicate StopsUnexpectedly(s: Settings, o: Outcomes, ids: seq<string>) {
    var n := CleanCount(s, o, ids);
    && n < |ids| && o.detailOk(ids[n])
    && (o.classify(ids[n]).ClassifyRaised? || (s.matches(ids[n]) && o.notify(ids[n]).NotifyRaised?))
  }

  predicate IsIssue(failure: Option<Failure>) {
    failure.Some? && failure.value.kind.SourceFailed? && failure.value.shouldRetry
  }

  lemma FetchNotesIssue(s: Settings, o: Outcomes, p: Progress)
    requires !s.dryRun && p.run.failure.None?
    ensures var selection := Select(o.listing, p.run.before, s.maxMessages);
            IsIssue(Fetch(s, o, p).run.failure)
            <==> || o.recoveryRaises || o.service.TransientlyDown?
                 || (o.service.Ready? && selection.ListingFailed? && selection.transient)
                 || (o.service.Ready? && selection.Selected? && StopsUnexpectedly(s, o, selection.ids))
  {
    var selection := Select(o.listing, p.run.before, s.maxMessages);
    if !o.recoveryRaises && o.service.Ready? && selection.Selected? {
      MessagesStop(s, o, p, selection.ids);
    }
  }

  /** A run behind a checkpoint ends with an exception instead of a result exactly when it is to note a
      transient issue and that raises. */
  lemma RunRaisesIff(s: Settings, o: Outcomes, w: World)
    requires HasCheckpoint(w.log) && !s.dryRun
    ensures RunOnceOf(s, o, w).Crashed? <==> o.markRaises && NotesIssue(s, o, w)
  {
    var p0 := Fresh(w, Frontier(w.log));
    var p := Initialize(s, o, p0);
    InitializeIs(s, o, p0);
    SetupReports(o, p0);
    if p.run.failure.None? {
      FetchNotesIssue(s, o, p);
    }
    assert Processed(s, o, w) == RecordFailure(o, Fetch(s, o, p));
  }

  /******* Dry runs *******/

  lemma {:induction false} DryMessages(s: Settings, o: Outcomes, p: Progress, ids: seq<string>)
    requires s.dryRun && p.run.failure.None?
    requires forall i :: 0 <= i < |ids| ==> o.detailOk(ids[i]) && o.classify(ids[i]).ClassifyOk?
    ensures ProcessAll(s, o, p, ids).world == p.world && ProcessAll(s, o, p, ids).run.failure.None?
    ensures ProcessAll(s, o, p, ids).run.after == if ids == [] then p.run.after else Str(ids[|ids| - 1])
    decreases ids
  {
    if ids != [] {
      DryMessages(s, o, ProcessMessage(s, o, p, ids[0]), ids[1..]);
    }
  }

  /** A dry run whose messages can all be read and classified delivers and logs nothing; its row names the
      last of them all the same. */
  lemma DryRunLeavesOnlyItsRow(s: Settings, o: Outcomes, w: World, row: RunRow)
    requires HasCheckpoint(w.log) && s.dryRun && o.service.Ready?
    requires Select(o.listing, Frontier(w.log), s.maxMessages).Selected?
    requires var ids := Select(o.listing, Frontier(w.log), s.maxMessages).ids;
             forall i :: 0 <= i < |ids| ==> o.detailOk(ids[i]) && o.classify(ids[i]).ClassifyOk?
    requires RunOnceOf(s, o, w).Finished? && RunOnceOf(s, o, w).progress.world.rows == w.rows + [row]
    ensures var p, ids := RunOnceOf(s, o, w).progress, Select(o.listing, Frontier(w.log), s.maxMessages).ids;
            && p.world.log == w.log && p.world.delivered == w.delivered && p.world.failedCommits == w.failedCommits
            && row.failureKind == Null
            && row.checkpointAfter == if ids == [] then Frontier(w.log) else Str(ids[|ids| - 1])
  {
    DryMessages(s, o, Fresh(w, Frontier(w.log)), Select(o.listing, Frontier(w.log), s.maxMessages).ids);
    RowIs(s, o, w, row);
  }

  /******* The summary *******/

  /** The summary rebuilt behind a run tells where the run started and how it ended, and its time of the last
      success is this run's or else the one before. */
  lemma SummaryAfterRun(s: Settings, o: Outcomes, w: World)
    requires HasCheckpoint(w.log) && RunOnceOf(s, o, w).Finished? && !o.resultAppend.FailedEmpty?
    ensures var p, failed := RunOnceOf(s, o, w).progress, Processed(s, o, w).run.failure.Some?;
            && p.world.rows != []
            && var summary := Rebuild(p.world.rows);
               && summary.checkpointBefore == Frontier(w.log)
               && summary.authStatus == o.authStatus
               && (summary.statusOk <==> !failed) && (summary.lastFailureKind == Null <==> !failed)
               && summary.lastSuccessAt == (if failed then LastSuccessAt(w.rows) else Str(o.endedAt))
               && (!s.dryRun && GoodListing(o.listing) && (w.stateExists || w.stateLast == Null) ==>
                     (summary.checkpointAfter == Frontier(p.world.log) <==> RunReports(s, o, w)))
  {
    var row := RunAddsOneRow(s, o, w);
    RowIs(s, o, w, row);
    assert (w.rows + [row])[..|w.rows|] == w.rows;
  }
}
