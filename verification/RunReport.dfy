/** What the result of a run reports: its counters, and when its checkpoint is the log's frontier. */
module RunReport {
  import opened Wrappers
  import opened Records
  import opened CheckpointStore
  import opened MailSource
  import opened Pipeline
  import opened FrontierSafety

  /******* What a run reports *******/

  predicate CountsAddUp(s: Settings, before: World, p: Progress) {
    && p.run.nonTarget + p.run.matched <= p.run.processed <= p.run.nonTarget + p.run.matched + 1
    && p.run.notified <= p.run.matched <= p.run.notified + 1
    && |p.world.delivered| == |before.delivered| + (if s.dryRun then 0 else p.run.notified)
    && (p.run.failure.None? ==> p.run.processed == p.run.nonTarget + p.run.matched && p.run.matched == p.run.notified)
  }

  lemma {:induction false} MessagesCountUp(s: Settings, o: Outcomes, before: World, p: Progress, ids: seq<string>)
    requires CountsAddUp(s, before, p)
    ensures CountsAddUp(s, before, ProcessAll(s, o, p, ids))
    ensures p.run.failure.None? && ProcessAll(s, o, p, ids).run.failure.None?
            ==> ProcessAll(s, o, p, ids).run.processed == p.run.processed + |ids|
    decreases ids
  {
    if ids != [] && p.run.failure.None? {
      MessagesCountUp(s, o, before, ProcessMessage(s, o, p, ids[0]), ids[1..]);
    }
  }

  lemma InitializeCountsNothing(s: Settings, o: Outcomes, before: World, p: Progress)
    requires p.world.delivered == before.delivered && p.run == Fresh(p.world, p.run.before).run
    ensures CountsAddUp(s, before, Initialize(s, o, p))
  {
  }

  /** The counters of a finished run account for every message it looked at, and the notified ones are
      exactly those it delivered. */
  lemma RunCountsAddUp(s: Settings, o: Outcomes, w: World)
    requires RunOnceOf(s, o, w).Finished?
    ensures var p := RunOnceOf(s, o, w).progress;
            && p.run.nonTarget + p.run.matched <= p.run.processed <= p.run.nonTarget + p.run.matched + 1
            && p.run.notified <= p.run.matched <= p.run.notified + 1
            && |p.world.delivered| == |w.delivered| + (if s.dryRun then 0 else p.run.notified)
  {
    var p0 := Fresh(LoadedWorld(o, w), LoadedCheckpoint(w));
    InitializeCountsNothing(s, o, w, p0);
    var p := Initialize(s, o, p0);
    assert CountsAddUp(s, w, Fetch(s, o, p)) by {
      match Select(o.listing, p.run.before, s.maxMessages)
      case Selected(ids) => MessagesCountUp(s, o, w, p, ids);
      case _ =>
    }
  }

  /******* Messages *******/

  /** The message comes as far as its commit. */
  predicate ComesToCommit(s: Settings, o: Outcomes, id: string) {
    o.detailOk(id) && o.classify(id).ClassifyOk? && (!s.matches(id) || o.notify(id).Sent?)
  }

  predicate PassesClean(s: Settings, o: Outcomes, id: string) {
    ComesToCommit(s, o, id) && o.commit(id).Done?
  }

  /** How many messages at the head pass without a failure. */
  function CleanCount(s: Settings, o: Outcomes, ids: seq<string>): (n: nat)
    ensures n <= |ids|
  {
    if ids == [] || !PassesClean(s, o, ids[0]) then 0 else 1 + CleanCount(s, o, ids[1..])
  }

  /** The first message that does not pass is committed by an append that writes its line and then fails. */
  predicate StopsUnnoticed(s: Settings, o: Outcomes, ids: seq<string>) {
    var n := CleanCount(s, o, ids);
    n < |ids| && ComesToCommit(s, o, ids[n]) && o.commit(ids[n]).FailedWhole?
  }

  predicate ReportsIt(p: Progress) {
    p.run.after == Frontier(p.world.log)
  }

  lemma AppendedNames(log: seq<Event>, e: Event, out: AppendOutcome)
    ensures Frontier(Appended(log, e, out))
         == if !out.FailedEmpty? && IsCheckpointEvent(e) then e.checkpoint else Frontier(log)
  {
    FrontierAppend(log, e);
  }

  lemma CommitReports(s: Settings, o: Outcomes, p: Progress, id: string)
    requires !s.dryRun && p.run.failure.None?
    ensures var q := Commit(s, o, p, id);
            && Frontier(q.world.log) == (if o.commit(id).FailedEmpty? then Frontier(p.world.log) else Str(id))
            && q.run.after == (if o.commit(id).Done? then Str(id) else p.run.after)
            && (q.run.failure.None? <==> o.commit(id).Done?)
  {
    var w := AfterAdvance(p.world, id, o.commit(id), o.snapshotOk(OnCommit(id)));
    AppendedNames(p.world.log, Event(CheckpointAdvanced, Str(id), Null, Null), o.commit(id));
    AppendedNames(w.log, FailureEvent(CommitFailure(id)), o.commitFailureAppend);
  }

  lemma MessageReports(s: Settings, o: Outcomes, p: Progress, id: string)
    requires !s.dryRun && p.run.failure.None?
    ensures var q := ProcessMessage(s, o, p, id);
            && (q.run.failure.None? <==> PassesClean(s, o, id))
            && q.run.after == (if PassesClean(s, o, id) then Str(id) else p.run.after)
            && Frontier(q.world.log)
               == if ComesToCommit(s, o, id) && !o.commit(id).FailedEmpty? then Str(id) else Frontier(p.world.log)
  {
    if ComesToCommit(s, o, id) {
      var run := p.run.(processed := p.run.processed + 1);
      if s.matches(id) {
        CommitReports(s, o, Progress(p.world.(delivered := p.world.delivered + [id]),
                                     run.(matched := run.matched + 1, notified := run.notified + 1)), id);
      } else {
        CommitReports(s, o, Progress(p.world, run.(nonTarget := run.nonTarget + 1)), id);
      }
    }
  }

  /** What the messages of a run leave in its result is the log's frontier if and only if the first message
      that does not pass is not one whose commit was written and then failed, and some message passed or
      the two agreed before. */
  lemma {:induction false} MessagesReportFrontierIff(s: Settings, o: Outcomes, p: Progress, ids: seq<string>)
    requires !s.dryRun && p.run.failure.None?
    requires Distinct(ids) && forall i :: 0 <= i < |ids| ==> Str(ids[i]) != p.run.after
    ensures ReportsIt(ProcessAll(s, o, p, ids))
       <==> !StopsUnnoticed(s, o, ids) && (CleanCount(s, o, ids) > 0 || ReportsIt(p))
    decreases ids
  {
    if ids != [] {
      var q := ProcessMessage(s, o, p, ids[0]);
      MessageReports(s, o, p, ids[0]);
      if PassesClean(s, o, ids[0]) {
        MessagesReportFrontierIff(s, o, q, ids[1..]);
      } else {
        assert ProcessAll(s, o, q, ids[1..]) == q;
      }
    }
  }

  /******* A whole run *******/

  /** Ids are distinct and not empty. */
  predicate GoodListing(l: Listing) {
    Distinct(Flatten(l.pages)) && "" !in Flatten(l.pages)
  }

  /** The messages that a run which starts from checkpoint `before` comes to look at. */
  function Fetched(s: Settings, o: Outcomes, before: JsonValue): seq<string> {
    if o.recoveryRaises || ServiceFailure(o.service).Some? then []
    else match Select(o.listing, before, s.maxMessages)
         case Selected(ids) => ids
         case _ => []
  }

  predicate SetupFails(o: Outcomes) {
    o.setup.SetupRaised? || (o.setup.SetupSent? && !o.markAppend.Done?)
  }

  /** Fetching from checkpoint `before` ends with a report that is the log's frontier; `agreed` says that it
      was before. */
  predicate FetchReports(s: Settings, o: Outcomes, before: JsonValue, agreed: bool) {
    var ids := Fetched(s, o, before);
    !StopsUnnoticed(s, o, ids) && (CleanCount(s, o, ids) > 0 || agreed)
  }

  /** When a run's result names the log's frontier, told from what the run meets. */
  predicate RunReports(s: Settings, o: Outcomes, w: World) {
    var log, before := LoadedWorld(o, w).log, LoadedCheckpoint(w);
    match InitialSyncOf(log, w.stateLast, w.stateExists)
    case Completed(_, _, sent) =>
      if !sent && SetupFails(o) then before == Frontier(log) else FetchReports(s, o, before, before == Frontier(log))
    case NotCompleted =>
      if !s.skipExisting then !o.initialAppend.Done? || SetupFails(o) || FetchReports(s, o, Null, true)
      else if ServiceFailure(o.service).Some? || o.latest.LatestRaised? || o.initialAppend.FailedEmpty? then true
      else if o.initialAppend.FailedWhole? || SetupFails(o) then o.latest.id == Null
      else FetchReports(s, o, o.latest.id, true)
  }

  lemma {:induction false} CollectIsPrefix(l: Listing, checkpoint: JsonValue, k: nat)
    requires k <= |l.pages|
    ensures var col := Collect(l, checkpoint, k);
            col.Pending? ==>
              && col.ids <= Flatten(l.pages[k..])
              && (checkpoint.Str? && checkpoint.s != "" ==> checkpoint.s !in col.ids)
    decreases |l.pages| - k
  {
    if !FailsAt(l, k) && PageAt(l, k) != [] {
      var page := l.pages[k];
      assert l.pages[k..][0] == page && l.pages[k..][1..] == l.pages[k + 1..];
      if NamedIn(checkpoint, page) {
        BeforeIsPrefix(checkpoint.s, page);
      } else if !checkpoint.Null? && k + 1 < |l.pages| {
        CollectIsPrefix(l, checkpoint, k + 1);
      }
    }
  }

  lemma {:induction false} BeforeIsPrefix(x: string, ids: seq<string>)
    ensures Before(x, ids) <= ids && x !in Before(x, ids)
  {
    if ids != [] && ids[0] != x {
      BeforeIsPrefix(x, ids[1..]);
    }
  }

  lemma FetchedAreNew(s: Settings, o: Outcomes, before: JsonValue)
    requires GoodListing(o.listing)
    ensures var ids := Fetched(s, o, before);
            Distinct(ids) && forall i :: 0 <= i < |ids| ==> Str(ids[i]) != before
  {
    CollectIsPrefix(o.listing, before, 0);
    assert o.listing.pages[0..] == o.listing.pages;
    var ids := Fetched(s, o, before);
    if ids != [] {
      var all, pending := Flatten(o.listing.pages), Collect(o.listing, before, 0).ids;
      assert ids <= Reverse(pending);
      forall i | 0 <= i < |ids| ensures ids[i] == all[|pending| - 1 - i] && Str(ids[i]) != before {
        assert ids[i] == pending[|pending| - 1 - i];
        assert ids[i] in pending && ids[i] in all;
      }
    }
  }

  lemma FetchReportsIff(s: Settings, o: Outcomes, p: Progress)
    requires !s.dryRun && p.run.failure.None? && p.run.before == p.run.after && GoodListing(o.listing)
    ensures ReportsIt(Fetch(s, o, p)) <==> FetchReports(s, o, p.run.before, ReportsIt(p))
  {
    var ids := Fetched(s, o, p.run.before);
    FetchedAreNew(s, o, p.run.before);
    MessagesReportFrontierIff(s, o, p, ids);
  }

  lemma SetupReports(o: Outcomes, p: Progress)
    requires p.run.failure.None?
    ensures var q := SendSetup(o, p);
            && (q.run.failure.Some? <==> SetupFails(o))
            && q.run.(failure := None) == p.run
            && Frontier(q.world.log) == Frontier(p.world.log)
  {
    AppendedNames(p.world.log, Event(InitialSyncNotificationSent, Null, Null, Null), o.markAppend);
  }

  lemma FirstSyncReports(s: Settings, o: Outcomes, p: Progress, checkpoint: JsonValue)
    requires p.run.failure.None?
    ensures var q := CompleteFirstSync(s, o, p, checkpoint);
            && Frontier(q.world.log) == (if o.initialAppend.FailedEmpty? then Frontier(p.world.log) else checkpoint)
            && (q.run.failure.None? <==> o.initialAppend.Done? && !SetupFails(o))
            && (if q.run.failure.None? then q.run.before == q.run.after == checkpoint
                else q.run.before == p.run.before && q.run.after == p.run.after)
  {
    var mode := if s.skipExisting then SKIP_EXISTING else BACKFILL;
    var first := Event(InitialSyncCompleted, checkpoint, Null, mode);
    AppendedNames(p.world.log, first, o.initialAppend);
    var w := WithLog(p.world, first, o.initialAppend);
    if o.initialAppend.Done? {
      SetupReports(o, p.(world := if o.snapshotOk(OnInitialSync)
                                  then w.(stateLast := checkpoint, stateExists := true) else w));
    }
  }

  lemma LoadedAgrees(o: Outcomes, w: World)
    requires Bootstraps(w) ==> o.bootstrap.Done?
    ensures LoadedWorld(o, w).stateLast == w.stateLast && LoadedWorld(o, w).stateExists == w.stateExists
    ensures InitialSyncOf(LoadedWorld(o, w).log, w.stateLast, w.stateExists).NotCompleted?
            ==> Frontier(LoadedWorld(o, w).log) == Null && LoadedCheckpoint(w) == w.stateLast && !w.stateExists
  {
    if !HasCheckpoint(LoadedWorld(o, w).log) {
      NoCheckpointNoFrontier(LoadedWorld(o, w).log);
    }
  }

  lemma FirstRunReports(s: Settings, o: Outcomes, p: Progress, w: World)
    requires !s.dryRun && p.run.failure.None? && GoodListing(o.listing)
    requires p.run.before == p.run.after == Frontier(p.world.log) == Null
    requires InitialSyncOf(p.world.log, p.world.stateLast, p.world.stateExists).NotCompleted?
    requires p == Fresh(LoadedWorld(o, w), LoadedCheckpoint(w)) && p.world.stateLast == w.stateLast
    requires p.world.stateExists == w.stateExists
    ensures ReportsIt(Fetch(s, o, Initialize(s, o, p))) <==> RunReports(s, o, w)
  {
    var q := Initialize(s, o, p);
    FirstSyncReports(s, o, p, if s.skipExisting && o.latest.LatestIs? then o.latest.id else Null);
    if q.run.failure.None? {
      FetchReportsIff(s, o, q);
    }
  }

  lemma LaterRunReports(s: Settings, o: Outcomes, p: Progress, w: World)
    requires !s.dryRun && p.run.failure.None? && GoodListing(o.listing)
    requires p == Fresh(LoadedWorld(o, w), LoadedCheckpoint(w)) && p.world.stateLast == w.stateLast
    requires p.world.stateExists == w.stateExists
    requires InitialSyncOf(p.world.log, p.world.stateLast, p.world.stateExists).Completed?
    ensures ReportsIt(Fetch(s, o, Initialize(s, o, p))) <==> RunReports(s, o, w)
  {
    var q := Initialize(s, o, p);
    SetupReports(o, p);
    if q.run.failure.None? {
      FetchReportsIff(s, o, q);
    }
  }

  lemma ProcessedReportsIff(s: Settings, o: Outcomes, w: World)
    requires !s.dryRun && GoodListing(o.listing) && (Bootstraps(w) ==> o.bootstrap.Done?)
    requires w.stateExists || w.stateLast == Null
    ensures ReportsIt(Processed(s, o, w)) <==> RunReports(s, o, w)
  {
    var p := Fresh(LoadedWorld(o, w), LoadedCheckpoint(w));
    LoadedAgrees(o, w);
    if InitialSyncOf(p.world.log, p.world.stateLast, p.world.stateExists).NotCompleted? {
      FirstRunReports(s, o, p, w);
    } else {
      LaterRunReports(s, o, p, w);
    }
    var q := Fetch(s, o, Initialize(s, o, p));
    if q.run.failure.Some? {
      AppendedNames(q.world.log, FailureEvent(q.run.failure.value), o.failureAppend);
    }
  }

  /** The checkpoint in the result of a run, the first one included, is the log's frontier if and only if
      `RunReports` says so of what the run meets. A snapshot that does not exist has no checkpoint. */
  lemma RunReportsFrontierIff(s: Settings, o: Outcomes, w: World)
    requires !s.dryRun && GoodListing(o.listing) && RunOnceOf(s, o, w).Finished?
    requires w.stateExists || w.stateLast == Null
    ensures var p := RunOnceOf(s, o, w).progress;
            p.run.after == Frontier(p.world.log) <==> RunReports(s, o, w)
  {
    ProcessedReportsIff(s, o, w);
  }

  /******* Reports that lag *******/

  /** Everything succeeds, with messages `a` and then `b` in the mailbox. */
  const LUCKY := Outcomes(
    Done, LatestIs(Str("b")), Done, SetupSent, Done, false, Ready, Listing([["b", "a"]], None),
    id => true, id => ClassifyOk, id => Sent, id => Done, Done, Done, false, write => true, write => true,
    Done, "run", "now", Null)

  const SKIPPING := Settings(id => true, 50, true, false)

  const NEW_INSTALLATION := World([], [], Null, false, [], [])

  /** A first run whose setup message raises reports no checkpoint, while the log names the newest message. */
  lemma FirstReportCanLag()
    ensures var o := LUCKY.(setup := SetupRaised);
            && RunOnceOf(SKIPPING, o, NEW_INSTALLATION).Finished?
            && var p := RunOnceOf(SKIPPING, o, NEW_INSTALLATION).progress;
               p.run.after == Null && Frontier(p.world.log) == Str("b")
  {
  }

  /** A later run whose commit append writes its line and then fails reports the message before. */
  lemma CommittedReportCanLag()
    ensures var o := LUCKY.(commit := id => FailedWhole);
            var w := NEW_INSTALLATION.(log := [Event(CheckpointAdvanced, Str("a"), Null, Null)]);
            && RunOnceOf(SKIPPING, o, w).Finished?
            && var p := RunOnceOf(SKIPPING, o, w).progress;
               p.run.after == Str("a") && Frontier(p.world.log) == Str("b")
  {
    var o := LUCKY.(commit := id => FailedWhole);
    var w := NEW_INSTALLATION.(log := [Event(CheckpointAdvanced, Str("a"), Null, Null)]);
    assert IsCheckpointEvent(w.log[0]);
    var p := Initialize(SKIPPING, o, Fresh(w, Str("a")));
    assert p == Fresh(w, Str("a"));
    LaterRunLooksAt(o);
    MessageReports(SKIPPING, o, p, "b");
    var q := ProcessMessage(SKIPPING, o, p, "b");
    assert ProcessAll(SKIPPING, o, p, ["b"]) == ProcessAll(SKIPPING, o, q, []) == q;
    AppendedNames(q.world.log, FailureEvent(q.run.failure.value), o.failureAppend);
  }

  lemma LaterRunLooksAt(o: Outcomes)
    requires o.listing == LUCKY.listing
    ensures Select(o.listing, Str("a"), 50) == Selected(["b"])
  {
    assert PageAt(o.listing, 0) == ["b", "a"];
    assert Before("a", ["b", "a"]) == ["b"];
    assert Reverse(["b"]) == ["b"];
  }
}
