/** What happens once in the life of an installation: its setup message, and the move from a snapshot to a log. */
module FirstRuns {
  import opened Wrappers
  import opened Records
  import opened CheckpointStore
  import opened MailSource
  import opened Pipeline
  import opened FrontierSafety
  import opened RunRows

  /******* The setup message *******/

  /** How often the log says that the setup message was sent. */
  function Marks(log: seq<Event>): nat {
    if log == [] then 0
    else Marks(log[..|log| - 1]) + (if log[|log| - 1].name.InitialSyncNotificationSent? then 1 else 0)
  }

  lemma MarksAppended(log: seq<Event>, e: Event, out: AppendOutcome)
    ensures Marks(Appended(log, e, out))
         == Marks(log) + (if e.name.InitialSyncNotificationSent? && !out.FailedEmpty? then 1 else 0)
  {
    assert (log + [e])[..|log|] == log;
  }

  lemma {:induction false} MarksConcat(log: seq<Event>, more: seq<Event>)
    ensures Marks(log + more) == Marks(log) + Marks(more)
  {
    if more == [] {
      assert log + more == log;
    } else {
      var last := more[|more| - 1];
      assert (log + more)[..|log + more| - 1] == log + more[..|more| - 1];
      MarksConcat(log, more[..|more| - 1]);
    }
  }

  lemma {:induction false} MarkedIff(log: seq<Event>)
    ensures Marks(log) > 0 <==> HasEvent(log, InitialSyncNotificationSent)
  {
    if log != [] {
      var before := log[..|log| - 1];
      MarkedIff(before);
      if HasEvent(log, InitialSyncNotificationSent) && !log[|log| - 1].name.InitialSyncNotificationSent? {
        var i :| 0 <= i < |log| && log[i].name == InitialSyncNotificationSent;
        assert before[i] == log[i];
      }
    }
  }

  lemma MessageMarks(s: Settings, o: Outcomes, p: Progress, id: string)
    ensures Marks(ProcessMessage(s, o, p, id).world.log) == Marks(p.world.log)
  {
    var e, f := Event(CheckpointAdvanced, Str(id), Null, Null), FailureEvent(CommitFailure(id));
    MarksAppended(p.world.log, e, o.commit(id));
    MarksAppended(Appended(p.world.log, e, o.commit(id)), f, o.commitFailureAppend);
  }

  lemma {:induction false} MessagesMark(s: Settings, o: Outcomes, p: Progress, ids: seq<string>)
    ensures Marks(ProcessAll(s, o, p, ids).world.log) == Marks(p.world.log)
    decreases ids
  {
    if ids != [] && p.run.failure.None? {
      MessageMarks(s, o, p, ids[0]);
      MessagesMark(s, o, ProcessMessage(s, o, p, ids[0]), ids[1..]);
    }
  }

  lemma FetchMarks(s: Settings, o: Outcomes, p: Progress)
    ensures Marks(Fetch(s, o, p).world.log) == Marks(p.world.log)
  {
    match Select(o.listing, p.run.before, s.maxMessages)
    case Selected(ids) => MessagesMark(s, o, p, ids);
    case _ =>
  }

  /** A run behind a checkpoint logs the setup message as sent if and only if it was due, its send
      succeeded, and that line was written. */
  lemma RunMarksIff(s: Settings, o: Outcomes, w: World)
    requires HasCheckpoint(w.log)
    ensures Marks(WorldAfter(s, o, w).log) == Marks(w.log)
            + (if !s.dryRun && SetupDue(w.log) && o.setup.SetupSent? && !o.markAppend.FailedEmpty? then 1 else 0)
  {
    var p0 := Fresh(w, Frontier(w.log));
    var p := Initialize(s, o, p0);
    InitializeIs(s, o, p0);
    MarksAppended(w.log, Event(InitialSyncNotificationSent, Null, Null, Null), o.markAppend);
    FetchMarks(s, o, p);
    var q := Fetch(s, o, p);
    if q.run.failure.Some? {
      MarksAppended(q.world.log, FailureEvent(q.run.failure.value), o.failureAppend);
    }
    RunLeaves(s, o, w);
  }

  lemma RoundMarks(matches: string -> bool, before: Moment, round: Round, after: Moment)
    requires Happens(matches, before, round, after) && HasCheckpoint(before.world.log)
    requires Marks(before.world.log) <= 1 && Marks(round.logged) == 0
    ensures Marks(after.world.log) <= 1
  {
    var ran := WorldAfter(round.settings, round.outcomes, before.world);
    RunMarksIff(round.settings, round.outcomes, before.world);
    MarkedIff(before.world.log);
    MarksConcat(ran.log, round.logged);
  }

  /** Over every sequence of runs the setup message is logged as sent at most once. */
  lemma {:induction false} SetupIsMarkedOnce(
    matches: string -> bool, moments: seq<Moment>, rounds: seq<Round>, j: nat, start: nat)
    requires IsRun(matches, moments, rounds) && j < |moments| && At(moments[0].mail, moments[0].world, start)
    requires Marks(moments[0].world.log) <= 1 && forall i :: 0 <= i < |rounds| ==> Marks(rounds[i].logged) == 0
    ensures Marks(moments[j].world.log) <= 1
    decreases j
  {
    if j > 0 {
      SetupIsMarkedOnce(matches, moments, rounds, j - 1, start);
      var k := RoundsKeepSafe(matches, moments, rounds, 0, j - 1, start);
      assert HappensAt(matches, moments, rounds, j - 1);
      RoundMarks(matches, moments[j - 1], rounds[j - 1], moments[j]);
    }
  }

  /** The first synchronisation is recorded with its mode and with the message it starts from. */
  lemma FirstSyncIsRecorded(s: Settings, o: Outcomes, p: Progress)
    requires InitialSyncOf(p.world.log, p.world.stateLast, p.world.stateExists).NotCompleted? && !s.dryRun
    requires s.skipExisting ==> o.service.Ready? && o.latest.LatestIs?
    requires !o.initialAppend.FailedEmpty?
    ensures var log, n := Initialize(s, o, p).world.log, |p.world.log|;
            && n < |log| && log[..n] == p.world.log && log[n].name == InitialSyncCompleted
            && (if s.skipExisting then log[n].checkpoint == o.latest.id && log[n].detail == Str("skip_existing")
                else log[n].checkpoint == p.run.before && log[n].detail == Str("backfill"))
  {
  }

  /******* A first run that fails *******/

  /** A first run that cannot reach the mail service leaves the installation new for the next run if and only
      if its result did not make a snapshot: with one, the next run takes it for an older installation and
      never skips the existing mail. */
  lemma FailedFirstRunStaysFirstIff(s: Settings, o: Outcomes, w: World)
    requires w.log == [] && w.stateLast == Null && !w.stateExists && s.skipExisting && !s.dryRun
    requires !o.service.Ready? && RunOnceOf(s, o, w).Finished?
    ensures var w' := WorldAfter(s, o, w);
            && w'.delivered == w.delivered && !HasCheckpoint(w'.log)
            && (InitialSyncOf(w'.log, w'.stateLast, w'.stateExists).NotCompleted?
                <==> !(o.resultAppend.Done? && o.snapshotOk(OnResult)))
  {
    var p := Initialize(s, o, Fresh(w, Null));
    assert p == Raise(Fresh(w, Null), ServiceFailure(o.service).value);
    var e := FailureEvent(ServiceFailure(o.service).value);
    assert WorldAfter(s, o, w).log == Appended([], e, o.failureAppend);
    LastInitialSyncIff(WorldAfter(s, o, w).log);
  }

  /******* The move from the snapshot to the log *******/

  /** The first run of an installation that has only a snapshot puts its checkpoint into the log and goes on
      from there as from any log: nothing behind that message is passed undelivered. */
  lemma SnapshotBecomesFrontier(s: Settings, o: Outcomes, mail: seq<string>, w: World, k: nat) returns (k': nat)
    requires GoodMail(mail) && Flatten(o.listing.pages) == Reverse(mail) && k < |mail|
    requires w.log == [] && w.stateLast == Str(mail[k]) && !o.bootstrap.FailedEmpty?
    ensures k <= k' && At(mail, WorldAfter(s, o, w), k')
    ensures DeliveredBetween(s.matches, mail, k, k', WorldAfter(s, o, w).delivered)
  {
    var w1 := LoadedWorld(o, w);
    assert |w1.log| == 1 && w1.log[0].checkpoint == w.stateLast;
    assert IsCheckpointEvent(w1.log[0]) && At(mail, w1, k);
    StartsThere(s.matches, mail, w1, k);
    if o.bootstrap.Done? {
      k' := RunKeepsSafe(s, o, mail, w1, k, w1, k);
      assert WorldAfter(s, o, w) == WorldAfter(s, o, w1);
    } else {
      k' := k;
    }
  }

  lemma StartsThere(matches: string -> bool, mail: seq<string>, w: World, k: nat)
    requires At(mail, w, k)
    ensures Safe(matches, mail, w, k, w, k)
  {
    assert mail[k + 1..k + 1] == [];
    assert w.log[|w.log|..] == [];
  }
}
