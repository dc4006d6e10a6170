/** What holds over every sequence of runs: the frontier never passes an undelivered message. */
module FrontierSafety {
  import opened Wrappers
  import opened Records
  import opened CheckpointStore
  import opened MailSource
  import opened Pipeline

  /** The mailbox, oldest message first. It grows only at the newest end. */
  predicate GoodMail(mail: seq<string>) {
    Distinct(mail) && forall i :: 0 <= i < |mail| ==> mail[i] != ""
  }

  /** The log's frontier is message `k`. */
  predicate At(mail: seq<string>, w: World, k: nat) {
    k < |mail| && HasCheckpoint(w.log) && Frontier(w.log) == Str(mail[k])
  }

  predicate DeliveredBetween(matches: string -> bool, mail: seq<string>, start: nat, k: nat, delivered: seq<string>)
    requires k < |mail|
  {
    forall j :: start < j <= k && matches(mail[j]) ==> mail[j] in delivered
  }

  /** Since the world `base`, `x` was delivered at most as often as its commit failed, once more if the
      frontier has passed it. */
  ghost predicate BudgetOf(x: string, base: World, delivered: seq<string>, failed: seq<string>, passed: seq<string>) {
    multiset(delivered)[x] + multiset(base.failedCommits)[x]
    <= multiset(base.delivered)[x] + multiset(failed)[x] + (if x in passed then 1 else 0)
  }

  ghost predicate WithinBudget(base: World, delivered: seq<string>, failed: seq<string>, passed: seq<string>) {
    forall x :: BudgetOf(x, base, delivered, failed, passed)
  }

  /** Where the checkpoint events of a piece of log lead from message `start`: each must name the message
      right behind the one before. */
  function Walk(mail: seq<string>, start: nat, piece: seq<Event>): Option<nat> {
    if piece == [] then Some(start)
    else
      var k, e := Walk(mail, start, piece[..|piece| - 1]), piece[|piece| - 1];
      if k.None? || !IsCheckpointEvent(e) then k
      else if k.value + 1 < |mail| && e.checkpoint == Str(mail[k.value + 1]) then Some(k.value + 1)
      else None
  }

  /** The log has only grown since the world `base`, and what was added walks to message `k`. */
  predicate Walked(mail: seq<string>, base: World, start: nat, log: seq<Event>, k: nat) {
    base.log <= log && Walk(mail, start, log[|base.log|..]) == Some(k)
  }

  /** The state of affairs after some runs that began with world `base` and message `start` as frontier. */
  ghost predicate Safe(matches: string -> bool, mail: seq<string>, base: World, start: nat, w: World, k: nat) {
    && start <= k
    && At(mail, w, k)
    && Walked(mail, base, start, w.log, k)
    && base.delivered <= w.delivered
    && DeliveredBetween(matches, mail, start, k, w.delivered)
    && WithinBudget(base, w.delivered, w.failedCommits, mail[start + 1..k + 1])
  }

  /******* Logging *******/

  lemma AppendedFrontier(log: seq<Event>, e: Event, out: AppendOutcome)
    requires HasCheckpoint(log)
    ensures HasCheckpoint(Appended(log, e, out))
    ensures Frontier(Appended(log, e, out))
         == if !out.FailedEmpty? && IsCheckpointEvent(e) then e.checkpoint else Frontier(log)
  {
    FrontierAppend(log, e);
    HasCheckpointConcat(log, [e]);
  }

  lemma WalkAppended(mail: seq<string>, base: World, start: nat, log: seq<Event>, k: nat, e: Event, out: AppendOutcome)
    requires Walked(mail, base, start, log, k)
    requires IsCheckpointEvent(e) ==> k + 1 < |mail| && e.checkpoint == Str(mail[k + 1])
    ensures Walked(mail, base, start, Appended(log, e, out),
                   if !out.FailedEmpty? && IsCheckpointEvent(e) then k + 1 else k)
  {
    var n := |base.log|;
    var piece := log[n..] + [e];
    assert (log + [e])[n..] == piece && piece[..|piece| - 1] == log[n..];
    assert base.log <= log + [e];
  }

  lemma {:induction false} WalkGrows(mail: seq<string>, arrived: seq<string>, start: nat, piece: seq<Event>)
    requires Walk(mail, start, piece).Some?
    ensures Walk(mail + arrived, start, piece) == Walk(mail, start, piece)
  {
    if piece != [] {
      WalkGrows(mail, arrived, start, piece[..|piece| - 1]);
    }
  }

  /** Appending an event that is no checkpoint changes nothing that safety speaks of. */
  lemma OtherEventKeepsSafe(
    matches: string -> bool, mail: seq<string>, base: World, start: nat, w: World, k: nat, e: Event, out: AppendOutcome)
    requires Safe(matches, mail, base, start, w, k) && !IsCheckpointEvent(e)
    ensures Safe(matches, mail, base, start, WithLog(w, e, out), k)
  {
    AppendedFrontier(w.log, e, out);
    WalkAppended(mail, base, start, w.log, k, e, out);
  }

  /******* One message *******/

  /** A commit whose line reached the log moves the frontier, whether or not the append reported success. */
  function Reached(s: Settings, o: Outcomes, id: string, k: nat): nat {
    if s.dryRun || o.commit(id).FailedEmpty? then k else k + 1
  }

  lemma BudgetGrows(base: World, delivered: seq<string>, failed: seq<string>, passed: seq<string>, id: string)
    requires WithinBudget(base, delivered, failed, passed)
    ensures WithinBudget(base, delivered, failed, passed + [id])
    ensures WithinBudget(base, delivered, failed + [id], passed)
    ensures id !in passed ==> WithinBudget(base, delivered + [id], failed, passed + [id])
  {
    forall x
      ensures BudgetOf(x, base, delivered, failed, passed + [id])
      ensures BudgetOf(x, base, delivered, failed + [id], passed)
      ensures id !in passed ==> BudgetOf(x, base, delivered + [id], failed, passed + [id])
    {
      assert BudgetOf(x, base, delivered, failed, passed);
    }
  }

  /** A failed commit pays for the delivery before it. */
  lemma BudgetSettles(base: World, delivered: seq<string>, failed: seq<string>, passed: seq<string>, id: string)
    requires WithinBudget(base, delivered, failed, passed + [id])
    ensures WithinBudget(base, delivered, failed + [id], passed)
  {
    forall x ensures BudgetOf(x, base, delivered, failed + [id], passed) {
      assert BudgetOf(x, base, delivered, failed, passed + [id]);
    }
  }

  lemma CommitFrontier(s: Settings, o: Outcomes, p: Progress, id: string)
    requires HasCheckpoint(p.world.log) && !s.dryRun
    ensures var q := Commit(s, o, p, id);
            && HasCheckpoint(q.world.log)
            && Frontier(q.world.log) == (if o.commit(id).FailedEmpty? then Frontier(p.world.log) else Str(id))
            && q.world.delivered == p.world.delivered
            && q.world.failedCommits == p.world.failedCommits + (if o.commit(id).Done? then [] else [id])
  {
    AppendedFrontier(p.world.log, Event(CheckpointAdvanced, Str(id), Null, Null), o.commit(id));
    var w := AfterAdvance(p.world, id, o.commit(id), o.snapshotOk(OnCommit(id)));
    AppendedFrontier(w.log, FailureEvent(CommitFailure(id)), o.commitFailureAppend);
  }

  lemma CommitWalks(s: Settings, o: Outcomes, mail: seq<string>, base: World, start: nat, p: Progress, k: nat)
    requires k + 1 < |mail| && !s.dryRun && Walked(mail, base, start, p.world.log, k)
    ensures Walked(mail, base, start, Commit(s, o, p, mail[k + 1]).world.log, Reached(s, o, mail[k + 1], k))
  {
    var id := mail[k + 1];
    var e := Event(CheckpointAdvanced, Str(id), Null, Null);
    WalkAppended(mail, base, start, p.world.log, k, e, o.commit(id));
    if !o.commit(id).Done? {
      WalkAppended(mail, base, start, Appended(p.world.log, e, o.commit(id)), Reached(s, o, id, k),
                   FailureEvent(CommitFailure(id)), o.commitFailureAppend);
    }
  }

  lemma CommitKeepsBudget(base: World, delivered: seq<string>, failed: seq<string>, passed: seq<string>, id: string)
    requires WithinBudget(base, delivered, failed, passed + [id])
    ensures WithinBudget(base, delivered, failed + [id], passed)
    ensures WithinBudget(base, delivered, failed + [id], passed + [id])
  {
    BudgetSettles(base, delivered, failed, passed, id);
    BudgetGrows(base, delivered, failed + [id], passed, id);
  }

  lemma CommitStaysWithin(s: Settings, o: Outcomes, mail: seq<string>, base: World, start: nat, p: Progress, k: nat)
    requires k + 1 < |mail| && start <= k && HasCheckpoint(p.world.log) && !s.dryRun
    requires WithinBudget(base, p.world.delivered, p.world.failedCommits, mail[start + 1..k + 1] + [mail[k + 1]])
    ensures var w := Commit(s, o, p, mail[k + 1]).world;
            WithinBudget(base, w.delivered, w.failedCommits, mail[start + 1..Reached(s, o, mail[k + 1], k) + 1])
  {
    var id, passed := mail[k + 1], mail[start + 1..k + 1];
    CommitFrontier(s, o, p, id);
    assert mail[start + 1..k + 2] == passed + [id];
    CommitKeepsBudget(base, p.world.delivered, p.world.failedCommits, passed, id);
  }

  lemma CommitKeepsSafe(s: Settings, o: Outcomes, mail: seq<string>, base: World, start: nat, p: Progress, k: nat)
    requires k + 1 < |mail| && start <= k && At(mail, p.world, k) && !s.dryRun
    requires Walked(mail, base, start, p.world.log, k) && base.delivered <= p.world.delivered
    requires DeliveredBetween(s.matches, mail, start, k, p.world.delivered)
    requires s.matches(mail[k + 1]) ==> mail[k + 1] in p.world.delivered
    requires WithinBudget(base, p.world.delivered, p.world.failedCommits, mail[start + 1..k + 1] + [mail[k + 1]])
    ensures Safe(s.matches, mail, base, start, Commit(s, o, p, mail[k + 1]).world, Reached(s, o, mail[k + 1], k))
  {
    CommitFrontier(s, o, p, mail[k + 1]);
    CommitWalks(s, o, mail, base, start, p, k);
    CommitStaysWithin(s, o, mail, base, start, p, k);
  }

  lemma MessageKeepsSafe(s: Settings, o: Outcomes, mail: seq<string>, base: World, start: nat, p: Progress, k: nat)
    returns (k': nat)
    requires GoodMail(mail) && k + 1 < |mail| && Safe(s.matches, mail, base, start, p.world, k)
    ensures k <= k' <= k + 1
    ensures Safe(s.matches, mail, base, start, ProcessMessage(s, o, p, mail[k + 1]).world, k')
    ensures ProcessMessage(s, o, p, mail[k + 1]).run.failure.None? && !s.dryRun ==> k' == k + 1
  {
    var id, passed := mail[k + 1], mail[start + 1..k + 1];
    if !o.detailOk(id) || o.classify(id).ClassifyRaised? || (s.matches(id) && !s.dryRun && !o.notify(id).Sent?) {
      k' := k;
    } else {
      k' := Reached(s, o, id, k);
      if !s.dryRun {
        assert id !in passed;
        BudgetGrows(base, p.world.delivered, p.world.failedCommits, passed, id);
        var p1 := p.(run := p.run.(processed := p.run.processed + 1));
        if s.matches(id) {
          var run := p1.run.(matched := p1.run.matched + 1, notified := p1.run.notified + 1);
          var w := p.world.(delivered := p.world.delivered + [id]);
          CommitKeepsSafe(s, o, mail, base, start, Progress(w, run), k);
        } else {
          CommitKeepsSafe(s, o, mail, base, start, p1.(run := p1.run.(nonTarget := p1.run.nonTarget + 1)), k);
        }
      }
    }
  }

  /******* One run *******/

  lemma {:induction false} DryRunKeepsWorld(s: Settings, o: Outcomes, p: Progress, ids: seq<string>)
    requires s.dryRun
    ensures ProcessAll(s, o, p, ids).world == p.world
    decreases ids
  {
    if ids != [] && p.run.failure.None? {
      DryRunKeepsWorld(s, o, ProcessMessage(s, o, p, ids[0]), ids[1..]);
    }
  }

  lemma {:induction false} MessagesKeepSafe(
    s: Settings, o: Outcomes, mail: seq<string>, base: World, start: nat, p: Progress, k: nat, ids: seq<string>)
    returns (k': nat)
    requires GoodMail(mail) && Safe(s.matches, mail, base, start, p.world, k) && !s.dryRun && ids <= mail[k + 1..]
    ensures k <= k' && Safe(s.matches, mail, base, start, ProcessAll(s, o, p, ids).world, k')
    decreases ids
  {
    k' := k;
    if ids != [] && p.run.failure.None? {
      var p' := ProcessMessage(s, o, p, ids[0]);
      assert ids[0] == mail[k + 1] && ids[1..] <= mail[k + 2..];
      k' := MessageKeepsSafe(s, o, mail, base, start, p, k);
      if p'.run.failure.Some? {
        assert ProcessAll(s, o, p', ids[1..]) == p';
      } else {
        k' := MessagesKeepSafe(s, o, mail, base, start, p', k + 1, ids[1..]);
      }
    }
  }

  /** With a frontier in the log, a run neither bootstraps nor initialises: at most it sends the setup
      message once more. */
  lemma InitializeKeepsSafe(s: Settings, o: Outcomes, mail: seq<string>, base: World, start: nat, p: Progress, k: nat)
    requires Safe(s.matches, mail, base, start, p.world, k)
    ensures Safe(s.matches, mail, base, start, Initialize(s, o, p).world, k)
    ensures Initialize(s, o, p).run.before == p.run.before
  {
    OtherEventKeepsSafe(s.matches, mail, base, start, p.world, k,
                        Event(InitialSyncNotificationSent, Null, Null, Null), o.markAppend);
  }

  lemma FetchKeepsSafe(s: Settings, o: Outcomes, mail: seq<string>, base: World, start: nat, p: Progress, k: nat)
    returns (k': nat)
    requires GoodMail(mail) && Flatten(o.listing.pages) == Reverse(mail)
    requires Safe(s.matches, mail, base, start, p.world, k) && p.run.before == Str(mail[k])
    ensures k <= k' && Safe(s.matches, mail, base, start, Fetch(s, o, p).world, k')
  {
    SelectsWithoutHole(mail, k, o.listing, s.maxMessages);
    k' := k;
    if Fetch(s, o, p).world != p.world {
      var ids := Take(mail[k + 1..], s.maxMessages);
      if s.dryRun {
        DryRunKeepsWorld(s, o, p, ids);
      } else {
        k' := MessagesKeepSafe(s, o, mail, base, start, p, k, ids);
      }
    }
  }

  /** However a run ends, its log and its deliveries are those it had when its failure was recorded. */
  lemma RunLeaves(s: Settings, o: Outcomes, w: World)
    requires !Bootstraps(w)
    ensures var p, w' := Processed(s, o, w), WorldAfter(s, o, w);
            w'.log == p.world.log && w'.delivered == p.world.delivered && w'.failedCommits == p.world.failedCommits
  {
  }

  lemma ProcessedIsSafe(s: Settings, o: Outcomes, mail: seq<string>, base: World, start: nat, w: World, k: nat)
    returns (k': nat)
    requires GoodMail(mail) && Flatten(o.listing.pages) == Reverse(mail) && Safe(s.matches, mail, base, start, w, k)
    ensures k <= k' && Safe(s.matches, mail, base, start, Processed(s, o, w).world, k')
  {
    assert w.log != [];
    var p0 := Fresh(w, Frontier(w.log));
    InitializeKeepsSafe(s, o, mail, base, start, p0, k);
    var p1 := Initialize(s, o, p0);
    k' := FetchKeepsSafe(s, o, mail, base, start, p1, k);
    var p2 := Fetch(s, o, p1);
    if p2.run.failure.Some? {
      OtherEventKeepsSafe(s.matches, mail, base, start, p2.world, k',
                          FailureEvent(p2.run.failure.value), o.failureAppend);
    }
  }

  lemma RunKeepsSafe(s: Settings, o: Outcomes, mail: seq<string>, base: World, start: nat, w: World, k: nat)
    returns (k': nat)
    requires GoodMail(mail) && Flatten(o.listing.pages) == Reverse(mail) && Safe(s.matches, mail, base, start, w, k)
    ensures k <= k' && Safe(s.matches, mail, base, start, WorldAfter(s, o, w), k')
  {
    assert w.log != [];
    k' := ProcessedIsSafe(s, o, mail, base, start, w, k);
    RunLeaves(s, o, w);
  }

  /******* Every sequence of runs *******/

  /** Messages arrive, a run with its own settings meets its outcomes, and what handles its result, or
      its exception, logs events that are no checkpoints. */
  datatype Round = Round(arrived: seq<string>, settings: Settings, outcomes: Outcomes, logged: seq<Event>)

  /** The mailbox and the world before the first round and after every round. */
  datatype Moment = Moment(mail: seq<string>, world: World)

  /** Between two runs others may also change the run log and the snapshot in any way. */
  predicate Leads(ran: World, logged: seq<Event>, after: World) {
    && !HasCheckpoint(logged)
    && after.log == ran.log + logged
    && after.delivered == ran.delivered
    && after.failedCommits == ran.failedCommits
  }

  /** Ids stay distinct, and the listing shows the mailbox as it is then, in any pages. Only which messages
      match is the same in every run. */
  ghost predicate Happens(matches: string -> bool, before: Moment, round: Round, after: Moment) {
    && after.mail == before.mail + round.arrived
    && GoodMail(after.mail)
    && round.settings.matches == matches
    && Flatten(round.outcomes.listing.pages) == Reverse(after.mail)
    && Leads(WorldAfter(round.settings, round.outcomes, before.world), round.logged, after.world)
  }

  ghost predicate HappensAt(matches: string -> bool, moments: seq<Moment>, rounds: seq<Round>, i: nat)
    requires i < |rounds| && |moments| == |rounds| + 1
  {
    Happens(matches, moments[i], rounds[i], moments[i + 1])
  }

  ghost predicate IsRun(matches: string -> bool, moments: seq<Moment>, rounds: seq<Round>) {
    && |moments| == |rounds| + 1
    && GoodMail(moments[0].mail)
    && forall i :: 0 <= i < |rounds| ==> HappensAt(matches, moments, rounds, i)
  }

  lemma {:induction false} LoggedKeepsSafe(
    matches: string -> bool, mail: seq<string>, base: World, start: nat, w: World, k: nat, logged: seq<Event>)
    requires Safe(matches, mail, base, start, w, k) && !HasCheckpoint(logged)
    ensures Safe(matches, mail, base, start, w.(log := w.log + logged), k)
    decreases logged
  {
    if logged == [] {
      assert w.log + [] == w.log;
    } else {
      var before, e := logged[..|logged| - 1], logged[|logged| - 1];
      assert logged == before + [e];
      HasCheckpointConcat(before, [e]);
      LoggedKeepsSafe(matches, mail, base, start, w, k, before);
      assert !IsCheckpointEvent([e][0]);
      OtherEventKeepsSafe(matches, mail, base, start, w.(log := w.log + before), k, e, Done);
      assert w.log + logged == (w.log + before) + [e];
    }
  }

  lemma LeadsKeepsSafe(
    matches: string -> bool, mail: seq<string>, base: World, start: nat, ran: World, k: nat, logged: seq<Event>,
    after: World)
    requires Safe(matches, mail, base, start, ran, k) && Leads(ran, logged, after)
    ensures Safe(matches, mail, base, start, after, k)
  {
    LoggedKeepsSafe(matches, mail, base, start, ran, k, logged);
  }

  lemma RoundKeepsSafe(
    matches: string -> bool, before: Moment, round: Round, after: Moment, base: World, start: nat, k: nat)
    returns (k': nat)
    requires Happens(matches, before, round, after) && Safe(matches, before.mail, base, start, before.world, k)
    ensures k <= k' && Safe(matches, after.mail, base, start, after.world, k')
  {
    var s := round.settings;
    var ran := WorldAfter(s, round.outcomes, before.world);
    assert after.mail[start + 1..k + 1] == before.mail[start + 1..k + 1];
    WalkGrows(before.mail, round.arrived, start, before.world.log[|base.log|..]);
    k' := RunKeepsSafe(s, round.outcomes, after.mail, base, start, before.world, k);
    LeadsKeepsSafe(matches, after.mail, base, start, ran, k', round.logged, after.world);
  }

  lemma {:induction false} RoundsKeepSafe(
    matches: string -> bool, moments: seq<Moment>, rounds: seq<Round>, i: nat, j: nat, start: nat)
    returns (k: nat)
    requires IsRun(matches, moments, rounds) && i <= j < |moments| && At(moments[i].mail, moments[i].world, start)
    ensures start <= k && Safe(matches, moments[j].mail, moments[i].world, start, moments[j].world, k)
    decreases j
  {
    if i == j {
      k := start;
      assert moments[i].mail[start + 1..start + 1] == [];
      assert moments[i].world.log[|moments[i].world.log|..] == [];
    } else {
      k := RoundsKeepSafe(matches, moments, rounds, i, j - 1, start);
      assert HappensAt(matches, moments, rounds, j - 1);
      k := RoundKeepsSafe(matches, moments[j - 1], rounds[j - 1], moments[j], moments[i].world, start, k);
    }
  }

  lemma {:induction false} MailGrows(matches: string -> bool, moments: seq<Moment>, rounds: seq<Round>, i: nat, j: nat)
    requires IsRun(matches, moments, rounds) && i <= j < |moments|
    ensures moments[i].mail <= moments[j].mail && GoodMail(moments[j].mail)
    decreases j
  {
    if i < j {
      MailGrows(matches, moments, rounds, i, j - 1);
      assert HappensAt(matches, moments, rounds, j - 1);
    } else if 0 < j {
      assert HappensAt(matches, moments, rounds, j - 1);
    }
  }

  /** The promise: start with message `start` as the frontier; after every number of runs with any
      outcomes the frontier is a message at or behind it, and every matching message after the start
      and up to the frontier has had its notification return true. */
  lemma FrontierNeverPassesUndelivered(
    matches: string -> bool, moments: seq<Moment>, rounds: seq<Round>, j: nat, start: nat)
    requires IsRun(matches, moments, rounds) && j < |moments|
    requires At(moments[0].mail, moments[0].world, start) && moments[0].world.delivered == []
    ensures exists k :: start <= k < |moments[j].mail|
                     && At(moments[j].mail, moments[j].world, k)
                     && DeliveredBetween(matches, moments[j].mail, start, k, moments[j].world.delivered)
  {
    var k := RoundsKeepSafe(matches, moments, rounds, 0, j, start);
  }

  /** The frontier never moves back in inbox order: the message that is the frontier at a later moment is
      at or behind the one that was the frontier before. */
  lemma FrontierNeverMovesBack(
    matches: string -> bool, moments: seq<Moment>, rounds: seq<Round>, i: nat, j: nat, k: nat, k': nat)
    requires IsRun(matches, moments, rounds) && i <= j < |moments|
    requires At(moments[i].mail, moments[i].world, k) && At(moments[j].mail, moments[j].world, k')
    ensures k <= k'
  {
    var reached := RoundsKeepSafe(matches, moments, rounds, i, j, k);
    MailGrows(matches, moments, rounds, i, j);
  }

  /** Over any sequence of runs a message is delivered at most once more than its commit failed. */
  lemma DeliveriesAreBounded(
    matches: string -> bool, moments: seq<Moment>, rounds: seq<Round>, j: nat, start: nat, x: string)
    requires IsRun(matches, moments, rounds) && j < |moments| && At(moments[0].mail, moments[0].world, start)
    requires moments[0].world.delivered == [] && moments[0].world.failedCommits == []
    ensures multiset(moments[j].world.delivered)[x] <= 1 + multiset(moments[j].world.failedCommits)[x]
  {
    var k := RoundsKeepSafe(matches, moments, rounds, 0, j, start);
    var w := moments[j].world;
    assert BudgetOf(x, moments[0].world, w.delivered, w.failedCommits, moments[j].mail[start + 1..k + 1]);
  }

  lemma SetupKeepsFrontier(o: Outcomes, p: Progress)
    requires HasCheckpoint(p.world.log)
    ensures var q := SendSetup(o, p);
            && HasCheckpoint(q.world.log) && Frontier(q.world.log) == Frontier(p.world.log)
            && q.world.delivered == p.world.delivered
  {
    AppendedFrontier(p.world.log, Event(InitialSyncNotificationSent, Null, Null, Null), o.markAppend);
  }

  /** Completing the first synchronisation with the newest message as checkpoint puts the frontier there. */
  lemma FirstSyncSetsFrontier(s: Settings, o: Outcomes, p: Progress, newest: JsonValue)
    requires p.world.log == [] && s.skipExisting && p.run.failure.None? && !o.initialAppend.FailedEmpty?
    ensures var q := CompleteFirstSync(s, o, p, newest);
            && HasCheckpoint(q.world.log) && Frontier(q.world.log) == newest
            && q.world.delivered == p.world.delivered
            && (q.run.failure.None? ==> q.run.before == newest)
  {
    var first := Event(InitialSyncCompleted, newest, Null, SKIP_EXISTING);
    var w := WithLog(p.world, first, o.initialAppend);
    assert w.log == [first];
    assert IsCheckpointEvent([first][0]);
    if o.initialAppend.Done? {
      SetupKeepsFrontier(o, p.(world := if o.snapshotOk(OnInitialSync)
                                        then w.(stateLast := newest, stateExists := true) else w));
    }
  }

  lemma NothingNewFetchesNothing(s: Settings, o: Outcomes, mail: seq<string>, p: Progress)
    requires GoodMail(mail) && mail != [] && Flatten(o.listing.pages) == Reverse(mail)
    requires p.run.failure.None? ==> p.run.before == Str(mail[|mail| - 1])
    ensures Fetch(s, o, p).world == p.world
  {
    SelectsWithoutHole(mail, |mail| - 1, o.listing, s.maxMessages);
    assert Take(mail[|mail|..], s.maxMessages) == [];
  }

  lemma FirstInitialize(s: Settings, o: Outcomes, p: Progress, newest: JsonValue)
    requires p.world.log == [] && p.world.stateLast == Null && !p.world.stateExists && s.skipExisting && !s.dryRun
    requires o.service.Ready? && o.latest == LatestIs(newest)
    ensures Initialize(s, o, p) == CompleteFirstSync(s, o, p, newest)
  {
  }

  lemma RecordKeepsFrontier(o: Outcomes, p: Progress)
    requires HasCheckpoint(p.world.log)
    ensures var w := RecordFailure(o, p).world;
            && HasCheckpoint(w.log) && Frontier(w.log) == Frontier(p.world.log)
            && w.delivered == p.world.delivered
  {
    if p.run.failure.Some? {
      AppendedFrontier(p.world.log, FailureEvent(p.run.failure.value), o.failureAppend);
    }
  }

  /** The first run of an installation that skips existing mail: once its initial event is in the log the
      frontier is the newest message, and that run delivers nothing. */
  lemma FirstRunSkipsExisting(s: Settings, o: Outcomes, mail: seq<string>, w: World)
    requires GoodMail(mail) && mail != [] && Flatten(o.listing.pages) == Reverse(mail)
    requires w.log == [] && w.stateLast == Null && !w.stateExists && s.skipExisting && !s.dryRun
    requires o.service.Ready? && o.latest == LatestIs(Str(mail[|mail| - 1])) && !o.initialAppend.FailedEmpty?
    ensures At(mail, WorldAfter(s, o, w), |mail| - 1)
    ensures WorldAfter(s, o, w).delivered == w.delivered
  {
    var newest, p0 := Str(mail[|mail| - 1]), Fresh(w, Null);
    var p := Initialize(s, o, p0);
    assert p == CompleteFirstSync(s, o, p0, newest) by { FirstInitialize(s, o, p0, newest); }
    FirstSyncSetsFrontier(s, o, p0, newest);
    var q := Fetch(s, o, p);
    assert q.world == p.world by { NothingNewFetchesNothing(s, o, mail, p); }
    RecordKeepsFrontier(o, q);
    RunLeaves(s, o, w);
  }
}
