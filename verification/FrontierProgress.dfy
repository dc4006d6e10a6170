/** Runs in which nothing fails: how far they come and exactly what they deliver. */
module FrontierProgress {
  import opened Wrappers
  import opened Records
  import opened CheckpointStore
  import opened MailSource
  import opened Pipeline
  import opened FrontierSafety

  /******* One run *******/

  predicate NothingFailsFor(o: Outcomes, id: string) {
    o.detailOk(id) && o.classify(id).ClassifyOk? && o.notify(id).Sent? && o.commit(id).Done?
  }

  /** Nothing fails; whether alerts, caches and the result's row are written does not matter. */
  ghost predicate FailureFree(o: Outcomes) {
    && !o.recoveryRaises && o.service.Ready? && o.listing.failure.None?
    && (o.setup.SetupNotSent? || (o.setup.SetupSent? && o.markAppend.Done?))
    && (forall id :: NothingFailsFor(o, id))
  }

  function Matching(matches: string -> bool, ids: seq<string>): seq<string> {
    if ids == [] then [] else (if matches(ids[0]) then [ids[0]] else []) + Matching(matches, ids[1..])
  }

  lemma {:induction false} MatchingConcat(matches: string -> bool, a: seq<string>, b: seq<string>)
    ensures Matching(matches, a + b) == Matching(matches, a) + Matching(matches, b)
  {
    if a == [] {
      assert a + b == b;
    } else {
      assert (a + b)[1..] == a[1..] + b;
      MatchingConcat(matches, a[1..], b);
    }
  }

  lemma MessageProcessed(s: Settings, o: Outcomes, p: Progress, id: string)
    requires FailureFree(o) && !s.dryRun && p.run.failure.None? && HasCheckpoint(p.world.log)
    ensures var q := ProcessMessage(s, o, p, id);
            && q.run.failure.None?
            && q.world.delivered == p.world.delivered + (if s.matches(id) then [id] else [])
            && HasCheckpoint(q.world.log) && Frontier(q.world.log) == Str(id)
  {
    AppendedFrontier(p.world.log, Event(CheckpointAdvanced, Str(id), Null, Null), o.commit(id));
    assert NothingFailsFor(o, id);
  }

  lemma {:induction false} MessagesAllProcessed(s: Settings, o: Outcomes, p: Progress, ids: seq<string>)
    requires FailureFree(o) && !s.dryRun && p.run.failure.None? && HasCheckpoint(p.world.log)
    ensures var q := ProcessAll(s, o, p, ids);
            && q.run.failure.None?
            && q.world.delivered == p.world.delivered + Matching(s.matches, ids)
            && HasCheckpoint(q.world.log)
            && Frontier(q.world.log) == if ids == [] then Frontier(p.world.log) else Str(ids[|ids| - 1])
    decreases ids
  {
    if ids != [] {
      MessageProcessed(s, o, p, ids[0]);
      MessagesAllProcessed(s, o, ProcessMessage(s, o, p, ids[0]), ids[1..]);
    }
  }

  function Min(a: int, b: int): int {
    if a < b then a else b
  }

  /** From `w` with frontier `k` to `w'` with frontier `k'`, all matching messages in between delivered. */
  predicate Advances(matches: string -> bool, mail: seq<string>, w: World, k: nat, w': World, k': nat) {
    && k <= k' && At(mail, w', k')
    && w'.delivered == w.delivered + Matching(matches, mail[k + 1..k' + 1])
  }

  lemma SlicesJoin<T>(a: seq<T>, i: nat, j: nat, k: nat)
    requires i <= j <= k <= |a|
    ensures a[i..k] == a[i..j] + a[j..k]
  {
  }

  lemma AdvancesTransitive(
    matches: string -> bool, mail: seq<string>, w: World, k: nat, w1: World, k1: nat, w2: World, k2: nat)
    requires Advances(matches, mail, w, k, w1, k1) && Advances(matches, mail, w1, k1, w2, k2)
    ensures Advances(matches, mail, w, k, w2, k2)
  {
    var first, second := mail[k + 1..k1 + 1], mail[k1 + 1..k2 + 1];
    SlicesJoin(mail, k + 1, k1 + 1, k2 + 1);
    calc {
      w2.delivered;
      w.delivered + Matching(matches, first) + Matching(matches, second);
      w.delivered + (Matching(matches, first) + Matching(matches, second));
      { MatchingConcat(matches, first, second); }
      w.delivered + Matching(matches, first + second);
    }
  }

  lemma FailureFreeInitialize(s: Settings, o: Outcomes, w: World)
    requires FailureFree(o) && !s.dryRun && HasCheckpoint(w.log)
    ensures var p := Initialize(s, o, Fresh(w, Frontier(w.log)));
            && p.run == Fresh(w, Frontier(w.log)).run
            && HasCheckpoint(p.world.log) && Frontier(p.world.log) == Frontier(w.log)
            && p.world.delivered == w.delivered
  {
    AppendedFrontier(w.log, Event(InitialSyncNotificationSent, Null, Null, Null), o.markAppend);
  }

  lemma FailureFreeFetch(s: Settings, o: Outcomes, mail: seq<string>, p: Progress, k: nat)
    requires GoodMail(mail) && Flatten(o.listing.pages) == Reverse(mail) && At(mail, p.world, k)
    requires FailureFree(o) && mail[k] in Visible(o.listing.pages) && !s.dryRun
    requires p.run.failure.None? && p.run.before == Str(mail[k])
    ensures var q := Fetch(s, o, p);
            && q.run.failure.None?
            && Advances(s.matches, mail, p.world, k, q.world, Min(k + s.maxMessages, |mail| - 1))
  {
    var ids := mail[k + 1..Min(k + s.maxMessages, |mail| - 1) + 1];
    SelectsWithoutHole(mail, k, o.listing, s.maxMessages);
    assert Select(o.listing, Str(mail[k]), s.maxMessages) == Selected(ids);
    MessagesAllProcessed(s, o, p, ids);
  }

  lemma CleanRun(s: Settings, o: Outcomes, mail: seq<string>, w: World, k: nat, k': nat, p: Progress, q: Progress)
    requires HasCheckpoint(w.log) && p == Initialize(s, o, Fresh(w, Frontier(w.log))) && q == Fetch(s, o, p)
    requires q.run.failure.None? && p.world.delivered == w.delivered
    requires Advances(s.matches, mail, p.world, k, q.world, k')
    ensures Advances(s.matches, mail, w, k, WorldAfter(s, o, w), k')
  {
    assert !Bootstraps(w) && RecordFailure(o, q) == q;
    RunLeaves(s, o, w);
  }

  /** One failure-free run takes the frontier exactly `maxMessages` further, or to the newest message,
      and delivers exactly the matching ones in between, oldest first. The frontier has to be among the
      messages that paging reaches; `SelectsOldestNewer` says what happens otherwise. */
  lemma FailureFreeRunAdvances(s: Settings, o: Outcomes, mail: seq<string>, w: World, k: nat)
    requires GoodMail(mail) && Flatten(o.listing.pages) == Reverse(mail) && At(mail, w, k)
    requires FailureFree(o) && mail[k] in Visible(o.listing.pages) && !s.dryRun
    ensures Advances(s.matches, mail, w, k, WorldAfter(s, o, w), Min(k + s.maxMessages, |mail| - 1))
  {
    var p := Initialize(s, o, Fresh(w, Frontier(w.log)));
    FailureFreeInitialize(s, o, w);
    FailureFreeFetch(s, o, mail, p, k);
    CleanRun(s, o, mail, w, k, Min(k + s.maxMessages, |mail| - 1), p, Fetch(s, o, p));
  }

  /******* Many runs *******/

  /** A round in which nothing arrives and nothing fails, with `m` messages per run, and in which paging
      reaches the message `x`. */
  ghost predicate Quiet(round: Round, m: nat, x: string) {
    && round.arrived == [] && round.settings.maxMessages == m && !round.settings.dryRun
    && FailureFree(round.outcomes) && x in Visible(round.outcomes.listing.pages)
  }

  /** Where the frontier is after `r` runs that each take it `m` messages further. */
  function Reach(k: nat, r: nat, m: nat, last: nat): nat
    decreases r
  {
    if r == 0 then k else Reach(Min(k + m, last), r - 1, m, last)
  }

  lemma {:induction false} ReachNext(k: nat, r: nat, m: nat, last: nat)
    requires k <= last
    ensures k <= Reach(k, r, m, last) <= last
    ensures Reach(k, r + 1, m, last) == Min(Reach(k, r, m, last) + m, last)
    decreases r
  {
    if r > 0 {
      ReachNext(Min(k + m, last), r - 1, m, last);
    }
  }

  lemma {:induction false} ReachIs(k: nat, r: nat, m: nat, last: nat)
    requires k <= last
    ensures Reach(k, r, m, last) == Min(k + r * m, last)
    decreases r
  {
    if r > 0 {
      ReachIs(Min(k + m, last), r - 1, m, last);
      assert r * m == m + (r - 1) * m && (r - 1) * m >= 0;
    }
  }

  /** Paging that reaches a message reaches every newer one. */
  lemma NewerIsVisible(mail: seq<string>, pages: seq<seq<string>>, k: nat, k': nat)
    requires GoodMail(mail) && Flatten(pages) == Reverse(mail) && k <= k' < |mail| && mail[k] in Visible(pages)
    ensures mail[k'] in Visible(pages)
  {
    VisibleIsPrefix(pages);
    var i :| 0 <= i < |Visible(pages)| && Visible(pages)[i] == mail[k];
    assert mail[|mail| - 1 - i] == mail[k];
    assert i == |mail| - 1 - k;
    assert Visible(pages)[|mail| - 1 - k'] == Reverse(mail)[|mail| - 1 - k'] == mail[k'];
  }

  lemma LeadsKeepsAdvance(
    matches: string -> bool, mail: seq<string>, w: World, k: nat, ran: World, k': nat, logged: seq<Event>, after: World)
    requires Advances(matches, mail, w, k, ran, k') && Leads(ran, logged, after)
    ensures Advances(matches, mail, w, k, after, k')
  {
    FrontierConcat(ran.log, logged);
    HasCheckpointConcat(ran.log, logged);
  }

  lemma AdvancesIn(
    matches: string -> bool, m: nat, s: Settings, mail: seq<string>, w: World, k: nat, ran: World, logged: seq<Event>,
    w': World)
    requires k < |mail| && s.matches == matches && s.maxMessages == m
    requires Advances(s.matches, mail, w, k, ran, Min(k + s.maxMessages, |mail| - 1)) && Leads(ran, logged, w')
    ensures Advances(matches, mail, w, k, w', Min(k + m, |mail| - 1))
  {
    LeadsKeepsAdvance(matches, mail, w, k, ran, Min(k + m, |mail| - 1), logged, w');
  }

  lemma QuietRunAdvances(
    matches: string -> bool, m: nat, s: Settings, o: Outcomes, mail: seq<string>, w: World, k: nat, logged: seq<Event>,
    w': World)
    requires s.matches == matches && s.maxMessages == m && !s.dryRun
    requires GoodMail(mail) && Flatten(o.listing.pages) == Reverse(mail) && At(mail, w, k)
    requires FailureFree(o) && mail[k] in Visible(o.listing.pages)
    requires Leads(WorldAfter(s, o, w), logged, w')
    ensures Advances(matches, mail, w, k, w', Min(k + m, |mail| - 1))
  {
    FailureFreeRunAdvances(s, o, mail, w, k);
    AdvancesIn(matches, m, s, mail, w, k, WorldAfter(s, o, w), logged, w');
  }

  /** What a quiet round says about its run. */
  lemma QuietRound(matches: string -> bool, before: Moment, round: Round, after: Moment, m: nat, k: nat, k': nat)
    requires Happens(matches, before, round, after) && k <= k' < |before.mail| && Quiet(round, m, before.mail[k])
    ensures after.mail == before.mail && GoodMail(before.mail)
    ensures Flatten(round.outcomes.listing.pages) == Reverse(before.mail)
    ensures before.mail[k'] in Visible(round.outcomes.listing.pages)
  {
    assert before.mail + [] == before.mail;
    NewerIsVisible(before.mail, round.outcomes.listing.pages, k, k');
  }

  lemma QuietRoundAdvances(
    matches: string -> bool, before: Moment, round: Round, after: Moment, m: nat, k: nat, k': nat)
    requires Happens(matches, before, round, after) && k <= k' && At(before.mail, before.world, k')
    requires Quiet(round, m, before.mail[k])
    ensures after.mail == before.mail
    ensures Advances(matches, before.mail, before.world, k', after.world, Min(k' + m, |before.mail| - 1))
  {
    QuietRound(matches, before, round, after, m, k, k');
    QuietRunAdvances(matches, m, round.settings, round.outcomes, before.mail, before.world, k', round.logged,
                     after.world);
  }

  lemma HappensThen(matches: string -> bool, moments: seq<Moment>, rounds: seq<Round>, n: nat)
    requires IsRun(matches, moments, rounds) && n < |rounds|
    ensures Happens(matches, moments[n], rounds[n], moments[n + 1])
  {
    assert HappensAt(matches, moments, rounds, n);
  }

  lemma QuietStep(
    matches: string -> bool, moments: seq<Moment>, rounds: seq<Round>, n: nat, m: nat, mail: seq<string>,
    k: nat, k': nat)
    requires IsRun(matches, moments, rounds) && n < |rounds| && moments[n].mail == mail
    requires k <= k' && At(mail, moments[n].world, k') && Quiet(rounds[n], m, mail[k])
    ensures moments[n + 1].mail == mail
    ensures Advances(matches, mail, moments[n].world, k', moments[n + 1].world, Min(k' + m, |mail| - 1))
  {
    HappensThen(matches, moments, rounds, n);
    QuietRoundAdvances(matches, moments[n], rounds[n], moments[n + 1], m, k, k');
  }

  lemma AdvancesOnce(
    matches: string -> bool, mail: seq<string>, m: nat, w: World, k: nat, w1: World, n: nat, w2: World)
    requires k < |mail| && n > 0
    requires Advances(matches, mail, w, k, w1, Reach(k, n - 1, m, |mail| - 1))
    requires Advances(matches, mail, w1, Reach(k, n - 1, m, |mail| - 1), w2,
                      Min(Reach(k, n - 1, m, |mail| - 1) + m, |mail| - 1))
    ensures Advances(matches, mail, w, k, w2, Reach(k, n, m, |mail| - 1))
  {
    var k1 := Reach(k, n - 1, m, |mail| - 1);
    AdvancesTransitive(matches, mail, w, k, w1, k1, w2, Min(k1 + m, |mail| - 1));
    ReachNext(k, n - 1, m, |mail| - 1);
  }

  ghost predicate QuietUpTo(rounds: seq<Round>, n: nat, m: nat, x: string)
    requires n <= |rounds|
  {
    forall i :: 0 <= i < n ==> Quiet(rounds[i], m, x)
  }

  /** Where `n` quiet rounds lead. */
  lemma {:induction false} QuietRoundsAdvance(
    matches: string -> bool, moments: seq<Moment>, rounds: seq<Round>, n: nat, m: nat, k: nat)
    requires IsRun(matches, moments, rounds) && n <= |rounds| && At(moments[0].mail, moments[0].world, k)
    requires QuietUpTo(rounds, n, m, moments[0].mail[k])
    ensures moments[n].mail == moments[0].mail
    ensures Advances(matches, moments[0].mail, moments[0].world, k, moments[n].world,
                     Reach(k, n, m, |moments[0].mail| - 1))
    decreases n
  {
    var mail := moments[0].mail;
    if n == 0 {
      assert mail[k + 1..k + 1] == [];
    } else {
      QuietRoundsAdvance(matches, moments, rounds, n - 1, m, k);
      QuietStep(matches, moments, rounds, n - 1, m, mail, k, Reach(k, n - 1, m, |mail| - 1));
      AdvancesOnce(matches, mail, m, moments[0].world, k, moments[n - 1].world, n, moments[n].world);
    }
  }

  /** `n / d`, rounded up. */
  function CeilDiv(n: nat, d: nat): nat
    requires d > 0
  {
    (n + d - 1) / d
  }

  lemma CeilDivCovers(n: nat, d: nat)
    requires d > 0
    ensures CeilDiv(n, d) * d >= n
  {
    assert n + d - 1 == CeilDiv(n, d) * d + (n + d - 1) % d;
  }

  /** That many steps of `m` lead to the newest message. */
  lemma EnoughSteps(matches: string -> bool, mail: seq<string>, w: World, k: nat, m: nat, w': World)
    requires m > 0 && k < |mail|
    requires Advances(matches, mail, w, k, w', Reach(k, CeilDiv(|mail| - 1 - k, m), m, |mail| - 1))
    ensures At(mail, w', |mail| - 1) && w'.delivered == w.delivered + Matching(matches, mail[k + 1..])
  {
    CeilDivCovers(|mail| - 1 - k, m);
    ReachIs(k, CeilDiv(|mail| - 1 - k, m), m, |mail| - 1);
    assert mail[k + 1..|mail|] == mail[k + 1..];
  }

  /** With a fixed mailbox of `n` messages newer than the frontier, `n / m` failure-free runs of `m`
      messages each, rounded up, bring the frontier to the newest message and deliver exactly the matching
      messages, once each and oldest first. */
  lemma EnoughRunsReachTheNewest(
    matches: string -> bool, moments: seq<Moment>, rounds: seq<Round>, m: nat, k: nat)
    requires IsRun(matches, moments, rounds) && m > 0 && At(moments[0].mail, moments[0].world, k)
    requires QuietUpTo(rounds, |rounds|, m, moments[0].mail[k])
    requires |rounds| == CeilDiv(|moments[0].mail| - 1 - k, m)
    ensures var mail, w, w' := moments[0].mail, moments[0].world, moments[|rounds|].world;
            At(mail, w', |mail| - 1) && w'.delivered == w.delivered + Matching(matches, mail[k + 1..])
  {
    QuietRoundsAdvance(matches, moments, rounds, |rounds|, m, k);
    EnoughSteps(matches, moments[0].mail, moments[0].world, k, m, moments[|rounds|].world);
  }
}
