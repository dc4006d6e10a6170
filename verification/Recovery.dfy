/** Delivery and recovery together: what the frontier read back from a damaged log still means. */
module Recovery {
  import opened Wrappers
  import opened JsonLines
  import opened Records
  import opened CheckpointIndex
  import opened CheckpointStore
  import opened MailSource
  import opened Pipeline
  import opened FrontierSafety

  /** A shorter log walks to an earlier message. */
  lemma {:induction false} WalkPrefix(mail: seq<string>, start: nat, piece: seq<Event>, m: nat)
    requires m <= |piece| && Walk(mail, start, piece).Some?
    ensures Walk(mail, start, piece[..m]).Some?
    ensures start <= Walk(mail, start, piece[..m]).value <= Walk(mail, start, piece).value
  {
    if m == |piece| {
      assert piece[..m] == piece;
      WalkStarts(mail, start, piece);
    } else {
      assert piece[..|piece| - 1][..m] == piece[..m];
      WalkPrefix(mail, start, piece[..|piece| - 1], m);
    }
  }

  lemma {:induction false} WalkStarts(mail: seq<string>, start: nat, piece: seq<Event>)
    requires Walk(mail, start, piece).Some?
    ensures start <= Walk(mail, start, piece).value
  {
    if piece != [] {
      WalkStarts(mail, start, piece[..|piece| - 1]);
    }
  }

  /** The frontier of a log is where its walk leads. */
  lemma {:induction false} WalkIsFrontier(mail: seq<string>, start: nat, head: seq<Event>, piece: seq<Event>)
    requires start < |mail| && HasCheckpoint(head) && Frontier(head) == Str(mail[start])
    requires Walk(mail, start, piece).Some?
    ensures Walk(mail, start, piece).value < |mail|
    ensures HasCheckpoint(head + piece) && Frontier(head + piece) == Str(mail[Walk(mail, start, piece).value])
  {
    if piece == [] {
      assert head + piece == head;
    } else {
      var before, e := piece[..|piece| - 1], piece[|piece| - 1];
      WalkIsFrontier(mail, start, head, before);
      assert head + piece == (head + before) + [e];
      FrontierAppend(head + before, e);
      HasCheckpointConcat(head + before, [e]);
    }
  }

  lemma {:induction false} WalkConcat(mail: seq<string>, start: nat, a: seq<Event>, b: seq<Event>)
    requires Walk(mail, start, a).Some?
    ensures Walk(mail, start, a + b) == Walk(mail, Walk(mail, start, a).value, b)
  {
    if b == [] {
      assert a + b == a;
    } else {
      assert (a + b)[..|a + b| - 1] == a + b[..|b| - 1];
      WalkConcat(mail, start, a, b[..|b| - 1]);
    }
  }

  /******* Runs and crashes *******/

  /** A round, or a crash that leaves only the first `kept` lines of the event log. A process that stops in the
      middle of a run leaves the log that a run leaves whose next appends fail and write nothing. */
  datatype Step = Ran(round: Round) | TailLost(kept: nat)

  /** A crash takes no line that was there at the start and no delivery back. What it does to the run
      log and to the snapshot does not matter. */
  predicate CrashLeaves(base: World, before: Moment, kept: nat, after: Moment) {
    && |base.log| <= kept <= |before.world.log|
    && after.mail == before.mail
    && after.world.log == before.world.log[..kept]
    && after.world.delivered == before.world.delivered
  }

  ghost predicate StepHappens(matches: string -> bool, base: World, before: Moment, step: Step, after: Moment) {
    match step
    case Ran(round) => Happens(matches, before, round, after)
    case TailLost(kept) => CrashLeaves(base, before, kept, after)
  }

  ghost predicate StepAt(matches: string -> bool, moments: seq<Moment>, steps: seq<Step>, i: nat)
    requires i < |steps| && |moments| == |steps| + 1
  {
    StepHappens(matches, moments[0].world, moments[i], steps[i], moments[i + 1])
  }

  ghost predicate IsStormyRun(matches: string -> bool, moments: seq<Moment>, steps: seq<Step>) {
    && |moments| == |steps| + 1
    && GoodMail(moments[0].mail)
    && forall i :: 0 <= i < |steps| ==> StepAt(matches, moments, steps, i)
  }

  /** The frontier is message `k`, the log says how it came there, and everything on the way was delivered. */
  ghost predicate Durable(matches: string -> bool, base: World, start: nat, m: Moment, k: nat) {
    && GoodMail(m.mail) && start <= k && At(m.mail, m.world, k)
    && Walked(m.mail, base, start, m.world.log, k)
    && DeliveredBetween(matches, m.mail, start, k, m.world.delivered)
  }

  /** Whatever part of the log is kept behind the first `|base.log|` events, its frontier is no later than
      the one of the whole log. */
  lemma KeptFrontier(mail: seq<string>, base: World, start: nat, log: seq<Event>, k: nat, kept: nat) returns (k': nat)
    requires start < |mail| && HasCheckpoint(base.log) && Frontier(base.log) == Str(mail[start])
    requires Walked(mail, base, start, log, k) && |base.log| <= kept <= |log|
    ensures start <= k' <= k && k' < |mail| && Walked(mail, base, start, log[..kept], k')
    ensures HasCheckpoint(log[..kept]) && Frontier(log[..kept]) == Str(mail[k'])
  {
    var piece, m := log[|base.log|..], kept - |base.log|;
    WalkPrefix(mail, start, piece, m);
    WalkIsFrontier(mail, start, base.log, piece[..m]);
    assert log[..kept] == base.log + piece[..m];
    assert log[..kept][|base.log|..] == piece[..m];
    k' := Walk(mail, start, piece[..m]).value;
  }

  /** What was safe from the world `before` on continues what was durable up to it. */
  lemma SafeExtendsDurable(
    matches: string -> bool, base: World, start: nat, before: Moment, arrived: seq<string>, after: Moment,
    k: nat, k': nat)
    requires Durable(matches, base, start, before, k)
    requires GoodMail(after.mail) && after.mail == before.mail + arrived
    requires Safe(matches, after.mail, before.world, k, after.world, k')
    ensures Durable(matches, base, start, after, k')
  {
    var n, w := |base.log|, before.world;
    var first, second := w.log[n..], after.world.log[|w.log|..];
    assert Walked(after.mail, base, start, after.world.log, k') by {
      WalkGrows(before.mail, arrived, start, first);
      WalkConcat(after.mail, start, first, second);
      assert after.world.log[n..] == first + second;
    }
    forall j | start < j <= k' && matches(after.mail[j]) ensures after.mail[j] in after.world.delivered {
      if j <= k {
        assert before.mail[j] in w.delivered;
      }
    }
  }

  lemma StartsSafe(matches: string -> bool, m: Moment, k: nat)
    requires At(m.mail, m.world, k)
    ensures Safe(matches, m.mail, m.world, k, m.world, k)
  {
    assert m.mail[k + 1..k + 1] == [];
    assert m.world.log[|m.world.log|..] == [];
  }

  lemma RanKeepsDurable(
    matches: string -> bool, base: World, start: nat, before: Moment, round: Round, after: Moment, k: nat)
    returns (k': nat)
    requires Happens(matches, before, round, after) && Durable(matches, base, start, before, k)
    ensures Durable(matches, base, start, after, k')
  {
    StartsSafe(matches, before, k);
    k' := RoundKeepsSafe(matches, before, round, after, before.world, k, k);
    SafeExtendsDurable(matches, base, start, before, round.arrived, after, k, k');
  }

  lemma {:induction false} StepsKeepDurable(
    matches: string -> bool, moments: seq<Moment>, steps: seq<Step>, j: nat, start: nat)
    returns (k: nat)
    requires IsStormyRun(matches, moments, steps) && j < |moments| && At(moments[0].mail, moments[0].world, start)
    ensures Durable(matches, moments[0].world, start, moments[j], k)
    ensures moments[0].mail <= moments[j].mail
  {
    var base := moments[0].world;
    if j == 0 {
      k := start;
      assert base.log[|base.log|..] == [];
    } else {
      k := StepsKeepDurable(matches, moments, steps, j - 1, start);
      assert StepAt(matches, moments, steps, j - 1);
      match steps[j - 1]
      case Ran(round) => k := RanKeepsDurable(matches, base, start, moments[j - 1], round, moments[j], k);
      case TailLost(kept) => k := KeptFrontier(moments[j].mail, base, start, moments[j - 1].world.log, k, kept);
    }
  }

  /** The promise with crashes: after every sequence of runs with any outcomes and crashes that cut lines
      off the log's tail, cut the bytes of the log at any further place and load it, without an index or
      with any that describes a prefix of the log. Loading succeeds, and what it gives is a message at or
      behind the start up to which every matching message was delivered. */
  lemma RecoveredFrontierIsDelivered(
    c: Codec<Event>, matches: string -> bool, moments: seq<Moment>, steps: seq<Step>, j: nat, start: nat, n: nat,
    index: Option<Index>)
    requires Lawful(c) && IsStormyRun(matches, moments, steps) && j < |moments|
    requires At(moments[0].mail, moments[0].world, start)
    requires |LogBytes(c, moments[0].world.log)| <= n <= |LogBytes(c, moments[j].world.log)|
    requires index.Some? ==> OfPrefix(c, moments[j].world.log, index.value)
    ensures var f := LogBytes(c, moments[j].world.log)[..n];
            exists k :: start <= k < |moments[j].mail|
                     && LoadValue(c, f, index, moments[j].world.stateLast) == Some(Str(moments[j].mail[k]))
                     && DeliveredBetween(matches, moments[j].mail, start, k, moments[j].world.delivered)
  {
    var base, m := moments[0].world, moments[j];
    var k := StepsKeepDurable(matches, moments, steps, j, start);
    var kept := WholeCount(c, m.world.log, n);
    KeepsBase(c, base.log, m.world.log, n);
    k := KeptFrontier(m.mail, base, start, m.world.log, k, kept);
    LoadCutLog(c, m.world.log, n, index, m.world.stateLast);
  }

  lemma KeepsBase<R(!new)>(c: Codec<R>, base: seq<R>, log: seq<R>, n: nat)
    requires Lawful(c) && base <= log && |LogBytes(c, base)| <= n <= |LogBytes(c, log)|
    ensures |base| <= WholeCount(c, log, n)
  {
    assert log[..|base|] == base;
    ScanFromBoundary(c, log, n, |base|);
  }

  /** On a cut log, loading gives the frontier of the records that are still whole. */
  lemma LoadCutLog(c: Codec<Event>, recs: seq<Event>, n: nat, index: Option<Index>, stateLast: JsonValue)
    requires Lawful(c) && n <= |LogBytes(c, recs)|
    requires index.Some? ==> OfPrefix(c, recs, index.value)
    ensures var whole := recs[..WholeCount(c, recs, n)];
            LoadValue(c, LogBytes(c, recs)[..n], index, stateLast)
            == Some(if HasCheckpoint(whole) then Frontier(whole) else stateLast)
  {
    var f, whole := LogBytes(c, recs)[..n], recs[..WholeCount(c, recs, n)];
    PrefixLoadsEntries(c, recs, n);
    LastCheckpointIsFrontier(EntriesFrom(c, whole, 0));
    RecordsOfEntries(c, whole);
    if index.Some? {
      OfPrefixIsGoodOnCut(c, recs, n, index.value);
      GoodIndexAgrees(c, f, index.value, stateLast);
    }
  }
}
