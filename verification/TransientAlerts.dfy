/** Alerts about a lasting network issue: sent only after a minimum duration and not more often than a
    cooldown allows, and withdrawn by a recovery message only if one was sent. */
module TransientAlerts {
  import opened Wrappers

  datatype Issue = Issue(
    active: bool,
    firstSeen: Option<real>,
    lastSeen: Option<real>,
    occurrences: nat,
    lastAlert: Option<real>,
    notified: bool)

  const CLEARED := Issue(false, None, None, 0, None, false)

  function Clamp(seconds: real): (r: real)
    ensures r >= 0.0 && r >= seconds && (r == 0.0 || r == seconds)
  {
    if seconds < 0.0 then 0.0 else seconds
  }

  predicate ShouldSendAlert(i: Issue, now: real, minDuration: real, cooldown: real) {
    && i.firstSeen.Some? && now - i.firstSeen.value >= minDuration
    && (i.lastAlert.Some? ==> now - i.lastAlert.value >= cooldown)
  }

  /** How saving the state file ends: it returns, or it raises before or after the file was replaced. */
  datatype Save = Saved | NotSaved | SavedThenRaised

  /** One call: an error is recorded, or a recovery is looked for. `canAlert` says that there is a webhook
      and a message. */
  datatype Call =
    | Record(now: real, canAlert: bool, minDuration: real, cooldown: real, sendOk: bool, save: Save)
    | Recover(sendOk: bool, save: Save)

  function Seen(i: Issue, now: real): Issue {
    i.(active := true, firstSeen := if i.firstSeen.Some? then i.firstSeen else Some(now), lastSeen := Some(now),
       occurrences := i.occurrences + 1)
  }

  /** The record tries to send an alert. */
  predicate Attempts(i: Issue, c: Call) {
    c.Record? && c.canAlert && ShouldSendAlert(Seen(i, c.now), c.now, Clamp(c.minDuration), Clamp(c.cooldown))
  }

  /** The record sends an alert; the file is saved only afterwards. */
  predicate Alerts(i: Issue, c: Call) {
    Attempts(i, c) && c.sendOk
  }

  /** The recovery tries to send its message. */
  predicate TriesRecovery(i: Issue, c: Call) {
    c.Recover? && i.active && i.notified
  }

  /** The recovery comes to saving the cleared state. */
  predicate SavesClear(i: Issue, c: Call) {
    c.Recover? && i.active && (!i.notified || c.sendOk)
  }

  predicate Clears(i: Issue, c: Call) {
    SavesClear(i, c) && !c.save.NotSaved?
  }

  /** The state file after a call. */
  function After(i: Issue, c: Call): Issue {
    if c.save.NotSaved? then i
    else if c.Record? then
      var i' := Seen(i, c.now);
      if Alerts(i, c) then i'.(notified := true, lastAlert := Some(c.now)) else i'
    else if SavesClear(i, c) then CLEARED
    else i
  }

  class TransientState {
    var file: Issue

    constructor ()
      ensures file == CLEARED
    {
      file := CLEARED;
    }

    method SaveState(state: Issue, save: Save) returns (ok: bool)
      modifies this
      ensures file == if save.NotSaved? then old(file) else state
      ensures ok <==> save.Saved?
    {
      if !save.NotSaved? {
        file := state;
      }
      return save.Saved?;
    }

    /** Clears the keys of the issue one by one in the state that was read. */
    method ClearTransientIssueKeys(state: Issue) returns (cleared: Issue)
      ensures cleared == CLEARED
    {
      cleared := state.(active := false);
      cleared := cleared.(firstSeen := None);
      cleared := cleared.(lastSeen := None);
      cleared := cleared.(occurrences := 0);
      cleared := cleared.(lastAlert := None);
      cleared := cleared.(notified := false);
    }

    /** `ok` is false where the source raises; the alert has been sent all the same. */
    method RecordTransientIssue(now: real, canAlert: bool, minDuration: real, cooldown: real, sendOk: bool, save: Save)
      returns (sentAlert: bool, ok: bool)
      modifies this
      ensures file == After(old(file), Record(now, canAlert, minDuration, cooldown, sendOk, save))
      ensures sentAlert <==> Alerts(old(file), Record(now, canAlert, minDuration, cooldown, sendOk, save))
      ensures ok <==> save.Saved?
    {
      var duration, pause := Clamp(minDuration), Clamp(cooldown);
      var persisted := file.(active := true);
      if persisted.firstSeen.None? {
        persisted := persisted.(firstSeen := Some(now));
      }
      persisted := persisted.(lastSeen := Some(now), occurrences := persisted.occurrences + 1);
      sentAlert := false;
      if canAlert && ShouldSendAlert(persisted, now, duration, pause) {
        sentAlert := sendOk;
        if sentAlert {
          persisted := persisted.(notified := true, lastAlert := Some(now));
        }
      }
      ok := SaveState(persisted, save);
    }

    method NotifyRecoveryIfNeeded(sendOk: bool, save: Save) returns (tried: bool, ok: bool)
      modifies this
      ensures file == After(old(file), Recover(sendOk, save))
      ensures tried <==> TriesRecovery(old(file), Recover(sendOk, save))
      ensures ok <==> save.Saved? || !SavesClear(old(file), Recover(sendOk, save))
    {
      tried, ok := false, true;
      if !file.active {
        return;
      }
      if !file.notified {
        var cleared := ClearTransientIssueKeys(file);
        ok := SaveState(cleared, save);
        return;
      }
      tried := true;
      if sendOk {
        var cleared := ClearTransientIssueKeys(file);
        ok := SaveState(cleared, save);
      }
    }
  }

  /******* Every history of calls *******/

  function AfterAll(calls: seq<Call>): Issue {
    if calls == [] then CLEARED else After(AfterAll(calls[..|calls| - 1]), calls[|calls| - 1])
  }

  predicate AlertsAt(calls: seq<Call>, n: nat)
    requires n < |calls|
  {
    Alerts(AfterAll(calls[..n]), calls[n])
  }

  predicate ClearsAt(calls: seq<Call>, n: nat)
    requires n < |calls|
  {
    Clears(AfterAll(calls[..n]), calls[n])
  }

  predicate NoClearBetween(calls: seq<Call>, from: nat, to: nat)
    requires to <= |calls|
  {
    forall n :: from <= n < to ==> !ClearsAt(calls, n)
  }

  /** A record that reached the file. */
  predicate Noted(c: Call) {
    c.Record? && !c.save.NotSaved?
  }

  /** Noted records since the last clear. */
  function RecordsSinceClear(calls: seq<Call>): nat {
    if calls == [] then 0
    else
      var before, call := calls[..|calls| - 1], calls[|calls| - 1];
      if Clears(AfterAll(before), call) then 0
      else RecordsSinceClear(before) + (if Noted(call) then 1 else 0)
  }

  lemma OneMore(calls: seq<Call>, n: nat)
    requires n < |calls|
    ensures AfterAll(calls[..n + 1]) == After(AfterAll(calls[..n]), calls[n])
    ensures RecordsSinceClear(calls[..n + 1])
         == if ClearsAt(calls, n) then 0 else RecordsSinceClear(calls[..n]) + (if Noted(calls[n]) then 1 else 0)
  {
    assert calls[..n + 1][..n] == calls[..n];
  }

  /** The parts of the state belong together. */
  lemma {:induction false} StateIsConsistent(calls: seq<Call>, k: nat)
    requires k <= |calls|
    ensures var i := AfterAll(calls[..k]);
            (i.active <==> i.firstSeen.Some?) && (i.notified <==> i.lastAlert.Some?) && (i.notified ==> i.active)
  {
    if k > 0 {
      StateIsConsistent(calls, k - 1);
      OneMore(calls, k - 1);
    }
  }

  /** A noted record that finds no first record before it stays the first one until a clear. */
  lemma {:induction false} FirstSeenStays(calls: seq<Call>, i: nat, k: nat)
    requires i < k <= |calls| && Noted(calls[i]) && AfterAll(calls[..i]).firstSeen.None? && NoClearBetween(calls, i, k)
    ensures AfterAll(calls[..k]).firstSeen == Some(calls[i].now)
    decreases k
  {
    OneMore(calls, k - 1);
    if i < k - 1 {
      FirstSeenStays(calls, i, k - 1);
      assert !ClearsAt(calls, k - 1);
    }
  }

  lemma {:induction false} FirstSeenIsNoted(calls: seq<Call>, k: nat) returns (n: nat)
    requires k <= |calls| && AfterAll(calls[..k]).firstSeen.Some?
    ensures n < k && Noted(calls[n]) && NoClearBetween(calls, n, k)
    decreases k
  {
    OneMore(calls, k - 1);
    if AfterAll(calls[..k - 1]).firstSeen.None? {
      n := k - 1;
    } else {
      n := FirstSeenIsNoted(calls, k - 1);
    }
    assert !ClearsAt(calls, k - 1);
  }

  /** Until a clear, the file's last alert never becomes an earlier one. */
  lemma {:induction false} LastAlertAtLeast(calls: seq<Call>, i: nat, k: nat, t: real)
    requires i <= k <= |calls| && NoClearBetween(calls, i, k)
    requires AfterAll(calls[..i]).lastAlert.Some? && AfterAll(calls[..i]).lastAlert.value >= t
    ensures AfterAll(calls[..k]).lastAlert.Some? && AfterAll(calls[..k]).lastAlert.value >= t
    decreases k
  {
    if i < k {
      LastAlertAtLeast(calls, i, k - 1, t);
      OneMore(calls, k - 1);
      assert !ClearsAt(calls, k - 1);
    }
  }

  lemma {:induction false} AlertStaysNotified(calls: seq<Call>, i: nat, k: nat)
    requires i < k <= |calls| && AlertsAt(calls, i) && Noted(calls[i]) && NoClearBetween(calls, i, k)
    ensures AfterAll(calls[..k]).notified
    decreases k
  {
    OneMore(calls, k - 1);
    if i < k - 1 {
      AlertStaysNotified(calls, i, k - 1);
      assert !ClearsAt(calls, k - 1);
    }
  }

  lemma {:induction false} NotifiedIsAlerted(calls: seq<Call>, k: nat) returns (n: nat)
    requires k <= |calls| && AfterAll(calls[..k]).notified
    ensures n < k && AlertsAt(calls, n) && Noted(calls[n]) && NoClearBetween(calls, n, k)
    decreases k
  {
    OneMore(calls, k - 1);
    if AlertsAt(calls, k - 1) && Noted(calls[k - 1]) {
      n := k - 1;
    } else {
      n := NotifiedIsAlerted(calls, k - 1);
    }
    assert !ClearsAt(calls, k - 1);
  }

  /******* What every history keeps *******/

  /** The file knows the time of the alert that call `i` sent: its save reached the file, or the file named
      the same time already. */
  predicate Remembered(calls: seq<Call>, i: nat)
    requires i < |calls| && calls[i].Record?
  {
    Noted(calls[i]) || AfterAll(calls[..i]).lastAlert == Some(calls[i].now)
  }

  /** After a remembered alert, every alert before the next clear comes at least its clamped cooldown later,
      whatever happens to the saves of the calls in between. */
  lemma AlertsKeepCooldown(calls: seq<Call>, i: nat, j: nat)
    requires i < j < |calls| && AlertsAt(calls, i) && AlertsAt(calls, j) && NoClearBetween(calls, i, j)
    requires Remembered(calls, i)
    ensures calls[j].now - calls[i].now >= Clamp(calls[j].cooldown)
  {
    OneMore(calls, i);
    LastAlertAtLeast(calls, i + 1, j, calls[i].now);
  }

  /** Every alert among `more`, up to the next clear, keeps its cooldown from the last call of `head`. */
  predicate KeepsCooldown(head: seq<Call>, more: seq<Call>)
    requires head != [] && head[|head| - 1].Record?
  {
    forall j :: |head| <= j < |head + more| && AlertsAt(head + more, j) && NoClearBetween(head + more, |head|, j) ==>
      (head + more)[j].now - head[|head| - 1].now >= Clamp((head + more)[j].cooldown)
  }

  /** An alert keeps the cooldown from whatever alerts may follow before the next clear if and only if the
      file remembers it. */
  lemma CooldownKeptIff(head: seq<Call>)
    requires head != [] && AlertsAt(head, |head| - 1)
    ensures (forall more :: KeepsCooldown(head, more)) <==> Remembered(head, |head| - 1)
  {
    var i := |head| - 1;
    if Remembered(head, i) {
      forall more ensures KeepsCooldown(head, more) {
        RememberedKeepsCooldown(head, more);
      }
    } else {
      var again := ForgottenAlertRepeats(head);
      assert !KeepsCooldown(head, [again]);
    }
  }

  lemma RememberedKeepsCooldown(head: seq<Call>, more: seq<Call>)
    requires head != [] && AlertsAt(head, |head| - 1) && Remembered(head, |head| - 1)
    ensures KeepsCooldown(head, more)
  {
    var i, all := |head| - 1, head + more;
    assert all[..i] == head[..i];
    forall j | |head| <= j < |all| && AlertsAt(all, j) && NoClearBetween(all, |head|, j)
      ensures all[j].now - head[i].now >= Clamp(all[j].cooldown)
    {
      assert !ClearsAt(all, i);
      AlertsKeepCooldown(all, i, j);
    }
  }

  /** After a forgotten alert the next record can alert at once, in spite of a positive cooldown. */
  lemma ForgottenAlertRepeats(head: seq<Call>) returns (again: Call)
    requires head != [] && AlertsAt(head, |head| - 1) && !Remembered(head, |head| - 1)
    ensures again.Record? && again.now == head[|head| - 1].now && again.cooldown > 0.0
    ensures AlertsAt(head + [again], |head|) && !KeepsCooldown(head, [again])
  {
    var i := |head| - 1;
    var c, file := head[i], AfterAll(head[..i]);
    again := c.(cooldown := if file.lastAlert.Some? then c.now - file.lastAlert.value else 1.0);
    var all := head + [again];
    OneMore(head, i);
    assert head[..|head|] == head && all[..|head|] == head;
    assert AfterAll(all[..|head|]) == file;
    assert AlertsAt(all, |head|) && NoClearBetween(all, |head|, |head|);
    assert all[|head|] == again;
  }

  /** It does happen: an alert whose save raises is sent again one second later, with a cooldown of half an
      hour. */
  lemma UnsavedAlertRepeats()
    ensures var calls := [Record(0.0, true, 0.0, 1800.0, true, NotSaved), Record(1.0, true, 0.0, 1800.0, true, Saved)];
            AlertsAt(calls, 0) && AlertsAt(calls, 1) && calls[1].now - calls[0].now < Clamp(calls[1].cooldown)
  {
    var first := Record(0.0, true, 0.0, 1800.0, true, NotSaved);
    var calls := [first, Record(1.0, true, 0.0, 1800.0, true, Saved)];
    assert calls[..0] == [] && calls[..1] == [first] && [first][..0] == [];
  }

  /** No alert comes before the first noted record since the last clear plus the clamped minimum duration;
      where no record was noted, the alerting record itself is the first. */
  lemma AlertsKeepDuration(calls: seq<Call>, i: nat, j: nat)
    requires i <= j < |calls| && calls[i].Record? && (Noted(calls[i]) || i == j) && NoClearBetween(calls, i, j)
    requires forall n :: 0 <= n < i && Noted(calls[n]) ==> !NoClearBetween(calls, n, i)
    requires AlertsAt(calls, j)
    ensures calls[j].now - calls[i].now >= Clamp(calls[j].minDuration)
  {
    if AfterAll(calls[..i]).firstSeen.Some? {
      var n := FirstSeenIsNoted(calls, i);
      assert false;
    }
    if i < j {
      FirstSeenStays(calls, i, j);
    }
  }

  /** A recovery message is tried exactly when an alert was sent and noted since the last clear. */
  lemma RecoveryTriedIff(calls: seq<Call>, k: nat)
    requires k < |calls| && calls[k].Recover?
    ensures TriesRecovery(AfterAll(calls[..k]), calls[k])
       <==> exists n :: 0 <= n < k && AlertsAt(calls, n) && Noted(calls[n]) && NoClearBetween(calls, n, k)
  {
    StateIsConsistent(calls, k);
    if AfterAll(calls[..k]).notified {
      var n := NotifiedIsAlerted(calls, k);
    }
    forall n | 0 <= n < k && AlertsAt(calls, n) && Noted(calls[n]) && NoClearBetween(calls, n, k)
      ensures AfterAll(calls[..k]).notified
    {
      AlertStaysNotified(calls, n, k);
    }
  }

  /** The stored number of occurrences counts the noted records since the last clear. */
  lemma {:induction false} OccurrencesCountRecords(calls: seq<Call>, k: nat)
    requires k <= |calls|
    ensures AfterAll(calls[..k]).occurrences == RecordsSinceClear(calls[..k])
  {
    if k > 0 {
      OccurrencesCountRecords(calls, k - 1);
      OneMore(calls, k - 1);
    }
  }

  /******* What the file says, told from the calls *******/

  /** A saved alert still stands: no recovery message was sent and its clearing saved since. */
  predicate AlertStands(calls: seq<Call>) {
    if calls == [] then false
    else
      var before, c := calls[..|calls| - 1], calls[|calls| - 1];
      match c
      case Record(_, _, _, _, _, _) => AlertStands(before) || (Noted(c) && AlertsAt(calls, |calls| - 1))
      case Recover(sendOk, save) => AlertStands(before) && (!sendOk || save.NotSaved?)
  }

  /** The recovery ends the issue: nothing had to be taken back, or the message that does was sent, and the
      cleared state was saved. */
  predicate Ends(calls: seq<Call>, n: nat)
    requires n < |calls|
  {
    calls[n].Recover? && !calls[n].save.NotSaved? && (calls[n].sendOk || !AlertStands(calls[..n]))
  }

  /** The time of the first noted record since the issue last ended. */
  function Began(calls: seq<Call>): Option<real> {
    if calls == [] then None
    else
      var began, c := Began(calls[..|calls| - 1]), calls[|calls| - 1];
      if Ends(calls, |calls| - 1) then None
      else if Noted(c) && began.None? then Some(c.now)
      else began
  }

  /** The time of the last noted alert since then. */
  function LastNotedAlert(calls: seq<Call>): Option<real> {
    if calls == [] then None
    else
      var c := calls[|calls| - 1];
      if Ends(calls, |calls| - 1) then None
      else if Noted(c) && AlertsAt(calls, |calls| - 1) then Some(c.now)
      else LastNotedAlert(calls[..|calls| - 1])
  }

  /** The time of the last noted record since then. */
  function LastNoted(calls: seq<Call>): Option<real> {
    if calls == [] || Ends(calls, |calls| - 1) then None
    else if Noted(calls[|calls| - 1]) then Some(calls[|calls| - 1].now)
    else LastNoted(calls[..|calls| - 1])
  }

  /** The file holds just that. */
  lemma {:induction false} FileTellsCalls(calls: seq<Call>)
    ensures var file := AfterAll(calls);
            && file.firstSeen == Began(calls) && (file.active <==> Began(calls).Some?)
            && file.lastAlert == LastNotedAlert(calls) && (file.notified <==> AlertStands(calls))
            && (AlertStands(calls) ==> Began(calls).Some?) && (AlertStands(calls) <==> LastNotedAlert(calls).Some?)
            && file.lastSeen == LastNoted(calls) && (Began(calls).Some? <==> LastNoted(calls).Some?)
  {
    if calls != [] {
      FileTellsCalls(calls[..|calls| - 1]);
    }
  }

  /** A record sends an alert if and only if it can and its send succeeds, the issue began at least the clamped
      minimum duration ago, and the last noted alert is at least the clamped cooldown ago. */
  lemma AlertSentIff(calls: seq<Call>, j: nat)
    requires j < |calls| && calls[j].Record?
    ensures var c, began, last := calls[j], Began(calls[..j]), LastNotedAlert(calls[..j]);
            AlertsAt(calls, j)
            <==> c.canAlert && c.sendOk
                 && c.now - began.GetOr(c.now) >= Clamp(c.minDuration)
                 && (last.Some? ==> c.now - last.value >= Clamp(c.cooldown))
  {
    FileTellsCalls(calls[..j]);
  }

  /** The issue that stands began with a noted record, and did not end since. */
  lemma {:induction false} BeganIs(calls: seq<Call>, k: nat) returns (n: nat)
    requires k <= |calls| && Began(calls[..k]).Some?
    ensures n < k && Noted(calls[n]) && Began(calls[..k]) == Some(calls[n].now)
    ensures forall m :: n <= m < k ==> !Ends(calls, m)
    decreases k
  {
    assert calls[..k][..k - 1] == calls[..k - 1];
    assert !Ends(calls[..k], k - 1);
    if Began(calls[..k - 1]).None? {
      n := k - 1;
    } else {
      n := BeganIs(calls, k - 1);
    }
    forall m | n <= m < k ensures !Ends(calls, m) {
      assert m == k - 1 ==> calls[..k][..m] == calls[..m];
    }
  }

  /** Behind a recovery that ended the issue, an alert is about a new one. */
  lemma AlertIsNewer(calls: seq<Call>, i: nat, j: nat) returns (n: nat)
    requires i < j < |calls| && Ends(calls, i) && AlertsAt(calls, j)
    ensures i < n <= j && calls[n].Record? && calls[j].now - calls[n].now >= Clamp(calls[j].minDuration)
  {
    AlertSentIff(calls, j);
    if Began(calls[..j]).None? {
      n := j;
    } else {
      n := BeganIs(calls, j);
    }
  }

  /** After a recovery whose message was sent and whose state was saved, no alert comes before the issue has
      lasted, from a record behind that recovery on, for the clamped minimum duration. */
  lemma RecoveryStartsAfresh(calls: seq<Call>, i: nat, j: nat)
    requires i < j < |calls| && calls[i].Recover? && calls[i].sendOk && !calls[i].save.NotSaved? && AlertsAt(calls, j)
    ensures exists n :: i < n <= j && calls[n].Record? && calls[j].now - calls[n].now >= Clamp(calls[j].minDuration)
  {
    var n := AlertIsNewer(calls, i, j);
  }

  /** From `e` on, where no alert stood, none stands while no saved one comes. */
  lemma {:induction false} NoAlertStands(calls: seq<Call>, e: nat, k: nat)
    requires e <= k <= |calls|
    requires e == 0 || (calls[e - 1].Recover? && calls[e - 1].sendOk && !calls[e - 1].save.NotSaved?)
    requires forall n :: e <= n < k ==> !(Noted(calls[n]) && AlertsAt(calls, n))
    ensures !AlertStands(calls[..k])
    decreases k
  {
    if k > 0 {
      var before := calls[..k][..k - 1];
      assert before == calls[..k - 1];
      if k > e {
        NoAlertStands(calls, e, k - 1);
        assert AlertsAt(calls[..k], k - 1) <==> AlertsAt(calls, k - 1);
      }
    }
  }

  /** The same holds of a recovery with nothing to take back, however its message would have ended: since the
      start, or since a recovery that was sent and saved, no saved alert came. */
  lemma QuietRecoveryStartsAfresh(calls: seq<Call>, e: nat, i: nat, j: nat)
    requires e <= i < j < |calls| && calls[i].Recover? && !calls[i].save.NotSaved? && AlertsAt(calls, j)
    requires e == 0 || (calls[e - 1].Recover? && calls[e - 1].sendOk && !calls[e - 1].save.NotSaved?)
    requires forall n :: e <= n < i ==> !(Noted(calls[n]) && AlertsAt(calls, n))
    ensures exists n :: i < n <= j && calls[n].Record? && calls[j].now - calls[n].now >= Clamp(calls[j].minDuration)
  {
    NoAlertStands(calls, e, i);
    var n := AlertIsNewer(calls, i, j);
  }
}
