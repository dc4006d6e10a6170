/** What the dedupe decisions mean over every history of operations by any number of processes. */
module DedupeHistory {
  import opened Wrappers
  import opened Dedupe

  /** One operation under the file lock, at the time it reads from the shared clock, with lock and write
      succeeding. */
  datatype Op =
    | Reserve(key: string, owner: string, now: real, window: real, granted: bool)
    | Finalize(key: string, owner: string, now: real, sent: bool)
    | Prune(now: real)

  /** What an operation makes of the file while pruning stays within the cap. */
  function Apply(m: Entries, op: Op): Entries {
    var p := Expire(m, op.now);
    match op
    case Reserve(key, owner, now, _, granted) => if granted then Claimed(p, key, owner, now) else p
    case Finalize(key, owner, now, sent) => if Get(p, key).owner == Some(owner) then Finalized(p, key, now, sent) else m
    case Prune(_) => p
  }

  /** These are the results that the methods of the dedupe file promise when lock and write succeed. */
  lemma ApplyIsTheFile(m: Entries, op: Op)
    requires |Expire(m, op.now)| <= MAX_ENTRIES
    ensures var p := Pruned(m, op.now);
            match op {
              case Reserve(key, owner, now, window, granted) =>
                && (Refused(Get(p, key), now, window) <==> Refused(Get(Expire(m, now), key), now, window))
                && Apply(m, op) == (if granted then Claimed(p, key, owner, now) else p)
              case Finalize(key, owner, now, sent) =>
                Apply(m, op) == (if Get(p, key).owner == Some(owner) then Finalized(p, key, now, sent) else m)
              case Prune(_) => Apply(m, op) == p
            }
  {
    PrunedWithinCap(m, op.now);
  }

  function Init(h: seq<Op>): seq<Op>
    requires h != []
  {
    h[..|h| - 1]
  }

  function Last(h: seq<Op>): Op
    requires h != []
  {
    h[|h| - 1]
  }

  function StateAfter(h: seq<Op>): Entries {
    if h == [] then map[] else Apply(StateAfter(Init(h)), Last(h))
  }

  /** The operation is one that the file allows next: the clock does not run back, a reserve uses a fresh
      owner, asks for a window within the retention time and is answered as the file answers it, and
      pruning stays within the cap. */
  ghost predicate Follows(h: seq<Op>, op: Op) {
    && (h != [] ==> Last(h).now <= op.now)
    && |Expire(StateAfter(h), op.now)| <= MAX_ENTRIES
    && (op.Reserve? ==>
          && 0.0 < op.window <= MAX_RETENTION_SECONDS
          && (forall i :: 0 <= i < |h| && h[i].Reserve? ==> h[i].owner != op.owner)
          && (op.granted <==> !Refused(Get(Expire(StateAfter(h), op.now), op.key), op.now, op.window)))
  }

  ghost predicate IsHistory(h: seq<Op>) {
    h == [] || (IsHistory(Init(h)) && Follows(Init(h), Last(h)))
  }

  /** Every operation of a history follows the ones before it. */
  lemma {:induction false} HistoryPrefix(h: seq<Op>, i: nat)
    requires IsHistory(h) && i < |h|
    ensures IsHistory(h[..i]) && Follows(h[..i], h[i])
  {
    if i < |h| - 1 {
      HistoryPrefix(Init(h), i);
      assert Init(h)[..i] == h[..i];
    }
  }

  lemma {:induction false} ClockAt(h: seq<Op>, i: nat)
    requires IsHistory(h) && i < |h|
    ensures h[i].now <= Last(h).now
    decreases h
  {
    if i < |h| - 1 {
      ClockAt(Init(h), i);
    }
  }

  /******* What the history says, without looking at the file *******/

  predicate Grants(op: Op, key: string, owner: string) {
    op.Reserve? && op.granted && op.key == key && op.owner == owner
  }

  predicate Settles(op: Op, key: string, owner: string) {
    op.Finalize? && op.key == key && op.owner == owner
  }

  /** `owner` was granted the key by operation `j` and has not settled since. */
  predicate OpenSince(h: seq<Op>, j: nat, key: string, owner: string) {
    j < |h| && Grants(h[j], key, owner) && forall i :: j < i < |h| ==> !Settles(h[i], key, owner)
  }

  /** At time `now` the owner has an unsettled claim younger than the claim lifetime. */
  ghost predicate HoldsClaim(h: seq<Op>, key: string, owner: string, now: real) {
    exists j :: 0 <= j < |h| && OpenSince(h, j, key, owner) && now - h[j].now < INFLIGHT_TTL_SECONDS
  }

  /** Operation `i` reports a successful send while its owner held the claim. */
  ghost predicate EffectiveSend(h: seq<Op>, i: nat, key: string) {
    i < |h| && h[i].Finalize? && h[i].key == key && h[i].sent && HoldsClaim(h[..i], key, h[i].owner, h[i].now)
  }

  /******* A running account of it *******/

  datatype Claim = Claim(owner: string, at: real)

  function ClaimOf(h: seq<Op>, key: string): Option<Claim> {
    if h == [] then None
    else
      var before := ClaimOf(Init(h), key);
      match Last(h)
      case Reserve(k, owner, now, _, granted) => if granted && k == key then Some(Claim(owner, now)) else before
      case Finalize(k, owner, _, _) => if k == key && before.Some? && before.value.owner == owner then None else before
      case Prune(_) => before
  }

  predicate Young(c: Option<Claim>, owner: string, now: real) {
    c.Some? && c.value.owner == owner && now - c.value.at < INFLIGHT_TTL_SECONDS
  }

  function LastSend(h: seq<Op>, key: string): Option<real> {
    if h == [] then None
    else
      var op := Last(h);
      if op.Finalize? && op.key == key && op.sent && Young(ClaimOf(Init(h), key), op.owner, op.now) then Some(op.now)
      else LastSend(Init(h), key)
  }

  /** How an entry of the file relates to the account, at any time from `clock` on. */
  predicate Agrees(e: Entry, send: Option<real>, c: Option<Claim>, clock: real) {
    && (send.Some? ==> send.value <= clock)
    && (c.Some? ==> c.value.at <= clock)
    && (e.lastSent == send || (e.lastSent.None? && send.Some? && clock - send.value > MAX_RETENTION_SECONDS))
    && (if e.inflightUntil.Some? && e.inflightUntil.value > clock
        then e.owner.Some? && c == Some(Claim(e.owner.value, e.inflightUntil.value - INFLIGHT_TTL_SECONDS))
        else c.Some? ==> c.value.at + INFLIGHT_TTL_SECONDS <= clock)
  }

  /** Agreement lasts, and expiring the entry keeps it. */
  lemma AgreesLater(m: Entries, key: string, send: Option<real>, c: Option<Claim>, clock: real, now: real)
    requires Agrees(Get(m, key), send, c, clock) && clock <= now
    ensures Agrees(Get(m, key), send, c, now)
    ensures Agrees(Get(Expire(m, now), key), send, c, now)
    ensures var e := Get(Expire(m, now), key);
            e.owner.Some? ==> e.inflightUntil.Some? && e.inflightUntil.value > now
  {
  }

  lemma {:induction false} FileAgrees(h: seq<Op>, key: string, now: real)
    requires IsHistory(h) && (h != [] ==> Last(h).now <= now)
    ensures Agrees(Get(StateAfter(h), key), LastSend(h, key), ClaimOf(h, key), now)
    decreases h
  {
    if h != [] {
      var op := Last(h);
      FileAgrees(Init(h), key, op.now);
      StepAgrees(h, key);
      AgreesLater(StateAfter(h), key, LastSend(h, key), ClaimOf(h, key), op.now, now);
    }
  }

  /** A settling that takes effect is one by the owner of the account's young claim. */
  lemma OwnerAgrees(e: Entry, send: Option<real>, c: Option<Claim>, now: real, owner: string)
    requires Agrees(e, send, c, now)
    requires e.owner.Some? ==> e.inflightUntil.Some? && e.inflightUntil.value > now
    ensures e.owner == Some(owner) <==> Young(c, owner, now)
  {
  }

  lemma StepAgrees(h: seq<Op>, key: string)
    requires h != []
    requires Agrees(Get(StateAfter(Init(h)), key), LastSend(Init(h), key), ClaimOf(Init(h), key), Last(h).now)
    ensures Agrees(Get(StateAfter(h), key), LastSend(h, key), ClaimOf(h, key), Last(h).now)
  {
    var m, send, c, op := StateAfter(Init(h)), LastSend(Init(h), key), ClaimOf(Init(h), key), Last(h);
    if op.Finalize? {
      FinalizeAgrees(m, key, send, c, op);
    } else {
      OtherAgrees(m, key, send, c, op);
    }
  }

  lemma OtherAgrees(m: Entries, key: string, send: Option<real>, c: Option<Claim>, op: Op)
    requires !op.Finalize? && Agrees(Get(m, key), send, c, op.now)
    ensures Agrees(Get(Apply(m, op), key), send,
                   if op.Reserve? && op.granted && op.key == key then Some(Claim(op.owner, op.now)) else c, op.now)
  {
    AgreesLater(m, key, send, c, op.now, op.now);
  }

  lemma FinalizeAgrees(m: Entries, key: string, send: Option<real>, c: Option<Claim>, op: Op)
    requires op.Finalize? && Agrees(Get(m, key), send, c, op.now)
    ensures var young := op.key == key && Young(c, op.owner, op.now);
            Agrees(Get(Apply(m, op), key),
                   if young && op.sent then Some(op.now) else send,
                   if op.key == key && c.Some? && c.value.owner == op.owner then None else c, op.now)
  {
    AgreesLater(m, key, send, c, op.now, op.now);
    OwnerAgrees(Get(Expire(m, op.now), key), send, c, op.now, op.owner);
  }

  /******* The decision *******/

  /** In terms of the account: a refusal is a last send less than a window ago or a young claim. */
  lemma RefusedByAccount(h: seq<Op>, key: string, now: real, window: real)
    requires IsHistory(h) && (h != [] ==> Last(h).now <= now)
    requires window <= MAX_RETENTION_SECONDS
    ensures Refused(Get(Expire(StateAfter(h), now), key), now, window)
       <==> (LastSend(h, key).Some? && now - LastSend(h, key).value < window)
            || (ClaimOf(h, key).Some? && now - ClaimOf(h, key).value.at < INFLIGHT_TTL_SECONDS)
  {
    var m := StateAfter(h);
    FileAgrees(h, key, now);
    AgreesLater(m, key, LastSend(h, key), ClaimOf(h, key), now, now);
  }

  /** The claim of the account is one the history grants and does not settle. */
  lemma {:induction false} AccountClaimIsOpen(h: seq<Op>, key: string) returns (j: nat)
    requires ClaimOf(h, key).Some?
    ensures OpenSince(h, j, key, ClaimOf(h, key).value.owner) && h[j].now == ClaimOf(h, key).value.at
    decreases h
  {
    if Grants(Last(h), key, ClaimOf(h, key).value.owner) && Last(h).now == ClaimOf(h, key).value.at {
      j := |h| - 1;
    } else {
      j := AccountClaimIsOpen(Init(h), key);
      forall i | j < i < |h| ensures !Settles(h[i], key, ClaimOf(h, key).value.owner) {
        if i < |h| - 1 {
          assert h[i] == Init(h)[i];
        }
      }
    }
  }

  /** A young open claim is the claim of the account: nobody else was granted the key since. */
  lemma {:induction false} YoungClaimIsAccounted(h: seq<Op>, j: nat, key: string, owner: string, now: real)
    requires IsHistory(h) && OpenSince(h, j, key, owner) && Last(h).now <= now
    requires now - h[j].now < INFLIGHT_TTL_SECONDS
    ensures ClaimOf(h, key) == Some(Claim(owner, h[j].now))
    decreases h
  {
    if j < |h| - 1 {
      var h', op := Init(h), Last(h);
      forall i | j < i < |h'| ensures !Settles(h'[i], key, owner) {
        assert h'[i] == h[i];
      }
      YoungClaimIsAccounted(h', j, key, owner, op.now);
      if op.Reserve? && op.key == key {
        RefusedByAccount(h', key, op.now, op.window);
      }
      assert !Settles(h[|h| - 1], key, owner);
    }
  }

  lemma HoldsClaimByAccount(h: seq<Op>, key: string, owner: string, now: real)
    requires IsHistory(h) && (h != [] ==> Last(h).now <= now)
    ensures HoldsClaim(h, key, owner, now) <==> Young(ClaimOf(h, key), owner, now)
  {
    if HoldsClaim(h, key, owner, now) {
      var j :| 0 <= j < |h| && OpenSince(h, j, key, owner) && now - h[j].now < INFLIGHT_TTL_SECONDS;
      YoungClaimIsAccounted(h, j, key, owner, now);
    }
    if Young(ClaimOf(h, key), owner, now) {
      var j := AccountClaimIsOpen(h, key);
    }
  }

  lemma EffectiveSendInit(h: seq<Op>, i: nat, key: string)
    requires h != [] && i < |h| - 1
    ensures EffectiveSend(Init(h), i, key) <==> EffectiveSend(h, i, key)
  {
    assert Init(h)[..i] == h[..i];
  }

  lemma EffectiveSendLast(h: seq<Op>, key: string)
    requires IsHistory(h) && h != []
    ensures var op := Last(h);
            EffectiveSend(h, |h| - 1, key)
            <==> op.Finalize? && op.key == key && op.sent && Young(ClaimOf(Init(h), key), op.owner, op.now)
  {
    if Last(h).Finalize? {
      HoldsClaimByAccount(Init(h), key, Last(h).owner, Last(h).now);
    }
  }

  /** The account's last send is the latest effective send of the history. */
  lemma {:induction false} LastSendIsEffective(h: seq<Op>, key: string) returns (i: nat)
    requires IsHistory(h) && LastSend(h, key).Some?
    ensures i < |h| && EffectiveSend(h, i, key) && h[i].now == LastSend(h, key).value
    decreases h
  {
    EffectiveSendLast(h, key);
    if EffectiveSend(h, |h| - 1, key) {
      i := |h| - 1;
    } else {
      i := LastSendIsEffective(Init(h), key);
      EffectiveSendInit(h, i, key);
    }
  }

  lemma {:induction false} LastSendIsLatest(h: seq<Op>, key: string, i: nat)
    requires IsHistory(h) && i < |h| && EffectiveSend(h, i, key)
    ensures LastSend(h, key).Some? && h[i].now <= LastSend(h, key).value
    decreases h
  {
    EffectiveSendLast(h, key);
    if EffectiveSend(h, |h| - 1, key) {
      ClockAt(h, i);
    } else {
      EffectiveSendInit(h, i, key);
      LastSendIsLatest(Init(h), key, i);
    }
  }

  /** The contract of dedupe: after every history, a reserve is refused exactly when the history holds an
      effective successful finalize of the key less than one window ago, or an unsettled claim on it that
      is younger than the claim lifetime. */
  lemma RefusedExactlyWhen(h: seq<Op>, key: string, now: real, window: real)
    requires IsHistory(h) && (h != [] ==> Last(h).now <= now)
    requires window <= MAX_RETENTION_SECONDS
    ensures Refused(Get(Expire(StateAfter(h), now), key), now, window)
       <==> (exists i :: 0 <= i < |h| && EffectiveSend(h, i, key) && now - h[i].now < window)
            || (exists owner :: HoldsClaim(h, key, owner, now))
  {
    RefusedByAccount(h, key, now, window);
    if LastSend(h, key).Some? {
      var i := LastSendIsEffective(h, key);
    }
    forall i: nat | i < |h| && EffectiveSend(h, i, key)
      ensures LastSend(h, key).Some? && h[i].now <= LastSend(h, key).value
    {
      LastSendIsLatest(h, key, i);
    }
    if ClaimOf(h, key).Some? {
      HoldsClaimByAccount(h, key, ClaimOf(h, key).value.owner, now);
    }
    forall owner | HoldsClaim(h, key, owner, now) ensures Young(ClaimOf(h, key), owner, now) {
      HoldsClaimByAccount(h, key, owner, now);
    }
  }

  /** An entry that says nothing never stays in the file. */
  lemma {:induction false} NoEmptyEntry(h: seq<Op>)
    ensures forall k :: k in StateAfter(h) ==> StateAfter(h)[k].lastSent.Some? || StateAfter(h)[k].inflightUntil.Some?
  {
    if h != [] {
      NoEmptyEntry(Init(h));
    }
  }

  /******* What pruning leaves *******/

  /** The file holds a live entry for the key exactly when the history holds a claim that still runs or an
      effective successful finalize within the retention time. */
  lemma AliveExactlyWhen(h: seq<Op>, key: string, now: real)
    requires IsHistory(h) && (h != [] ==> Last(h).now <= now)
    ensures Alive(Get(StateAfter(h), key), now)
       <==> (exists owner :: HoldsClaim(h, key, owner, now))
            || (exists i :: 0 <= i < |h| && EffectiveSend(h, i, key) && now - h[i].now <= MAX_RETENTION_SECONDS)
  {
    FileAgrees(h, key, now);
    var e, send, c := Get(StateAfter(h), key), LastSend(h, key), ClaimOf(h, key);
    if send.Some? {
      var i := LastSendIsEffective(h, key);
    }
    forall i: nat | i < |h| && EffectiveSend(h, i, key) ensures send.Some? && h[i].now <= send.value {
      LastSendIsLatest(h, key, i);
    }
    if c.Some? {
      HoldsClaimByAccount(h, key, c.value.owner, now);
    }
    forall owner | HoldsClaim(h, key, owner, now) ensures Young(c, owner, now) {
      HoldsClaimByAccount(h, key, owner, now);
    }
  }

  /** After a prune, the file holds exactly the keys with such a claim or send: nothing stale is left, and
      nothing that matters is gone. */
  lemma PrunedFileHolds(h: seq<Op>, key: string)
    requires IsHistory(h) && h != [] && Last(h).Prune?
    ensures key in StateAfter(h)
       <==> (exists owner :: HoldsClaim(h, key, owner, Last(h).now))
            || (exists i :: 0 <= i < |h| && EffectiveSend(h, i, key) && Last(h).now - h[i].now <= MAX_RETENTION_SECONDS)
  {
    var m, now := StateAfter(Init(h)), Last(h).now;
    AliveExactlyWhen(h, key, now);
    ExpireAbsorbs(m, now, now);
    ExpireKeepsAlive(StateAfter(h), now);
    assert Expire(StateAfter(h), now) == StateAfter(h);
  }

  /******* Senders *******/

  /** Whoever is granted a key finds nobody's claim on it and no recent send of it. */
  lemma GrantFindsNeither(h: seq<Op>, op: Op, key: string)
    requires IsHistory(h) && Follows(h, op) && op.Reserve? && op.granted && op.key == key
    ensures forall i :: 0 <= i < |h| && EffectiveSend(h, i, key) ==> op.now - h[i].now >= op.window
    ensures forall owner :: !HoldsClaim(h, key, owner, op.now)
  {
    RefusedExactlyWhen(h, key, op.now, op.window);
  }

  lemma GrantAtFindsNeither(h: seq<Op>, j: nat, key: string, owner: string, f: nat)
    requires IsHistory(h) && j < |h| && h[j].Reserve? && h[j].granted && h[j].key == key
    ensures !HoldsClaim(h[..j], key, owner, h[j].now)
    ensures f < j && EffectiveSend(h[..j], f, key) ==> h[j].now - h[..j][f].now >= h[j].window
  {
    HistoryPrefix(h, j);
    GrantFindsNeither(h[..j], h[j], key);
  }

  lemma SettledBetween(h: seq<Op>, i: nat, j: nat, key: string, owner: string, now: real)
    requires i < j <= |h| && Grants(h[i], key, owner) && now - h[i].now < INFLIGHT_TTL_SECONDS
    requires !HoldsClaim(h[..j], key, owner, now)
    ensures exists g :: i < g < j && Settles(h[g], key, owner)
  {
    assert !OpenSince(h[..j], i, key, owner);
  }

  lemma EffectiveSendPrefix(h: seq<Op>, f: nat, j: nat, key: string)
    requires f < j <= |h|
    ensures EffectiveSend(h[..j], f, key) <==> EffectiveSend(h, f, key)
  {
    assert h[..j][..f] == h[..f];
  }

  /** When a granted sender settles before its claim expires, the next grant of the key comes after that
      settling: sending intervals for one key are disjoint. */
  lemma SendersAreDisjoint(h: seq<Op>, i: nat, j: nat, f: nat, key: string, owner: string, next: string)
    requires IsHistory(h) && i < j < |h| && i < f < |h|
    requires Grants(h[i], key, owner) && Grants(h[j], key, next)
    requires Settles(h[f], key, owner) && h[f].now - h[i].now < INFLIGHT_TTL_SECONDS
    ensures exists g :: i < g < j && Settles(h[g], key, owner)
  {
    if j < f {
      ClockAtOrBefore(h, j, f);
      GrantAtFindsNeither(h, j, key, owner, i);
      SettledBetween(h, i, j, key, owner, h[j].now);
    } else {
      assert f < j && Settles(h[f], key, owner);
    }
  }

  lemma ClockAtOrBefore(h: seq<Op>, i: nat, j: nat)
    requires IsHistory(h) && i < j < |h|
    ensures h[i].now <= h[j].now
  {
    HistoryPrefix(h, j);
    ClockAt(h[..j], i);
  }

  /** A grant comes at least one window after every effective successful finalize of the key before it. */
  lemma GrantAfterWindow(h: seq<Op>, f: nat, j: nat, key: string)
    requires IsHistory(h) && f < j < |h| && EffectiveSend(h, f, key)
    requires h[j].Reserve? && h[j].granted && h[j].key == key
    ensures h[j].now - h[f].now >= h[j].window
  {
    EffectiveSendPrefix(h, f, j, key);
    GrantAtFindsNeither(h, j, key, h[f].owner, f);
  }

  /** A finalize changes the file if and only if its owner still holds the claim; one whose claim expired
      or was taken over writes nothing. */
  lemma FinalizeWritesIffHeld(h: seq<Op>, key: string, owner: string, now: real, sent: bool)
    requires IsHistory(h) && Follows(h, Finalize(key, owner, now, sent))
    ensures Apply(StateAfter(h), Finalize(key, owner, now, sent)) != StateAfter(h) <==> HoldsClaim(h, key, owner, now)
  {
    var m := StateAfter(h);
    FileAgrees(h, key, now);
    AgreesLater(m, key, LastSend(h, key), ClaimOf(h, key), now, now);
    HoldsClaimByAccount(h, key, owner, now);
    var e := Get(Expire(m, now), key);
    if e.owner == Some(owner) {
      assert Get(Finalized(Expire(m, now), key, now, sent), key).inflightUntil.None?;
      assert Get(m, key).inflightUntil == e.inflightUntil;
    }
  }
}
