/** The dedupe state that keeps one Discord message from being sent twice: a map from message keys to
    the time of the last send and the claim of a sender that is at work. */
module Dedupe {
  import opened Wrappers

  const MAX_RETENTION_SECONDS: real := 2678400.0
  const INFLIGHT_TTL_SECONDS: real := 120.0
  const MAX_ENTRIES: nat := 20_000

  /** The kinds of messages; each has its own window, and its name starts the key of a message. */
  datatype Kind = Alert | Recovery | Test | Notification

  function WindowSeconds(kind: Kind): real {
    match kind
    case Alert => 900.0
    case Recovery => 900.0
    case Test => 60.0
    case Notification => 604800.0
  }

  function KindText(kind: Kind): string {
    match kind
    case Alert => "alert"
    case Recovery => "recovery"
    case Test => "test"
    case Notification => "notification"
  }

  function DedupeKey(kind: Kind, digest: string): string {
    KindText(kind) + ":" + digest
  }

  /** Messages of different kinds or different contents never share a key, and every window, a week for
      notifications, a quarter of an hour for alerts and recoveries and a minute for tests, lies within the
      31 days for which entries are kept. */
  lemma KeysSeparateMessages(k1: Kind, d1: string, k2: Kind, d2: string)
    ensures DedupeKey(k1, d1) == DedupeKey(k2, d2) <==> k1 == k2 && d1 == d2
    ensures 0.0 < WindowSeconds(k1) <= MAX_RETENTION_SECONDS
    ensures var day := 24.0 * 60.0 * 60.0;
            && MAX_RETENTION_SECONDS == 31.0 * day && INFLIGHT_TTL_SECONDS == 2.0 * 60.0 && WindowSeconds(Notification) == 7.0 * day
            && WindowSeconds(Alert) == WindowSeconds(Recovery) == 15.0 * WindowSeconds(Test) == 15.0 * 60.0
  {
    var a, b := DedupeKey(k1, d1), DedupeKey(k2, d2);
    assert a[0] == KindText(k1)[0] && b[0] == KindText(k2)[0];
    assert k1 == k2 || KindText(k1)[0] != KindText(k2)[0];
    assert a[|KindText(k1)| + 1..] == d1 && b[|KindText(k2)| + 1..] == d2;
  }

  datatype Entry = Entry(lastSent: Option<real>, inflightUntil: Option<real>, owner: Option<string>)

  type Entries = map<string, Entry>

  /******* Order of keys *******/

  /** Strings are ordered character by character. */
  predicate TextLess(a: string, b: string)
    decreases a
  {
    b != "" && (a == "" || a[0] < b[0] || (a[0] == b[0] && TextLess(a[1..], b[1..])))
  }

  lemma {:induction false} TextLessTotal(a: string, b: string)
    ensures a == b || TextLess(a, b) || TextLess(b, a)
    ensures !(TextLess(a, b) && TextLess(b, a)) && !TextLess(a, a)
    decreases a
  {
    if a != "" {
      TextLessTotal(a[1..], a[1..]);
      if b != "" {
        TextLessTotal(a[1..], b[1..]);
        assert a == [a[0]] + a[1..] && b == [b[0]] + b[1..];
      }
    }
  }

  lemma {:induction false} TextLessTransitive(a: string, b: string, c: string)
    requires TextLess(a, b) && TextLess(b, c)
    ensures TextLess(a, c)
    decreases a
  {
    if a != "" && a[0] == b[0] == c[0] {
      TextLessTransitive(a[1..], b[1..], c[1..]);
    }
  }

  /** The strings agree before place `i`, and there `a` ends or has the smaller character. */
  predicate FirstDifference(a: string, b: string, i: int) {
    0 <= i <= |a| && i < |b| && a[..i] == b[..i] && (i == |a| || a[i] < b[i])
  }

  lemma FirstDifferenceBehind(a: string, b: string, i: nat)
    requires a != "" && b != "" && a[0] == b[0]
    ensures FirstDifference(a, b, i + 1) <==> FirstDifference(a[1..], b[1..], i)
  {
    if i < |a| && i < |b| {
      assert a[..i + 1] == [a[0]] + a[1..][..i] && b[..i + 1] == [b[0]] + b[1..][..i];
    }
  }

  /** So strings are compared at the first place where they differ, and a prefix comes first. */
  lemma {:induction false} TextLessIff(a: string, b: string)
    ensures TextLess(a, b) <==> exists i :: FirstDifference(a, b, i)
    decreases a
  {
    if b != "" && (a == "" || a[0] < b[0]) {
      assert FirstDifference(a, b, 0);
    } else if a != "" && b != "" && a[0] == b[0] {
      TextLessIff(a[1..], b[1..]);
      if i :| FirstDifference(a[1..], b[1..], i) {
        FirstDifferenceBehind(a, b, i);
      }
      if i :| FirstDifference(a, b, i) {
        assert i > 0;
        FirstDifferenceBehind(a, b, i - 1);
      }
    }
  }

  /** The order in which entries over the cap are dropped: by the time of the last send, entries that
      were never sent first, and then by key. */
  predicate Older(m: Entries, a: string, b: string)
    requires a in m && b in m
  {
    match (m[a].lastSent, m[b].lastSent)
    case (None, None) => TextLess(a, b)
    case (None, Some(_)) => true
    case (Some(_), None) => false
    case (Some(s), Some(t)) => s < t || (s == t && TextLess(a, b))
  }

  lemma OlderIsStrictOrder(m: Entries, a: string, b: string, c: string)
    requires a in m && b in m && c in m
    ensures a == b || Older(m, a, b) || Older(m, b, a)
    ensures !(Older(m, a, b) && Older(m, b, a)) && !Older(m, a, a)
    ensures Older(m, a, b) && Older(m, b, c) ==> Older(m, a, c)
  {
    TextLessTotal(a, b);
    TextLessTotal(a, a);
    if TextLess(a, b) && TextLess(b, c) {
      TextLessTransitive(a, b, c);
    }
  }

  /******* Pruning *******/

  /** An entry without an expired claim, and without an owner that has no claim. */
  function Unclaimed(e: Entry, now: real): Entry {
    var e1 := if e.inflightUntil.Some? && e.inflightUntil.value <= now
              then e.(inflightUntil := None, owner := None) else e;
    if e1.owner.Some? && e1.inflightUntil.None? then e1.(owner := None) else e1
  }

  /** Whether an entry is still worth keeping once its expired claim is gone. */
  predicate Kept(e: Entry, now: real) {
    var e' := Unclaimed(e, now);
    e'.inflightUntil.Some? || (e'.lastSent.Some? && now - e'.lastSent.value <= MAX_RETENTION_SECONDS)
  }

  function Expire(m: Entries, now: real): (r: Entries) {
    map k | k in m && Kept(m[k], now) :: Unclaimed(m[k], now)
  }

  lemma {:induction false} OldestExists(m: Entries, keys: set<string>) returns (k: string)
    requires keys != {} && keys <= m.Keys
    ensures k in keys && forall j :: j in keys && j != k ==> Older(m, k, j)
    decreases keys
  {
    k :| k in keys;
    if keys != {k} {
      var best := OldestExists(m, keys - {k});
      OlderIsStrictOrder(m, k, best, k);
      if Older(m, best, k) {
        k := best;
      } else {
        forall j | j in keys && j != k ensures Older(m, k, j) {
          OlderIsStrictOrder(m, k, best, j);
        }
      }
    }
  }

  /** What is left when the oldest entries are dropped until at most `cap` remain: no entry that is left
      is older than one that was dropped. */
  ghost predicate IsNewest(m: Entries, r: Entries, cap: nat) {
    && r.Keys <= m.Keys && (forall k :: k in r ==> r[k] == m[k])
    && |r| == (if |m| > cap then cap else |m|)
    && (forall k, d :: k in r && d in m && d !in r ==> Older(m, d, k))
  }

  lemma NewestIsUnique(m: Entries, r1: Entries, r2: Entries, cap: nat)
    requires IsNewest(m, r1, cap) && IsNewest(m, r2, cap)
    ensures r1 == r2
  {
    if r1.Keys != r2.Keys {
      if r1.Keys <= r2.Keys {
        ProperSubsetIsSmaller(r1.Keys, r2.Keys);
      } else if r2.Keys <= r1.Keys {
        ProperSubsetIsSmaller(r2.Keys, r1.Keys);
      } else {
        var a :| a in r1 && a !in r2;
        var b :| b in r2 && b !in r1;
        OlderIsStrictOrder(m, a, b, a);
      }
    }
  }

  lemma {:induction false} ProperSubsetIsSmaller<T>(a: set<T>, b: set<T>)
    requires a < b
    ensures |a| < |b|
  {
    assert b == a + (b - a);
    assert |b| == |a| + |b - a|;
  }

  /** Nothing is dropped from a map within the cap. */
  lemma NewestWithinCap(m: Entries, r: Entries, cap: nat)
    requires IsNewest(m, r, cap) && |m| <= cap
    ensures r == m
  {
    if r.Keys != m.Keys {
      ProperSubsetIsSmaller(r.Keys, m.Keys);
    }
  }

  method DropOldest(m: Entries, cap: nat) returns (r: Entries, changed: bool)
    ensures IsNewest(m, r, cap)
    ensures changed <==> r != m
  {
    r, changed := m, false;
    while |r| > cap
      invariant r.Keys <= m.Keys && (forall k :: k in r ==> r[k] == m[k])
      invariant |r| >= (if |m| > cap then cap else |m|)
      invariant forall k, d :: k in r && d in m && d !in r ==> Older(m, d, k)
      invariant if changed then |r| < |m| else r == m
      decreases |r|
    {
      assert r.Keys != {};
      ghost var oldest := OldestExists(m, r.Keys);
      var k :| k in r.Keys && forall j :: j in r.Keys && j != k ==> Older(m, k, j);
      assert (r - {k}).Keys == r.Keys - {k};
      r, changed := r - {k}, true;
    }
  }

  /** The map that pruning leaves; there is exactly one. */
  ghost function Pruned(m: Entries, now: real): (r: Entries)
    ensures IsNewest(Expire(m, now), r, MAX_ENTRIES)
  {
    NewestExists(Expire(m, now), MAX_ENTRIES);
    var r :| IsNewest(Expire(m, now), r, MAX_ENTRIES);
    r
  }

  lemma {:induction false} NewestExists(m: Entries, cap: nat)
    ensures exists r :: IsNewest(m, r, cap)
    decreases |m|
  {
    if |m| <= cap {
      assert IsNewest(m, m, cap);
    } else {
      var k := OldestExists(m, m.Keys);
      var m' := m - {k};
      assert m'.Keys == m.Keys - {k};
      NewestExists(m', cap);
      var r :| IsNewest(m', r, cap);
      forall i, d | i in r && d in m && d !in r ensures Older(m, d, i) {
        if d != k {
          assert Older(m', d, i);
        }
      }
      assert IsNewest(m, r, cap);
    }
  }

  lemma PrunedWithinCap(m: Entries, now: real)
    requires |Expire(m, now)| <= MAX_ENTRIES
    ensures Pruned(m, now) == Expire(m, now)
  {
    NewestWithinCap(Expire(m, now), Pruned(m, now), MAX_ENTRIES);
  }

  /** Expiring earlier changes nothing for a later expiry. */
  lemma ExpireAbsorbs(m: Entries, t: real, now: real)
    requires t <= now
    ensures Expire(Expire(m, t), now) == Expire(m, now)
  {
  }

  /** What pruning is for: a claim that still runs, or a last send within the retention time. */
  predicate Alive(e: Entry, now: real) {
    || (e.inflightUntil.Some? && e.inflightUntil.value > now)
    || (e.lastSent.Some? && now - e.lastSent.value <= MAX_RETENTION_SECONDS)
  }

  function LiveKeys(m: Entries, now: real): set<string> {
    set k | k in m && Alive(m[k], now)
  }

  lemma ExpireKeepsAlive(m: Entries, now: real)
    ensures Expire(m, now).Keys == LiveKeys(m, now)
  {
  }

  /** Every entry that pruning leaves was alive, keeps its last send, and keeps its claim exactly while that
      runs; within the cap pruning leaves every live entry, so the stale ones are exactly what it removes. */
  lemma PruningRemovesStale(m: Entries, now: real)
    ensures var r := Pruned(m, now);
            && (forall k :: k in r ==> k in m && Alive(m[k], now) && r[k].lastSent == m[k].lastSent)
            && (forall k :: k in r ==>
                  if m[k].inflightUntil.Some? && m[k].inflightUntil.value > now
                  then r[k].inflightUntil == m[k].inflightUntil && r[k].owner == m[k].owner
                  else r[k].inflightUntil.None? && r[k].owner.None?)
            && (|LiveKeys(m, now)| <= MAX_ENTRIES ==> r.Keys == LiveKeys(m, now))
  {
    ExpireKeepsAlive(m, now);
    if |LiveKeys(m, now)| <= MAX_ENTRIES {
      PrunedWithinCap(m, now);
    }
  }

  /** The key that is dropped first among entries with the same last send. */
  ghost predicate SmallerKey(a: string, b: string) {
    exists i :: FirstDifference(a, b, i)
  }

  /** Above the cap, a live entry is dropped only for ones that were sent later, or at the same time under a
      greater key; entries that were never sent go first. */
  lemma CapKeepsLatest(m: Entries, now: real, kept: string, dropped: string)
    requires kept in Pruned(m, now) && dropped in LiveKeys(m, now) && dropped !in Pruned(m, now)
    ensures |Pruned(m, now)| == MAX_ENTRIES && kept in m
    ensures var d, k := m[dropped].lastSent, m[kept].lastSent;
            if d.None? then k.Some? || SmallerKey(dropped, kept)
            else k.Some? && (d.value < k.value || (d.value == k.value && SmallerKey(dropped, kept)))
  {
    ExpireKeepsAlive(m, now);
    PruningRemovesStale(m, now);
    var e, r := Expire(m, now), Pruned(m, now);
    assert Older(e, dropped, kept);
    assert e[dropped].lastSent == m[dropped].lastSent && e[kept].lastSent == m[kept].lastSent;
    TextLessIff(dropped, kept);
    if |e| <= MAX_ENTRIES {
      NewestWithinCap(e, r, MAX_ENTRIES);
    }
  }

  /** Pruning again at the same time is a no-op. */
  lemma PruneTwice(m: Entries, now: real)
    ensures Pruned(Pruned(m, now), now) == Pruned(m, now)
  {
    var p := Pruned(m, now);
    ExpireAbsorbs(m, now, now);
    assert Expire(p, now) == p by {
      forall k | k in p ensures Kept(p[k], now) && Unclaimed(p[k], now) == p[k] {
        assert k in Expire(m, now) && p[k] == Expire(m, now)[k];
      }
    }
    PrunedWithinCap(p, now);
  }

  /******* Deciding *******/

  const NO_ENTRY := Entry(None, None, None)

  function Get(m: Entries, key: string): Entry {
    if key in m then m[key] else NO_ENTRY
  }

  /** A send is refused while the last one is less than a window ago, or a claim is still running. */
  predicate Refused(e: Entry, now: real, window: real) {
    || (e.lastSent.Some? && now - e.lastSent.value < window)
    || (e.inflightUntil.Some? && e.inflightUntil.value > now)
  }

  /** Pruning never changes a later decision, for any window up to the retention time. */
  lemma PruningKeepsDecision(m: Entries, t: real, key: string, now: real, window: real)
    requires t <= now && window <= MAX_RETENTION_SECONDS
    requires |Expire(m, t)| <= MAX_ENTRIES && |Expire(m, now)| <= MAX_ENTRIES
    ensures Refused(Get(Pruned(Pruned(m, t), now), key), now, window) <==> Refused(Get(m, key), now, window)
  {
    PrunedWithinCap(m, t);
    ExpireAbsorbs(m, t, now);
    PrunedWithinCap(Pruned(m, t), now);
  }

  /******* The operations *******/

  function Claimed(p: Entries, key: string, owner: string, now: real): Entries {
    p[key := Entry(Get(p, key).lastSent, Some(now + INFLIGHT_TTL_SECONDS), Some(owner))]
  }

  /** What a finalize makes of a pruned map in which the owner still holds the claim. */
  function Finalized(p: Entries, key: string, now: real, sent: bool): Entries
    requires key in p
  {
    var e := p[key].(inflightUntil := None, owner := None);
    if sent then p[key := e.(lastSent := Some(now))]
    else if e.lastSent.None? then p - {key}
    else p[key := e]
  }

  /** How access to the file ends: nothing fails, the lock cannot be taken, or the write raises before or
      after the file was replaced. */
  datatype Access = Fine | LockFails | WriteFails | WrittenThenRaised

  /** Whether a reserve raises inside: it takes the lock always, and writes a claim or, where it refuses,
      only what pruning changed. */
  ghost predicate ReserveRaises(m: Entries, key: string, now: real, window: real, io: Access) {
    var p := Pruned(m, now);
    io.LockFails? || (!io.Fine? && (p != m || !Refused(Get(p, key), now, window)))
  }

  class DedupeFile {
    var entries: Entries

    constructor ()
      ensures entries == map[]
    {
      entries := map[];
    }

    /** Removes expired claims and stale entries, then the oldest entries over the cap; works on what was
        read and reports whether that differs from it. */
    method PruneEntries(read: Entries, now: real) returns (r: Entries, changed: bool)
      ensures r == Pruned(read, now)
      ensures changed <==> r != read
    {
      r, changed := read, false;
      var keys := read.Keys;
      while keys != {}
        invariant keys <= r.Keys <= read.Keys
        invariant forall k :: k in keys ==> r[k] == read[k]
        invariant forall k :: k in read && k !in keys ==> (k in r <==> Kept(read[k], now))
        invariant forall k :: k in r && k !in keys ==> r[k] == Unclaimed(read[k], now)
        invariant changed <==> r != read
        decreases keys
      {
        var k :| k in keys;
        keys := keys - {k};
        ghost var before := r;
        var e := r[k];
        if e.inflightUntil.Some? && e.inflightUntil.value <= now {
          e := e.(inflightUntil := None, owner := None);
          changed := true;
        }
        if e.owner.Some? && e.inflightUntil.None? {
          e := e.(owner := None);
          changed := true;
        }
        if e.inflightUntil.None? && (e.lastSent.None? || now - e.lastSent.value > MAX_RETENTION_SECONDS) {
          r := r - {k};
          changed := true;
          assert k in read && k !in r;
        } else {
          r := r[k := e];
          assert r[k] == Unclaimed(read[k], now);
          assert changed ==> before != read || r[k] != read[k];
          assert !changed ==> r == before;
        }
      }
      assert r == Expire(read, now);
      var dropped;
      ghost var expired := r;
      r, dropped := DropOldest(r, MAX_ENTRIES);
      changed := changed || dropped;
      NewestIsUnique(expired, r, Pruned(read, now), MAX_ENTRIES);
      if dropped {
        assert |r| < |expired| <= |read| by { SmallerMap(r, expired); SmallerOrEqual(expired.Keys, read.Keys); }
      }
    }

    method WriteEntries(written: Entries, io: Access) returns (ok: bool)
      requires !io.LockFails?
      modifies this
      ensures entries == if io.WriteFails? then old(entries) else written
      ensures ok <==> io.Fine?
    {
      if !io.WriteFails? {
        entries := written;
      }
      return io.Fine?;
    }

    /** Takes the claim for a key, or refuses; with no window there is nothing to claim. When the lock or the
        write fails the send is allowed without a claim, even one that would have been refused. */
    method Reserve(key: string, owner: string, now: real, window: real, io: Access)
      returns (allowed: bool, claimed: bool)
      modifies this
      ensures var p := Pruned(old(entries), now);
              var raised := window > 0.0 && ReserveRaises(old(entries), key, now, window, io);
              && (allowed <==> window <= 0.0 || raised || !Refused(Get(p, key), now, window))
              && (claimed <==> allowed && window > 0.0 && !raised)
              && entries == if window <= 0.0 || io.LockFails? || io.WriteFails? then old(entries)
                            else if Refused(Get(p, key), now, window) then p
                            else Claimed(p, key, owner, now)
    {
      if window <= 0.0 {
        return true, false;
      }
      if io.LockFails? {
        return true, false;
      }
      var read, changed := PruneEntries(entries, now);
      if Refused(Get(read, key), now, window) {
        if changed {
          var ok := WriteEntries(read, io);
          if !ok {
            return true, false;
          }
        }
        return false, false;
      }
      var ok := WriteEntries(Claimed(read, key, owner, now), io);
      return true, ok;
    }

    /** Settles the claim of an owner that still holds it; anybody else's call leaves the file alone, and so
        does one whose lock or write fails. */
    method Finalize(key: string, owner: string, now: real, sent: bool, io: Access)
      modifies this
      ensures var p := Pruned(old(entries), now);
              entries == if Get(p, key).owner == Some(owner) && !io.LockFails? && !io.WriteFails?
                         then Finalized(p, key, now, sent) else old(entries)
    {
      if io.LockFails? {
        return;
      }
      var read, _ := PruneEntries(entries, now);
      if key !in read || read[key].owner != Some(owner) {
        return;
      }
      var _ := WriteEntries(Finalized(read, key, now, sent), io);
    }

    /** A send with dedupe: without the claim it reports success and sends nothing; with it, or where the
        claim was bypassed, the send's own result is reported, and a claim is settled. Meanwhile `others`
        may do anything to the file; `sentAt` is the clock after the send. */
    method PostWithDedupe(key: string, owner: string, now: real, window: real, reserveIo: Access, sendOk: bool,
                          others: Entries -> Entries, sentAt: real, finalizeIo: Access)
      returns (reported: bool, posted: bool)
      modifies this
      ensures var p := Pruned(old(entries), now);
              var raised := window > 0.0 && ReserveRaises(old(entries), key, now, window, reserveIo);
              && (posted <==> window <= 0.0 || raised || !Refused(Get(p, key), now, window))
              && (reported <==> !posted || sendOk)
              && (!posted ==> entries == if reserveIo.WriteFails? then old(entries) else p)
              && (posted && (window <= 0.0 || raised) ==>
                    entries == others(if window <= 0.0 || reserveIo.LockFails? || reserveIo.WriteFails?
                                      then old(entries)
                                      else if Refused(Get(p, key), now, window) then p
                                      else Claimed(p, key, owner, now)))
              && (posted && window > 0.0 && !raised ==>
                    var found := others(Claimed(p, key, owner, now));
                    var q := Pruned(found, sentAt);
                    entries == if Get(q, key).owner == Some(owner) && !finalizeIo.LockFails? && !finalizeIo.WriteFails?
                               then Finalized(q, key, sentAt, sendOk) else found)
    {
      var allowed, claimed := Reserve(key, owner, now, window, reserveIo);
      if !allowed {
        return true, false;
      }
      entries := others(entries);
      if claimed {
        Finalize(key, owner, sentAt, sendOk, finalizeIo);
      }
      return sendOk, true;
    }

    /** The pruning that reading the summary does. */
    method Prune(now: real, io: Access)
      modifies this
      ensures entries == if io.LockFails? || io.WriteFails? then old(entries) else Pruned(old(entries), now)
    {
      if io.LockFails? {
        return;
      }
      var read, changed := PruneEntries(entries, now);
      if changed {
        var _ := WriteEntries(read, io);
      }
    }
  }

  lemma SmallerMap(r: Entries, m: Entries)
    requires r.Keys <= m.Keys && (forall k :: k in r ==> r[k] == m[k]) && r != m
    ensures |r| < |m|
  {
    if r.Keys != m.Keys {
      ProperSubsetIsSmaller(r.Keys, m.Keys);
    }
  }

  lemma SmallerOrEqual<T>(a: set<T>, b: set<T>)
    requires a <= b
    ensures |a| <= |b|
  {
    if a != b {
      ProperSubsetIsSmaller(a, b);
    }
  }
}
