/** The checkpoint store: the event log, its checkpoint index and the state snapshot beside them. */
module CheckpointStore {
  import opened Wrappers
  import opened JsonLines
  import opened Records
  import opened CheckpointIndex

  /** How an append to the log ends: it succeeds, or it raises after writing nothing or the whole line. */
  datatype AppendOutcome = Done | FailedEmpty | FailedWhole

  function Appended(recs: seq<Event>, e: Event, out: AppendOutcome): seq<Event> {
    if out.FailedEmpty? then recs else recs + [e]
  }

  /** What loading reports about the first run: nothing done yet, or done with the given data. */
  datatype InitialSync =
    | NotCompleted
    | Completed(mode: JsonValue, checkpoint: JsonValue, notificationSent: bool)

  const LEGACY := Str("legacy")

  function LastInitialSync(recs: seq<Event>): Option<Event> {
    if recs == [] then None
    else if recs[|recs| - 1].name.InitialSyncCompleted? then Some(recs[|recs| - 1])
    else LastInitialSync(recs[..|recs| - 1])
  }

  function InitialSyncOf(recs: seq<Event>, stateLast: JsonValue, stateExists: bool): InitialSync {
    var last := LastInitialSync(recs);
    if last.Some? then
      Completed(last.value.detail, last.value.checkpoint,
                exists i :: 0 <= i < |recs| && recs[i].name.InitialSyncNotificationSent?)
    else if HasCheckpoint(recs) then Completed(LEGACY, Frontier(recs), true)
    else if stateExists then Completed(LEGACY, stateLast, true)
    else NotCompleted
  }

  /** The index that loading leaves behind: refreshed by the index path, then rewritten by a full scan, as
      far as the writes succeed. */
  function IndexAfterLoad(c: Codec<Event>, f: seq<byte>, index: Option<Index>, stateLast: JsonValue,
                          refreshOk: bool, rescanOk: bool): Option<Index>
  {
    match ReadIndex(c, f, index)
    case IndexRaised => index
    case IndexRead(found, refreshed) =>
      var index' := if refreshed.Some? && refreshOk then refreshed else index;
      if found.Some? then index'
      else match FullScan(c, f, stateLast)
           case ScanRaised => index'
           case Scanned(_, rescanned, _) => if rescanned.Some? && rescanOk then rescanned else index'
  }

  /** The log has a checkpoint but no first synchronisation: it comes from an older installation. */
  predicate IsLegacy(c: Codec<Event>, f: seq<byte>) {
    var l := Load(c, f, 0);
    l.Entries? && LastInitialSync(RecordsOf(l.entries)).None? && LastCheckpointEntry(l.entries).Some?
  }

  /** What any log says about the first run; `None` when reading it raises. */
  function ReadInitialSync(c: Codec<Event>, f: seq<byte>, index: Option<Index>, stateLast: JsonValue, stateExists: bool)
    : Option<InitialSync>
  {
    var l := Load(c, f, 0);
    if !l.Entries? then None
    else if !IsLegacy(c, f) then Some(InitialSyncOf(RecordsOf(l.entries), stateLast, stateExists))
    else match LoadValue(c, f, index, stateLast)
         case Some(checkpoint) => Some(Completed(LEGACY, checkpoint, true))
         case None => None
  }

  class JsonlCheckpointStore {
    const codec: Codec<Event>
    var events: seq<byte>
    var index: Option<Index>
    var stateLast: JsonValue
    var stateExists: bool
    ghost var recs: seq<Event>

    /** The log holds exactly the records appended so far, and the index, if any, describes a prefix of them. */
    ghost predicate Valid()
      reads this
    {
      && Lawful(codec)
      && events == LogBytes(codec, recs)
      && (index.Some? ==> OfPrefix(codec, recs, index.value))
    }

    constructor (codec: Codec<Event>, stateLast: JsonValue, stateExists: bool)
      ensures this.codec == codec && events == [] && index == None
      ensures this.stateLast == stateLast && this.stateExists == stateExists
      ensures recs == [] && (Lawful(codec) ==> Valid())
    {
      this.codec := codec;
      events, index := [], None;
      this.stateLast, this.stateExists := stateLast, stateExists;
      recs := [];
    }

    /** One append to the log; the returned offset and end are what the append reports on success. */
    method AppendJsonl(e: Event, out: AppendOutcome) returns (offset: nat, eofSize: nat)
      modifies this`events, this`recs
      ensures recs == Appended(old(recs), e, out)
      ensures events == if out.FailedEmpty? then old(events) else old(events) + Line(codec, e)
      ensures offset == |old(events)| && eofSize == |events|
      ensures old(Valid()) ==> Valid()
    {
      offset := |events|;
      if !out.FailedEmpty? {
        LogBytesAppend(codec, recs, e);
        if index.Some? && OfPrefix(codec, recs, index.value) {
          OfPrefixGrows(codec, recs, e, index.value);
        }
        events := events + Line(codec, e);
        recs := recs + [e];
      }
      eofSize := |events|;
    }

    method UpdateIndex(checkpoint: JsonValue, offset: nat, eofSize: nat, writeOk: bool)
      modifies this`index
      ensures index == if writeOk then Some(NewIndex(checkpoint, offset, eofSize)) else old(index)
    {
      if writeOk {
        index := Some(NewIndex(checkpoint, offset, eofSize));
      }
    }

    /** Returns false where the source raises `OSError`. */
    method AppendEvent(e: Event, out: AppendOutcome, indexOk: bool) returns (ok: bool)
      modifies this`events, this`recs, this`index
      ensures ok <==> out.Done?
      ensures recs == Appended(old(recs), e, out)
      ensures events == if out.FailedEmpty? then old(events) else old(events) + Line(codec, e)
      ensures index == if ok && IsCheckpointEvent(e) && indexOk
                       then Some(NewIndex(e.checkpoint, |old(events)|, |events|)) else old(index)
      ensures old(Valid()) ==> Valid()
    {
      var offset, eofSize := AppendJsonl(e, out);
      ok := out.Done?;
      if ok && IsCheckpointEvent(e) {
        AppendIndexIsOfPrefix(codec, old(recs), e, offset);
        UpdateIndex(e.checkpoint, offset, eofSize, indexOk);
      }
    }

    /** Appends a checkpoint event; false where the source raises `CheckpointError`. The state snapshot
        follows only a successful append, and only as far as its own write succeeds. */
    method AdvanceCheckpoint(id: string, out: AppendOutcome, indexOk: bool, snapshotOk: bool) returns (ok: bool)
      modifies this
      ensures ok <==> out.Done?
      ensures recs == Appended(old(recs), Event(CheckpointAdvanced, Str(id), Null, Null), out)
      ensures events == if out.FailedEmpty? then old(events)
                        else old(events) + Line(codec, Event(CheckpointAdvanced, Str(id), Null, Null))
      ensures index == if ok && indexOk then Some(NewIndex(Str(id), |old(events)|, |events|)) else old(index)
      ensures stateLast == if ok && snapshotOk then Str(id) else old(stateLast)
      ensures stateExists == (old(stateExists) || (ok && snapshotOk))
      ensures old(Valid()) ==> Valid()
    {
      ok := AppendEvent(Event(CheckpointAdvanced, Str(id), Null, Null), out, indexOk);
      if ok && snapshotOk {
        stateLast, stateExists := Str(id), true;
      }
    }

    method CompleteInitialSync(checkpoint: JsonValue, mode: JsonValue, out: AppendOutcome,
                               indexOk: bool, snapshotOk: bool)
      returns (ok: bool)
      modifies this
      ensures ok <==> out.Done?
      ensures recs == Appended(old(recs), Event(InitialSyncCompleted, checkpoint, Null, mode), out)
      ensures events == if out.FailedEmpty? then old(events)
                        else old(events) + Line(codec, Event(InitialSyncCompleted, checkpoint, Null, mode))
      ensures index == if ok && indexOk then Some(NewIndex(checkpoint, |old(events)|, |events|)) else old(index)
      ensures stateLast == if ok && snapshotOk then checkpoint else old(stateLast)
      ensures stateExists == (old(stateExists) || (ok && snapshotOk))
      ensures old(Valid()) ==> Valid()
    {
      ok := AppendEvent(Event(InitialSyncCompleted, checkpoint, Null, mode), out, indexOk);
      if ok && snapshotOk {
        stateLast, stateExists := checkpoint, true;
      }
    }

    /** The current frontier, through the index when it can be trusted; `None` where the source raises,
        either because the log is damaged or because the bootstrap append fails. Nothing is asked of
        the log or of the index; when the log was only ever appended to, the answer is its frontier. */
    method LoadCheckpoint(refreshOk: bool, rescanOk: bool, out: AppendOutcome, indexOk: bool)
      returns (r: Option<JsonValue>)
      modifies this`events, this`recs, this`index
      ensures LoadBootstraps(codec, old(events), old(index), stateLast)
              ==> recs == Appended(old(recs), Event(CheckpointAdvanced, stateLast, Null, BOOTSTRAP), out)
      ensures !LoadBootstraps(codec, old(events), old(index), stateLast) ==>
                && events == old(events) && recs == old(recs)
                && index == IndexAfterLoad(codec, events, old(index), stateLast, refreshOk, rescanOk)
      ensures r == if LoadBootstraps(codec, old(events), old(index), stateLast) && !out.Done? then None
                   else LoadValue(codec, old(events), old(index), stateLast)
      ensures old(Valid()) ==>
                && Valid()
                && (LoadBootstraps(codec, old(events), old(index), stateLast)
                    <==> old(recs) == [] && stateLast.Truthy())
                && LoadValue(codec, old(events), old(index), stateLast)
                   == Some(if HasCheckpoint(old(recs)) then Frontier(old(recs)) else stateLast)
    {
      ghost var valid := Valid();
      if valid {
        LoadGivesFrontier(codec, recs, index, stateLast);
        LoadWritesOfPrefix(codec, recs, index, stateLast);
      }
      var read := ReadIndex(codec, events, index);
      if read.IndexRaised? {
        return None;
      }
      if read.refreshed.Some? && refreshOk {
        index := read.refreshed;
      }
      if read.found.Some? {
        return Some(Str(read.found.value));
      }
      var loaded := LoadJsonlEntries(codec, events, 0);
      if !loaded.Entries? {
        return None;
      }
      var last := FindLastCheckpointEntry(loaded.entries);
      if last.Some? {
        var e := last.value;
        UpdateIndex(e.record.checkpoint, e.offset, |events|, rescanOk);
        return Some(e.record.checkpoint);
      }
      r := Some(stateLast);
      if stateLast.Truthy() && loaded.entries == [] {
        var ok := AppendEvent(Event(CheckpointAdvanced, stateLast, Null, BOOTSTRAP), out, indexOk);
        if !ok {
          r := None;
        }
      }
    }

    /** What is known about the first run; `None` where the source raises. For the log of an older
        installation the checkpoint is loaded on the way, which may refresh the index. */
    method LoadInitialSyncState(refreshOk: bool, rescanOk: bool) returns (r: Option<InitialSync>)
      modifies this`events, this`recs, this`index
      ensures r == ReadInitialSync(codec, events, old(index), stateLast, stateExists)
      ensures events == old(events) && recs == old(recs)
      ensures index == if IsLegacy(codec, events)
                       then IndexAfterLoad(codec, events, old(index), stateLast, refreshOk, rescanOk) else old(index)
      ensures old(Valid()) ==> Valid() && r == Some(InitialSyncOf(recs, stateLast, stateExists))
    {
      var loaded := LoadJsonlEntries(codec, events, 0);
      if Valid() {
        InitialSyncIsRead(codec, recs, index, stateLast, stateExists);
      }
      if !loaded.Entries? {
        return None;
      }
      LastCheckpointIsFrontier(loaded.entries);
      var rows := RecordsOf(loaded.entries);
      var initial := LastInitialSync(rows);
      if initial.Some? {
        var sent := exists i :: 0 <= i < |rows| && rows[i].name.InitialSyncNotificationSent?;
        return Some(Completed(initial.value.detail, initial.value.checkpoint, sent));
      }
      var last := FindLastCheckpointEntry(loaded.entries);
      if last.Some? {
        var checkpoint := LoadCheckpoint(refreshOk, rescanOk, Done, false);
        return if checkpoint.Some? then Some(Completed(LEGACY, checkpoint.value, true)) else None;
      }
      if stateExists {
        return Some(Completed(LEGACY, stateLast, true));
      }
      return Some(NotCompleted);
    }

    /** Rebuilds the checkpoint index from the log, or removes it; false where the source raises. */
    method RebuildCheckpointIndex(writeOk: bool) returns (ok: bool)
      modifies this`index
      ensures ok <==> Load(codec, events, 0).Entries?
      ensures ok && writeOk ==> index == RebuiltIndex(codec, events)
      ensures !(ok && writeOk) ==> index == old(index)
    {
      var loaded := LoadJsonlEntries(codec, events, 0);
      if !loaded.Entries? {
        return false;
      }
      var last := FindLastCheckpointEntry(loaded.entries);
      if last.Some? {
        UpdateIndex(last.value.record.checkpoint, last.value.offset, |events|, writeOk);
      } else if writeOk {
        index := None;
      }
      return true;
    }
  }

  /** The last checkpoint entry of any scan can be pointed to by an index. */
  lemma EntriesValidate(c: Codec<Event>, f: seq<byte>, q: nat)
    requires q <= |f| && Load(c, f, q).Entries?
    ensures var last := LastCheckpointEntry(Load(c, f, q).entries);
            last.Some? && !last.value.record.checkpoint.Other? ==>
              Validates(c, f, NewIndex(last.value.record.checkpoint, last.value.offset, |f|))
  {
    var es := Load(c, f, q).entries;
    LastCheckpointIsFrontier(es);
    if LastCheckpointEntry(es).Some? {
      var i :| 0 <= i < |es| && es[i] == LastCheckpointEntry(es).value;
      EntriesReadBack(c, f, q, i);
    }
  }

  lemma LoadLeavesIndex(c: Codec<Event>, f: seq<byte>, index: Option<Index>, stateLast: JsonValue)
    requires Load(c, f, 0).Entries? && LastCheckpointEntry(Load(c, f, 0).entries).Some?
    requires index.Some? ==> GoodIndex(c, f, index.value)
    ensures var frontier := Frontier(RecordsOf(Load(c, f, 0).entries));
            var index' := IndexAfterLoad(c, f, index, stateLast, true, true);
            && index'.Some? && index'.value.eofSize == Some(|f|)
            && index'.value.checkpoint == frontier.StrOrNull()
            && (!frontier.Other? ==> Validates(c, f, index'.value))
  {
    assert f[..|f|] == f;
    LastCheckpointIsFrontier(Load(c, f, 0).entries);
    EntriesValidate(c, f, 0);
    if index.Some? {
      GoodIndexReads(c, f, index.value);
      if Validates(c, f, index.value) && index.value.eofSize.value < |f| {
        EntriesValidate(c, f, index.value.eofSize.value);
      }
    }
  }

  /** Loading an append-only log with its writes succeeding leaves an index of the whole log behind, which the
      next load accepts. */
  lemma LoadRefreshesIndex(c: Codec<Event>, recs: seq<Event>, index: Option<Index>, stateLast: JsonValue)
    requires Lawful(c) && HasCheckpoint(recs)
    requires index.Some? ==> OfPrefix(c, recs, index.value)
    ensures var f := LogBytes(c, recs);
            var index' := IndexAfterLoad(c, f, index, stateLast, true, true);
            && index'.Some? && index'.value.eofSize == Some(|f|)
            && index'.value.checkpoint == Frontier(recs).StrOrNull()
            && (!Frontier(recs).Other? ==> Validates(c, f, index'.value))
  {
    var f := LogBytes(c, recs);
    assert Load(c, f, 0) == Entries(EntriesFrom(c, recs, 0)) by { WholeLogLoads(c, recs); }
    RecordsOfEntries(c, recs);
    LastCheckpointIsFrontier(EntriesFrom(c, recs, 0));
    if index.Some? {
      assert GoodIndex(c, f, index.value) by {
        assert f[..|f|] == f;
        OfPrefixIsGoodOnCut(c, recs, |f|, index.value);
      }
    }
    LoadLeavesIndex(c, f, index, stateLast);
  }

  /** On a log that was only appended to, what is read about the first run is what its records say. */
  lemma InitialSyncIsRead(c: Codec<Event>, recs: seq<Event>, index: Option<Index>, stateLast: JsonValue,
                          stateExists: bool)
    requires Lawful(c)
    requires index.Some? ==> OfPrefix(c, recs, index.value)
    ensures ReadInitialSync(c, LogBytes(c, recs), index, stateLast, stateExists)
         == Some(InitialSyncOf(recs, stateLast, stateExists))
  {
    WholeLogLoads(c, recs);
    RecordsOfEntries(c, recs);
    LastCheckpointIsFrontier(EntriesFrom(c, recs, 0));
    LoadGivesFrontier(c, recs, index, stateLast);
  }

  /** The index that a rebuild leaves behind when its write succeeds. */
  function RebuiltIndex(c: Codec<Event>, f: seq<byte>): Option<Index> {
    var l := Load(c, f, 0);
    if !l.Entries? then None
    else match LastCheckpointEntry(l.entries)
         case Some(e) => Some(NewIndex(e.record.checkpoint, e.offset, |f|))
         case None => None
  }
}
