/** The checkpoint index: a best-effort cache of the event log's frontier. */
module CheckpointIndex {
  import opened Wrappers
  import opened JsonLines
  import opened Records

  /** The index file's content; `None` stands for a number that is missing or not an integer. */
  datatype Index = Index(checkpoint: JsonValue, offset: Option<int>, eofSize: Option<int>)

  /** What the index is updated to: only a string checkpoint is kept. */
  function NewIndex(checkpoint: JsonValue, offset: nat, eofSize: nat): Index {
    Index(checkpoint.StrOrNull(), Some(offset), Some(eofSize))
  }

  /******* The full scan *******/

  function RecordsOf(es: seq<Entry<Event>>): (r: seq<Event>)
    ensures |r| == |es|
    ensures forall i :: 0 <= i < |es| ==> r[i] == es[i].record
  {
    seq(|es|, i requires 0 <= i < |es| => es[i].record)
  }

  function LastCheckpointEntry(es: seq<Entry<Event>>): Option<Entry<Event>> {
    if es == [] then None
    else if IsCheckpointEvent(es[|es| - 1].record) then Some(es[|es| - 1])
    else LastCheckpointEntry(es[..|es| - 1])
  }

  method FindLastCheckpointEntry(es: seq<Entry<Event>>) returns (r: Option<Entry<Event>>)
    ensures r == LastCheckpointEntry(es)
  {
    var i := |es|;
    assert es[..i] == es;
    while i > 0
      invariant 0 <= i <= |es|
      invariant LastCheckpointEntry(es) == LastCheckpointEntry(es[..i])
    {
      i := i - 1;
      if IsCheckpointEvent(es[i].record) {
        return Some(es[i]);
      }
      assert es[..i + 1][..i] == es[..i];
    }
    return None;
  }

  lemma {:induction false} LastCheckpointIsFrontier(es: seq<Entry<Event>>)
    ensures LastCheckpointEntry(es).Some? <==> HasCheckpoint(RecordsOf(es))
    ensures LastCheckpointEntry(es).Some? ==>
              && LastCheckpointEntry(es).value in es
              && IsCheckpointEvent(LastCheckpointEntry(es).value.record)
    ensures Frontier(RecordsOf(es))
         == if LastCheckpointEntry(es).Some? then LastCheckpointEntry(es).value.record.checkpoint else Null
  {
    if es != [] {
      LastCheckpointIsFrontier(es[..|es| - 1]);
      assert RecordsOf(es)[..|es| - 1] == RecordsOf(es[..|es| - 1]);
      FrontierConcat(RecordsOf(es[..|es| - 1]), [es[|es| - 1].record]);
      assert RecordsOf(es) == RecordsOf(es[..|es| - 1]) + [es[|es| - 1].record];
      if HasCheckpoint(RecordsOf(es[..|es| - 1])) {
        var i :| 0 <= i < |es| - 1 && IsCheckpointEvent(RecordsOf(es[..|es| - 1])[i]);
        assert IsCheckpointEvent(RecordsOf(es)[i]);
      }
    }
  }

  /** What `load_checkpoint` does without an index: `None` when the scan raises. */
  datatype ScanResult =
    | Scanned(checkpoint: JsonValue, refreshed: Option<Index>, bootstrap: bool)
    | ScanRaised

  function FullScan(c: Codec<Event>, f: seq<byte>, stateLast: JsonValue): ScanResult {
    var l := Load(c, f, 0);
    if !l.Entries? then ScanRaised
    else match LastCheckpointEntry(l.entries)
         case Some(e) => Scanned(e.record.checkpoint, Some(NewIndex(e.record.checkpoint, e.offset, |f|)), false)
         case None => Scanned(stateLast, None, stateLast.Truthy() && l.entries == [])
  }

  /******* The index path *******/

  predicate Validates(c: Codec<Event>, f: seq<byte>, idx: Index) {
    && idx.offset.Some? && idx.offset.value >= 0
    && idx.eofSize.Some? && idx.eofSize.value >= 0
    && var row := RowAt(c, f, idx.offset.value);
       row.Some? && IsCheckpointEvent(row.value) && row.value.checkpoint == idx.checkpoint
  }

  datatype IndexRead = IndexRead(found: Option<string>, refreshed: Option<Index>) | IndexRaised

  function Found(v: JsonValue): Option<string> {
    if v.Str? then Some(v.s) else None
  }

  function ReadIndex(c: Codec<Event>, f: seq<byte>, index: Option<Index>): IndexRead {
    if index.None? || !Validates(c, f, index.value) then IndexRead(None, None)
    else
      var idx := index.value;
      var eof := idx.eofSize.value;
      if |f| < eof then IndexRead(None, None)
      else if |f| == eof then IndexRead(Found(idx.checkpoint), None)
      else
        var l := Load(c, f, eof);
        if !l.Entries? then IndexRaised
        else match LastCheckpointEntry(l.entries)
             case Some(e) =>
               IndexRead(Found(e.record.checkpoint), Some(NewIndex(e.record.checkpoint, e.offset, |f|)))
             case None =>
               IndexRead(Found(idx.checkpoint), Some(NewIndex(idx.checkpoint, idx.offset.value, |f|)))
  }

  /** The result of `load_checkpoint`, or `None` when it raises. */
  function LoadValue(c: Codec<Event>, f: seq<byte>, index: Option<Index>, stateLast: JsonValue): Option<JsonValue> {
    match ReadIndex(c, f, index)
    case IndexRaised => None
    case IndexRead(Some(s), _) => Some(Str(s))
    case IndexRead(None, _) =>
      match FullScan(c, f, stateLast)
      case ScanRaised => None
      case Scanned(v, _, _) => Some(v)
  }

  /** Whether `load_checkpoint` appends a bootstrap event. */
  predicate LoadBootstraps(c: Codec<Event>, f: seq<byte>, index: Option<Index>, stateLast: JsonValue) {
    && ReadIndex(c, f, index).IndexRead? && ReadIndex(c, f, index).found.None?
    && FullScan(c, f, stateLast).Scanned? && FullScan(c, f, stateLast).bootstrap
  }

  /******* The index never changes the answer *******/

  /** An index that may be trusted on a file: if it speaks of a part of the file that is still there,
      that part ends at a line boundary or at the end of the file and has the index's checkpoint as
      its frontier. Nothing is asked of its offset. */
  ghost predicate GoodIndex(c: Codec<Event>, f: seq<byte>, idx: Index) {
    idx.eofSize.Some? && 0 <= idx.eofSize.value <= |f| ==>
      var eof := idx.eofSize.value;
      && (Boundary(f, eof) || eof == |f|)
      && Load(c, f[..eof], 0).Entries?
      && idx.checkpoint == Frontier(RecordsOf(Load(c, f[..eof], 0).entries)).StrOrNull()
  }

  /** Behind a line boundary lies the rest of what the full scan sees. */
  lemma FrontierSplits(c: Codec<Event>, f: seq<byte>, eof: nat)
    requires eof <= |f| && Boundary(f, eof) && Load(c, f, 0).Entries?
    ensures Load(c, f[..eof], 0).Entries? && Load(c, f, eof).Entries?
    ensures var before, after := RecordsOf(Load(c, f[..eof], 0).entries), RecordsOf(Load(c, f, eof).entries);
            && Frontier(RecordsOf(Load(c, f, 0).entries))
               == (if HasCheckpoint(after) then Frontier(after) else Frontier(before))
            && (HasCheckpoint(RecordsOf(Load(c, f, 0).entries)) <==> HasCheckpoint(before) || HasCheckpoint(after))
  {
    LoadSplits(c, f, 0, eof);
    var before, after := Load(c, f[..eof], 0).entries, Load(c, f, eof).entries;
    assert RecordsOf(Load(c, f, 0).entries) == RecordsOf(before) + RecordsOf(after);
    FrontierConcat(RecordsOf(before), RecordsOf(after));
    HasCheckpointConcat(RecordsOf(before), RecordsOf(after));
  }

  /** The index path alone: what it finds is the frontier of the file, and what it writes is good. */
  lemma GoodIndexReads(c: Codec<Event>, f: seq<byte>, idx: Index)
    requires Load(c, f, 0).Entries? && GoodIndex(c, f, idx)
    ensures var read := ReadIndex(c, f, Some(idx));
            && read.IndexRead?
            && (read.found.Some? ==> Frontier(RecordsOf(Load(c, f, 0).entries)) == Str(read.found.value))
            && (read.refreshed.Some? ==> GoodIndex(c, f, read.refreshed.value))
  {
    assert f[..|f|] == f;
    if Validates(c, f, idx) && idx.eofSize.value < |f| {
      var eof := idx.eofSize.value;
      FrontierSplits(c, f, eof);
      LastCheckpointIsFrontier(Load(c, f, eof).entries);
    }
  }

  /** On every file that a full scan can read, a good index gives what the full scan gives. */
  lemma GoodIndexAgrees(c: Codec<Event>, f: seq<byte>, idx: Index, stateLast: JsonValue)
    requires Load(c, f, 0).Entries? && GoodIndex(c, f, idx)
    ensures LoadValue(c, f, Some(idx), stateLast) == LoadValue(c, f, None, stateLast)
    ensures LoadBootstraps(c, f, Some(idx), stateLast) == LoadBootstraps(c, f, None, stateLast)
    ensures ReadIndex(c, f, Some(idx)).IndexRead?
    ensures var refreshed := ReadIndex(c, f, Some(idx)).refreshed;
            refreshed.Some? ==> GoodIndex(c, f, refreshed.value)
  {
    GoodIndexReads(c, f, idx);
    LastCheckpointIsFrontier(Load(c, f, 0).entries);
  }

  /** The index that a full scan writes is good. */
  lemma ScanWritesGoodIndex(c: Codec<Event>, f: seq<byte>, stateLast: JsonValue)
    ensures var s := FullScan(c, f, stateLast);
            s.Scanned? && s.refreshed.Some? ==> GoodIndex(c, f, s.refreshed.value)
  {
    assert f[..|f|] == f;
    if Load(c, f, 0).Entries? {
      LastCheckpointIsFrontier(Load(c, f, 0).entries);
    }
  }

  /******* Indexes of an append-only log *******/

  /** The index describes some prefix of the records appended so far, whatever its offset is. */
  ghost predicate OfPrefix(c: Codec<Event>, recs: seq<Event>, idx: Index) {
    exists k :: 0 <= k <= |recs| && DescribesPrefix(c, recs, idx, k)
  }

  ghost predicate DescribesPrefix(c: Codec<Event>, recs: seq<Event>, idx: Index, k: nat)
    requires k <= |recs|
  {
    idx.eofSize == Some(OffsetOf(c, recs, k)) && idx.checkpoint == Frontier(recs[..k]).StrOrNull()
  }

  lemma OfPrefixGrows(c: Codec<Event>, recs: seq<Event>, e: Event, idx: Index)
    requires OfPrefix(c, recs, idx)
    ensures OfPrefix(c, recs + [e], idx)
  {
    var k :| 0 <= k <= |recs| && DescribesPrefix(c, recs, idx, k);
    assert (recs + [e])[..k] == recs[..k];
    assert DescribesPrefix(c, recs + [e], idx, k);
  }

  /** An append of a checkpoint event writes an index of the log it leaves behind, even when the
      offset it sampled is out of date. */
  lemma AppendIndexIsOfPrefix(c: Codec<Event>, recs: seq<Event>, e: Event, offset: nat)
    requires IsCheckpointEvent(e)
    ensures OfPrefix(c, recs + [e], NewIndex(e.checkpoint, offset, |LogBytes(c, recs + [e])|))
  {
    var all := recs + [e];
    FrontierAppend(recs, e);
    assert all[..|all|] == all;
    assert DescribesPrefix(c, all, NewIndex(e.checkpoint, offset, |LogBytes(c, all)|), |all|);
  }

  lemma RecordsOfEntries(c: Codec<Event>, recs: seq<Event>)
    ensures RecordsOf(EntriesFrom(c, recs, 0)) == recs
  {
  }

  /** Cutting the log at any byte keeps every such index good. */
  lemma OfPrefixIsGoodOnCut(c: Codec<Event>, recs: seq<Event>, n: nat, idx: Index)
    requires Lawful(c) && n <= |LogBytes(c, recs)| && OfPrefix(c, recs, idx)
    ensures Load(c, LogBytes(c, recs)[..n], 0).Entries?
    ensures GoodIndex(c, LogBytes(c, recs)[..n], idx)
  {
    var log := LogBytes(c, recs);
    var f := log[..n];
    var k :| 0 <= k <= |recs| && DescribesPrefix(c, recs, idx, k);
    var eof := OffsetOf(c, recs, k);
    assert Load(c, f, 0).Entries? by { PrefixLoadsEntries(c, recs, n); }
    if eof <= n {
      assert f[..eof] == LogBytes(c, recs[..k]) && Boundary(f, eof) by {
        LogBytesPrefix(c, recs, k);
        assert f[..eof] == log[..eof];
      }
      WholeLogLoads(c, recs[..k]);
      RecordsOfEntries(c, recs[..k]);
    }
  }

  /** On a log that was not cut, loading gives the frontier of what was appended, or the snapshot's
      value when no checkpoint event was appended. */
  lemma LoadGivesFrontier(c: Codec<Event>, recs: seq<Event>, index: Option<Index>, stateLast: JsonValue)
    requires Lawful(c)
    requires index.Some? ==> OfPrefix(c, recs, index.value)
    ensures LoadValue(c, LogBytes(c, recs), index, stateLast)
         == Some(if HasCheckpoint(recs) then Frontier(recs) else stateLast)
    ensures FullScan(c, LogBytes(c, recs), stateLast).Scanned?
    ensures FullScan(c, LogBytes(c, recs), stateLast).bootstrap <==> recs == [] && stateLast.Truthy()
  {
    var f := LogBytes(c, recs);
    WholeLogLoads(c, recs);
    LastCheckpointIsFrontier(EntriesFrom(c, recs, 0));
    RecordsOfEntries(c, recs);
    if index.Some? {
      assert f[..|f|] == f;
      OfPrefixIsGoodOnCut(c, recs, |f|, index.value);
      GoodIndexAgrees(c, f, index.value, stateLast);
    }
  }

  lemma GoodAtEndIsOfPrefix(c: Codec<Event>, recs: seq<Event>, idx: Index)
    requires Lawful(c)
    requires idx.eofSize == Some(|LogBytes(c, recs)|) && GoodIndex(c, LogBytes(c, recs), idx)
    ensures OfPrefix(c, recs, idx)
  {
    var f := LogBytes(c, recs);
    assert f[..|f|] == f && recs[..|recs|] == recs;
    WholeLogLoads(c, recs);
    RecordsOfEntries(c, recs);
    assert DescribesPrefix(c, recs, idx, |recs|);
  }

  /** The indexes that loading writes describe a prefix of the log again. */
  lemma LoadWritesOfPrefix(c: Codec<Event>, recs: seq<Event>, index: Option<Index>, stateLast: JsonValue)
    requires Lawful(c)
    requires index.Some? ==> OfPrefix(c, recs, index.value)
    ensures var r := ReadIndex(c, LogBytes(c, recs), index);
            r.IndexRead? && (r.refreshed.Some? ==> OfPrefix(c, recs, r.refreshed.value))
    ensures var s := FullScan(c, LogBytes(c, recs), stateLast);
            s.Scanned? && (s.refreshed.Some? ==> OfPrefix(c, recs, s.refreshed.value))
  {
    var f := LogBytes(c, recs);
    assert f[..|f|] == f;
    assert Load(c, f, 0).Entries? by { WholeLogLoads(c, recs); }
    var s := FullScan(c, f, stateLast);
    if s.refreshed.Some? {
      ScanWritesGoodIndex(c, f, stateLast);
      GoodAtEndIsOfPrefix(c, recs, s.refreshed.value);
    }
    if index.Some? {
      OfPrefixIsGoodOnCut(c, recs, |f|, index.value);
      GoodIndexAgrees(c, f, index.value, stateLast);
      var r := ReadIndex(c, f, index);
      if r.refreshed.Some? {
        GoodAtEndIsOfPrefix(c, recs, r.refreshed.value);
      }
    }
  }

  /** The index that the append of a checkpoint event wrote is used: with any events appended behind it, the
      index path alone finds the frontier, when that is a string, and moves the end of the index to the end
      of the log. */
  lemma AppendedIndexIsUsed(c: Codec<Event>, recs: seq<Event>, e: Event, more: seq<Event>)
    requires Lawful(c) && IsCheckpointEvent(e) && !e.checkpoint.Other?
    ensures var log := recs + [e] + more;
            var f, idx := LogBytes(c, log), NewIndex(e.checkpoint, |LogBytes(c, recs)|, |LogBytes(c, recs + [e])|);
            && ReadIndex(c, f, Some(idx)).IndexRead?
            && ReadIndex(c, f, Some(idx)).found == Found(Frontier(log))
            && (more != [] ==> ReadIndex(c, f, Some(idx)).refreshed.Some?
                               && ReadIndex(c, f, Some(idx)).refreshed.value.eofSize == Some(|f|))
  {
    var log, i := recs + [e] + more, |recs|;
    var f, idx := LogBytes(c, log), NewIndex(e.checkpoint, |LogBytes(c, recs)|, |LogBytes(c, recs + [e])|);
    assert log[..i] == recs && log[..i + 1] == recs + [e] && log[i] == e;
    WholeLogLoads(c, log);
    EntriesReadBack(c, f, 0, i);
    FrontierConcat(recs + [e], more);
    FrontierAppend(recs, e);
    LogBytesConcat(c, recs + [e], more);
    if more != [] {
      assert |LogBytes(c, more)| > 0;
      FrontierBehind(c, recs + [e], more);
    } else {
      assert log == recs + [e];
    }
  }

  lemma FrontierBehind(c: Codec<Event>, recs: seq<Event>, more: seq<Event>)
    requires Lawful(c)
    ensures |LogBytes(c, recs)| <= |LogBytes(c, recs + more)|
    ensures var l := Load(c, LogBytes(c, recs + more), |LogBytes(c, recs)|);
            && l.Entries?
            && (LastCheckpointEntry(l.entries).Some? <==> HasCheckpoint(more))
            && (HasCheckpoint(more) ==> LastCheckpointEntry(l.entries).value.record.checkpoint == Frontier(more))
  {
    var es := EntriesFrom(c, recs + more, 0)[|recs|..];
    ScanBehind(c, recs, more);
    LastCheckpointIsFrontier(es);
    assert RecordsOf(es) == more;
  }

  /******* Every history of the log and its index *******/

  /** The log, the offsets that appenders have sampled at open, every index value that anybody has
      computed so far, and the one that is in the index file now. */
  datatype History = History(
    recs: seq<Event>,
    sampled: map<nat, nat>,
    computed: set<Index>,
    stored: Option<Index>,
    stateLast: JsonValue)

  /** `Open` and `Write` are one append in two steps, so that appends of several processes interleave;
      `Store` puts any computed index into the index file, at any later time, in any order, or never. */
  datatype HistoryStep =
    | Open(process: nat)
    | Write(process: nat, event: Event)
    | Store(index: Index)
    | Delete
    | SaveState(last: JsonValue)
    | LoadCheckpoint

  function Computed(i: Option<Index>): set<Index> {
    if i.Some? then {i.value} else {}
  }

  function Enabled(h: History, step: HistoryStep): bool {
    match step
    case Write(p, _) => p in h.sampled
    case Store(i) => i in h.computed
    case _ => true
  }

  function AppendNow(c: Codec<Event>, h: History, e: Event, offset: nat): History {
    var recs := h.recs + [e];
    h.(recs := recs,
       computed := h.computed + if IsCheckpointEvent(e) then {NewIndex(e.checkpoint, offset, |LogBytes(c, recs)|)}
                                else {})
  }

  const BOOTSTRAP := Str("bootstrap")

  function Next(c: Codec<Event>, h: History, step: HistoryStep): History
    requires Enabled(h, step)
  {
    var f := LogBytes(c, h.recs);
    match step
    case Open(p) => h.(sampled := h.sampled[p := |f|])
    case Write(p, e) => AppendNow(c, h, e, h.sampled[p])
    case Store(i) => h.(stored := Some(i))
    case Delete => h.(stored := None)
    case SaveState(v) => h.(stateLast := v)
    case LoadCheckpoint =>
      match ReadIndex(c, f, h.stored) {
        case IndexRaised => h
        case IndexRead(Some(_), refreshed) => h.(computed := h.computed + Computed(refreshed))
        case IndexRead(None, refreshed) =>
          match FullScan(c, f, h.stateLast)
          case ScanRaised => h.(computed := h.computed + Computed(refreshed))
          case Scanned(v, written, bootstrap) =>
            var h' := h.(computed := h.computed + Computed(refreshed) + Computed(written));
            if bootstrap then AppendNow(c, h', Event(CheckpointAdvanced, v, Null, BOOTSTRAP), |f|) else h'
      }
  }

  ghost predicate IsHistory(c: Codec<Event>, hs: seq<History>, steps: seq<HistoryStep>) {
    && |hs| == |steps| + 1
    && hs[0].recs == [] && hs[0].computed == {} && hs[0].stored.None?
    && (forall i :: 0 <= i < |steps| ==> Enabled(hs[i], steps[i]) && hs[i + 1] == Next(c, hs[i], steps[i]))
  }

  ghost predicate AllOfPrefix(c: Codec<Event>, h: History) {
    && (forall i :: i in h.computed ==> OfPrefix(c, h.recs, i))
    && (h.stored.Some? ==> h.stored.value in h.computed)
  }

  lemma AppendKeepsAllOfPrefix(c: Codec<Event>, h: History, e: Event, offset: nat)
    requires AllOfPrefix(c, h)
    ensures AllOfPrefix(c, AppendNow(c, h, e, offset))
  {
    forall i | i in AppendNow(c, h, e, offset).computed ensures OfPrefix(c, h.recs + [e], i) {
      if i in h.computed {
        OfPrefixGrows(c, h.recs, e, i);
      } else {
        AppendIndexIsOfPrefix(c, h.recs, e, offset);
      }
    }
  }

  lemma StepKeepsAllOfPrefix(c: Codec<Event>, h: History, step: HistoryStep)
    requires Lawful(c) && AllOfPrefix(c, h) && Enabled(h, step)
    ensures AllOfPrefix(c, Next(c, h, step))
  {
    match step
    case Write(p, e) => AppendKeepsAllOfPrefix(c, h, e, h.sampled[p]);
    case LoadCheckpoint =>
      var f := LogBytes(c, h.recs);
      LoadWritesOfPrefix(c, h.recs, h.stored, h.stateLast);
      var r, s := ReadIndex(c, f, h.stored), FullScan(c, f, h.stateLast);
      if r.found.None? {
        var h' := h.(computed := h.computed + Computed(r.refreshed) + Computed(s.refreshed));
        assert AllOfPrefix(c, h');
        AppendKeepsAllOfPrefix(c, h', Event(CheckpointAdvanced, s.checkpoint, Null, BOOTSTRAP), |f|);
      }
    case _ =>
  }

  lemma {:induction false} HistoryKeepsAllOfPrefix(c: Codec<Event>, hs: seq<History>, steps: seq<HistoryStep>, i: nat)
    requires Lawful(c) && IsHistory(c, hs, steps) && i < |hs|
    ensures AllOfPrefix(c, hs[i])
  {
    if i > 0 {
      HistoryKeepsAllOfPrefix(c, hs, steps, i - 1);
      StepKeepsAllOfPrefix(c, hs[i - 1], steps[i - 1]);
    }
  }

  /** After every history, with the log then cut at any byte, and with any index that anybody ever
      computed in the index file, `load_checkpoint` does what it does without an index, and every
      index it may leave behind has the same property on the cut file. */
  lemma IndexNeverChangesTheAnswer(c: Codec<Event>, hs: seq<History>, steps: seq<HistoryStep>, n: nat, idx: Index)
    requires Lawful(c) && IsHistory(c, hs, steps)
    requires idx in hs[|steps|].computed && n <= |LogBytes(c, hs[|steps|].recs)|
    ensures var f, st := LogBytes(c, hs[|steps|].recs)[..n], hs[|steps|].stateLast;
            && LoadValue(c, f, Some(idx), st).Some?
            && LoadValue(c, f, Some(idx), st) == LoadValue(c, f, None, st)
            && LoadBootstraps(c, f, Some(idx), st) == LoadBootstraps(c, f, None, st)
            && (forall left :: left in Computed(ReadIndex(c, f, Some(idx)).refreshed)
                                + Computed(FullScan(c, f, st).refreshed)
                  ==> GoodIndex(c, f, left) && LoadValue(c, f, Some(left), st) == LoadValue(c, f, None, st))
  {
    var h := hs[|steps|];
    HistoryKeepsAllOfPrefix(c, hs, steps, |steps|);
    OfPrefixIsGoodOnCut(c, h.recs, n, idx);
    var f := LogBytes(c, h.recs)[..n];
    GoodIndexAgrees(c, f, idx, h.stateLast);
    ScanWritesGoodIndex(c, f, h.stateLast);
    forall left | left in Computed(ReadIndex(c, f, Some(idx)).refreshed)
                          + Computed(FullScan(c, f, h.stateLast).refreshed)
      ensures GoodIndex(c, f, left) && LoadValue(c, f, Some(left), h.stateLast) == LoadValue(c, f, None, h.stateLast)
    {
      GoodIndexAgrees(c, f, left, h.stateLast);
    }
  }
}
