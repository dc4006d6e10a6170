/** The doctor's reading of the event log and its check of the checkpoint index. */
module Doctor {
  import opened Wrappers
  import opened JsonLines
  import opened Records
  import opened CheckpointIndex
  import opened CheckpointStore

  /** What the doctor's own scan of a file reports. Unlike the store's loader it takes a line of white
      space for a damaged one. */
  datatype Scan<+R> = Rows(rows: seq<Entry<R>>, tailIgnored: bool) | Damaged

  function ConsRow<R>(e: Entry<R>, s: Scan<R>): Scan<R> {
    if s.Rows? then s.(rows := [e] + s.rows) else s
  }

  function ScanAt<R>(c: Codec<R>, f: seq<byte>, p: nat): Scan<R>
    requires p <= |f|
    decreases |f| - p
  {
    if p == |f| then Rows([], false)
    else
      var e := LineEnd(f, p);
      var stripped := RStrip(f[p..e]);
      if stripped == [] then ScanAt(c, f, e)
      else match c.parse(stripped)
           case Object(r) => ConsRow(Entry(p, r), ScanAt(c, f, e))
           case NonObject => ScanAt(c, f, e)
           case _ => if e == |f| then Rows([], true) else Damaged
  }

  method ScanJsonl<R>(c: Codec<R>, f: seq<byte>) returns (s: Scan<R>)
    ensures s == ScanAt(c, f, 0)
  {
    var rows: seq<Entry<R>> := [];
    var tailIgnored := false;
    var pos: nat := 0;
    while pos < |f|
      invariant pos <= |f|
      invariant tailIgnored ==> pos == |f|
      invariant var rest := ScanAt(c, f, pos);
                ScanAt(c, f, 0) == if rest.Rows? then Rows(rows + rest.rows, tailIgnored || rest.tailIgnored) else rest
    {
      var lineStart := pos;
      pos := LineEnd(f, lineStart);
      var stripped := RStrip(f[lineStart..pos]);
      if stripped == [] {
        continue;
      }
      match c.parse(stripped)
      case Object(r) =>
        ghost var rest := ScanAt(c, f, pos);
        assert rest.Rows? ==> rows + ([Entry(lineStart, r)] + rest.rows) == (rows + [Entry(lineStart, r)]) + rest.rows;
        rows := rows + [Entry(lineStart, r)];
      case NonObject =>
      case _ =>
        if pos != |f| {
          return Damaged;
        }
        tailIgnored := true;
    }
    s := Rows(rows, tailIgnored);
  }

  /** Whatever the doctor reads without an error, the store loads as the same rows. */
  lemma {:induction false} StoreLoadsWhatDoctorReads<R>(c: Codec<R>, f: seq<byte>, p: nat)
    requires p <= |f| && c.parse([]) == Blank && ScanAt(c, f, p).Rows?
    ensures Load(c, f, p) == Entries(ScanAt(c, f, p).rows)
    decreases |f| - p
  {
    if p < |f| {
      var e := LineEnd(f, p);
      var stripped := RStrip(f[p..e]);
      if stripped == [] || c.parse(stripped).Object? || c.parse(stripped).NonObject? {
        StoreLoadsWhatDoctorReads(c, f, e);
      }
    }
  }

  /** The lines at which the doctor stumbles: what does not parse, and white space that is not stripped. */
  predicate Stumbles<R>(c: Codec<R>, f: seq<byte>, p: nat)
    requires p < |f|
  {
    var stripped := StrippedLine(f, p);
    stripped != [] && (c.parse(stripped).Malformed? || c.parse(stripped).Blank?)
  }

  /** What the doctor's scan of any file means: it fails exactly when it stumbles before the last line of the
      file, and it ignores that line exactly when it stumbles there. */
  lemma {:induction false} DoctorReadsExactly<R>(c: Codec<R>, f: seq<byte>, q: nat)
    requires q <= |f| && (Boundary(f, q) || q == |f|)
    ensures ScanAt(c, f, q).Damaged?
       <==> exists p: nat :: q <= p && LineStarts(f, p) && Stumbles(c, f, p) && LineEnd(f, p) < |f|
    ensures ScanAt(c, f, q).Rows? ==>
              (ScanAt(c, f, q).tailIgnored <==> exists p: nat :: q <= p && LineStarts(f, p) && Stumbles(c, f, p))
    decreases |f| - q
  {
    if q < |f| {
      var e := LineEnd(f, q);
      LineEndAt(f, q);
      DoctorReadsExactly(c, f, e);
      forall p: nat | q < p && LineStarts(f, p) ensures e <= p {
        NoLineInside(f, q, p);
      }
      assert LineStarts(f, q);
    }
  }

  /** The frontier the doctor reports: the last checkpoint event's value, if it is a string. */
  function DoctorFrontier(rows: seq<Entry<Event>>): JsonValue {
    Frontier(RecordsOf(rows)).StrOrNull()
  }

  datatype IndexFile = Missing | Unreadable | NotAnObject | Content(index: Index)

  /** `check_checkpoint_index_consistency`. */
  predicate IndexConsistent(c: Codec<Event>, f: seq<byte>, file: IndexFile) {
    match file
    case Missing => true
    case Unreadable => false
    case NotAnObject => false
    case Content(idx) =>
      var s := ScanAt(c, f, 0);
      && s.Rows?
      && idx.offset.Some? && idx.offset.value >= 0
      && idx.eofSize.Some? && 0 <= idx.eofSize.value <= |f|
      && var row := RowAt(c, f, idx.offset.value);
         && row.Some? && IsCheckpointEvent(row.value)
         && row.value.checkpoint == idx.checkpoint
         && idx.checkpoint == DoctorFrontier(s.rows)
  }

  /** When the check passes for an index whose end is a line boundary, the store's index path yields
      the frontier of the event log (and falls back to the full scan when that is no string). */
  lemma ConsistentIndexGivesFrontier(c: Codec<Event>, f: seq<byte>, idx: Index)
    requires c.parse([]) == Blank
    requires IndexConsistent(c, f, Content(idx)) && Boundary(f, idx.eofSize.value)
    ensures ReadIndex(c, f, Some(idx)).IndexRead?
    ensures ReadIndex(c, f, Some(idx)).found == Found(DoctorFrontier(ScanAt(c, f, 0).rows))
  {
    StoreLoadsWhatDoctorReads(c, f, 0);
    var eof := idx.eofSize.value;
    FrontierSplits(c, f, eof);
    LastCheckpointIsFrontier(Load(c, f, eof).entries);
  }

  /** So loading through such an index gives what a full scan gives: the doctor's frontier, unless the
      log has no checkpoint event at all and the state snapshot is used. */
  lemma ConsistentIndexLoads(c: Codec<Event>, f: seq<byte>, idx: Index, stateLast: JsonValue)
    requires c.parse([]) == Blank
    requires IndexConsistent(c, f, Content(idx)) && Boundary(f, idx.eofSize.value)
    ensures LoadValue(c, f, Some(idx), stateLast).Some?
    ensures LoadValue(c, f, Some(idx), stateLast) == LoadValue(c, f, None, stateLast)
    ensures var rows := ScanAt(c, f, 0).rows;
            if HasCheckpoint(RecordsOf(rows))
            then LoadValue(c, f, Some(idx), stateLast).value.StrOrNull() == DoctorFrontier(rows)
            else LoadValue(c, f, Some(idx), stateLast).value == stateLast
  {
    StoreLoadsWhatDoctorReads(c, f, 0);
    ConsistentIndexGivesFrontier(c, f, idx);
    var es := Load(c, f, 0).entries;
    LastCheckpointIsFrontier(es);
    if !HasCheckpoint(RecordsOf(es)) {
      NoCheckpointNoFrontier(RecordsOf(es));
    }
  }

  /** On an append-only log, the check passes for the index that the append of checkpoint event `i` wrote if
      and only if that event's checkpoint is still the frontier, wherever behind it the index ends. */
  lemma AppendedIndexPassesIff(c: Codec<Event>, recs: seq<Event>, i: nat, k: nat)
    requires Lawful(c) && i < k <= |recs| && IsCheckpointEvent(recs[i]) && !recs[i].checkpoint.Other?
    ensures var idx := NewIndex(recs[i].checkpoint, OffsetOf(c, recs, i), OffsetOf(c, recs, k));
            IndexConsistent(c, LogBytes(c, recs), Content(idx)) <==> Frontier(recs).StrOrNull() == recs[i].checkpoint
  {
    var f := LogBytes(c, recs);
    assert f[..|f|] == f && recs[..|recs|] == recs;
    DoctorReadsEveryPrefix(c, recs, |f|);
    WholeCountOfAll(c, recs);
    RecordsOfEntries(c, recs);
    WholeLogLoads(c, recs);
    EntriesReadBack(c, f, 0, i);
    LogBytesPrefix(c, recs, k);
  }

  /** So it passes for as long as only events that are no checkpoints follow. */
  lemma AppendedIndexStaysConsistent(c: Codec<Event>, recs: seq<Event>, e: Event, more: seq<Event>)
    requires Lawful(c) && IsCheckpointEvent(e) && !e.checkpoint.Other? && !HasCheckpoint(more)
    ensures var log := recs + [e] + more;
            var idx := NewIndex(e.checkpoint, |LogBytes(c, recs)|, |LogBytes(c, recs + [e])|);
            IndexConsistent(c, LogBytes(c, log), Content(idx))
  {
    var log, i := recs + [e] + more, |recs|;
    assert log[..i] == recs && log[..i + 1] == recs + [e] && log[i] == e;
    FrontierConcat(recs + [e], more);
    FrontierAppend(recs, e);
    AppendedIndexPassesIff(c, log, i, i + 1);
  }

  function FileOf(index: Option<Index>): IndexFile {
    if index.Some? then Content(index.value) else Missing
  }

  /** A rebuild whose write succeeds makes the check pass, on every log the doctor reads without an
      error, if and only if the last checkpoint is null or a string: the rebuild stores anything else
      as null, which the check then finds different from the row. */
  lemma RebuildMakesConsistentIff(c: Codec<Event>, f: seq<byte>)
    requires c.parse([]) == Blank && ScanAt(c, f, 0).Rows?
    ensures IndexConsistent(c, f, FileOf(RebuiltIndex(c, f)))
       <==> !Frontier(RecordsOf(ScanAt(c, f, 0).rows)).Other?
  {
    StoreLoadsWhatDoctorReads(c, f, 0);
    var es := Load(c, f, 0).entries;
    LastCheckpointIsFrontier(es);
    if RebuiltIndex(c, f).Some? {
      var e := LastCheckpointEntry(es).value;
      var i :| 0 <= i < |es| && es[i] == e;
      EntriesReadBack(c, f, 0, i);
    } else {
      NoCheckpointNoFrontier(RecordsOf(es));
    }
  }

  /** On a log written by appends the doctor reads everything, wherever it was cut. */
  lemma {:induction false} DoctorReadsEveryPrefix<R(!new)>(c: Codec<R>, recs: seq<R>, n: nat)
    requires Lawful(c) && n <= |LogBytes(c, recs)|
    ensures ScanAt(c, LogBytes(c, recs)[..n], 0).Rows?
    ensures ScanAt(c, LogBytes(c, recs)[..n], 0).rows == EntriesFrom(c, recs[..WholeCount(c, recs, n)], 0)
  {
    var f := LogBytes(c, recs)[..n];
    PrefixLoadsEntries(c, recs, n);
    DoctorReadsLines(c, recs, n, 0);
    StoreLoadsWhatDoctorReads(c, f, 0);
  }

  lemma {:induction false} DoctorReadsLines<R(!new)>(c: Codec<R>, recs: seq<R>, n: nat, i: nat)
    requires Lawful(c) && n <= |LogBytes(c, recs)| && i <= |recs| && OffsetOf(c, recs, i) <= n
    ensures ScanAt(c, LogBytes(c, recs)[..n], OffsetOf(c, recs, i)).Rows?
    decreases |recs| - i
  {
    if OffsetOf(c, recs, i) < n {
      LogBytesPrefix(c, recs, |recs|);
      assert recs[..|recs|] == recs;
      LineOfCutLog(c, recs, n, i);
      if OffsetOf(c, recs, i + 1) <= n {
        DoctorReadsLines(c, recs, n, i + 1);
      }
    }
  }

  lemma LineOfCutLog<R(!new)>(c: Codec<R>, recs: seq<R>, n: nat, i: nat)
    requires Lawful(c) && n <= |LogBytes(c, recs)| && i < |recs| && OffsetOf(c, recs, i) < n
    ensures var f, p, q := LogBytes(c, recs)[..n], OffsetOf(c, recs, i), OffsetOf(c, recs, i + 1);
            && LineEnd(f, p) == (if q <= n then q else n)
            && (q <= n ==> RStrip(f[p..q]) == c.encode(recs[i]))
  {
    var log, p, q := LogBytes(c, recs), OffsetOf(c, recs, i), OffsetOf(c, recs, i + 1);
    var f, e := log[..n], if q <= n then q else n;
    NextLine(c, recs, i);
    var line := log[p..q];
    forall j | p <= j < e - 1 ensures f[j] != NEWLINE {
      assert f[j] == line[j - p] == c.encode(recs[i])[j - p];
    }
    if q <= n {
      assert f[q - 1] == line[|line| - 1];
      assert f[p..q] == line;
      RStripKeeps(c.encode(recs[i]));
    }
    LineEndIs(f, p, e);
  }

  lemma NextLine<R>(c: Codec<R>, recs: seq<R>, i: nat)
    requires i < |recs|
    ensures OffsetOf(c, recs, i + 1) == OffsetOf(c, recs, i) + |Line(c, recs[i])| <= |LogBytes(c, recs)|
    ensures LogBytes(c, recs)[OffsetOf(c, recs, i)..OffsetOf(c, recs, i + 1)] == Line(c, recs[i])
  {
    assert recs[..i + 1] == recs[..i] + [recs[i]];
    LogBytesAppend(c, recs[..i], recs[i]);
    LogBytesPrefix(c, recs, i + 1);
    var log, p, q := LogBytes(c, recs), OffsetOf(c, recs, i), OffsetOf(c, recs, i + 1);
    assert log[p..q] == log[..q][p..q];
  }
}
