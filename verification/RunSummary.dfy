/** The summary of the last run: rebuilt from the run log, folded row by row, or resumed from an index. */
module RunSummary {
  import opened Wrappers
  import opened JsonLines
  import opened Records
  import opened CheckpointStore

  /** What a row of the run log holds besides what summaries look at. */
  datatype Report = Report(
    processed: nat,
    matched: nat,
    notified: nat,
    nonTarget: nat,
    failureMessageId: JsonValue,
    shouldRetry: bool,
    shouldAlert: bool)

  /** One row of the run log; a row that the program did not write may have no report. */
  datatype RunRow = RunRow(
    runId: JsonValue,
    failureKind: JsonValue,
    endedAt: JsonValue,
    checkpointBefore: JsonValue,
    checkpointAfter: JsonValue,
    authStatus: JsonValue,
    report: Option<Report>)

  datatype Summary = Summary(
    statusOk: bool,
    lastFailureKind: JsonValue,
    checkpointBefore: JsonValue,
    checkpointAfter: JsonValue,
    authStatus: JsonValue,
    lastSuccessAt: JsonValue)

  predicate Succeeded(row: RunRow) {
    row.failureKind == Null || row.failureKind == Str("")
  }

  function RowOf(result: RunResult): RunRow {
    RunRow(Str(result.runId),
           if result.failureKind.Some? then Str(FailureText(result.failureKind.value)) else Null,
           Str(result.endedAt), result.checkpointBefore, result.checkpointAfter, result.authStatus,
           Some(Report(result.processedCount, result.matchedCount, result.notifiedCount, result.nonTargetCount,
                       result.failureMessageId, result.shouldRetry, result.shouldAlert)))
  }

  /******* Three ways to a summary *******/

  /** `ended_at` of the last row that succeeded. */
  function LastSuccessAt(rows: seq<RunRow>): JsonValue {
    if rows == [] then Null
    else if Succeeded(rows[|rows| - 1]) then rows[|rows| - 1].endedAt
    else LastSuccessAt(rows[..|rows| - 1])
  }

  function Rebuild(rows: seq<RunRow>): Summary
    requires rows != []
  {
    var last := rows[|rows| - 1];
    Summary(Succeeded(last), last.failureKind, last.checkpointBefore, last.checkpointAfter, last.authStatus,
            LastSuccessAt(rows))
  }

  function FoldRow(current: Summary, row: RunRow): Summary {
    Summary(Succeeded(row), row.failureKind, row.checkpointBefore, row.checkpointAfter, row.authStatus,
            if Succeeded(row) then row.endedAt else current.lastSuccessAt)
  }

  function FoldRows(current: Summary, rows: seq<RunRow>): Summary
    decreases rows
  {
    if rows == [] then current else FoldRows(FoldRow(current, rows[0]), rows[1..])
  }

  function FromResult(result: RunResult, previous: Option<Summary>): Summary {
    Summary(result.failureKind.None?,
            if result.failureKind.Some? then Str(FailureText(result.failureKind.value)) else Null,
            result.checkpointBefore, result.checkpointAfter, result.authStatus,
            if result.failureKind.None? then Str(result.endedAt)
            else if previous.Some? then previous.value.lastSuccessAt else Null)
  }

  /** Folding the rows behind any non-empty prefix gives what a rebuild over all rows gives. */
  lemma {:induction false} FoldEqualsRebuild(head: seq<RunRow>, tail: seq<RunRow>)
    requires head != []
    ensures FoldRows(Rebuild(head), tail) == Rebuild(head + tail)
    decreases tail
  {
    if tail == [] {
      assert head + tail == head;
    } else {
      var head' := head + [tail[0]];
      assert head'[..|head|] == head;
      assert FoldRow(Rebuild(head), tail[0]) == Rebuild(head');
      FoldEqualsRebuild(head', tail[1..]);
      assert head' + tail[1..] == head + tail;
    }
  }

  function SuccessOf(previous: Option<Summary>): JsonValue {
    if previous.Some? then previous.value.lastSuccessAt else Null
  }

  lemma AppendedSummaryIs(rows: seq<RunRow>, result: RunResult, previous: Option<Summary>)
    ensures Succeeded(RowOf(result)) <==> result.failureKind.None?
    ensures FromResult(result, previous) == Rebuild(rows + [RowOf(result)])
       <==> result.failureKind.None? || SuccessOf(previous) == LastSuccessAt(rows)
  {
    assert (rows + [RowOf(result)])[..|rows|] == rows;
  }

  /** No two successes ended at the same time, and each has a time. */
  predicate DistinctSuccesses(rows: seq<RunRow>) {
    && (forall i :: 0 <= i < |rows| && Succeeded(rows[i]) ==> rows[i].endedAt != Null)
    && (forall i, j :: 0 <= i < j < |rows| && Succeeded(rows[i]) && Succeeded(rows[j]) ==>
          rows[i].endedAt != rows[j].endedAt)
  }

  /** The time belongs to one of the successes, or there is none. */
  predicate OneOf(rows: seq<RunRow>, at: JsonValue) {
    at == Null || exists i :: 0 <= i < |rows| && Succeeded(rows[i]) && rows[i].endedAt == at
  }

  lemma {:induction false} LastSuccessIsOne(rows: seq<RunRow>)
    ensures OneOf(rows, LastSuccessAt(rows))
  {
    if rows != [] && !Succeeded(rows[|rows| - 1]) {
      LastSuccessIsOne(rows[..|rows| - 1]);
    }
  }

  lemma {:induction false} LastSuccessBehind(rows: seq<RunRow>, k: nat)
    requires k <= |rows| && DistinctSuccesses(rows)
    ensures LastSuccessAt(rows[..k]) == LastSuccessAt(rows) <==> forall i :: k <= i < |rows| ==> !Succeeded(rows[i])
  {
    if k == |rows| {
      assert rows[..k] == rows;
    } else if Succeeded(rows[|rows| - 1]) {
      LastSuccessIsOne(rows[..k]);
    } else {
      var before := rows[..|rows| - 1];
      LastSuccessBehind(before, k);
      assert before[..k] == rows[..k];
    }
  }

  /** When the cached summary describes the first `k` rows, the summary that appending a failed result caches
      is the rebuilt one if and only if none of the rows behind those succeeded. */
  lemma FailedSummaryIsRebuiltIff(rows: seq<RunRow>, k: nat, result: RunResult, previous: Option<Summary>)
    requires k <= |rows| && DistinctSuccesses(rows) && result.failureKind.Some?
    requires SuccessOf(previous) == LastSuccessAt(rows[..k])
    ensures FromResult(result, previous) == Rebuild(rows + [RowOf(result)])
       <==> forall i :: k <= i < |rows| ==> !Succeeded(rows[i])
  {
    AppendedSummaryIs(rows, result, previous);
    LastSuccessBehind(rows, k);
  }

  /** The doctor's own fold takes only non-empty strings for the time of a success. */
  function DoctorSuccessAt(rows: seq<RunRow>): JsonValue {
    if rows == [] then Null
    else
      var last := rows[|rows| - 1];
      if Succeeded(last) && last.endedAt.Str? && last.endedAt.s != "" then last.endedAt
      else DoctorSuccessAt(rows[..|rows| - 1])
  }

  /** Where it agrees with the store: on every run log whose last success has such a time, and on
      every one without a success. */
  lemma {:induction false} DoctorAgreesOnSuccess(rows: seq<RunRow>)
    requires LastSuccessAt(rows).Str? ==> LastSuccessAt(rows).s != ""
    requires LastSuccessAt(rows).Str? || forall i :: 0 <= i < |rows| ==> !Succeeded(rows[i])
    ensures DoctorSuccessAt(rows) == LastSuccessAt(rows)
  {
    if rows != [] && !Succeeded(rows[|rows| - 1]) {
      DoctorAgreesOnSuccess(rows[..|rows| - 1]);
    }
  }

  method ScanRuns(rows: seq<RunRow>) returns (lastRun: Option<RunRow>, lastSuccessAt: JsonValue)
    ensures lastRun == if rows == [] then None else Some(rows[|rows| - 1])
    ensures lastSuccessAt == DoctorSuccessAt(rows)
  {
    lastRun, lastSuccessAt := None, Null;
    for i := 0 to |rows|
      invariant lastRun == if i == 0 then None else Some(rows[i - 1])
      invariant lastSuccessAt == DoctorSuccessAt(rows[..i])
    {
      assert rows[..i + 1][..i] == rows[..i];
      lastRun := Some(rows[i]);
      if Succeeded(rows[i]) && rows[i].endedAt.Str? && rows[i].endedAt.s != "" {
        lastSuccessAt := rows[i].endedAt;
      }
    }
    assert rows[..|rows|] == rows;
  }

  /******* The index *******/

  datatype RunIndex = RunIndex(summary: Option<Summary>, runId: JsonValue, offset: Option<int>, eofSize: Option<int>)

  predicate ValidatesRun(c: Codec<RunRow>, f: seq<byte>, idx: RunIndex) {
    && idx.summary.Some?
    && idx.runId.Str? && idx.runId.s != ""
    && idx.offset.Some? && idx.offset.value >= 0
    && idx.eofSize.Some? && idx.eofSize.value >= 0
    && RowAt(c, f, idx.offset.value).Some?
    && RowAt(c, f, idx.offset.value).value.runId == idx.runId
  }

  function RowsOf(es: seq<Entry<RunRow>>): (r: seq<RunRow>)
    ensures |r| == |es|
    ensures forall i :: 0 <= i < |es| ==> r[i] == es[i].record
  {
    seq(|es|, i requires 0 <= i < |es| => es[i].record)
  }

  /** What the index path finds: nothing, a summary, or an error behind the indexed part. */
  datatype SummaryRead = NotFound | FoundSummary(summary: Summary) | SummaryRaised

  function ReadRunIndex(c: Codec<RunRow>, f: seq<byte>, index: Option<RunIndex>): SummaryRead {
    if index.None? || !ValidatesRun(c, f, index.value) || |f| < index.value.eofSize.value then NotFound
    else
      var l := Load(c, f, index.value.eofSize.value);
      if |f| == index.value.eofSize.value then FoundSummary(index.value.summary.value)
      else if !l.Entries? then SummaryRaised
      else FoundSummary(FoldRows(index.value.summary.value, RowsOf(l.entries)))
  }

  predicate NamesRun(row: RunRow) {
    row.runId.Str? && row.runId.s != ""
  }

  /** The run id an index carries on: the last one among the rows behind it. */
  function LastRunId(runId: JsonValue, es: seq<Entry<RunRow>>): JsonValue {
    if es == [] then runId
    else if NamesRun(es[|es| - 1].record) then es[|es| - 1].record.runId
    else LastRunId(runId, es[..|es| - 1])
  }

  function LastOffset(offset: Option<int>, es: seq<Entry<RunRow>>): Option<int> {
    if es == [] then offset else Some(es[|es| - 1].offset)
  }

  /** The index that loading leaves behind when its write succeeds. */
  function RunIndexAfterLoad(c: Codec<RunRow>, f: seq<byte>, index: Option<RunIndex>, stateSummary: Option<Summary>)
    : Option<RunIndex>
  {
    match ReadRunIndex(c, f, index)
    case SummaryRaised => index
    case FoundSummary(s) =>
      var l := Load(c, f, index.value.eofSize.value);
      var es := if |f| > index.value.eofSize.value && l.Entries? then l.entries else [];
      Some(RunIndex(Some(s), LastRunId(index.value.runId, es), LastOffset(index.value.offset, es), Some(|f|)))
    case NotFound =>
      var l := Load(c, f, 0);
      if stateSummary.Some? || !l.Entries? || l.entries == [] || !NamesRun(l.entries[|l.entries| - 1].record) then index
      else
        var last := l.entries[|l.entries| - 1];
        Some(RunIndex(Some(Rebuild(RowsOf(l.entries))), last.record.runId, Some(last.offset), Some(|f|)))
  }

  /** The index summarises the part of the file before a line boundary. */
  ghost predicate Summarises(c: Codec<RunRow>, f: seq<byte>, idx: RunIndex) {
    idx.eofSize.Some? && 0 <= idx.eofSize.value <= |f| ==>
      var eof := idx.eofSize.value;
      && (Boundary(f, eof) || eof == |f|)
      && Load(c, f[..eof], 0).Entries?
      && Load(c, f[..eof], 0).entries != []
      && idx.summary == Some(Rebuild(RowsOf(Load(c, f[..eof], 0).entries)))
  }

  lemma RowsSplit(c: Codec<RunRow>, f: seq<byte>, eof: nat)
    requires eof <= |f| && Boundary(f, eof) && Load(c, f, 0).Entries?
    ensures Load(c, f[..eof], 0).Entries? && Load(c, f, eof).Entries?
    ensures RowsOf(Load(c, f, 0).entries)
         == RowsOf(Load(c, f[..eof], 0).entries) + RowsOf(Load(c, f, eof).entries)
  {
    LoadSplits(c, f, 0, eof);
  }

  /** Resuming any index that summarises a prefix of a readable run log gives the rebuilt summary. */
  lemma ResumedEqualsRebuilt(c: Codec<RunRow>, f: seq<byte>, idx: RunIndex)
    requires Load(c, f, 0).Entries? && Summarises(c, f, idx)
    ensures !ReadRunIndex(c, f, Some(idx)).SummaryRaised?
    ensures ReadRunIndex(c, f, Some(idx)).FoundSummary? ==>
              && Load(c, f, 0).entries != []
              && ReadRunIndex(c, f, Some(idx)).summary == Rebuild(RowsOf(Load(c, f, 0).entries))
  {
    if ValidatesRun(c, f, idx) && idx.eofSize.value <= |f| {
      var eof := idx.eofSize.value;
      if eof == |f| {
        assert f[..eof] == f;
      } else {
        RowsSplit(c, f, eof);
        FoldEqualsRebuild(RowsOf(Load(c, f[..eof], 0).entries), RowsOf(Load(c, f, eof).entries));
      }
    }
  }

  /** What an append to the run log caches, or a rebuild writes, summarises a prefix of the log, and
      goes on doing so while the log grows and when its tail is cut. */
  lemma PrefixIndexSummarises(c: Codec<RunRow>, rows: seq<RunRow>, k: nat, n: nat, idx: RunIndex)
    requires Lawful(c) && 0 < k <= |rows| && n <= |LogBytes(c, rows)|
    requires idx.summary == Some(Rebuild(rows[..k])) && idx.eofSize == Some(OffsetOf(c, rows, k))
    ensures Summarises(c, LogBytes(c, rows)[..n], idx)
  {
    var log, eof := LogBytes(c, rows), OffsetOf(c, rows, k);
    var f := log[..n];
    if eof <= n {
      assert f[..eof] == LogBytes(c, rows[..k]) && Boundary(f, eof) by {
        LogBytesPrefix(c, rows, k);
        assert f[..eof] == log[..eof];
      }
      WholeLogLoads(c, rows[..k]);
      assert RowsOf(EntriesFrom(c, rows[..k], 0)) == rows[..k];
    }
  }

  /** The index that appending a row with a run id wrote is used: with any rows appended behind it, the index
      path alone gives the rebuilt summary. */
  lemma AppendedRunIndexIsUsed(c: Codec<RunRow>, rows: seq<RunRow>, row: RunRow, more: seq<RunRow>)
    requires Lawful(c) && NamesRun(row)
    ensures var all, head := rows + [row] + more, rows + [row];
            var idx := RunIndex(Some(Rebuild(head)), row.runId, Some(|LogBytes(c, rows)|), Some(|LogBytes(c, head)|));
            ReadRunIndex(c, LogBytes(c, all), Some(idx)) == FoundSummary(Rebuild(all))
  {
    var all, head, i := rows + [row] + more, rows + [row], |rows|;
    var f := LogBytes(c, all);
    var idx := RunIndex(Some(Rebuild(head)), row.runId, Some(|LogBytes(c, rows)|), Some(|LogBytes(c, head)|));
    assert all[..i] == rows && all[..i + 1] == head && all[i] == row;
    WholeLogLoads(c, all);
    EntriesReadBack(c, f, 0, i);
    LogBytesPrefix(c, all, i + 1);
    assert f[..|f|] == f;
    PrefixIndexSummarises(c, all, i + 1, |f|, idx);
    ResumedEqualsRebuilt(c, f, idx);
    assert RowsOf(EntriesFrom(c, all, 0)) == all;
  }

  /** And when its write succeeds, loading leaves an index that a later load uses again: it ends where the log
      ends and points to the last row. */
  lemma LoadRefreshesRunIndex(c: Codec<RunRow>, rows: seq<RunRow>, row: RunRow, more: seq<RunRow>, st: Option<Summary>)
    requires Lawful(c) && NamesRun(row) && (more != [] ==> NamesRun(more[|more| - 1]))
    ensures var all, head := rows + [row] + more, rows + [row];
            var idx := RunIndex(Some(Rebuild(head)), row.runId, Some(|LogBytes(c, rows)|), Some(|LogBytes(c, head)|));
            RunIndexAfterLoad(c, LogBytes(c, all), Some(idx), st)
            == Some(RunIndex(Some(Rebuild(all)), all[|all| - 1].runId, Some(OffsetOf(c, all, |all| - 1)),
                             Some(|LogBytes(c, all)|)))
  {
    var all, head := rows + [row] + more, rows + [row];
    AppendedRunIndexIsUsed(c, rows, row, more);
    ScanBehind(c, head, more);
    if more == [] {
      assert all == head && all[..|rows|] == rows;
    } else {
      TailNamesLast(c, head, more, row.runId, Some(|LogBytes(c, rows)|));
    }
  }

  lemma TailNamesLast(c: Codec<RunRow>, head: seq<RunRow>, more: seq<RunRow>, runId: JsonValue, offset: Option<int>)
    requires more != [] && NamesRun(more[|more| - 1])
    ensures var all, es := head + more, EntriesFrom(c, head + more, 0)[|head|..];
            && LastRunId(runId, es) == all[|all| - 1].runId
            && LastOffset(offset, es) == Some(OffsetOf(c, all, |all| - 1))
  {
    var all, es := head + more, EntriesFrom(c, head + more, 0)[|head|..];
    assert es[|es| - 1] == Entry(OffsetOf(c, all, |all| - 1), all[|all| - 1]);
  }

  /******* Every sequence of appends *******/

  /** One append, with the way it and the updates of the two caches end. */
  datatype Append = Append(result: RunResult, out: AppendOutcome, indexOk: bool, stateOk: bool)

  /** The run log and the summaries that are cached beside it. */
  datatype Caches = Caches(rows: seq<RunRow>, index: Option<Summary>, stateSummary: Option<Summary>)

  const NO_RUNS := Caches([], None, None)

  /** The summary an append takes for the previous one: the index's, or else the snapshot's. */
  function Newest(c: Caches): Option<Summary> {
    if c.index.Some? then c.index else c.stateSummary
  }

  predicate WritesIndex(a: Append) {
    a.out.Done? && a.indexOk && a.result.runId != ""
  }

  predicate WritesState(a: Append) {
    a.out.Done? && a.stateOk
  }

  function AfterAppend(c: Caches, a: Append): Caches {
    var summary := Some(FromResult(a.result, Newest(c)));
    Caches(if a.out.FailedEmpty? then c.rows else c.rows + [RowOf(a.result)],
           if WritesIndex(a) then summary else c.index,
           if WritesState(a) then summary else c.stateSummary)
  }

  function AfterAppends(appends: seq<Append>): Caches {
    if appends == [] then NO_RUNS else AfterAppend(AfterAppends(appends[..|appends| - 1]), appends[|appends| - 1])
  }

  /** The append reaches the cache that the next one reads: the index, or the snapshot while there is no
      index. */
  predicate ReachesCache(c: Caches, a: Append) {
    WritesIndex(a) || (c.index.None? && WritesState(a))
  }

  /** Of the appends that wrote a row, the last one with a success reached the cache. */
  predicate LastSuccessReached(appends: seq<Append>) {
    if appends == [] then true
    else
      var before, a := appends[..|appends| - 1], appends[|appends| - 1];
      if !a.out.FailedEmpty? && a.result.failureKind.None? then ReachesCache(AfterAppends(before), a)
      else LastSuccessReached(before)
  }

  lemma AppendCarriesSuccess(c: Caches, a: Append)
    ensures SuccessOf(Newest(AfterAppend(c, a)))
         == if a.result.failureKind.None? && ReachesCache(c, a) then Str(a.result.endedAt) else SuccessOf(Newest(c))
  {
  }

  lemma {:induction false} CachedSuccessIsOne(appends: seq<Append>)
    ensures var c := AfterAppends(appends);
            OneOf(c.rows, SuccessOf(Newest(c)))
  {
    if appends != [] {
      var before, a := AfterAppends(appends[..|appends| - 1]), appends[|appends| - 1];
      CachedSuccessIsOne(appends[..|appends| - 1]);
      AppendCarriesSuccess(before, a);
      AppendKeepsOne(before.rows, a, SuccessOf(Newest(before)));
    }
  }

  lemma AppendKeepsOne(rows: seq<RunRow>, a: Append, at: JsonValue)
    requires OneOf(rows, at)
    ensures OneOf(rows + [RowOf(a.result)], at)
    ensures a.result.failureKind.None? ==> OneOf(rows + [RowOf(a.result)], Str(a.result.endedAt))
  {
    var rows' := rows + [RowOf(a.result)];
    assert rows'[|rows|] == RowOf(a.result);
    if at != Null {
      var i :| 0 <= i < |rows| && Succeeded(rows[i]) && rows[i].endedAt == at;
      assert rows'[i] == rows[i];
    }
  }

  /** After every sequence of appends, the cached time of the last success is the right one if and only if
      the last success reached the cache. */
  lemma {:induction false} CachedSuccessIsRightIff(appends: seq<Append>)
    requires DistinctSuccesses(AfterAppends(appends).rows)
    ensures var c := AfterAppends(appends);
            SuccessOf(Newest(c)) == LastSuccessAt(c.rows) <==> LastSuccessReached(appends)
  {
    if appends != [] {
      var init, a := appends[..|appends| - 1], appends[|appends| - 1];
      var before, c := AfterAppends(init), AfterAppends(appends);
      AppendCarriesSuccess(before, a);
      if a.out.FailedEmpty? {
        CachedSuccessIsRightIff(init);
      } else {
        assert c.rows[..|before.rows|] == before.rows && c.rows[|before.rows|] == RowOf(a.result);
        if a.result.failureKind.Some? {
          CachedSuccessIsRightIff(init);
        } else {
          CachedSuccessIsOne(init);
          var at := SuccessOf(Newest(before));
          if at != Null {
            var i :| 0 <= i < |before.rows| && Succeeded(before.rows[i]) && before.rows[i].endedAt == at;
            assert c.rows[i] == before.rows[i];
          }
        }
      }
    }
  }

  /** After every sequence of appends, the summary that the next result caches is the rebuilt one if and only
      if that result is a success or the last success before it reached the cache. */
  lemma NextSummaryIsRebuiltIff(appends: seq<Append>, result: RunResult)
    requires DistinctSuccesses(AfterAppends(appends).rows)
    ensures var c := AfterAppends(appends);
            (FromResult(result, Newest(c)) == Rebuild(c.rows + [RowOf(result)])
             <==> result.failureKind.None? || LastSuccessReached(appends))
  {
    var c := AfterAppends(appends);
    AppendedSummaryIs(c.rows, result, Newest(c));
    CachedSuccessIsRightIff(appends);
  }

  /** It does go wrong: a success with its index written, one whose index write is lost, and then a failure
      with its index written leave the time of the first success in the index. */
  lemma LostUpdateKeepsOldSuccess(first: RunResult, second: RunResult, third: RunResult)
    requires first.failureKind.None? && second.failureKind.None? && third.failureKind.Some?
    requires first.runId != "" && third.runId != "" && first.endedAt != second.endedAt
    ensures var c := AfterAppends([Append(first, Done, true, true), Append(second, Done, false, true),
                                   Append(third, Done, true, true)]);
            c.index.Some? && c.index.value.lastSuccessAt == Str(first.endedAt) != LastSuccessAt(c.rows)
  {
    var a, b, d := Append(first, Done, true, true), Append(second, Done, false, true), Append(third, Done, true, true);
    assert [a, b, d][..2] == [a, b] && [a, b][..1] == [a] && [a][..0] == [];
    var c1 := AfterAppend(NO_RUNS, a);
    var c2 := AfterAppend(c1, b);
    var c := AfterAppend(c2, d);
    assert AfterAppends([]) == NO_RUNS;
    assert AfterAppends([a]) == c1 && AfterAppends([a, b]) == c2 && AfterAppends([a, b, d]) == c;
    assert c.rows == [RowOf(first), RowOf(second), RowOf(third)];
    assert c.rows[..2] == [RowOf(first), RowOf(second)];
  }

  /******* The run log and its two caches *******/

  class RunSummaryStore {
    const codec: Codec<RunRow>
    var runs: seq<byte>
    var index: Option<RunIndex>
    var stateSummary: Option<Summary>
    ghost var rows: seq<RunRow>

    /** No cache update was lost: both caches that are present hold the rebuilt summary, and once there
        is a row at least one is present. */
    ghost predicate Valid()
      reads this
    {
      && Lawful(codec)
      && runs == LogBytes(codec, rows)
      && (index.Some? ==>
            rows != [] && index.value.summary == Some(Rebuild(rows)) && index.value.eofSize == Some(|runs|))
      && (stateSummary.Some? ==> rows != [] && stateSummary.value == Rebuild(rows))
      && (rows != [] ==> index.Some? || stateSummary.Some?)
    }

    ghost function View(): Caches
      reads this
    {
      Caches(rows, if index.Some? then index.value.summary else None, stateSummary)
    }

    constructor (codec: Codec<RunRow>)
      ensures this.codec == codec && runs == [] && rows == [] && index == None && stateSummary == None
      ensures Lawful(codec) ==> Valid()
    {
      this.codec := codec;
      runs, rows, index, stateSummary := [], [], None, None;
    }

    /** False where the source raises `CheckpointError`; then no cache is touched. */
    method AppendRunResult(result: RunResult, out: AppendOutcome, indexOk: bool, stateOk: bool) returns (ok: bool)
      modifies this
      ensures ok <==> out.Done?
      ensures rows == if out.FailedEmpty? then old(rows) else old(rows) + [RowOf(result)]
      ensures runs == if out.FailedEmpty? then old(runs) else old(runs) + Line(codec, RowOf(result))
      ensures stateSummary == if ok && stateOk then Some(FromResult(result, Newest(old(View())))) else old(stateSummary)
      ensures index == if ok && indexOk && result.runId != ""
                       then Some(RunIndex(Some(FromResult(result, Newest(old(View())))),
                                          Str(result.runId), Some(|old(runs)|), Some(|runs|)))
                       else old(index)
      ensures View() == AfterAppend(old(View()), Append(result, out, indexOk, stateOk))
      ensures old(Valid()) && ok && stateOk && indexOk && result.runId != "" ==> Valid()
      ensures old(Valid()) && out.FailedEmpty? ==> Valid()
    {
      ok := out.Done?;
      if out.FailedEmpty? {
        return;
      }
      var offset := |runs|;
      LogBytesAppend(codec, rows, RowOf(result));
      AppendedSummaryIs(rows, result, Newest(View()));
      runs := runs + Line(codec, RowOf(result));
      rows := rows + [RowOf(result)];
      if !ok {
        return;
      }
      var previous := if index.Some? && index.value.summary.Some? then index.value.summary else stateSummary;
      var summary := FromResult(result, previous);
      if indexOk && result.runId != "" {
        index := Some(RunIndex(Some(summary), Str(result.runId), Some(offset), Some(|runs|)));
      }
      if stateOk {
        stateSummary := Some(summary);
      }
    }

    /** The index path: the summary of the indexed part, with every row behind it folded in. */
    method LoadRunSummaryFromIndex() returns (r: SummaryRead, latestIndex: Option<RunIndex>)
      ensures r == ReadRunIndex(codec, runs, index)
      ensures !r.NotFound? ==> latestIndex == RunIndexAfterLoad(codec, runs, index, stateSummary)
    {
      latestIndex := index;
      if index.None? || !ValidatesRun(codec, runs, index.value) || |runs| < index.value.eofSize.value {
        return NotFound, latestIndex;
      }
      var latest, eof := index.value.summary.value, index.value.eofSize.value;
      var runId, offset := index.value.runId, index.value.offset;
      if |runs| > eof {
        var loaded := LoadJsonlEntries(codec, runs, eof);
        if !loaded.Entries? {
          return SummaryRaised, latestIndex;
        }
        var entries, appended := loaded.entries, RowsOf(loaded.entries);
        var i := 0;
        while i < |entries|
          invariant 0 <= i <= |entries|
          invariant FoldRows(latest, appended[i..]) == FoldRows(index.value.summary.value, appended)
          invariant runId == LastRunId(index.value.runId, entries[..i])
          invariant offset == LastOffset(index.value.offset, entries[..i])
        {
          latest := FoldRow(latest, appended[i]);
          if NamesRun(appended[i]) {
            runId := appended[i].runId;
          }
          offset := Some(entries[i].offset);
          assert appended[i..][1..] == appended[i + 1..];
          assert entries[..i + 1][..i] == entries[..i];
          i := i + 1;
        }
        assert entries[..|entries|] == entries && appended[|entries|..] == [];
      }
      return FoundSummary(latest), Some(RunIndex(Some(latest), runId, offset, Some(|runs|)));
    }

    /** The last run's summary, or `NotFound` when there is no run; nothing is asked of the caches or of
        the log, and with no update lost the answer is the rebuilt summary. */
    method LoadLastRunSummary(indexOk: bool, stateOk: bool) returns (r: SummaryRead)
      modifies this`index, this`stateSummary
      ensures r == match ReadRunIndex(codec, runs, old(index)) {
                     case SummaryRaised => SummaryRaised
                     case FoundSummary(s) => FoundSummary(s)
                     case NotFound =>
                       if old(stateSummary).Some? then FoundSummary(old(stateSummary).value)
                       else if !Load(codec, runs, 0).Entries? then SummaryRaised
                       else if Load(codec, runs, 0).entries == [] then NotFound
                       else FoundSummary(Rebuild(RowsOf(Load(codec, runs, 0).entries)))
                   }
      ensures index == if indexOk then RunIndexAfterLoad(codec, runs, old(index), old(stateSummary)) else old(index)
      ensures stateSummary == if stateOk && r.FoundSummary? then Some(r.summary) else old(stateSummary)
      ensures old(Valid()) ==> Valid() && r == if rows == [] then NotFound else FoundSummary(Rebuild(rows))
    {
      if Valid() {
        WholeLogLoads(codec, rows);
        assert RowsOf(EntriesFrom(codec, rows, 0)) == rows;
        assert runs[..|runs|] == runs;
        if index.Some? {
          ResumedEqualsRebuilt(codec, runs, index.value);
        }
      }
      var latestIndex;
      r, latestIndex := LoadRunSummaryFromIndex();
      if r.FoundSummary? {
        if indexOk {
          index := latestIndex;
        }
        if stateOk {
          stateSummary := Some(r.summary);
        }
      }
      if !r.NotFound? {
        return;
      }
      if stateSummary.Some? {
        return FoundSummary(stateSummary.value);
      }
      var loaded := LoadJsonlEntries(codec, runs, 0);
      if !loaded.Entries? {
        return SummaryRaised;
      }
      if loaded.entries == [] {
        return NotFound;
      }
      var summary := Rebuild(RowsOf(loaded.entries));
      var last := loaded.entries[|loaded.entries| - 1];
      if indexOk && NamesRun(last.record) {
        index := Some(RunIndex(Some(summary), last.record.runId, Some(last.offset), Some(|runs|)));
      }
      if stateOk {
        stateSummary := Some(summary);
      }
      return FoundSummary(summary);
    }
  }
}
