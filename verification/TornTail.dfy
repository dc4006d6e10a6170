/** What an append does behind a torn tail: exactly when the log and its index survive it. */
module TornTail {
  import opened Wrappers
  import opened JsonLines
  import opened Records
  import opened CheckpointIndex
  import opened CodecWitness

  /** How many records have their whole line, newline included, in the first `n` bytes. */
  function LineCount<R>(c: Codec<R>, recs: seq<R>, n: nat): (k: nat)
    ensures k <= |recs|
  {
    if recs == [] || n < |Line(c, recs[0])| then 0 else 1 + LineCount(c, recs[1..], n - |Line(c, recs[0])|)
  }

  /** The cut lies inside a line. */
  predicate Torn<R>(c: Codec<R>, recs: seq<R>, n: nat)
    requires n <= |LogBytes(c, recs)|
  {
    n > 0 && LogBytes(c, recs)[n - 1] != NEWLINE
  }

  /** How much of the next line is left behind the whole lines of a cut log. */
  function TornLength<R>(c: Codec<R>, recs: seq<R>, n: nat): nat {
    if recs == [] || n < |Line(c, recs[0])| then n else TornLength(c, recs[1..], n - |Line(c, recs[0])|)
  }

  /** A cut log is its whole lines and then a piece of the next encoding. */
  lemma {:induction false} CutSplits<R>(c: Codec<R>, recs: seq<R>, n: nat)
    requires n <= |LogBytes(c, recs)|
    ensures var j, m := LineCount(c, recs, n), TornLength(c, recs, n);
            if j < |recs|
            then m <= |c.encode(recs[j])| && LogBytes(c, recs)[..n] == LogBytes(c, recs[..j]) + c.encode(recs[j])[..m]
            else m == 0 && LogBytes(c, recs)[..n] == LogBytes(c, recs[..j])
    decreases recs
  {
    if recs != [] {
      var d := |Line(c, recs[0])|;
      if n < d {
        assert LogBytes(c, recs)[..n] == c.encode(recs[0])[..n];
        assert LogBytes(c, recs[..0]) == [];
      } else {
        CutSplits(c, recs[1..], n - d);
        CutBehindFirst(c, recs, n);
      }
    }
  }

  lemma CutBehindFirst<R>(c: Codec<R>, recs: seq<R>, n: nat)
    requires recs != [] && |Line(c, recs[0])| <= n <= |LogBytes(c, recs)|
    ensures var j', n' := LineCount(c, recs[1..], n - |Line(c, recs[0])|), n - |Line(c, recs[0])|;
            && LogBytes(c, recs)[..n] == Line(c, recs[0]) + LogBytes(c, recs[1..])[..n']
            && LogBytes(c, recs[..j' + 1]) == Line(c, recs[0]) + LogBytes(c, recs[1..][..j'])
  {
    var j' := LineCount(c, recs[1..], n - |Line(c, recs[0])|);
    var head := recs[..j' + 1];
    assert head[0] == recs[0] && head[1..] == recs[1..][..j'];
  }

  lemma TornIff<R(!new)>(c: Codec<R>, recs: seq<R>, n: nat)
    requires Lawful(c) && n <= |LogBytes(c, recs)|
    ensures Torn(c, recs, n) <==> TornLength(c, recs, n) > 0
  {
    CutSplits(c, recs, n);
    var j, m := LineCount(c, recs, n), TornLength(c, recs, n);
    var f := LogBytes(c, recs)[..n];
    if m > 0 {
      assert f[n - 1] == c.encode(recs[j])[m - 1];
    } else if n > 0 {
      assert f == LogBytes(c, recs[..j]);
      LogBytesPrefix(c, recs[..j], j);
      assert recs[..j][..j] == recs[..j];
    }
  }

  lemma {:induction false} LoadBehindLines<R(!new)>(c: Codec<R>, recs: seq<R>, g: seq<byte>)
    requires Lawful(c)
    ensures Load(c, LogBytes(c, recs) + g, 0)
         == Prepend(EntriesFrom(c, recs, 0), Shifted(|LogBytes(c, recs)|, Load(c, g, 0)))
  {
    if recs == [] {
      assert LogBytes(c, recs) + g == g;
      LoadShifts(c, [], g, 0);
      assert [] + g == g;
    } else {
      LoadBehindLines(c, recs[1..], g);
      LoadBehindOneMore(c, recs[0], recs[1..], g, Load(c, g, 0));
      ConsLog(c, recs, g);
    }
  }

  lemma ConsLog<R>(c: Codec<R>, recs: seq<R>, g: seq<byte>)
    requires recs != []
    ensures recs == [recs[0]] + recs[1..]
    ensures LogBytes(c, recs) + g == Line(c, recs[0]) + (LogBytes(c, recs[1..]) + g)
    ensures |LogBytes(c, recs)| == |Line(c, recs[0])| + |LogBytes(c, recs[1..])|
  {
  }

  lemma LoadBehindOneMore<R(!new)>(c: Codec<R>, r: R, recs: seq<R>, g: seq<byte>, l: Loaded<R>)
    requires Lawful(c)
    requires Load(c, LogBytes(c, recs) + g, 0) == Prepend(EntriesFrom(c, recs, 0), Shifted(|LogBytes(c, recs)|, l))
    ensures Load(c, Line(c, r) + (LogBytes(c, recs) + g), 0)
         == Prepend(EntriesFrom(c, [r] + recs, 0), Shifted(|Line(c, r)| + |LogBytes(c, recs)|, l))
  {
    var d, d', es := |Line(c, r)|, |LogBytes(c, recs)|, EntriesFrom(c, recs, 0);
    calc {
      Load(c, Line(c, r) + (LogBytes(c, recs) + g), 0);
      { ReadFirstLine(c, r, LogBytes(c, recs) + g); }
      Prepend([Entry(0, r)], Shifted(d, Prepend(es, Shifted(d', l))));
      { ShiftPrepend(d, es, d', l); }
      Prepend([Entry(0, r)], Prepend(ShiftEntries(d, es), Shifted(d + d', l)));
      { EntriesFromShift(c, recs, 0, d); }
      Prepend([Entry(0, r)], Prepend(EntriesFrom(c, recs, d), Shifted(d + d', l)));
      { PrependTwice([Entry(0, r)], EntriesFrom(c, recs, d), Shifted(d + d', l)); }
      Prepend([Entry(0, r)] + EntriesFrom(c, recs, d), Shifted(d + d', l));
      { EntriesFromCons(c, r, recs, 0); }
      Prepend(EntriesFrom(c, [r] + recs, 0), Shifted(d + d', l));
    }
  }

  lemma ShiftPrepend<R>(d: nat, es: seq<Entry<R>>, d': nat, l: Loaded<R>)
    ensures Shifted(d, Prepend(es, Shifted(d', l))) == Prepend(ShiftEntries(d, es), Shifted(d + d', l))
  {
    if l.Entries? {
      assert ShiftEntries(d, es + ShiftEntries(d', l.entries)) == ShiftEntries(d, es) + ShiftEntries(d + d', l.entries);
    }
  }

  lemma PrependTwice<R>(a: seq<Entry<R>>, b: seq<Entry<R>>, l: Loaded<R>)
    ensures Prepend(a, Prepend(b, l)) == Prepend(a + b, l)
  {
    if l.Entries? {
      assert a + (b + l.entries) == (a + b) + l.entries;
    }
  }

  /** The line that an append makes out of a torn tail does not parse. */
  lemma ReadGluedLine<R(!new)>(c: Codec<R>, torn: R, m: nat, r: R, g: seq<byte>)
    requires Lawful(c) && NeverGlues(c) && 0 < m <= |c.encode(torn)|
    ensures Load(c, c.encode(torn)[..m] + Line(c, r) + g, 0) == if g == [] then Entries([]) else Corrupted
  {
    var glued := c.encode(torn)[..m] + c.encode(r);
    var f := c.encode(torn)[..m] + Line(c, r) + g;
    assert f == glued + [NEWLINE] + g;
    LineEndIs(f, 0, |glued| + 1);
    assert f[0..|glued| + 1] == glued + [NEWLINE];
    RStripKeeps(glued);
  }

  /** What a full scan finds after one more append to a cut log. */
  lemma AppendBehindCut<R(!new)>(c: Codec<R>, recs: seq<R>, n: nat, r: R, g: seq<byte>)
    requires Lawful(c) && NeverGlues(c) && n <= |LogBytes(c, recs)|
    ensures var whole := recs[..LineCount(c, recs, n)];
            (Load(c, LogBytes(c, recs)[..n] + Line(c, r) + g, 0)
             == if !Torn(c, recs, n)
                then Prepend(EntriesFrom(c, whole + [r], 0), Shifted(|LogBytes(c, whole + [r])|, Load(c, g, 0)))
                else if g == [] then Entries(EntriesFrom(c, whole, 0))
                else Corrupted)
  {
    CutSplits(c, recs, n);
    TornIff(c, recs, n);
    var j, m := LineCount(c, recs, n), TornLength(c, recs, n);
    var whole, f := recs[..j], LogBytes(c, recs)[..n] + Line(c, r) + g;
    if m == 0 {
      LogBytesAppend(c, whole, r);
      assert f == LogBytes(c, whole + [r]) + g;
      LoadBehindLines(c, whole + [r], g);
    } else {
      var rest := c.encode(recs[j])[..m] + Line(c, r) + g;
      assert f == LogBytes(c, whole) + rest;
      LoadBehindLines(c, whole, rest);
      ReadGluedLine(c, recs[j], m, r, g);
      assert EntriesFrom(c, whole, 0) + [] == EntriesFrom(c, whole, 0);
    }
  }

  /** An append to a cut log keeps the log readable for the next append, and is itself read back, if
      and only if the cut was at a line boundary. */
  lemma AppendSurvivesIffNotTorn<R(!new)>(c: Codec<R>, recs: seq<R>, n: nat, r: R, next: R)
    requires Lawful(c) && NeverGlues(c) && n <= |LogBytes(c, recs)|
    ensures var f := LogBytes(c, recs)[..n] + Line(c, r);
            && Load(c, f, 0).Entries?
            && (Load(c, f + Line(c, next), 0).Entries? <==> !Torn(c, recs, n))
            && (Entry(n, r) in Load(c, f, 0).entries <==> !Torn(c, recs, n))
  {
    var log := LogBytes(c, recs);
    var f, j := log[..n] + Line(c, r), LineCount(c, recs, n);
    var whole := recs[..j];
    assert f + [] == f;
    AppendBehindCut(c, recs, n, r, []);
    AppendBehindCut(c, recs, n, r, Line(c, next));
    ReadFirstLine(c, next, []);
    assert Line(c, next) + [] == Line(c, next);
    CutSplits(c, recs, n);
    TornIff(c, recs, n);
    if Torn(c, recs, n) {
      forall i | 0 <= i < j ensures EntriesFrom(c, whole, 0)[i].offset < n {
        LogBytesPrefix(c, whole, i);
      }
    } else {
      var es := EntriesFrom(c, whole + [r], 0);
      assert (whole + [r])[..j] == whole;
      assert es + [] == es;
      assert es[j] == Entry(n, r);
    }
  }

  /** The index that this append writes is always accepted, wherever its offset points; what it says
      agrees with the full scan if and only if the cut was at a line boundary or both happen to name
      the same checkpoint. */
  lemma GluedIndexAgreesIff(c: Codec<Event>, recs: seq<Event>, n: nat, r: Event, stateLast: JsonValue)
    requires Lawful(c) && NeverGlues(c) && n <= |LogBytes(c, recs)|
    requires IsCheckpointEvent(r) && r.checkpoint.Str?
    ensures var f := LogBytes(c, recs)[..n] + Line(c, r);
            var whole := recs[..LineCount(c, recs, n)];
            var idx := NewIndex(r.checkpoint, n, |f|);
            && LoadValue(c, f, Some(idx), stateLast) == Some(r.checkpoint)
            && LoadValue(c, f, None, stateLast) == Some(
                 if !Torn(c, recs, n) then r.checkpoint
                 else if HasCheckpoint(whole) then Frontier(whole)
                 else stateLast)
            && (LoadValue(c, f, Some(idx), stateLast) == LoadValue(c, f, None, stateLast)
                <==> !Torn(c, recs, n)
                     || r.checkpoint == if HasCheckpoint(whole) then Frontier(whole) else stateLast)
  {
    var f, whole := LogBytes(c, recs)[..n] + Line(c, r), recs[..LineCount(c, recs, n)];
    assert RowAt(c, f, n) == Some(r) by {
      LineEndIs(f, n, |f|);
      assert f[n..|f|] == Line(c, r);
      RStripKeeps(c.encode(r));
    }
    var found := if Torn(c, recs, n) then whole else whole + [r];
    assert Load(c, f, 0) == Entries(EntriesFrom(c, found, 0)) by {
      assert f + [] == f;
      AppendBehindCut(c, recs, n, r, []);
      assert EntriesFrom(c, found, 0) + [] == EntriesFrom(c, found, 0);
    }
    ScanValue(c, f, found, stateLast);
    FrontierAppend(whole, r);
    assert IsCheckpointEvent((whole + [r])[|whole|]);
  }

  lemma ScanValue(c: Codec<Event>, f: seq<byte>, found: seq<Event>, stateLast: JsonValue)
    requires Load(c, f, 0) == Entries(EntriesFrom(c, found, 0))
    ensures LoadValue(c, f, None, stateLast) == Some(if HasCheckpoint(found) then Frontier(found) else stateLast)
  {
    RecordsOfEntries(c, found);
    LastCheckpointIsFrontier(EntriesFrom(c, found, 0));
  }

  /** It does happen: cut a log of one checkpoint inside its line, append another checkpoint, and the index
      names the new one while the full scan finds none. */
  lemma GluedIndexCanDisagree()
    ensures var first := Event(CheckpointAdvanced, Str("a"), Null, Null);
            var second := Event(CheckpointAdvanced, Str("b"), Null, Null);
            var f := LogBytes(EVENT_CODEC, [first])[..1] + Line(EVENT_CODEC, second);
            && LoadValue(EVENT_CODEC, f, Some(NewIndex(Str("b"), 1, |f|)), Null) == Some(Str("b"))
            && LoadValue(EVENT_CODEC, f, None, Null) == Some(Null)
  {
    var recs := [Event(CheckpointAdvanced, Str("a"), Null, Null)];
    EventCodecIsLawful();
    assert LogBytes(EVENT_CODEC, recs)[0] == Line(EVENT_CODEC, recs[0])[0]
        == EVENT_CODEC.encode(recs[0])[0] == OPEN_BRACE;
    assert |Line(EVENT_CODEC, recs[0])| > 1;
    GluedIndexAgreesIff(EVENT_CODEC, recs, 1, Event(CheckpointAdvanced, Str("b"), Null, Null), Null);
  }
}
