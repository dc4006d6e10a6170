/** Append-only files of newline-terminated records, at the level of their bytes.

    A record is written as its encoding followed by one newline. A reader takes the file line by
    line, drops trailing carriage returns and newlines, and parses what is left. A line that does
    not parse is ignored when it is the last one of the file and is an error anywhere else.
 */
module JsonLines {
  import opened Wrappers

  newtype byte = x: int | 0 <= x < 256

  const NEWLINE: byte := 10
  const CARRIAGE_RETURN: byte := 13

  /** What the bytes of one stripped line are. `Blank` is white space only; `Malformed` covers both
      bytes that are not UTF-8 and text that is not JSON; `NonObject` is JSON of another kind. */
  datatype Parsed<+R> = Blank | Malformed | NonObject | Object(record: R)

  datatype Codec<!R> = Codec(encode: R -> seq<byte>, parse: seq<byte> -> Parsed<R>)

  datatype Entry<+R> = Entry(offset: nat, record: R)

  datatype Loaded<+R> = Entries(entries: seq<Entry<R>>) | Corrupted | BadOffset

  /** The laws the model asks of the JSON encoder and parser: parsing undoes encoding, an encoding
      contains no line terminator, and no proper prefix of an encoding is an object. */
  ghost predicate Lawful<R(!new)>(c: Codec<R>) {
    && c.parse([]) == Blank
    && (forall r :: c.parse(c.encode(r)) == Object(r))
    && (forall r :: NEWLINE !in c.encode(r) && CARRIAGE_RETURN !in c.encode(r))
    && (forall r, n :: 0 <= n < |c.encode(r)| ==> !c.parse(c.encode(r)[..n]).Object?)
  }

  /** A fourth law, needed only behind a torn tail: an encoding glued to a non-empty prefix of
      another one does not parse. */
  ghost predicate NeverGlues<R(!new)>(c: Codec<R>) {
    forall r, n, s :: 0 < n <= |c.encode(r)| ==> c.parse(c.encode(r)[..n] + c.encode(s)) == Malformed
  }

  /******* Reading *******/

  /** Where the line that starts at `p` ends: just after its newline, or at the end of the file. */
  function LineEnd(f: seq<byte>, p: nat): (e: nat)
    requires p < |f|
    ensures p < e <= |f|
    decreases |f| - p
  {
    if f[p] == NEWLINE || p + 1 == |f| then p + 1 else LineEnd(f, p + 1)
  }

  function RStrip(line: seq<byte>): seq<byte> {
    if |line| > 0 && (line[|line| - 1] == NEWLINE || line[|line| - 1] == CARRIAGE_RETURN)
    then RStrip(line[..|line| - 1])
    else line
  }

  function Prepend<R>(es: seq<Entry<R>>, l: Loaded<R>): Loaded<R> {
    if l.Entries? then Entries(es + l.entries) else l
  }

  /** The records from position `p` on, each with the position where its line starts. */
  function Load<R>(c: Codec<R>, f: seq<byte>, p: nat): (l: Loaded<R>)
    requires p <= |f|
    ensures !l.BadOffset?
    decreases |f| - p
  {
    if p == |f| then Entries([])
    else
      var e := LineEnd(f, p);
      match c.parse(RStrip(f[p..e]))
      case Malformed => if e == |f| then Entries([]) else Corrupted
      case Object(r) => Prepend([Entry(p, r)], Load(c, f, e))
      case _ => Load(c, f, e)
  }

  function LoadFrom<R>(c: Codec<R>, f: seq<byte>, start: int): Loaded<R> {
    if start < 0 || start > |f| then BadOffset else Load(c, f, start)
  }

  /** The record on the line that starts at a given offset, if there is one to read. */
  function RowAt<R>(c: Codec<R>, f: seq<byte>, offset: nat): Option<R> {
    if offset >= |f| then None
    else match c.parse(RStrip(f[offset..LineEnd(f, offset)]))
         case Object(r) => Some(r)
         case _ => None
  }

  method LoadJsonlEntries<R>(c: Codec<R>, f: seq<byte>, start: int) returns (r: Loaded<R>)
    ensures r == LoadFrom(c, f, start)
  {
    if start < 0 || start > |f| {
      return BadOffset;
    }
    var entries: seq<Entry<R>> := [];
    var pos: nat := start;
    while pos < |f|
      invariant start <= pos <= |f|
      invariant Load(c, f, start) == Prepend(entries, Load(c, f, pos))
    {
      var lineStart := pos;
      pos := LineEnd(f, lineStart);
      var isTailLine := pos == |f|;
      match c.parse(RStrip(f[lineStart..pos]))
      case Malformed =>
        if !isTailLine {
          return Corrupted;
        }
      case Object(record) =>
        ghost var rest := Load(c, f, pos);
        assert rest.Entries? ==>
          entries + ([Entry(lineStart, record)] + rest.entries)
          == (entries + [Entry(lineStart, record)]) + rest.entries;
        entries := entries + [Entry(lineStart, record)];
      case _ =>
    }
    return Entries(entries);
  }

  /******* Facts about lines *******/

  ghost predicate Boundary(f: seq<byte>, p: nat)
    requires p <= |f|
  {
    p == 0 || f[p - 1] == NEWLINE
  }

  lemma {:induction false} LineEndIs(f: seq<byte>, p: nat, e: nat)
    requires p < e <= |f|
    requires forall i :: p <= i < e - 1 ==> f[i] != NEWLINE
    requires f[e - 1] == NEWLINE || e == |f|
    ensures LineEnd(f, p) == e
    decreases e - p
  {
    if p + 1 < e {
      LineEndIs(f, p + 1, e);
    }
  }

  lemma {:induction false} LineEndAt(f: seq<byte>, p: nat)
    requires p < |f|
    ensures forall i :: p <= i < LineEnd(f, p) - 1 ==> f[i] != NEWLINE
    ensures f[LineEnd(f, p) - 1] == NEWLINE || LineEnd(f, p) == |f|
    decreases |f| - p
  {
    if f[p] != NEWLINE && p + 1 != |f| {
      LineEndAt(f, p + 1);
    }
  }

  lemma RStripKeeps(s: seq<byte>)
    requires NEWLINE !in s && CARRIAGE_RETURN !in s
    ensures RStrip(s) == s && RStrip(s + [NEWLINE]) == s
  {
    assert (s + [NEWLINE])[..|s|] == s;
  }

  /******* Facts about any file *******/

  function Shifted<R>(d: nat, l: Loaded<R>): Loaded<R> {
    if l.Entries? then Entries(ShiftEntries(d, l.entries)) else l
  }

  function ShiftEntries<R>(d: nat, es: seq<Entry<R>>): (r: seq<Entry<R>>)
    ensures |r| == |es|
    ensures forall i :: 0 <= i < |es| ==> r[i] == Entry(d + es[i].offset, es[i].record)
  {
    seq(|es|, i requires 0 <= i < |es| => Entry(d + es[i].offset, es[i].record))
  }

  lemma ShiftOne<R>(d: nat, p: nat, r: R, l: Loaded<R>)
    ensures Shifted(d, Prepend([Entry(p, r)], l)) == Prepend([Entry(d + p, r)], Shifted(d, l))
  {
    if l.Entries? {
      assert ShiftEntries(d, [Entry(p, r)] + l.entries) == [Entry(d + p, r)] + ShiftEntries(d, l.entries);
    }
  }

  lemma SameLine(pre: seq<byte>, g: seq<byte>, p: nat)
    requires p < |g|
    ensures LineEnd(pre + g, |pre| + p) == |pre| + LineEnd(g, p)
    ensures (pre + g)[|pre| + p..|pre| + LineEnd(g, p)] == g[p..LineEnd(g, p)]
  {
    LineEndAt(g, p);
    LineEndIs(pre + g, |pre| + p, |pre| + LineEnd(g, p));
  }

  /** Reading does not look behind its starting point. */
  lemma {:induction false} LoadShifts<R>(c: Codec<R>, pre: seq<byte>, g: seq<byte>, p: nat)
    requires p <= |g|
    ensures Load(c, pre + g, |pre| + p) == Shifted(|pre|, Load(c, g, p))
    decreases |g| - p
  {
    if p < |g| {
      var e := LineEnd(g, p);
      SameLine(pre, g, p);
      LoadShifts(c, pre, g, e);
      match c.parse(RStrip(g[p..e]))
      case Object(r) => ShiftOne(|pre|, p, r, Load(c, g, e));
      case _ =>
    }
  }

  /** A readable file splits at every line boundary: the part before it and the part behind it are
      both readable, and together they hold the same entries. */
  lemma {:induction false} LoadSplits<R>(c: Codec<R>, f: seq<byte>, q: nat, p: nat)
    requires q <= p <= |f| && Boundary(f, p)
    requires Load(c, f, q).Entries?
    ensures Load(c, f[..p], q).Entries? && Load(c, f, p).Entries?
    ensures Load(c, f, q).entries == Load(c, f[..p], q).entries + Load(c, f, p).entries
    decreases p - q
  {
    if q < p {
      var e := LineEnd(f, q);
      LineEndAt(f, q);
      assert e <= p;
      LineEndIs(f[..p], q, e);
      assert f[..p][q..e] == f[q..e];
      if c.parse(RStrip(f[q..e])).Malformed? {
        assert f[..p] == f;
      } else {
        LoadSplits(c, f, e, p);
      }
    }
  }

  /** Every entry found can be read again at its own offset. */
  lemma {:induction false} EntriesReadBack<R>(c: Codec<R>, f: seq<byte>, q: nat, i: nat)
    requires q <= |f| && Load(c, f, q).Entries? && i < |Load(c, f, q).entries|
    ensures RowAt(c, f, Load(c, f, q).entries[i].offset) == Some(Load(c, f, q).entries[i].record)
    ensures q <= Load(c, f, q).entries[i].offset < |f|
    decreases |f| - q
  {
    var e := LineEnd(f, q);
    match c.parse(RStrip(f[q..e]))
    case Object(_) => if i > 0 { EntriesReadBack(c, f, e, i - 1); }
    case Malformed =>
    case _ => EntriesReadBack(c, f, e, i);
  }

  /** Stripping drops exactly the line terminators at the end. */
  lemma {:induction false} RStripExactly(line: seq<byte>)
    ensures var r := RStrip(line);
            && r <= line
            && (forall i :: |r| <= i < |line| ==> line[i] == NEWLINE || line[i] == CARRIAGE_RETURN)
            && (r != [] ==> r[|r| - 1] != NEWLINE && r[|r| - 1] != CARRIAGE_RETURN)
  {
    if |line| > 0 && (line[|line| - 1] == NEWLINE || line[|line| - 1] == CARRIAGE_RETURN) {
      RStripExactly(line[..|line| - 1]);
    }
  }

  function StrippedLine(f: seq<byte>, p: nat): seq<byte>
    requires p < |f|
  {
    RStrip(f[p..LineEnd(f, p)])
  }

  /** A line starts at `p`. */
  ghost predicate LineStarts(f: seq<byte>, p: nat) {
    p < |f| && Boundary(f, p)
  }

  lemma NoLineInside(f: seq<byte>, q: nat, p: nat)
    requires LineStarts(f, q) && LineStarts(f, p) && q < p
    ensures LineEnd(f, q) <= p
  {
    LineEndAt(f, q);
  }

  /** What reading any file from the start of a line means: it is an error exactly when some line other than
      the last one of the file is malformed, and otherwise it finds every line that is an object, at the
      place where the line starts, and nothing else. */
  lemma {:induction false} LoadExactly<R(!new)>(c: Codec<R>, f: seq<byte>, q: nat)
    requires q <= |f| && (Boundary(f, q) || q == |f|)
    ensures Load(c, f, q).Corrupted?
       <==> exists p: nat :: q <= p && LineStarts(f, p) && c.parse(StrippedLine(f, p)).Malformed? && LineEnd(f, p) < |f|
    ensures Load(c, f, q).Corrupted? || Load(c, f, q).Entries?
    ensures Load(c, f, q).Entries? ==>
              forall e :: e in Load(c, f, q).entries
                          <==> q <= e.offset && LineStarts(f, e.offset)
                               && c.parse(StrippedLine(f, e.offset)) == Object(e.record)
    decreases |f| - q
  {
    if q < |f| {
      var e := LineEnd(f, q);
      LineEndAt(f, q);
      LoadExactly(c, f, e);
      forall p: nat | q < p && LineStarts(f, p) ensures e <= p {
        NoLineInside(f, q, p);
      }
      assert LineStarts(f, q);
    }
  }

  /** And it finds them in the order in which they stand. */
  lemma {:induction false} LoadInOrder<R>(c: Codec<R>, f: seq<byte>, q: nat)
    requires q <= |f| && Load(c, f, q).Entries?
    ensures var es := Load(c, f, q).entries;
            && (forall i :: 0 <= i < |es| ==> q <= es[i].offset < |f|)
            && (forall i, j :: 0 <= i < j < |es| ==> es[i].offset < es[j].offset)
    decreases |f| - q
  {
    if q < |f| {
      var e := LineEnd(f, q);
      if !c.parse(StrippedLine(f, q)).Malformed? {
        LoadInOrder(c, f, e);
      }
    }
  }

  /******* Files written by appends only *******/

  function Line<R>(c: Codec<R>, r: R): seq<byte> {
    c.encode(r) + [NEWLINE]
  }

  /** The bytes of the file after the given records were appended one by one. */
  function LogBytes<R>(c: Codec<R>, recs: seq<R>): seq<byte> {
    if recs == [] then [] else Line(c, recs[0]) + LogBytes(c, recs[1..])
  }

  /** The offset that appending record `i` reported. */
  function OffsetOf<R>(c: Codec<R>, recs: seq<R>, i: nat): nat
    requires i <= |recs|
  {
    |LogBytes(c, recs[..i])|
  }

  /** The entries of a sequence of records written from position `base` on. */
  function EntriesFrom<R>(c: Codec<R>, recs: seq<R>, base: nat): (es: seq<Entry<R>>)
    ensures |es| == |recs|
    ensures forall i :: 0 <= i < |recs| ==> es[i] == Entry(base + OffsetOf(c, recs, i), recs[i])
  {
    seq(|recs|, i requires 0 <= i < |recs| => Entry(base + OffsetOf(c, recs, i), recs[i]))
  }

  lemma OffsetOfCons<R>(c: Codec<R>, r: R, recs: seq<R>, i: nat)
    requires i <= |recs|
    ensures OffsetOf(c, [r] + recs, i + 1) == |Line(c, r)| + OffsetOf(c, recs, i)
  {
    var head := ([r] + recs)[..i + 1];
    assert head[0] == r && head[1..] == recs[..i];
  }

  lemma EntriesFromCons<R>(c: Codec<R>, r: R, recs: seq<R>, base: nat)
    ensures EntriesFrom(c, [r] + recs, base) == [Entry(base, r)] + EntriesFrom(c, recs, base + |Line(c, r)|)
  {
    var left := EntriesFrom(c, [r] + recs, base);
    var right := [Entry(base, r)] + EntriesFrom(c, recs, base + |Line(c, r)|);
    forall i | 0 <= i < |left| ensures left[i] == right[i] {
      if i == 0 {
        assert ([r] + recs)[..0] == [];
      } else {
        OffsetOfCons(c, r, recs, i - 1);
        assert right[i] == EntriesFrom(c, recs, base + |Line(c, r)|)[i - 1];
      }
    }
    assert |left| == |right|;
  }

  lemma EntriesFromShift<R>(c: Codec<R>, recs: seq<R>, base: nat, d: nat)
    ensures EntriesFrom(c, recs, base + d) == ShiftEntries(d, EntriesFrom(c, recs, base))
  {
  }

  lemma {:induction false} LogBytesConcat<R>(c: Codec<R>, a: seq<R>, b: seq<R>)
    ensures LogBytes(c, a + b) == LogBytes(c, a) + LogBytes(c, b)
  {
    if a == [] {
      assert a + b == b;
    } else {
      assert (a + b)[1..] == a[1..] + b;
      LogBytesConcat(c, a[1..], b);
    }
  }

  lemma LogBytesAppend<R>(c: Codec<R>, recs: seq<R>, r: R)
    ensures LogBytes(c, recs + [r]) == LogBytes(c, recs) + Line(c, r)
  {
    LogBytesConcat(c, recs, [r]);
    assert LogBytes(c, [r]) == Line(c, r) + LogBytes(c, []);
  }

  /** The file cut behind record `i` is what the first `i` appends wrote. */
  lemma LogBytesPrefix<R>(c: Codec<R>, recs: seq<R>, i: nat)
    requires i <= |recs|
    ensures OffsetOf(c, recs, i) <= |LogBytes(c, recs)|
    ensures LogBytes(c, recs)[..OffsetOf(c, recs, i)] == LogBytes(c, recs[..i])
    ensures Boundary(LogBytes(c, recs), OffsetOf(c, recs, i))
  {
    assert recs == recs[..i] + recs[i..];
    LogBytesConcat(c, recs[..i], recs[i..]);
    if i > 0 {
      assert recs[..i] == recs[..i - 1] + [recs[i - 1]];
      LogBytesAppend(c, recs[..i - 1], recs[i - 1]);
    }
  }

  /** How many of the records have their encoding, without its newline, wholly in the first `n` bytes. */
  function WholeCount<R>(c: Codec<R>, recs: seq<R>, n: nat): (k: nat)
    ensures k <= |recs|
  {
    if recs == [] || n < |c.encode(recs[0])| then 0
    else if n == |c.encode(recs[0])| then 1
    else 1 + WholeCount(c, recs[1..], n - |Line(c, recs[0])|)
  }

  lemma {:induction false} WholeCountIs<R>(c: Codec<R>, recs: seq<R>, n: nat, i: nat)
    requires i < |recs|
    ensures i < WholeCount(c, recs, n) <==> OffsetOf(c, recs, i) + |c.encode(recs[i])| <= n
  {
    if i > 0 {
      assert recs[..i][1..] == recs[1..][..i - 1];
      if n > |c.encode(recs[0])| {
        WholeCountIs(c, recs[1..], n - |Line(c, recs[0])|, i - 1);
      }
    }
  }

  lemma ReadFirstLine<R(!new)>(c: Codec<R>, r: R, g: seq<byte>)
    requires Lawful(c)
    ensures Load(c, Line(c, r) + g, 0) == Prepend([Entry(0, r)], Shifted(|Line(c, r)|, Load(c, g, 0)))
  {
    var f := Line(c, r) + g;
    LineEndIs(f, 0, |Line(c, r)|);
    assert f[0..|Line(c, r)|] == Line(c, r);
    RStripKeeps(c.encode(r));
    LoadShifts(c, Line(c, r), g, 0);
  }

  lemma ReadTornLine<R(!new)>(c: Codec<R>, r: R, n: nat)
    requires Lawful(c) && n <= |c.encode(r)|
    ensures Load(c, c.encode(r)[..n], 0) == Entries(if n < |c.encode(r)| then [] else [Entry(0, r)])
  {
    var f := c.encode(r)[..n];
    if n > 0 {
      LineEndIs(f, 0, n);
      assert f[0..n] == f;
      RStripKeeps(f);
      if n == |c.encode(r)| {
        assert f == c.encode(r);
      }
    }
  }

  lemma {:induction false} PrefixLoadsEntries<R(!new)>(c: Codec<R>, recs: seq<R>, n: nat)
    requires Lawful(c) && n <= |LogBytes(c, recs)|
    ensures Load(c, LogBytes(c, recs)[..n], 0) == Entries(EntriesFrom(c, recs[..WholeCount(c, recs, n)], 0))
  {
    if recs != [] {
      var d := |Line(c, recs[0])|;
      if n < d {
        PrefixWithinFirst(c, recs, n);
      } else {
        PrefixLoadsEntries(c, recs[1..], n - d);
        PrefixBehindFirst(c, recs, n);
      }
    }
  }

  lemma PrefixBehindFirst<R(!new)>(c: Codec<R>, recs: seq<R>, n: nat)
    requires Lawful(c) && recs != [] && |Line(c, recs[0])| <= n <= |LogBytes(c, recs)|
    requires var m := n - |Line(c, recs[0])|;
             Load(c, LogBytes(c, recs[1..])[..m], 0)
             == Entries(EntriesFrom(c, recs[1..][..WholeCount(c, recs[1..], m)], 0))
    ensures Load(c, LogBytes(c, recs)[..n], 0) == Entries(EntriesFrom(c, recs[..WholeCount(c, recs, n)], 0))
  {
    var m := n - |Line(c, recs[0])|;
    var rest, k := LogBytes(c, recs[1..])[..m], WholeCount(c, recs[1..], m);
    assert LogBytes(c, recs)[..n] == Line(c, recs[0]) + rest;
    assert recs[..1 + k] == [recs[0]] + recs[1..][..k];
    ReadFirstEntries(c, recs[0], rest, recs[1..][..k]);
  }

  lemma PrefixWithinFirst<R(!new)>(c: Codec<R>, recs: seq<R>, n: nat)
    requires Lawful(c) && recs != [] && n < |Line(c, recs[0])|
    ensures n <= |LogBytes(c, recs)|
    ensures Load(c, LogBytes(c, recs)[..n], 0) == Entries(EntriesFrom(c, recs[..WholeCount(c, recs, n)], 0))
  {
    var enc := c.encode(recs[0]);
    assert LogBytes(c, recs)[..n] == enc[..n];
    ReadTornLine(c, recs[0], n);
    assert n == |enc| ==> recs[..1][..0] == [];
  }

  lemma ReadFirstEntries<R(!new)>(c: Codec<R>, r: R, g: seq<byte>, recs: seq<R>)
    requires Lawful(c) && Load(c, g, 0) == Entries(EntriesFrom(c, recs, 0))
    ensures Load(c, Line(c, r) + g, 0) == Entries(EntriesFrom(c, [r] + recs, 0))
  {
    ReadFirstLine(c, r, g);
    PrependFirst(c, r, recs);
  }

  lemma PrependFirst<R>(c: Codec<R>, r: R, recs: seq<R>)
    ensures Prepend([Entry(0, r)], Shifted(|Line(c, r)|, Entries(EntriesFrom(c, recs, 0))))
         == Entries(EntriesFrom(c, [r] + recs, 0))
  {
    EntriesFromShift(c, recs, 0, |Line(c, r)|);
    EntriesFromCons(c, r, recs, 0);
  }

  /** From every byte prefix of an append-only log the loader raises nothing and returns exactly the
      records whose encoding lies wholly in the prefix, at the offsets the appends reported. */
  lemma EveryPrefixLoads<R(!new)>(c: Codec<R>, recs: seq<R>, n: nat)
    requires Lawful(c) && n <= |LogBytes(c, recs)|
    ensures Load(c, LogBytes(c, recs)[..n], 0).Entries?
    ensures var es := Load(c, LogBytes(c, recs)[..n], 0).entries;
            && |es| <= |recs|
            && (forall i :: 0 <= i < |recs| ==> (i < |es| <==> OffsetOf(c, recs, i) + |c.encode(recs[i])| <= n))
            && (forall i :: 0 <= i < |es| ==> es[i] == Entry(OffsetOf(c, recs, i), recs[i]))
  {
    PrefixLoadsEntries(c, recs, n);
    var k := WholeCount(c, recs, n);
    var es := EntriesFrom(c, recs[..k], 0);
    forall i | 0 <= i < |recs|
      ensures i < |es| <==> OffsetOf(c, recs, i) + |c.encode(recs[i])| <= n
    {
      WholeCountIs(c, recs, n, i);
    }
    forall i | 0 <= i < |es| ensures es[i] == Entry(OffsetOf(c, recs, i), recs[i]) {
      assert recs[..k][..i] == recs[..i];
    }
  }

  lemma {:induction false} WholeCountOfAll<R>(c: Codec<R>, recs: seq<R>)
    ensures WholeCount(c, recs, |LogBytes(c, recs)|) == |recs|
  {
    if recs != [] {
      WholeCountOfAll(c, recs[1..]);
    }
  }

  /** A log that was never cut gives back everything that was appended. */
  lemma WholeLogLoads<R(!new)>(c: Codec<R>, recs: seq<R>)
    requires Lawful(c)
    ensures Load(c, LogBytes(c, recs), 0) == Entries(EntriesFrom(c, recs, 0))
  {
    var f := LogBytes(c, recs);
    assert f[..|f|] == f;
    PrefixLoadsEntries(c, recs, |f|);
    WholeCountOfAll(c, recs);
    assert recs[..|recs|] == recs;
  }

  /** Scanning a cut log from the line of any record still in it gives the matching suffix. */
  lemma ScanFromBoundary<R(!new)>(c: Codec<R>, recs: seq<R>, n: nat, i: nat)
    requires Lawful(c) && n <= |LogBytes(c, recs)| && i <= |recs| && OffsetOf(c, recs, i) <= n
    ensures i <= WholeCount(c, recs, n)
    ensures Load(c, LogBytes(c, recs)[..n], OffsetOf(c, recs, i))
         == Entries(EntriesFrom(c, recs[..WholeCount(c, recs, n)], 0)[i..])
  {
    var log, p, k := LogBytes(c, recs), OffsetOf(c, recs, i), WholeCount(c, recs, n);
    var f := log[..n];
    PrefixLoadsEntries(c, recs, n);
    LogBytesPrefix(c, recs, i);
    assert f[..p] == log[..p];
    WholeLogLoads(c, recs[..i]);
    LoadSplits(c, f, 0, p);
  }

  /** From the end of some records the scan finds exactly those behind them. */
  lemma ScanBehind<R(!new)>(c: Codec<R>, head: seq<R>, more: seq<R>)
    requires Lawful(c)
    ensures |LogBytes(c, head + more)| == |LogBytes(c, head)| + |LogBytes(c, more)|
    ensures more != [] ==> LogBytes(c, more) != []
    ensures Load(c, LogBytes(c, head + more), |LogBytes(c, head)|)
         == Entries(EntriesFrom(c, head + more, 0)[|head|..])
  {
    var all, f := head + more, LogBytes(c, head + more);
    assert all[..|head|] == head && f[..|f|] == f && all[..|all|] == all;
    LogBytesConcat(c, head, more);
    ScanFromBoundary(c, all, |f|, |head|);
    WholeCountOfAll(c, all);
  }
}
