/** The cache of serial output and its index of timed chunks: written as the output
    comes, read back by range, cut to the last lines. */
module TimedChunks {
  import opened Crc

  const NEWLINE: byte := 0x0a

  datatype Chunk = Chunk(at: int, source: string, data: seq<byte>)

  /** One line of the index. */
  datatype Entry = Entry(at: int, offset: int, length: int, source: string)

  function Join(chunks: seq<Chunk>): seq<byte>
    decreases |chunks|
  {
    if chunks == [] then [] else Join(chunks[..|chunks| - 1]) + chunks[|chunks| - 1].data
  }

  lemma JoinAdd(chunks: seq<Chunk>, c: Chunk)
    ensures Join(chunks + [c]) == Join(chunks) + c.data
  {
    assert (chunks + [c])[..|chunks + [c]| - 1] == chunks;
  }

  // ---- bytes with their times ----

  type Byted = (byte, int)

  /** The bytes of a chunk, each with the chunk's time. */
  function Stamp(c: Chunk): (r: seq<Byted>)
    ensures |r| == |c.data|
  {
    seq(|c.data|, i requires 0 <= i < |c.data| => (c.data[i], c.at))
  }

  function Stamped(chunks: seq<Chunk>): seq<Byted>
    decreases |chunks|
  {
    if chunks == [] then [] else Stamped(chunks[..|chunks| - 1]) + Stamp(chunks[|chunks| - 1])
  }

  lemma StampedAdd(chunks: seq<Chunk>, c: Chunk)
    ensures Stamped(chunks + [c]) == Stamped(chunks) + Stamp(c)
  {
    assert (chunks + [c])[..|chunks + [c]| - 1] == chunks;
  }

  lemma StampedNone()
    ensures Stamped([]) == []
  {}

  lemma {:induction false} StampedGrows(chunks: seq<Chunk>, i: nat)
    requires i <= |chunks|
    ensures |Stamped(chunks[..i])| <= |Stamped(chunks)|
    ensures Stamped(chunks)[..|Stamped(chunks[..i])|] == Stamped(chunks[..i])
    decreases |chunks|
  {
    if i == |chunks| {
      assert chunks[..i] == chunks;
    } else {
      var n := |chunks| - 1;
      assert chunks[..n][..i] == chunks[..i];
      StampedGrows(chunks[..n], i);
    }
  }

  lemma StampedAt(chunks: seq<Chunk>, i: nat)
    requires i < |chunks|
    ensures var a := |Stamped(chunks[..i])|;
            && |Stamped(chunks[..i + 1])| == a + |chunks[i].data| <= |Stamped(chunks)|
            && Stamped(chunks)[a..a + |chunks[i].data|] == Stamp(chunks[i])
  {
    assert chunks[..i + 1] == chunks[..i] + [chunks[i]];
    StampedAdd(chunks[..i], chunks[i]);
    StampedGrows(chunks, i + 1);
    var a := |Stamped(chunks[..i])|;
    assert Stamped(chunks)[a..a + |chunks[i].data|] == Stamped(chunks)[..a + |chunks[i].data|][a..];
  }

  /** Without the times they are the joined bytes. */
  lemma {:induction false} StampedBytes(chunks: seq<Chunk>)
    ensures |Stamped(chunks)| == |Join(chunks)|
    ensures forall i :: 0 <= i < |Join(chunks)| ==> Stamped(chunks)[i].0 == Join(chunks)[i]
    decreases |chunks|
  {
    if chunks != [] {
      StampedBytes(chunks[..|chunks| - 1]);
    }
  }

  function Min(a: int, b: int): int {
    if a < b then a else b
  }

  function Max(a: int, b: int): int {
    if a > b then a else b
  }

  // ---- reading a range ----

  /** The part of the range [start, end) that an entry covers. */
  function From(e: Entry, start: int): int {
    Max(start, e.offset)
  }

  function To(e: Entry, end: int): int {
    Min(end, e.offset + e.length)
  }

  predicate Touches(e: Entry, start: int, end: int) {
    e.offset + e.length > start && e.offset < end
  }

  predicate ValidIndex(es: seq<Entry>) {
    forall i :: 0 <= i < |es| ==> es[i].length > 0
  }

  datatype Cover = Cover(chunks: seq<Chunk>, until: int)

  /** What lies before an entry without belonging to one. */
  function Gap(c: Cover, e: Entry, start: int, data: seq<byte>): seq<Chunk>
    requires start <= c.until <= start + |data| && Touches(e, start, start + |data|)
  {
    if c.until < e.offset then c.chunks + [Chunk(e.at, "", data[c.until - start..e.offset - start])] else c.chunks
  }

  function Piece(e: Entry, start: int, data: seq<byte>): Chunk
    requires e.length > 0 && Touches(e, start, start + |data|)
  {
    Chunk(e.at, e.source, data[From(e, start) - start..To(e, start + |data|) - start])
  }

  function AddEntry(c: Cover, e: Entry, start: int, data: seq<byte>): (r: Cover)
    requires start <= c.until <= start + |data| && e.length > 0
    ensures start <= r.until <= start + |data|
  {
    if !Touches(e, start, start + |data|) then c
    else Cover(Gap(c, e, start, data) + [Piece(e, start, data)], To(e, start + |data|))
  }

  function Covered(es: seq<Entry>, start: int, data: seq<byte>): (c: Cover)
    requires ValidIndex(es)
    ensures start <= c.until <= start + |data|
    decreases |es|
  {
    if es == [] then Cover([], start)
    else AddEntry(Covered(es[..|es| - 1], start, data), es[|es| - 1], start, data)
  }

  function Rest(c: Cover, start: int, data: seq<byte>, now: int): seq<Chunk>
    requires start <= c.until <= start + |data|
  {
    if c.until < start + |data|
    then c.chunks + [Chunk(if c.chunks == [] then now else c.chunks[|c.chunks| - 1].at, "", data[c.until - start..])]
    else c.chunks
  }

  /** One entry of the index. */
  method AddOne(chunks: seq<Chunk>, until: int, e: Entry, start: int, data: seq<byte>)
    returns (more: seq<Chunk>, to: int)
    requires start <= until <= start + |data| && e.length > 0 && data != []
    requires forall k :: 0 <= k < |chunks| ==> chunks[k].data != []
    ensures forall k :: 0 <= k < |more| ==> more[k].data != []
    ensures Cover(more, to) == AddEntry(Cover(chunks, until), e, start, data)
  {
    var end := start + |data|;
    more, to := chunks, until;
    if e.offset + e.length > start && e.offset < end {
      if until < e.offset {
        more := more + [Chunk(e.at, "", data[until - start..e.offset - start])];
      }
      var from, upTo := Max(start, e.offset), Min(end, e.offset + e.length);
      if upTo > from {
        more := more + [Chunk(e.at, e.source, data[from - start..upTo - start])];
        to := upTo;
      }
    }
  }

  lemma CoveredSnoc(es: seq<Entry>, i: nat, start: int, data: seq<byte>)
    requires ValidIndex(es) && i < |es|
    ensures Covered(es[..i + 1], start, data) == AddEntry(Covered(es[..i], start, data), es[i], start, data)
  {
    hide AddEntry;
    assert es[..i + 1][..i] == es[..i];
  }

  /** All entries of the index, in turn. */
  method AddAll(es: seq<Entry>, start: int, data: seq<byte>) returns (chunks: seq<Chunk>, until: int)
    requires ValidIndex(es) && data != []
    ensures start <= until <= start + |data| && Cover(chunks, until) == Covered(es, start, data)
    ensures forall k :: 0 <= k < |chunks| ==> chunks[k].data != []
  {
    hide AddEntry;
    chunks, until := [], start;
    assert Covered(es[..0], start, data) == Cover([], start);
    for i := 0 to |es|
      invariant start <= until <= start + |data|
      invariant Cover(chunks, until) == Covered(es[..i], start, data)
      invariant forall k :: 0 <= k < |chunks| ==> chunks[k].data != []
    {
      hide Covered;
      CoveredSnoc(es, i, start, data);
      chunks, until := AddOne(chunks, until, es[i], start, data);
    }
    assert es[..|es|] == es;
  }

  /** `data` is the cache from offset `start`; `now` the time given to what the index
      says nothing about. */
  method ReadTimedChunks(es: seq<Entry>, start: int, data: seq<byte>, now: int) returns (chunks: seq<Chunk>)
    requires ValidIndex(es)
    ensures chunks == if data == [] then [] else Rest(Covered(es, start, data), start, data, now)
    ensures Join(chunks) == data <==> InOrder(es, start, start + |data|)
    ensures forall k :: 0 <= k < |chunks| ==> chunks[k].data != []
  {
    hide AddEntry;
    hide InOrder;
    if |data| == 0 {
      EmptyRange(es, start);
      return [];
    }
    ReadsBack(es, start, data, now);
    hide Join;
    if |es| == 0 {
      assert Covered(es, start, data) == Cover([], start);
      chunks := [Chunk(now, "", data)];
      assert data[0..] == data && [] + chunks == chunks;
      return;
    }
    hide Covered;
    var until;
    chunks, until := AddAll(es, start, data);
    if until < start + |data| {
      var at := now;
      if |chunks| > 0 {
        at := chunks[|chunks| - 1].at;
      }
      chunks := chunks + [Chunk(at, "", data[until - start..])];
    }
  }

  /** Every part of the range that an entry covers ends by `u`. */
  ghost predicate EndsBy(es: seq<Entry>, start: int, end: int, u: int) {
    forall i :: 0 <= i < |es| && Touches(es[i], start, end) ==> To(es[i], end) <= u
  }

  /** The parts of the range that the entries cover follow one another. */
  ghost predicate InOrder(es: seq<Entry>, start: int, end: int) {
    forall i, j :: 0 <= i < j < |es| && Touches(es[i], start, end) && Touches(es[j], start, end)
                   ==> To(es[i], end) <= From(es[j], start)
  }

  lemma EmptyRange(es: seq<Entry>, start: int)
    requires ValidIndex(es)
    ensures InOrder(es, start, start)
  {}

  lemma EndsBySnoc(es: seq<Entry>, e: Entry, start: int, end: int, u: int)
    ensures EndsBy(es + [e], start, end, u) <==> EndsBy(es, start, end, u) && (Touches(e, start, end) ==> To(e, end) <= u)
  {
    if EndsBy(es + [e], start, end, u) {
      forall i | 0 <= i < |es| && Touches(es[i], start, end)
        ensures To(es[i], end) <= u
      {
        assert (es + [e])[i] == es[i];
      }
      assert (es + [e])[|es|] == e;
    }
  }

  lemma InOrderSnoc(es: seq<Entry>, e: Entry, start: int, end: int)
    ensures InOrder(es + [e], start, end) <==>
            InOrder(es, start, end) && (Touches(e, start, end) ==> EndsBy(es, start, end, From(e, start)))
  {
    if InOrder(es + [e], start, end) {
      forall i, j | 0 <= i < j < |es| && Touches(es[i], start, end) && Touches(es[j], start, end)
        ensures To(es[i], end) <= From(es[j], start)
      {
        assert (es + [e])[i] == es[i] && (es + [e])[j] == es[j];
      }
      forall i | 0 <= i < |es| && Touches(es[i], start, end) && Touches(e, start, end)
        ensures To(es[i], end) <= From(e, start)
      {
        assert (es + [e])[i] == es[i] && (es + [e])[|es|] == e;
      }
    }
  }

  /** How many bytes are given twice. */
  function Twice(es: seq<Entry>, start: int, data: seq<byte>): nat
    requires ValidIndex(es)
    decreases |es|
  {
    if es == [] then 0
    else
      var n := |es| - 1;
      var c := Covered(es[..n], start, data);
      Twice(es[..n], start, data)
      + Over(c, es[n], start, start + |data|)
  }

  lemma GapJoins(c: Cover, e: Entry, start: int, data: seq<byte>)
    requires start <= c.until <= start + |data| && Touches(e, start, start + |data|)
    ensures var g := Join(Gap(c, e, start, data));
            var to := Max(c.until, e.offset);
            && |g| == |Join(c.chunks)| + to - c.until
            && (Join(c.chunks) == data[..c.until - start] ==> g == data[..to - start])
  {
    if c.until < e.offset {
      JoinAdd(c.chunks, Chunk(e.at, "", data[c.until - start..e.offset - start]));
      assert data[..c.until - start] + data[c.until - start..e.offset - start] == data[..e.offset - start];
    }
  }

  function Over(c: Cover, e: Entry, start: int, end: int): nat {
    if Touches(e, start, end) && c.until > From(e, start) then c.until - From(e, start) else 0
  }

  lemma AddJoins(c: Cover, e: Entry, start: int, data: seq<byte>)
    requires start <= c.until <= start + |data| && e.length > 0
    ensures var r := AddEntry(c, e, start, data);
            var over := Over(c, e, start, start + |data|);
            && |Join(r.chunks)| - |Join(c.chunks)| == r.until - c.until + over
            && (over == 0 && Join(c.chunks) == data[..c.until - start] ==> Join(r.chunks) == data[..r.until - start])
  {
    hide Gap;
    if Touches(e, start, start + |data|) {
      GapJoins(c, e, start, data);
      var piece := Piece(e, start, data);
      JoinAdd(Gap(c, e, start, data), piece);
      var from, to := From(e, start) - start, To(e, start + |data|) - start;
      assert data[..from] + data[from..to] == data[..to];
    }
  }

  lemma {:induction false} CoveredJoins(es: seq<Entry>, start: int, data: seq<byte>)
    requires ValidIndex(es)
    ensures var c := Covered(es, start, data);
            && |Join(c.chunks)| == c.until - start + Twice(es, start, data)
            && (Twice(es, start, data) == 0 ==> Join(c.chunks) == data[..c.until - start])
    decreases |es|
  {
    hide AddEntry;
    if es != [] {
      var n := |es| - 1;
      CoveredJoins(es[..n], start, data);
      AddJoins(Covered(es[..n], start, data), es[n], start, data);
    }
  }

  lemma UntilStep(c: Cover, e: Entry, start: int, data: seq<byte>, u: int)
    requires start <= c.until <= start + |data| && e.length > 0 && Over(c, e, start, start + |data|) == 0
    ensures AddEntry(c, e, start, data).until <= u <==>
            c.until <= u && (Touches(e, start, start + |data|) ==> To(e, start + |data|) <= u)
  {}

  lemma TwiceSnoc(es: seq<Entry>, start: int, data: seq<byte>)
    requires ValidIndex(es) && es != []
    ensures var n := |es| - 1;
            Twice(es, start, data) ==
            Twice(es[..n], start, data) + Over(Covered(es[..n], start, data), es[n], start, start + |data|)
  {}

  /** While nothing is given twice, the cover ends where the last entry does. */
  lemma {:induction false} UntilIsLast(es: seq<Entry>, start: int, data: seq<byte>, u: int)
    requires ValidIndex(es) && u >= start && Twice(es, start, data) == 0
    ensures EndsBy(es, start, start + |data|, u) <==> Covered(es, start, data).until <= u
    decreases |es|
  {
    hide EndsBy;
    hide AddEntry;
    hide Twice;
    hide Over;
    hide Touches;
    if es == [] {
      NoneEnds(start, start + |data|, u);
    } else {
      var n := |es| - 1;
      TwiceSnoc(es, start, data);
      UntilIsLast(es[..n], start, data, u);
      assert es[..n] + [es[n]] == es;
      EndsBySnoc(es[..n], es[n], start, start + |data|, u);
      UntilStep(Covered(es[..n], start, data), es[n], start, data, u);
    }
  }

  lemma NoneEnds(start: int, end: int, u: int)
    ensures EndsBy([], start, end, u) && InOrder([], start, end)
  {}

  lemma {:induction false} OrderIsOnce(es: seq<Entry>, start: int, data: seq<byte>)
    requires ValidIndex(es)
    ensures Twice(es, start, data) == 0 <==> InOrder(es, start, start + |data|)
    decreases |es|
  {
    hide EndsBy;
    hide InOrder;
    hide AddEntry;
    NoneEnds(start, start + |data|, start);
    if es != [] {
      var n := |es| - 1;
      OrderIsOnce(es[..n], start, data);
      assert es[..n] + [es[n]] == es;
      InOrderSnoc(es[..n], es[n], start, start + |data|);
      if Twice(es[..n], start, data) == 0 {
        UntilIsLast(es[..n], start, data, From(es[n], start));
      }
    }
  }

  /** The chunks are the range, byte for byte, if and only if the index entries that
      touch it are in order and do not overlap. */
  lemma ReadsBack(es: seq<Entry>, start: int, data: seq<byte>, now: int)
    requires ValidIndex(es)
    ensures Join(Rest(Covered(es, start, data), start, data, now)) == data <==> InOrder(es, start, start + |data|)
  {
    hide InOrder;
    hide Covered;
    hide Twice;
    var c := Covered(es, start, data);
    CoveredJoins(es, start, data);
    OrderIsOnce(es, start, data);
    assert data[..c.until - start] + data[c.until - start..] == data;
    if c.until < start + |data| {
      var r := Rest(c, start, data, now);
      JoinAdd(c.chunks, r[|r| - 1]);
    }
  }

  // ---- the times of a range ----

  /** The time of a place in the range: that of the first entry that touches the range
      and ends behind the place, or else of the last that touches it; `now` if none does. */
  ghost function TimeAt(es: seq<Entry>, start: int, end: int, place: int, now: int): int
    decreases |es|
  {
    if es == [] then now
    else
      var n := |es| - 1;
      if EndsBy(es[..n], start, end, place) && Touches(es[n], start, end) then es[n].at
      else TimeAt(es[..n], start, end, place, now)
  }

  lemma AddStamps(c: Cover, e: Entry, start: int, data: seq<byte>)
    requires start <= c.until <= start + |data| && e.length > 0 && Touches(e, start, start + |data|)
    requires Over(c, e, start, start + |data|) == 0 && |Stamped(c.chunks)| == c.until - start
    ensures var r := AddEntry(c, e, start, data);
            && c.until <= r.until && |Stamped(r.chunks)| == r.until - start
            && Stamped(r.chunks)[..c.until - start] == Stamped(c.chunks)
            && (forall i :: c.until - start <= i < r.until - start ==> Stamped(r.chunks)[i] == (data[i], e.at))
            && r.chunks != [] && r.chunks[|r.chunks| - 1].at == e.at
  {
    hide Stamped;
    var g, piece := Gap(c, e, start, data), Piece(e, start, data);
    if c.until < e.offset {
      StampedAdd(c.chunks, Chunk(e.at, "", data[c.until - start..e.offset - start]));
    }
    StampedAdd(g, piece);
  }

  /** While nothing is given twice, every byte covered has its place's time. */
  lemma {:induction false} CoveredTimes(es: seq<Entry>, start: int, data: seq<byte>, now: int)
    requires ValidIndex(es) && Twice(es, start, data) == 0
    ensures var c, end := Covered(es, start, data), start + |data|;
            && |Stamped(c.chunks)| == c.until - start
            && (forall i :: 0 <= i < c.until - start ==> Stamped(c.chunks)[i] == (data[i], TimeAt(es, start, end, start + i, now)))
            && (forall p :: p >= c.until ==>
                  TimeAt(es, start, end, p, now) == if c.chunks == [] then now else c.chunks[|c.chunks| - 1].at)
    decreases |es|
  {
    hide AddEntry;
    hide EndsBy;
    hide Stamped;
    hide Touches;
    hide Over;
    hide Twice;
    if es == [] {
      StampedNone();
    } else {
      var n, end := |es| - 1, start + |data|;
      TwiceSnoc(es, start, data);
      CoveredTimes(es[..n], start, data, now);
      var before, c := Covered(es[..n], start, data), Covered(es, start, data);
      forall p | p >= start
        ensures EndsBy(es[..n], start, end, p) <==> before.until <= p
      {
        UntilIsLast(es[..n], start, data, p);
      }
      if Touches(es[n], start, end) {
        AddStamps(before, es[n], start, data);
        forall i | 0 <= i < c.until - start
          ensures Stamped(c.chunks)[i] == (data[i], TimeAt(es, start, end, start + i, now))
        {
          if i < before.until - start {
            assert Stamped(c.chunks)[i] == Stamped(c.chunks)[..before.until - start][i] == Stamped(before.chunks)[i];
          }
        }
      } else {
        NotAdded(before, es[n], start, data);
      }
    }
  }

  lemma NotAdded(c: Cover, e: Entry, start: int, data: seq<byte>)
    requires start <= c.until <= start + |data| && e.length > 0 && !Touches(e, start, start + |data|)
    ensures AddEntry(c, e, start, data) == c
  {}

  /** So what is read of a range says when each byte came, as far as the index knows. */
  lemma ReadTimes(es: seq<Entry>, start: int, data: seq<byte>, now: int)
    requires ValidIndex(es) && InOrder(es, start, start + |data|)
    ensures var read := Stamped(Rest(Covered(es, start, data), start, data, now));
            && |read| == |data|
            && forall i :: 0 <= i < |data| ==> read[i] == (data[i], TimeAt(es, start, start + |data|, start + i, now))
  {
    hide InOrder;
    hide Covered;
    hide Twice;
    hide Stamped;
    OrderIsOnce(es, start, data);
    CoveredTimes(es, start, data, now);
    var c := Covered(es, start, data);
    if c.until < start + |data| {
      var r := Rest(c, start, data, now);
      StampedAdd(c.chunks, r[|r| - 1]);
    }
  }

  // ---- writing ----

  /** The index says of the file exactly what was written: these chunks, one after
      another from `from`. */
  ghost predicate Records(es: seq<Entry>, from: nat, chunks: seq<Chunk>) {
    && |es| == |chunks|
    && forall i :: 0 <= i < |es| ==>
         es[i] == Entry(chunks[i].at, from + |Join(chunks[..i])|, |chunks[i].data|, chunks[i].source)
         && |chunks[i].data| > 0
  }

  lemma RecordsAdd(es: seq<Entry>, from: nat, chunks: seq<Chunk>, c: Chunk)
    requires Records(es, from, chunks) && c.data != []
    ensures Records(es + [Entry(c.at, from + |Join(chunks)|, |c.data|, c.source)], from, chunks + [c])
  {
    hide Join;
    var more := chunks + [c];
    assert more[..|chunks|] == chunks;
    forall i | 0 <= i < |chunks|
      ensures more[..i] == chunks[..i]
    {
    }
  }

  class TimedCacheWriter {
    var file: seq<byte>
    var index: seq<Entry>
    ghost var from: nat
    ghost var written: seq<Chunk>

    ghost predicate Valid()
      reads this
    {
      && Records(index, from, written)
      && from <= |file| && file[from..] == Join(written)
    }

    /** Files that may already hold output without an index. */
    constructor (before: seq<byte>)
      ensures Valid() && file == before && from == |before| && written == [] && index == []
    {
      file, index, from, written := before, [], |before|, [];
    }

    method WriteChunk(chunk: Chunk) returns (n: nat)
      requires Valid()
      modifies this
      ensures Valid() && n == |chunk.data| && from == old(from)
      ensures file == old(file) + chunk.data
      ensures written == old(written) + if n > 0 then [chunk] else []
    {
      hide Records;
      hide Join;
      var offset := |file|;
      file := file + chunk.data;
      n := |chunk.data|;
      if n > 0 {
        index := index + [Entry(chunk.at, offset, n, chunk.source)];
        RecordsAdd(old(index), from, written, chunk);
        JoinAdd(written, chunk);
        assert offset == from + |Join(written)|;
        written := written + [chunk];
        assert file[from..] == old(file)[from..] + chunk.data;
      } else {
        assert file == old(file);
      }
    }
  }

  lemma {:induction false} JoinGrows(chunks: seq<Chunk>, i: nat)
    requires i <= |chunks|
    ensures |Join(chunks[..i])| <= |Join(chunks)| && Join(chunks)[..|Join(chunks[..i])|] == Join(chunks[..i])
    decreases |chunks|
  {
    if i == |chunks| {
      assert chunks[..i] == chunks;
    } else {
      var n := |chunks| - 1;
      assert chunks[..n][..i] == chunks[..i];
      JoinGrows(chunks[..n], i);
    }
  }

  lemma JoinAt(chunks: seq<Chunk>, i: nat)
    requires i < |chunks|
    ensures var a := |Join(chunks[..i])|;
            && |Join(chunks[..i + 1])| == a + |chunks[i].data| <= |Join(chunks)|
            && Join(chunks)[a..a + |chunks[i].data|] == chunks[i].data
  {
    assert chunks[..i + 1] == chunks[..i] + [chunks[i]];
    JoinAdd(chunks[..i], chunks[i]);
    JoinGrows(chunks, i + 1);
    var a := |Join(chunks[..i])|;
    assert Join(chunks)[a..a + |chunks[i].data|] == Join(chunks)[..a + |chunks[i].data|][a..];
  }

  lemma AddExact(c: Cover, e: Entry, start: int, data: seq<byte>)
    requires start <= c.until == e.offset && e.length > 0 && e.offset + e.length <= start + |data|
    ensures AddEntry(c, e, start, data) ==
            Cover(c.chunks + [Chunk(e.at, e.source, data[e.offset - start..e.offset - start + e.length])], e.offset + e.length)
  {}

  lemma {:induction false} RecordsReadBack(es: seq<Entry>, from: nat, chunks: seq<Chunk>, n: nat)
    requires Records(es, from, chunks) && n <= |chunks|
    ensures ValidIndex(es)
    ensures Covered(es[..n], from, Join(chunks)) == Cover(chunks[..n], from + |Join(chunks[..n])|)
    decreases n
  {
    hide Join;
    hide AddEntry;
    if n == 0 {
      assert |Join(chunks[..0])| == 0 by {
        JoinNone();
      }
      assert chunks[..0] == [];
    } else {
      hide Covered;
      RecordsReadBack(es, from, chunks, n - 1);
      CoveredSnoc(es, n - 1, from, Join(chunks));
      JoinAt(chunks, n - 1);
      AddExact(Cover(chunks[..n - 1], from + |Join(chunks[..n - 1])|), es[n - 1], from, Join(chunks));
      assert chunks[..n - 1] + [chunks[n - 1]] == chunks[..n];
    }
  }

  lemma JoinNone()
    ensures Join([]) == []
  {}

  /** What was written through the index is read back chunk by chunk, each with its
      time, source and bytes. */
  lemma WrittenIsRead(es: seq<Entry>, from: nat, chunks: seq<Chunk>, now: int)
    requires Records(es, from, chunks)
    ensures ValidIndex(es)
    ensures Rest(Covered(es, from, Join(chunks)), from, Join(chunks), now) == chunks
  {
    RecordsReadBack(es, from, chunks, |chunks|);
    assert es[..|chunks|] == es && chunks[..|chunks|] == chunks;
  }

  // ---- the last lines ----

  function Newlines(s: seq<byte>): nat
    decreases |s|
  {
    if s == [] then 0 else (if s[0] == NEWLINE then 1 else 0) + Newlines(s[1..])
  }

  /** It counts the line ends, piece by piece. */
  lemma {:induction false} NewlinesCount(a: seq<byte>, b: seq<byte>, c: byte)
    ensures Newlines([c]) == if c == 0x0a then 1 else 0
    ensures Newlines(a + b) == Newlines(a) + Newlines(b)
    decreases |a|
  {
    assert [c][1..] == [];
    if a == [] {
      assert a + b == b;
    } else {
      assert (a + b)[1..] == a[1..] + b;
      NewlinesCount(a[1..], b, c);
    }
  }

  /** Where the last `maxLines` lines begin. */
  method LastLinesStart(data: seq<byte>, maxLines: int) returns (start: nat)
    ensures start <= |data|
    ensures maxLines <= 0 ==> start == 0
    ensures start > 0 ==> data[start - 1] == 0x0a && Newlines(data[start..]) == maxLines
    ensures start == 0 && maxLines > 0 ==> Newlines(data) <= maxLines
  {
    if maxLines <= 0 {
      return 0;
    }
    var lines := 0;
    var i := |data|;
    while i > 0
      invariant 0 <= i <= |data| && lines <= maxLines
      invariant lines == Newlines(data[i..])
    {
      i := i - 1;
      assert data[i..][1..] == data[i + 1..];
      if data[i] == NEWLINE {
        lines := lines + 1;
        if lines > maxLines {
          return i + 1;
        }
      }
    }
    assert data[0..] == data;
    start := 0;
  }

  // ---- cutting a range out ----

  lemma StampPart(c: Chunk, from: nat, to: nat)
    requires from <= to <= |c.data|
    ensures Stamp(Chunk(c.at, "", c.data[from..to])) == Stamp(c)[from..to]
  {}

  lemma Glue<T>(all: seq<T>, a: nat, b: nat, c: nat)
    requires a <= b <= c <= |all|
    ensures all[a..b] + all[b..c] == all[a..c] && all[b..b] == []
  {}

  lemma PieceIs<T>(all: seq<T>, data: seq<T>, p: nat, from: int, to: int)
    requires p + |data| <= |all| && all[p..p + |data|] == data && p <= from <= to <= p + |data|
    ensures data[from - p..to - p] == all[from..to]
  {
    var part := all[p..p + |data|][from - p..to - p];
    assert |part| == to - from;
    forall k | 0 <= k < to - from
      ensures part[k] == all[from..to][k]
    {
      assert part[k] == all[p..p + |data|][from - p + k] == all[from + k];
    }
  }

  /** What a chunk that lies from `p` to `q` adds to the range. */
  function Added<T>(data: seq<T>, start: int, end: int, p: int): seq<T>
    requires start <= end
  {
    var q := p + |data|;
    var from, to := Max(start, p), Min(end, q);
    if q > start && p < end && to > from then data[from - p..to - p] else []
  }

  function Taken<T>(all: seq<T>, start: int, end: int, p: int): seq<T>
    requires 0 <= start <= end <= |all| && p >= 0
  {
    all[Min(start, p)..Min(end, p)]
  }

  /** A chunk that begins before the range, or in it. */
  lemma SliceFirst<T>(all: seq<T>, data: seq<T>, start: int, end: int, p: nat)
    requires 0 <= start <= end <= |all| && p + |data| <= |all| && all[p..p + |data|] == data
    requires p <= start < p + |data| && p < end
    ensures Taken(all, start, end, p + |data|) == Taken(all, start, end, p) + Added(data, start, end, p)
  {
    var to := Min(end, p + |data|);
    PieceIs(all, data, p, start, to);
    Glue(all, p, p, p);
    Glue(all, start, start, start);
    assert Taken(all, start, end, p) == [] && Taken(all, start, end, p + |data|) == all[start..to];
    assert Added(data, start, end, p) == all[start..to];
  }

  lemma SliceNext<T>(all: seq<T>, data: seq<T>, start: int, end: int, p: nat)
    requires 0 <= start <= end <= |all| && p + |data| <= |all| && all[p..p + |data|] == data
    requires start < p < end
    ensures Taken(all, start, end, p + |data|) == Taken(all, start, end, p) + Added(data, start, end, p)
  {
    var to := Min(end, p + |data|);
    PieceIs(all, data, p, p, to);
    Glue(all, start, p, to);
    assert Taken(all, start, end, p) == all[start..p] && Taken(all, start, end, p + |data|) == all[start..to];
    if data == [] {
      Glue(all, p, p, p);
    }
    assert Added(data, start, end, p) == all[p..to];
  }

  lemma SliceNone<T>(all: seq<T>, data: seq<T>, start: int, end: int, p: nat)
    requires 0 <= start <= end <= |all| && p + |data| <= |all|
    requires p + |data| <= start || end <= p
    ensures Taken(all, start, end, p + |data|) == Taken(all, start, end, p) + Added(data, start, end, p)
  {
    var q := p + |data|;
    assert Added(data, start, end, p) == [];
    if q <= start {
      Glue(all, p, p, p);
      Glue(all, q, q, q);
    }
  }

  /** One more chunk of the range. */
  lemma SliceGrows<T>(all: seq<T>, data: seq<T>, start: int, end: int, p: nat)
    requires 0 <= start <= end <= |all| && p + |data| <= |all| && all[p..p + |data|] == data
    ensures Taken(all, start, end, p + |data|) == Taken(all, start, end, p) + Added(data, start, end, p)
  {
    hide Taken;
    hide Added;
    if p + |data| <= start || end <= p {
      SliceNone(all, data, start, end, p);
    } else if p <= start {
      SliceFirst(all, data, start, end, p);
    } else {
      SliceNext(all, data, start, end, p);
    }
  }

  lemma TakenEnds<T>(all: seq<T>, start: int, end: int)
    requires 0 <= start <= end <= |all|
    ensures Taken(all, start, end, 0) == [] && Taken(all, start, end, |all|) == all[start..end]
  {}

  /** The chunks of a range, cut at its ends: the bytes of the range, each with its time. */
  method SliceChunks(chunks: seq<Chunk>, start: int, end: int) returns (sliced: seq<Chunk>)
    requires 0 <= start <= end <= |Join(chunks)|
    ensures |Stamped(chunks)| == |Join(chunks)| && Stamped(sliced) == Stamped(chunks)[start..end]
    ensures Join(sliced) == Join(chunks)[start..end]
    ensures forall k :: 0 <= k < |sliced| ==> sliced[k].data != []
  {
    sliced := [];
    StampedNone();
    StampedBytes(chunks);
    hide Join;
    hide Stamped;
    hide Stamp;
    hide Taken;
    TakenEnds(Stamped(chunks), start, end);
    var pos := 0;
    ghost var all := Stamped(chunks);
    assert chunks[..0] == [];
    for i := 0 to |chunks|
      invariant pos == |Stamped(chunks[..i])| <= |all|
      invariant Stamped(sliced) == Taken(all, start, end, pos)
      invariant forall k :: 0 <= k < |sliced| ==> sliced[k].data != []
    {
      StampedAt(chunks, i);
      SliceGrows(all, Stamp(chunks[i]), start, end, pos);
      var chunkStart, chunkEnd := pos, pos + |chunks[i].data|;
      pos := chunkEnd;
      if chunkEnd > start && chunkStart < end {
        var from, to := Max(start, chunkStart), Min(end, chunkEnd);
        if to > from {
          var piece := Chunk(chunks[i].at, "", chunks[i].data[from - chunkStart..to - chunkStart]);
          StampPart(chunks[i], from - chunkStart, to - chunkStart);
          StampedAdd(sliced, piece);
          sliced := sliced + [piece];
        }
      }
    }
    assert chunks[..|chunks|] == chunks;
    SameBytes(chunks, sliced, start, end);
  }

  lemma SameBytes(chunks: seq<Chunk>, sliced: seq<Chunk>, start: nat, end: nat)
    requires start <= end <= |Stamped(chunks)| && Stamped(sliced) == Stamped(chunks)[start..end]
    ensures end <= |Join(chunks)| && Join(sliced) == Join(chunks)[start..end]
  {
    StampedBytes(chunks);
    StampedBytes(sliced);
    forall i | 0 <= i < end - start
      ensures Join(sliced)[i] == Join(chunks)[start..end][i]
    {
      assert Stamped(sliced)[i] == Stamped(chunks)[start + i];
    }
  }

  /** The last `maxLines` lines of `s` begin at `start`; zero or less means all. */
  predicate LinesFrom(s: seq<byte>, start: nat, maxLines: int)
    requires start <= |s|
  {
    && (maxLines <= 0 ==> start == 0)
    && (start > 0 ==> s[start - 1] == 0x0a && Newlines(s[start..]) == maxLines)
    && (start == 0 && maxLines > 0 ==> Newlines(s) <= maxLines)
  }

  /** On chunks as on bytes: what is left is the tail of the joined output that holds
      the last lines. */
  method LastLineChunks(chunks: seq<Chunk>, maxLines: int) returns (last: seq<Chunk>)
    ensures exists start: nat :: start <= |Join(chunks)| && LinesFrom(Join(chunks), start, maxLines)
                                 && Join(last) == Join(chunks)[start..]
                                 && start <= |Stamped(chunks)| && Stamped(last) == Stamped(chunks)[start..]
  {
    var data := Join(chunks);
    hide Join;
    hide Stamped;
    hide Newlines;
    assert data[0..] == data && Stamped(chunks)[0..] == Stamped(chunks);
    if maxLines <= 0 {
      assert LinesFrom(data, 0, maxLines);
      return chunks;
    }
    var start := LastLinesStart(data, maxLines);
    assert LinesFrom(data, start, maxLines);
    if start == 0 {
      return chunks;
    }
    last := SliceChunks(chunks, start, |data|);
    assert data[start..|data|] == data[start..] && Stamped(chunks)[start..|data|] == Stamped(chunks)[start..];
  }
}
