/** Lists of slices as values: what growing, cutting, merging and copying them does to the cells
    and bytes they denote. */
module Slices {
  import opened Basics
  import opened Buffer

  const APPEND_SIZE: nat := 4096
  const PAGE_SIZE: nat := 4096

  /** List l became l' while its cells grew by cs: bytes are shared, not copied. */
  ghost predicate Extended(m: Memory, l: ListState, m': Memory, l': ListState, id: nat, cs: seq<Cell>) {
    && Evolves(m, m', id)
    && ListOk(m', l', id)
    && Cells(l'.buffers) == Cells(l.buffers) + cs
  }

  ghost predicate Distinct(cs: seq<Cell>) {
    forall i, j | 0 <= i < j < |cs| :: cs[i] != cs[j]
  }

  ghost predicate NonePublished(m: Memory, cs: seq<Cell>) {
    forall i | 0 <= i < |cs| :: !Published(m, cs[i])
  }

  /** Cells cs were invisible in m and hold `data`, once each, in m'. */
  ghost predicate FreshBytes(m: Memory, m': Memory, cs: seq<Cell>, data: seq<byte>) {
    && AllPublished(m', cs)
    && Read(m', cs) == data
    && NonePublished(m, cs)
    && Distinct(cs)
  }

  ghost function Tail(l: ListState, l': ListState): seq<Cell>
    requires |Cells(l.buffers)| <= |Cells(l'.buffers)|
  {
    Cells(l'.buffers)[|Cells(l.buffers)|..]
  }

  /** Segments were only added at the end; the last one may have been lengthened. */
  ghost predicate Grown(bs: seq<Ptr>, bs': seq<Ptr>) {
    && |bs| <= |bs'|
    && (forall i | 0 <= i < |bs| - 1 :: bs'[i] == bs[i])
    && (bs != [] ==> Lengthened(bs[|bs| - 1], bs'[|bs| - 1]))
  }

  ghost predicate Lengthened(p: Ptr, p': Ptr) {
    p.Ptr? && p'.Ptr? && p'.raw == p.raw && p'.off == p.off && p.len <= p'.len
  }

  lemma GrownTrans(a: seq<Ptr>, b: seq<Ptr>, c: seq<Ptr>)
    requires Grown(a, b) && Grown(b, c)
    ensures Grown(a, c)
  {
  }

  lemma GrownByConcat(m: Memory, bs: seq<Ptr>, more: seq<Ptr>)
    requires SegmentsOk(m, bs)
    ensures Grown(bs, bs + more)
  {
    if bs != [] {
      assert SegmentOk(m, bs[|bs| - 1]);
    }
  }

  /** List l became l' by appending bytes that live in cells nobody could see before. */
  ghost predicate AppendedBytes(m: Memory, l: ListState, m': Memory, l': ListState, id: nat, data: seq<byte>) {
    && |Cells(l.buffers)| <= |Cells(l'.buffers)|
    && Grown(l.buffers, l'.buffers)
    && Extended(m, l, m', l', id, Tail(l, l'))
    && FreshBytes(m, m', Tail(l, l'), data)
  }

  lemma {:induction false} NoEmptySegments(m: Memory, bs: seq<Ptr>)
    requires SegmentsOk(m, bs)
    ensures |bs| <= |Cells(bs)|
  {
    if bs != [] {
      assert SegmentOk(m, bs[0]);
      assert SegmentsOk(m, bs[1..]) by {
        assert forall i | 0 <= i < |bs[1..]| :: bs[1..][i] == bs[i + 1];
      }
      NoEmptySegments(m, bs[1..]);
    }
  }

  /** What extending a list by cells means for its bytes. */
  lemma ExtendedFlat(m: Memory, l: ListState, m': Memory, l': ListState, id: nat, cs: seq<Cell>)
    requires SegmentsOk(m, l.buffers) && Extended(m, l, m', l', id, cs)
    ensures AllPublished(m', cs)
    ensures Flat(m', l'.buffers) == Flat(m, l.buffers) + Read(m', cs)
  {
    EvolvesKeepsSegments(m, m', id, l.buffers);
    CellsPublished(m, l.buffers);
    CellsPublished(m', l'.buffers);
    forall k | 0 <= k < |cs| ensures Published(m', cs[k]) {
      assert cs[k] == Cells(l'.buffers)[|Cells(l.buffers)| + k];
    }
    CellsPublished(m', l.buffers);
    ReadConcat(m', Cells(l.buffers), cs);
  }

  lemma AppendedBytesFlat(m: Memory, l: ListState, m': Memory, l': ListState, id: nat, data: seq<byte>)
    requires SegmentsOk(m, l.buffers) && AppendedBytes(m, l, m', l', id, data)
    ensures Flat(m', l'.buffers) == Flat(m, l.buffers) + data
  {
    ExtendedFlat(m, l, m', l', id, Tail(l, l'));
  }

  lemma StillUnpublished(m: Memory, m': Memory, id: nat, cs: seq<Cell>)
    requires Evolves(m, m', id) && NonePublished(m', cs)
    ensures NonePublished(m, cs)
  {
    forall k | 0 <= k < |cs| ensures !Published(m, cs[k]) {
      assert !Published(m', cs[k]);
      assert cs[k].raw in m ==> RawEvolves(m[cs[k].raw], m'[cs[k].raw], id);
    }
  }

  lemma FreshBytesConcat(m0: Memory, m1: Memory, m2: Memory, id: nat,
                         ca: seq<Cell>, a: seq<byte>, cb: seq<Cell>, b: seq<byte>)
    requires Evolves(m0, m1, id) && Evolves(m1, m2, id)
    requires FreshBytes(m0, m1, ca, a) && FreshBytes(m1, m2, cb, b)
    ensures FreshBytes(m0, m2, ca + cb, a + b)
  {
    EvolvesKeepsCells(m1, m2, id, ca);
    ReadConcat(m2, ca, cb);
    StillUnpublished(m0, m1, id, cb);
    forall i, j | 0 <= i < |ca| && 0 <= j < |cb| ensures ca[i] != cb[j] {
      assert Published(m1, ca[i]) && !Published(m1, cb[j]);
    }
  }

  lemma AppendedBytesTrans(m0: Memory, l0: ListState, m1: Memory, l1: ListState, m2: Memory, l2: ListState,
                           id: nat, a: seq<byte>, b: seq<byte>)
    requires AppendedBytes(m0, l0, m1, l1, id, a) && AppendedBytes(m1, l1, m2, l2, id, b)
    ensures AppendedBytes(m0, l0, m2, l2, id, a + b)
  {
    hide Cells, Evolves, Grown, FreshBytes, ListOk;
    EvolvesTrans(m0, m1, m2, id);
    GrownTrans(l0.buffers, l1.buffers, l2.buffers);
    assert Tail(l0, l2) == Tail(l0, l1) + Tail(l1, l2);
    FreshBytesConcat(m0, m1, m2, id, Tail(l0, l1), a, Tail(l1, l2), b);
  }

  /** Growing the last slice over the bytes that follow it appends exactly their cells. */
  lemma GrowLast(m: Memory, bs: seq<Ptr>, n: nat)
    requires SegmentsOk(m, bs) && bs != []
    requires bs[|bs| - 1].End() + n <= m[bs[|bs| - 1].raw].used
    ensures var last := bs[|bs| - 1];
            var bs' := bs[..|bs| - 1] + [last.(len := last.len + n)];
            && SegmentsOk(m, bs')
            && Grown(bs, bs')
            && Cells(bs') == Cells(bs) + CellsOf(Ptr(last.raw, last.off + last.len, n))
  {
    var t := |bs| - 1;
    var last, front := bs[t], bs[..t];
    assert SegmentOk(m, last);
    assert bs == front + [last];
    var grown := last.(len := last.len + n);
    assert SegmentOk(m, grown);
    hide Cells, CellsOf;
    CellsConcat(front, [last]);
    CellsConcat(front, [grown]);
    CellsSingle(last);
    CellsSingle(grown);
    CellsOfMerge(last, n);
    ConcatAssoc(Cells(front), CellsOf(last), CellsOf(Ptr(last.raw, last.off + last.len, n)));
  }

  function WriteBehind(m: Memory, ab: Ptr, data: seq<byte>): Memory
    requires ab.Ptr? && ab.raw in m && ab.End() + |data| <= |m[ab.raw].data|
  {
    var raw := m[ab.raw];
    m[ab.raw := raw.(data := raw.data[..ab.End()] + data + raw.data[ab.End() + |data|..], used := ab.End() + |data|)]
  }

  /** Writing behind an append buffer touches only cells nobody could see. */
  lemma WriteBehindIsFresh(m: Memory, ab: Ptr, data: seq<byte>, id: nat)
    requires MemoryOk(m) && ab.Ptr? && AppendBufferOk(m, ab, id) && ab.len + |data| <= |m[ab.raw].data|
    ensures Evolves(m, WriteBehind(m, ab, data), id)
    ensures FreshBytes(m, WriteBehind(m, ab, data), CellsOf(Ptr(ab.raw, ab.len, |data|)), data)
    ensures AppendBufferOk(WriteBehind(m, ab, data), ab.(len := ab.len + |data|), id)
  {
    var m' := WriteBehind(m, ab, data);
    assert m'[ab.raw].data[..ab.len] == m[ab.raw].data[..ab.len];
    assert Read(m', CellsOf(Ptr(ab.raw, ab.len, |data|))) == data;
  }

  /** A list whose append buffer has been filled further, before the new bytes are shown. */
  lemma FilledBehind(m: Memory, l: ListState, id: nat, data: seq<byte>)
    requires ListOk(m, l, id) && l.appendBuffer.Ptr? && l.appendBuffer.raw in m
    requires l.appendBuffer.End() + |data| <= |m[l.appendBuffer.raw].data|
    ensures var ab := l.appendBuffer;
            var m' := WriteBehind(m, ab, data);
            && ListOk(m', l.(appendBuffer := ab.(len := ab.len + |data|)), id)
            && Evolves(m, m', id)
            && FreshBytes(m, m', CellsOf(Ptr(ab.raw, ab.off + ab.len, |data|)), data)
            && ab.raw in m' && ab.End() + |data| <= m'[ab.raw].used
  {
    hide Evolves, Cells, FreshBytes, SegmentsOk;
    var m' := WriteBehind(m, l.appendBuffer, data);
    WriteBehindIsFresh(m, l.appendBuffer, data, id);
    EvolvesKeepsSegments(m, m', id, l.buffers);
  }

  lemma AppendBufferKnown(m: Memory, l: ListState, id: nat)
    requires ListOk(m, l, id) && l.appendBuffer.Ptr?
    ensures l.appendBuffer.off == 0 && l.appendBuffer.raw in m
  {
  }

  lemma NoSegments(bs: seq<Ptr>)
    requires bs == []
    ensures Cells(bs) == []
  {
  }

  lemma ExtendedByFresh(m: Memory, l: ListState, m': Memory, l': ListState, id: nat, cs: seq<Cell>, data: seq<byte>)
    requires Evolves(m, m', id) && ListOk(m', l', id) && Cells(l'.buffers) == Cells(l.buffers) + cs
    requires FreshBytes(m, m', cs, data) && Grown(l.buffers, l'.buffers)
    ensures AppendedBytes(m, l, m', l', id, data)
  {
    assert Tail(l, l') == cs;
  }

  lemma TakeMore(done: seq<byte>, rest: seq<byte>, n: nat)
    requires n <= |rest|
    ensures done + rest == (done + rest[..n]) + rest[n..]
    ensures rest == [] ==> done + rest == done
  {
  }

  function RoundUpToAppendSize(n: nat): (alen: nat)
    requires 0 < n
    ensures n <= alen < n + APPEND_SIZE && alen % APPEND_SIZE == 0
  {
    APPEND_SIZE * ((n - 1) / APPEND_SIZE + 1)
  }

  ghost function SegmentBytes(m: Memory, p: Ptr): seq<byte>
    requires SegmentOk(m, p)
  {
    m[p.raw].data[p.off..p.End()]
  }

  /** Lists that agree segment by segment have the same content. */
  lemma {:induction false} FlatBySegments(m: Memory, bs: seq<Ptr>, m': Memory, bs': seq<Ptr>)
    requires SegmentsOk(m, bs) && SegmentsOk(m', bs') && |bs| == |bs'|
    requires forall i | 0 <= i < |bs| :: SegmentBytes(m, bs[i]) == SegmentBytes(m', bs'[i])
    ensures Flat(m, bs) == Flat(m', bs')
  {
    if bs != [] {
      var t, t' := bs[1..], bs'[1..];
      assert forall i | 0 <= i < |t| :: t[i] == bs[i + 1] && t'[i] == bs'[i + 1];
      FlatBySegments(m, t, m', t');
      FlatHead(m, bs);
      FlatHead(m', bs');
    }
  }

  lemma FlatHead(m: Memory, bs: seq<Ptr>)
    requires SegmentsOk(m, bs) && bs != []
    ensures SegmentsOk(m, bs[1..])
    ensures Flat(m, bs) == SegmentBytes(m, bs[0]) + Flat(m, bs[1..])
  {
    assert forall i | 0 <= i < |bs[1..]| :: bs[1..][i] == bs[i + 1];
    assert SegmentOk(m, bs[0]);
    CellsPublished(m, bs[1..]);
    ReadSegment(m, bs[0]);
    ReadConcat(m, CellsOf(bs[0]), Cells(bs[1..]));
  }

  lemma Window<T>(a: seq<T>, c: seq<T>, d: seq<T>, off: nat, n: nat)
    requires off + n <= |c|
    ensures (a + (c + d))[|a| + off..|a| + off + n] == c[off..off + n]
  {
  }

  lemma CellsWindow(bs: seq<Ptr>, i: nat, off: nat, n: nat)
    requires i < |bs| && bs[i].Ptr? && off + n <= bs[i].len
    ensures |Cells(bs[..i])| + bs[i].len <= |Cells(bs)|
    ensures var pos := |Cells(bs[..i])| + off;
            Cells(bs)[pos..pos + n] == CellsOf(Ptr(bs[i].raw, bs[i].off + off, n))
  {
    hide Cells, CellsOf;
    CellsOfSub(bs[i], off, n);
    CellsAt(bs, i);
    Window(Cells(bs[..i]), CellsOf(bs[i]), Cells(bs[i + 1..]), off, n);
  }

  /** The n bytes at offset `off` of segment i are the n bytes of the flat content behind
      everything the earlier segments hold. */
  lemma FlatWindow(m: Memory, bs: seq<Ptr>, i: nat, off: nat, n: nat)
    requires SegmentsOk(m, bs) && i < |bs| && off + n <= bs[i].len
    ensures SegmentOk(m, bs[i])
    ensures var pos := |Cells(bs[..i])| + off;
            && pos + n <= |Flat(m, bs)|
            && Flat(m, bs)[pos..pos + n] == m[bs[i].raw].data[bs[i].off + off..bs[i].off + off + n]
  {
    var pos := |Cells(bs[..i])| + off;
    assert SegmentOk(m, bs[i]);
    CellsWindow(bs, i, off, n);
    CellsPublished(m, bs);
    ReadSlice(m, Cells(bs), pos, pos + n);
    if n > 0 {
      ReadSegment(m, Ptr(bs[i].raw, bs[i].off + off, n));
    }
  }

  /** Memory that differs from m only in allocations made since, none of them an append buffer. */
  ghost predicate OnlyAllocated(m: Memory, m': Memory) {
    && MemoryOk(m')
    && (forall r | r in m :: r in m' && m'[r] == m[r])
    && (forall r | r in m' && r !in m :: m'[r].owner == None)
  }

  lemma EvolvesByAllocation(m: Memory, m': Memory, id: nat)
    requires MemoryOk(m) && OnlyAllocated(m, m')
    ensures Evolves(m, m', id)
  {
  }

  ghost predicate SameSegments(m: Memory, bs: seq<Ptr>, m': Memory, bs': seq<Ptr>) {
    && |bs| == |bs'|
    && SegmentsOk(m, bs)
    && SegmentsOk(m', bs')
    && forall i | 0 <= i < |bs| :: SegmentBytes(m, bs[i]) == SegmentBytes(m', bs'[i])
  }

  /** Replacing one segment's raw by a copy of it changes no segment's bytes. */
  lemma SameSegmentsClone(m: Memory, bs: seq<Ptr>, m1: Memory, bs1: seq<Ptr>, m2: Memory, i: nat, c: RawId)
    requires SameSegments(m, bs, m1, bs1) && i < |bs1|
    requires m2.Keys == m1.Keys + {c} && c !in m1
    requires forall r | r in m1 :: m2[r] == m1[r]
    requires m2[c].data == m1[bs1[i].raw].data && m2[c].used == m1[bs1[i].raw].used
    ensures SameSegments(m, bs, m2, bs1[i := bs1[i].(raw := c)])
  {
    var bs2 := bs1[i := bs1[i].(raw := c)];
    forall j | 0 <= j < |bs2| ensures SegmentOk(m2, bs2[j]) && SegmentBytes(m2, bs2[j]) == SegmentBytes(m, bs[j]) {
      assert SegmentOk(m1, bs1[j]);
      assert SegmentBytes(m1, bs1[j]) == SegmentBytes(m, bs[j]);
    }
  }

  ghost predicate AllShareable(m: Memory, bs: seq<Ptr>) {
    forall i | 0 <= i < |bs| :: bs[i].Ptr? && bs[i].raw in m && m[bs[i].raw].shareable
  }

  lemma ShareableKeep(m: Memory, bs: seq<Ptr>, i: nat)
    requires i < |bs| && AllShareable(m, bs[..i]) && SegmentOk(m, bs[i]) && m[bs[i].raw].shareable
    ensures AllShareable(m, bs[..i + 1])
  {
    assert bs[..i + 1] == bs[..i] + [bs[i]];
  }

  lemma ShareableClone(m: Memory, m': Memory, bs: seq<Ptr>, i: nat, c: RawId)
    requires i < |bs| && AllShareable(m, bs[..i]) && bs[i].Ptr? && c in m' && m'[c].shareable
    requires forall r | r in m :: r in m' && m'[r] == m[r]
    ensures AllShareable(m', bs[i := bs[i].(raw := c)][..i + 1])
  {
    assert bs[i := bs[i].(raw := c)][..i + 1] == bs[..i] + [bs[i].(raw := c)];
  }

  lemma SameAsItself(m: Memory, bs: seq<Ptr>)
    requires SegmentsOk(m, bs)
    ensures SameSegments(m, bs, m, bs) && AllShareable(m, bs[..0])
  {
  }

  lemma SameSegmentAt(m: Memory, bs: seq<Ptr>, m': Memory, bs': seq<Ptr>, i: nat)
    requires SameSegments(m, bs, m', bs') && i < |bs'|
    ensures SegmentOk(m', bs'[i])
  {
  }

  lemma OneAllocated(m: Memory, m1: Memory, m2: Memory, c: RawId)
    requires OnlyAllocated(m, m1) && c !in m1 && c in m2 && m2 == m1[c := m2[c]] && m2[c].owner == None && MemoryOk(m2)
    ensures OnlyAllocated(m, m2)
  {
  }

  lemma SharedDone(m: Memory, bs: seq<Ptr>, m': Memory, bs': seq<Ptr>)
    requires SameSegments(m, bs, m', bs') && OnlyAllocated(m, m')
    ensures |bs| == |bs'| && SegmentsOk(m, bs) && SegmentsOk(m', bs') && Flat(m, bs) == Flat(m', bs')
    ensures MemoryOk(m') && forall r | r in m :: r in m' && m'[r] == m[r]
  {
    FlatBySegments(m, bs, m', bs');
  }

  /** Byte `pos` of a list is byte `off` of segment i (or pos is the end of the list). */
  ghost predicate Located(bs: seq<Ptr>, i: nat, off: nat, pos: nat) {
    && i <= |bs|
    && pos == |Cells(bs[..i])| + off
    && (if i < |bs| then off < bs[i].Length() else off == 0)
  }

  lemma LocatedStart(m: Memory, bs: seq<Ptr>)
    requires SegmentsOk(m, bs)
    ensures Located(bs, 0, 0, 0)
  {
    assert bs[..0] == [];
    assert bs != [] ==> SegmentOk(m, bs[0]);
  }

  /** A position short of the end lies inside a segment. */
  lemma LocatedInside(m: Memory, bs: seq<Ptr>, i: nat, off: nat, pos: nat)
    requires SegmentsOk(m, bs) && Located(bs, i, off, pos)
    ensures pos <= |Cells(bs)|
    ensures pos < |Cells(bs)| <==> i < |bs|
    ensures i < |bs| ==> SegmentOk(m, bs[i]) && off < bs[i].len && pos - off + bs[i].len <= |Cells(bs)|
  {
    if i < |bs| {
      assert SegmentOk(m, bs[i]);
      CellsAt(bs, i);
    } else {
      assert bs[..i] == bs;
    }
  }

  lemma LocatedCells(bs: seq<Ptr>, i: nat, off: nat, pos: nat, n: nat)
    requires Located(bs, i, off, pos) && i < |bs| && bs[i].Ptr? && off + n <= bs[i].len
    ensures pos + n <= |Cells(bs)|
    ensures CellsOf(Ptr(bs[i].raw, bs[i].off + off, n)) == Cells(bs)[pos..pos + n]
  {
    CellsWindow(bs, i, off, n);
  }

  lemma LocatedFlat(m: Memory, bs: seq<Ptr>, i: nat, off: nat, pos: nat, n: nat)
    requires SegmentsOk(m, bs) && Located(bs, i, off, pos) && i < |bs| && bs[i].Ptr? && off + n <= bs[i].len
    ensures SegmentOk(m, bs[i]) && pos + n <= |Flat(m, bs)|
    ensures Flat(m, bs)[pos..pos + n] == m[bs[i].raw].data[bs[i].off + off..bs[i].off + off + n]
  {
    FlatWindow(m, bs, i, off, n);
  }

  lemma LocatedAdvance(m: Memory, bs: seq<Ptr>, i: nat, off: nat, pos: nat, n: nat)
    requires SegmentsOk(m, bs) && Located(bs, i, off, pos) && i < |bs| && off + n <= bs[i].Length()
    ensures off + n < bs[i].Length() ==> Located(bs, i, off + n, pos + n)
    ensures off + n == bs[i].Length() ==> Located(bs, i + 1, 0, pos + n)
  {
    if off + n == bs[i].Length() {
      LocatedNext(m, bs, i, off, pos);
    }
  }

  /** One memcmp of contents_equal decides the next n bytes of both contents. */
  lemma CompareRound(m: Memory, xs: seq<Ptr>, a: nat, aoff: nat, ys: seq<Ptr>, b: nat, boff: nat, pos: nat, n: nat)
    requires SegmentsOk(m, xs) && Located(xs, a, aoff, pos) && a < |xs| && aoff + n <= xs[a].Length()
    requires SegmentsOk(m, ys) && Located(ys, b, boff, pos) && b < |ys| && boff + n <= ys[b].Length()
    ensures SegmentOk(m, xs[a]) && SegmentOk(m, ys[b])
    ensures pos + n <= |Flat(m, xs)| && pos + n <= |Flat(m, ys)|
    ensures var p, q := xs[a], ys[b];
            var same := m[p.raw].data[p.off + aoff..p.off + aoff + n] == m[q.raw].data[q.off + boff..q.off + boff + n];
            && (!same ==> Flat(m, xs) != Flat(m, ys))
            && (same && Flat(m, xs)[..pos] == Flat(m, ys)[..pos] ==> Flat(m, xs)[..pos + n] == Flat(m, ys)[..pos + n])
  {
    LocatedFlat(m, xs, a, aoff, pos, n);
    LocatedFlat(m, ys, b, boff, pos, n);
    hide Flat, Located, SegmentsOk;
    var x, y := Flat(m, xs), Flat(m, ys);
    assert x[..pos + n] == x[..pos] + x[pos..pos + n];
    assert y[..pos + n] == y[..pos] + y[pos..pos + n];
  }

  lemma LocatedNext(m: Memory, bs: seq<Ptr>, i: nat, off: nat, pos: nat)
    requires SegmentsOk(m, bs) && Located(bs, i, off, pos) && i < |bs|
    ensures Located(bs, i + 1, 0, pos + bs[i].Length() - off)
  {
    CellsPrefix(bs, i);
    assert i + 1 < |bs| ==> SegmentOk(m, bs[i + 1]);
  }

  lemma DropFirst(m: Memory, bs: seq<Ptr>)
    requires SegmentsOk(m, bs) && bs != []
    ensures SegmentOk(m, bs[0]) && SegmentsOk(m, bs[1..]) && (bs[1..] != [] ==> 0 < bs[1..][0].Length())
    ensures Cells(bs) == CellsOf(bs[0]) + Cells(bs[1..])
    ensures bs[0].len <= |Cells(bs)| && Cells(bs[1..]) == Cells(bs)[bs[0].len..]
  {
    assert forall i | 0 <= i < |bs[1..]| :: bs[1..][i] == bs[i + 1];
    assert SegmentOk(m, bs[0]);
    assert bs[1..] != [] ==> SegmentOk(m, bs[1..][0]);
  }

  /** The slices that share bytes [off, off+n) of a list of segments. */
  function Pieces(bs: seq<Ptr>, off: nat, n: nat): seq<Ptr> {
    if n == 0 || bs == [] || !bs[0].Ptr? || off > bs[0].len then []
    else if off + n < bs[0].len then [Ptr(bs[0].raw, bs[0].off + off, n)]
    else [Ptr(bs[0].raw, bs[0].off + off, bs[0].len - off)] + Pieces(bs[1..], 0, n - (bs[0].len - off))
  }

  /** What is left of a list of segments without its first off+n bytes. */
  function Without(bs: seq<Ptr>, off: nat, n: nat): seq<Ptr> {
    if n == 0 || bs == [] || !bs[0].Ptr? || off > bs[0].len then bs
    else if off + n < bs[0].len then TrimFirst(bs, off + n)
    else Without(bs[1..], 0, n - (bs[0].len - off))
  }

  /** There are n bytes behind byte `off` of the first segment. */
  ghost predicate HasRun(m: Memory, bs: seq<Ptr>, off: nat, n: nat) {
    && SegmentsOk(m, bs)
    && off + n <= |Cells(bs)|
    && (bs != [] ==> off < bs[0].Length())
  }

  /** How much of n bytes at offset `off` the slice p holds. */
  function RunIn(p: Ptr, off: nat, n: nat): (k: nat)
    requires p.Ptr? && off <= p.len
    ensures k <= n && off + k <= p.len && (k < n ==> off + k == p.len)
  {
    if off + n <= p.len then n else p.len - off
  }

  /** One round of the cutting loops: what the first segment contributes and what is left. */
  lemma CutRound(m: Memory, bs: seq<Ptr>, off: nat, n: nat, out: seq<Ptr>)
    requires HasRun(m, bs, off, n) && 0 < n
    ensures bs != [] && SegmentOk(m, bs[0]) && off < bs[0].len
    ensures var k := RunIn(bs[0], off, n);
            var out' := out + [Ptr(bs[0].raw, bs[0].off + off, k)];
            && 0 < k
            && (off + n < bs[0].len ==>
                  && out + Pieces(bs, off, n) == out' + Pieces(bs, off, 0)
                  && Without(bs, off, n) == Without(TrimFirst(bs, off + n), off, 0))
            && (off + n >= bs[0].len ==>
                  && HasRun(m, bs[1..], 0, n - k)
                  && out + Pieces(bs, off, n) == out' + Pieces(bs[1..], 0, n - k)
                  && Without(bs, off, n) == Without(bs[1..], 0, n - k))
  {
    assert bs != [];
    DropFirst(m, bs);
    assert bs[1..] != [] ==> SegmentOk(m, bs[1..][0]);
    hide Cells, SegmentsOk;
    var p := Ptr(bs[0].raw, bs[0].off + off, RunIn(bs[0], off, n));
    AppendAssoc(out, p, Pieces(bs[1..], 0, n - RunIn(bs[0], off, n)));
  }

  /** What one round of splice's loop takes off the length: the bytes before the end of the cut when
      the end lies inside the segment, the whole segment otherwise. */
  lemma CutLengths(m: Memory, bs: seq<Ptr>, off: nat, n: nat)
    requires HasRun(m, bs, off, n) && 0 < n
    ensures bs != [] && SegmentOk(m, bs[0]) && bs[0].len <= |Cells(bs)|
    ensures off + n < bs[0].len ==> |Cells(TrimFirst(bs, off + n))| == |Cells(bs)| - (off + n)
    ensures |Cells(bs[1..])| == |Cells(bs)| - bs[0].len
  {
    assert bs != [];
    DropFirst(m, bs);
    hide Cells, CellsOf, SegmentsOk;
    if off + n < bs[0].len {
      TrimFirstCells(m, bs, off + n);
    }
  }

  lemma NothingToCut(bs: seq<Ptr>, off: nat)
    ensures Pieces(bs, off, 0) == [] && Without(bs, off, 0) == bs
  {
  }

  lemma AppendAssoc(a: seq<Ptr>, p: Ptr, b: seq<Ptr>)
    ensures (a + [p]) + b == a + ([p] + b)
    ensures (a + [p]) + [] == a + [p]
  {
  }

  lemma {:induction false} PiecesCells(m: Memory, bs: seq<Ptr>, off: nat, n: nat)
    requires HasRun(m, bs, off, n)
    ensures SegmentsOk(m, Pieces(bs, off, n))
    ensures Cells(Pieces(bs, off, n)) == Cells(bs)[off..off + n]
  {
    hide Cells, CellsOf, SegmentsOk;
    NoSegments([]);
    NoneOk(m);
    if n > 0 {
      assert bs != [];
      DropFirst(m, bs);
      if off + n < bs[0].len {
        PieceOfOne(m, bs[0], off, n, Cells(bs[1..]));
      } else {
        var k := bs[0].len - off;
        PiecesCells(m, bs[1..], 0, n - k);
        PieceAndRest(m, bs[0], off, Pieces(bs[1..], 0, n - k));
        CutAcross(CellsOf(bs[0]), Cells(bs[1..]), off, n);
      }
    }
  }

  lemma NoneOk(m: Memory)
    ensures SegmentsOk(m, [])
  {
  }

  lemma PieceOfOne(m: Memory, p: Ptr, off: nat, n: nat, rest: seq<Cell>)
    requires SegmentOk(m, p) && off + n < p.len && 0 < n
    ensures var q := Ptr(p.raw, p.off + off, n);
            SegmentsOk(m, [q]) && Cells([q]) == (CellsOf(p) + rest)[off..off + n]
  {
    var q := Ptr(p.raw, p.off + off, n);
    CellsOfSub(p, off, n);
    CellsSingle(q);
    assert (CellsOf(p) + rest)[off..off + n] == CellsOf(p)[off..off + n];
  }

  /** The end of one segment followed by more segments. */
  lemma PieceAndRest(m: Memory, p: Ptr, off: nat, rest: seq<Ptr>)
    requires SegmentOk(m, p) && off < p.len && SegmentsOk(m, rest)
    ensures var q := Ptr(p.raw, p.off + off, p.len - off);
            SegmentsOk(m, [q] + rest) && Cells([q] + rest) == CellsOf(p)[off..] + Cells(rest)
  {
    var q := Ptr(p.raw, p.off + off, p.len - off);
    CellsOfSub(p, off, p.len - off);
    assert ([q] + rest)[1..] == rest;
  }

  lemma CutAcross(a: seq<Cell>, b: seq<Cell>, off: nat, n: nat)
    requires off <= |a| <= off + n <= |a| + |b|
    ensures (a + b)[off..off + n] == a[off..] + b[..n - (|a| - off)]
    ensures (a + b)[off + n..] == b[n - (|a| - off)..]
  {
  }

  lemma {:induction false} WithoutCells(m: Memory, bs: seq<Ptr>, off: nat, n: nat)
    requires HasRun(m, bs, off, n)
    requires n == 0 ==> off == 0
    ensures SegmentsOk(m, Without(bs, off, n))
    ensures Cells(Without(bs, off, n)) == Cells(bs)[off + n..]
  {
    if n > 0 && bs != [] {
      DropFirst(m, bs);
      if off + n < bs[0].len {
        TrimFirstCells(m, bs, off + n);
      } else {
        var k := bs[0].len - off;
        assert bs[1..] != [] ==> SegmentOk(m, bs[1..][0]);
        WithoutCells(m, bs[1..], 0, n - k);
        CutAcross(CellsOf(bs[0]), Cells(bs[1..]), off, n);
      }
    }
  }

  lemma CutTail(cs: seq<Cell>, pos: nat, off: nat, n: nat)
    requires off <= pos && pos + n <= |cs|
    ensures cs[pos - off..][off + n..] == cs[pos + n..]
    ensures cs[pos - off..][off..off + n] == cs[pos..pos + n]
  {
  }

  function TrimFirst(bs: seq<Ptr>, k: nat): seq<Ptr>
    requires bs != [] && bs[0].Ptr? && k <= bs[0].len
  {
    [Ptr(bs[0].raw, k + bs[0].off, bs[0].len - k)] + bs[1..]
  }

  /** Dropping the first k bytes of the first segment drops the first k cells. */
  lemma TrimFirstCells(m: Memory, bs: seq<Ptr>, k: nat)
    requires SegmentsOk(m, bs) && bs != [] && k < bs[0].len
    ensures SegmentsOk(m, TrimFirst(bs, k))
    ensures k <= |Cells(bs)| && Cells(TrimFirst(bs, k)) == Cells(bs)[k..]
  {
    hide Cells, CellsOf, SegmentsOk;
    DropFirst(m, bs);
    PieceAndRest(m, bs[0], k, bs[1..]);
    var a, b := CellsOf(bs[0]), Cells(bs[1..]);
    assert (a + b)[k..] == a[k..] + b;
  }

  /** Keeping the first k bytes of segment i and everything before it keeps a prefix of the cells. */
  lemma KeepFrontCells(m: Memory, bs: seq<Ptr>, i: nat, off: nat, pos: nat)
    requires SegmentsOk(m, bs) && Located(bs, i, off, pos) && i < |bs|
    ensures pos <= |Cells(bs)| && Cells(bs[..i] + Front(bs[i], off)) == Cells(bs)[..pos]
    ensures SegmentsOk(m, bs[..i] + Front(bs[i], off))
  {
    hide Cells, CellsOf, SegmentsOk, Located, Front;
    LocatedIs(bs, i, off, pos);
    FrontSegments(m, bs, i, off);
    LocatedInside(m, bs, i, off, pos);
    CellsSplit(bs, i);
    CellsWindow(bs, i, 0, off);
    CellsConcat(bs[..i], Front(bs[i], off));
    FrontCells(bs[i], off);
    ExtendCut(Cells(bs), 0, pos - off, pos, Cells(bs[..i]), Cells(Front(bs[i], off)));
  }

  lemma LocatedIs(bs: seq<Ptr>, i: nat, off: nat, pos: nat)
    requires Located(bs, i, off, pos) && i < |bs|
    ensures pos == |Cells(bs[..i])| + off && off < bs[i].Length()
  {
  }

  lemma FrontSegments(m: Memory, bs: seq<Ptr>, i: nat, off: nat)
    requires SegmentsOk(m, bs) && i < |bs| && off < bs[i].Length()
    ensures SegmentsOk(m, bs[..i] + Front(bs[i], off))
  {
    assert SegmentOk(m, bs[i]);
  }

  lemma FrontCells(p: Ptr, k: nat)
    requires p.Ptr?
    ensures Cells(Front(p, k)) == CellsOf(Ptr(p.raw, p.off, k))
  {
    if k > 0 {
      CellsSingle(Ptr(p.raw, p.off, k));
    }
  }

  lemma KeepRestCells(m: Memory, bs: seq<Ptr>, i: nat, off: nat, pos: nat)
    requires SegmentsOk(m, bs) && Located(bs, i, off, pos)
    ensures SegmentsOk(m, bs[i..]) && (bs[i..] != [] ==> off < bs[i..][0].Length())
    ensures 0 <= pos - off <= |Cells(bs)| && Cells(bs[i..]) == Cells(bs)[pos - off..]
  {
    CellsSplit(bs, i);
  }

  function Front(p: Ptr, k: nat): seq<Ptr> {
    if k > 0 && p.Ptr? then [Ptr(p.raw, p.off, k)] else []
  }

  /** The list with the kept front inserted is longer by exactly that front. */
  lemma FrontInserted(m: Memory, bs: seq<Ptr>, i: nat, off: nat, pos: nat)
    requires SegmentsOk(m, bs) && Located(bs, i, off, pos) && i < |bs|
    ensures |Cells(bs[..i] + Front(bs[i], off) + bs[i..])| == |Cells(bs)| + off
  {
    KeepFrontCells(m, bs, i, off, pos);
    KeepRestCells(m, bs, i, off, pos);
    hide Cells, Located, Front;
    CellsConcat(bs[..i] + Front(bs[i], off), bs[i..]);
  }

  /** splice on values: the kept front, then the rest without the cut bytes, hold exactly the
      other cells; the pieces hold exactly the cut ones. */
  lemma SpliceCells(m: Memory, bs: seq<Ptr>, i: nat, off: nat, pos: nat, n: nat)
    requires SegmentsOk(m, bs) && Located(bs, i, off, pos) && i < |bs| && pos + n <= |Cells(bs)| && 0 < n
    ensures var front := bs[..i] + Front(bs[i], off);
            && SegmentsOk(m, bs[i..]) && SegmentsOk(m, front + Without(bs[i..], off, n))
            && Cells(front + Without(bs[i..], off, n)) == Cells(bs)[..pos] + Cells(bs)[pos + n..]
            && SegmentsOk(m, Pieces(bs[i..], off, n))
            && Cells(Pieces(bs[i..], off, n)) == Cells(bs)[pos..pos + n]
            && HasRun(m, bs[i..], off, n)
  {
    KeepFrontCells(m, bs, i, off, pos);
    KeepRestCells(m, bs, i, off, pos);
    var front, rest := bs[..i] + Front(bs[i], off), bs[i..];
    PiecesCells(m, rest, off, n);
    WithoutCells(m, rest, off, n);
    hide Cells, Pieces, Without, Located;
    SegmentsConcat(m, front, Without(rest, off, n));
    CellsConcat(front, Without(rest, off, n));
    CutTail(Cells(bs), pos, off, n);
  }

  lemma Overwritten(d: seq<byte>, pos: nat, part: seq<byte>, flat: seq<byte>)
    requires pos + |part| <= |d| == |flat|
    requires d[..pos] == flat[..pos] && part == flat[pos..pos + |part|]
    ensures var d' := d[..pos] + part + d[pos + |part|..];
            |d'| == |d| && d'[..pos + |part|] == flat[..pos + |part|]
  {
  }

  lemma OnlyAllocatedKeeps(m: Memory, m': Memory, bs: seq<Ptr>)
    requires MemoryOk(m) && OnlyAllocated(m, m') && SegmentsOk(m, bs)
    ensures SegmentsOk(m', bs) && Flat(m', bs) == Flat(m, bs)
  {
    EvolvesByAllocation(m, m', 0);
    EvolvesKeepsSegments(m, m', 0, bs);
  }

  /** Swapping segments [i, j) for one slice with the same bytes leaves the content alone. */
  lemma ReplaceMiddle(m: Memory, m': Memory, bs: seq<Ptr>, i: nat, j: nat, p: Ptr)
    requires MemoryOk(m) && OnlyAllocated(m, m') && SegmentsOk(m, bs) && i <= j <= |bs|
    requires SegmentOk(m', p) && SegmentBytes(m', p) == Flat(m, bs[i..j])
    ensures SegmentsOk(m', bs[..i] + [p] + bs[j..])
    ensures Flat(m', bs[..i] + [p] + bs[j..]) == Flat(m, bs)
  {
    var a, b, c := bs[..i], bs[i..j], bs[j..];
    assert bs == a + b + c;
    assert Flat(m', [p]) == SegmentBytes(m', p) by {
      FlatHead(m', [p]);
      assert [p][1..] == [];
    }
    hide Cells, CellsOf, Flat, OnlyAllocated, SegmentBytes;
    OnlyAllocatedKeeps(m, m', a);
    OnlyAllocatedKeeps(m, m', c);
    SegmentsConcat(m, a, b);
    SegmentsConcat(m, a + b, c);
    SegmentsConcat(m', a, [p]);
    SegmentsConcat(m', a + [p], c);
  }

  /** Segments i to j of a list merged into one: byte `off` of it is byte `pos` of the list. */
  lemma Merged(m: Memory, m': Memory, l: ListState, id: nat, i: nat, j: nat, p: Ptr, off: nat, pos: nat, n: nat)
    requires ListOk(m, l, id) && OnlyAllocated(m, m') && i < j <= |l.buffers| && Located(l.buffers, i, off, pos)
    requires SegmentOk(m', p) && p.off == 0 && off + n <= p.len && 0 < n && SegmentBytes(m', p) == Flat(m, l.buffers[i..j])
    ensures var l' := l.(buffers := l.buffers[..i] + [p] + l.buffers[j..]);
            && ListOk(m', l', id)
            && Flat(m', l'.buffers) == Flat(m, l.buffers)
            && pos + n <= |Cells(l'.buffers)|
            && Cells(l'.buffers)[pos..pos + n] == CellsOf(Ptr(p.raw, off, n))
  {
    hide Cells, CellsOf, SegmentsOk, SegmentBytes;
    var bs := l.buffers[..i] + [p] + l.buffers[j..];
    ReplaceMiddle(m, m', l.buffers, i, j, p);
    assert bs[..i] == l.buffers[..i] && bs[i] == p;
    LocatedCells(bs, i, off, pos, n);
  }

  lemma FlatJoin(m: Memory, bs: seq<Ptr>, a: seq<Cell>, b: seq<Cell>)
    requires SegmentsOk(m, bs) && Cells(bs) == a + b && AllPublished(m, a) && AllPublished(m, b)
    ensures Flat(m, bs) == Read(m, a) + Read(m, b)
  {
    ReadConcat(m, a, b);
  }

  /** A list whose cells are those of `bs` and then those of p has the bytes of both. */
  lemma FlatGrown(m: Memory, bs: seq<Ptr>, bs': seq<Ptr>, p: Ptr)
    requires SegmentsOk(m, bs) && SegmentsOk(m, bs')
    requires p.Ptr? && p.raw in m && p.End() <= m[p.raw].used <= |m[p.raw].data|
    ensures Cells(bs') == Cells(bs) + CellsOf(p) ==> Flat(m, bs') == Flat(m, bs) + m[p.raw].data[p.off..p.End()]
    ensures Cells(bs') == CellsOf(p) + Cells(bs) ==> Flat(m, bs') == m[p.raw].data[p.off..p.End()] + Flat(m, bs)
  {
    CellsPublished(m, bs);
    assert AllPublished(m, CellsOf(p)) && Read(m, CellsOf(p)) == m[p.raw].data[p.off..p.End()];
    hide Cells, CellsOf;
    if Cells(bs') == Cells(bs) + CellsOf(p) {
      FlatJoin(m, bs', Cells(bs), CellsOf(p));
    }
    if Cells(bs') == CellsOf(p) + Cells(bs) {
      FlatJoin(m, bs', CellsOf(p), Cells(bs));
    }
  }

  lemma FlatCut(m: Memory, bs: seq<Ptr>, src: seq<Ptr>, pos: nat, n: nat)
    requires SegmentsOk(m, bs) && SegmentsOk(m, src) && pos + n <= |Cells(src)| && Cells(bs) == Cells(src)[pos..pos + n]
    ensures Flat(m, bs) == Flat(m, src)[pos..pos + n]
  {
    CellsPublished(m, src);
    ReadSlice(m, Cells(src), pos, pos + n);
  }

  lemma FlatCutOut(m: Memory, bs: seq<Ptr>, src: seq<Ptr>, pos: nat, n: nat)
    requires SegmentsOk(m, bs) && SegmentsOk(m, src) && pos + n <= |Cells(src)|
    requires Cells(bs) == Cells(src)[..pos] + Cells(src)[pos + n..]
    ensures Flat(m, bs) == Flat(m, src)[..pos] + Flat(m, src)[pos + n..]
  {
    hide Cells, SegmentsOk, Read, AllPublished;
    CellsPublished(m, src);
    var cs, bytes := Cells(src), Flat(m, src);
    ReadSlice(m, cs, 0, pos);
    ReadSlice(m, cs, pos + n, |cs|);
    assert cs[0..pos] == cs[..pos] && cs[pos + n..|cs|] == cs[pos + n..];
    assert bytes[0..pos] == bytes[..pos] && bytes[pos + n..|cs|] == bytes[pos + n..];
    ReadConcat(m, cs[..pos], cs[pos + n..]);
  }

  lemma FlatJoinCut(m: Memory, bs: seq<Ptr>, own: seq<Ptr>, src: seq<Ptr>, pos: nat, n: nat)
    requires SegmentsOk(m, bs) && SegmentsOk(m, own) && SegmentsOk(m, src) && pos + n <= |Cells(src)|
    requires Cells(bs) == Cells(own) + Cells(src)[pos..pos + n]
    ensures Flat(m, bs) == Flat(m, own) + Flat(m, src)[pos..pos + n]
  {
    hide Cells, SegmentsOk, Read, AllPublished;
    CellsPublished(m, own);
    CellsPublished(m, src);
    ReadSlice(m, Cells(src), pos, pos + n);
    ReadConcat(m, Cells(own), Cells(src)[pos..pos + n]);
  }

  predicate IsAligned(m: Memory, p: Ptr, align: nat)
    requires 0 < align
  {
    p.Ptr? && p.raw in m && (m[p.raw].addr + p.off) % align == 0
  }

  /** is_aligned, which masks the address. */
  predicate MaskedAligned(m: Memory, p: Ptr, align: nat)
    requires 0 < align
  {
    p.Ptr? && p.raw in m && And(m[p.raw].addr + p.off, align - 1) == 0
  }

  /** For a power of two the mask tells whether the address is a multiple. */
  lemma MaskTellsAlignment(m: Memory, p: Ptr, align: nat)
    requires PowerOfTwo(align)
    ensures 0 < align && (MaskedAligned(m, p, align) <==> IsAligned(m, p, align))
  {
    if p.Ptr? && p.raw in m {
      MaskIsRemainder(m[p.raw].addr + p.off, align);
    }
  }

  predicate Fits(m: Memory, p: Ptr, alignSize: nat, alignMemory: nat)
    requires 0 < alignSize && 0 < alignMemory
  {
    MaskedAligned(m, p, alignMemory) && p.Length() % alignSize == 0
  }

  /** Segments before i are memory-aligned, and size-aligned unless the last of all. */
  ghost predicate AlignedUpTo(m: Memory, bs: seq<Ptr>, i: nat, alignSize: nat, alignMemory: nat)
    requires i <= |bs| && 0 < alignSize && 0 < alignMemory
  {
    && (forall k | 0 <= k < i :: IsAligned(m, bs[k], alignMemory))
    && (forall k | 0 <= k < i :: bs[k].Length() % alignSize == 0 || k == |bs| - 1)
  }

  lemma AlignedStart(m: Memory, bs: seq<Ptr>, alignSize: nat, alignMemory: nat)
    requires 0 < alignSize && 0 < alignMemory
    ensures AlignedUpTo(m, bs, 0, alignSize, alignMemory)
  {
  }

  lemma AlignedKeep(m: Memory, bs: seq<Ptr>, i: nat, alignSize: nat, alignMemory: nat)
    requires i < |bs| && 0 < alignSize && 0 < alignMemory
    requires AlignedUpTo(m, bs, i, alignSize, alignMemory)
    requires IsAligned(m, bs[i], alignMemory) && bs[i].Length() % alignSize == 0
    ensures AlignedUpTo(m, bs, i + 1, alignSize, alignMemory)
  {
  }

  lemma AlignedLast(m: Memory, bs: seq<Ptr>, i: nat, alignSize: nat, alignMemory: nat)
    requires i < |bs| && 0 < alignSize && 0 < alignMemory
    requires AlignedUpTo(m, bs, i, alignSize, alignMemory) && IsAligned(m, bs[i], alignMemory)
    requires i + 1 == |bs| || |Cells(bs[i..i + 1])| % alignSize == 0
    ensures AlignedUpTo(m, bs, i + 1, alignSize, alignMemory)
  {
    assert bs[i..i + 1] == [bs[i]];
    CellsSingle(bs[i]);
  }

  lemma AlignedReplace(m: Memory, m': Memory, bs: seq<Ptr>, i: nat, j: nat, p: Ptr, alignSize: nat, alignMemory: nat)
    requires i < j <= |bs| && 0 < alignSize && 0 < alignMemory && OnlyAllocated(m, m')
    requires AlignedUpTo(m, bs, i, alignSize, alignMemory) && IsAligned(m', p, alignMemory)
    requires j == |bs| || p.Length() % alignSize == 0
    ensures AlignedUpTo(m', bs[..i] + [p] + bs[j..], i + 1, alignSize, alignMemory)
  {
    var bs' := bs[..i] + [p] + bs[j..];
    forall k | 0 <= k < i + 1
      ensures IsAligned(m', bs'[k], alignMemory) && (bs'[k].Length() % alignSize == 0 || k == |bs'| - 1)
    {
      if k < i {
        assert bs'[k] == bs[k] && IsAligned(m, bs[k], alignMemory);
      }
    }
  }

  lemma AlignedDone(m: Memory, bs: seq<Ptr>, alignSize: nat, alignMemory: nat)
    requires 0 < alignSize && 0 < alignMemory && AlignedUpTo(m, bs, |bs|, alignSize, alignMemory)
    ensures forall k | 0 <= k < |bs| :: bs[k].Ptr? && IsAligned(m, bs[k], alignMemory)
    ensures forall k | 0 <= k < |bs| - 1 :: bs[k].Length() % alignSize == 0
  {
  }

  lemma NothingAllocated(m: Memory)
    requires MemoryOk(m)
    ensures OnlyAllocated(m, m)
  {
  }

  lemma NthSegment(m: Memory, bs: seq<Ptr>, i: nat)
    requires SegmentsOk(m, bs) && i < |bs|
    ensures SegmentOk(m, bs[i])
  {
  }

  lemma MiddleSegments(m: Memory, bs: seq<Ptr>, i: nat, j: nat)
    requires SegmentsOk(m, bs) && i <= j <= |bs|
    ensures SegmentsOk(m, bs[i..j])
  {
  }

  lemma MiddleGrows(bs: seq<Ptr>, i: nat, j: nat)
    requires i <= j < |bs|
    ensures |Cells(bs[i..j + 1])| == |Cells(bs[i..j])| + bs[j].Length()
  {
    assert bs[i..j + 1] == bs[i..j] + [bs[j]];
    CellsConcat(bs[i..j], [bs[j]]);
    CellsSingle(bs[j]);
  }

  /** A list whose segments were re-cut has the length it had. */
  lemma ReshapedOk(m: Memory, m': Memory, bs: seq<Ptr>, bs': seq<Ptr>, flat: seq<byte>)
    requires SegmentsOk(m, bs) && SegmentsOk(m', bs') && Flat(m, bs) == flat == Flat(m', bs')
    ensures |Cells(bs)| == |Cells(bs')|
  {
  }
}
