/** The memory model under buffer::list: raw allocations, slices of them, and the flat
    sequence of memory cells that a list of slices denotes. */
module Buffer {
  import opened Basics

  type RawId = nat

  /** One allocation (buffer::raw). `used` and `owner` are bookkeeping that no operation
      branches on: `used` is the high-water mark below which bytes may be visible through
      a slice, and `owner` is the list whose append_buffer sits on this allocation. */
  datatype Raw = Raw(addr: nat, data: seq<byte>, shareable: bool, used: nat, owner: Option<nat>)

  type Memory = map<RawId, Raw>

  /** buffer::ptr: a reference to data[off..off+len] of one raw, or to nothing. */
  datatype Ptr = NullPtr | Ptr(raw: RawId, off: nat, len: nat)
  {
    function End(): nat { if Ptr? then off + len else 0 }

    function Length(): nat { if Ptr? then len else 0 }
  }

  /** One byte-sized location of memory. */
  datatype Cell = Cell(raw: RawId, pos: nat)

  /** The fields of one buffer::list. */
  datatype ListState = ListState(buffers: seq<Ptr>, len: nat, appendBuffer: Ptr)

  ghost predicate MemoryOk(m: Memory) {
    forall r | r in m :: m[r].used <= |m[r].data|
  }

  /** A cell that some slice may show. */
  ghost predicate Published(m: Memory, c: Cell) {
    c.raw in m && c.pos < m[c.raw].used <= |m[c.raw].data|
  }

  ghost predicate AllPublished(m: Memory, cs: seq<Cell>) {
    forall k | 0 <= k < |cs| :: Published(m, cs[k])
  }

  ghost predicate SegmentOk(m: Memory, p: Ptr) {
    p.Ptr? && 0 < p.len && p.raw in m && p.off + p.len <= m[p.raw].used <= |m[p.raw].data|
  }

  ghost predicate SegmentsOk(m: Memory, bs: seq<Ptr>) {
    forall i | 0 <= i < |bs| :: SegmentOk(m, bs[i])
  }

  function CellsOf(p: Ptr): (cs: seq<Cell>)
    ensures |cs| == p.Length()
  {
    if p.Ptr? then seq(p.len, i requires 0 <= i => Cell(p.raw, p.off + i)) else []
  }

  /** The cells a list of slices denotes, in order. */
  function Cells(bs: seq<Ptr>): seq<Cell> {
    if bs == [] then [] else CellsOf(bs[0]) + Cells(bs[1..])
  }

  /** The bytes those cells hold. */
  function Read(m: Memory, cs: seq<Cell>): (bytes: seq<byte>)
    requires AllPublished(m, cs)
    ensures |bytes| == |cs|
  {
    seq(|cs|, k requires 0 <= k < |cs| => m[cs[k].raw].data[cs[k].pos])
  }

  /** `_len` is exact, no segment is empty or reaches past its raw's high-water mark, and the
      append_buffer ends exactly at the mark of a raw that this list alone may extend. */
  ghost predicate ListOk(m: Memory, l: ListState, id: nat) {
    && MemoryOk(m)
    && SegmentsOk(m, l.buffers)
    && l.len == |Cells(l.buffers)|
    && AppendBufferOk(m, l.appendBuffer, id)
  }

  ghost predicate AppendBufferOk(m: Memory, ab: Ptr, id: nat) {
    ab.Ptr? ==>
      && ab.off == 0
      && ab.raw in m
      && m[ab.raw].owner == Some(id)
      && ab.len == m[ab.raw].used <= |m[ab.raw].data|
  }

  lemma {:induction false} CellsPublished(m: Memory, bs: seq<Ptr>)
    requires SegmentsOk(m, bs)
    ensures AllPublished(m, Cells(bs))
  {
    if bs != [] {
      assert SegmentOk(m, bs[0]);
      assert forall i | 0 <= i < |bs[1..]| :: bs[1..][i] == bs[i + 1];
      CellsPublished(m, bs[1..]);
    }
  }

  /** The flat content of a list: what a reader of the whole buffer::list sees. */
  ghost function Flat(m: Memory, bs: seq<Ptr>): (bytes: seq<byte>)
    requires SegmentsOk(m, bs)
    ensures |bytes| == |Cells(bs)|
  {
    CellsPublished(m, bs);
    Read(m, Cells(bs))
  }

  lemma LenIsExact(m: Memory, l: ListState, id: nat)
    requires ListOk(m, l, id)
    ensures l.len == |Cells(l.buffers)| == |Flat(m, l.buffers)|
  {
  }

  lemma {:induction false} CellsConcat(a: seq<Ptr>, b: seq<Ptr>)
    ensures Cells(a + b) == Cells(a) + Cells(b)
  {
    if a == [] {
      assert a + b == b;
    } else {
      assert (a + b)[1..] == a[1..] + b;
      CellsConcat(a[1..], b);
    }
  }

  lemma CellsSingle(p: Ptr)
    ensures Cells([p]) == CellsOf(p)
  {
    assert [p][1..] == [];
  }

  /** Cutting a list of slices at segment i cuts its cells at the same place. */
  lemma CellsSplit(bs: seq<Ptr>, i: nat)
    requires i <= |bs|
    ensures Cells(bs) == Cells(bs[..i]) + Cells(bs[i..])
  {
    assert bs == bs[..i] + bs[i..];
    CellsConcat(bs[..i], bs[i..]);
  }

  lemma CellsPrefix(bs: seq<Ptr>, i: nat)
    requires i < |bs|
    ensures Cells(bs[..i + 1]) == Cells(bs[..i]) + CellsOf(bs[i])
  {
    assert bs[..i + 1] == bs[..i] + [bs[i]];
    CellsConcat(bs[..i], [bs[i]]);
    CellsSingle(bs[i]);
  }

  lemma CellsAt(bs: seq<Ptr>, i: nat)
    requires i < |bs|
    ensures Cells(bs) == Cells(bs[..i]) + (CellsOf(bs[i]) + Cells(bs[i + 1..]))
  {
    CellsSplit(bs, i);
    assert bs[i..][1..] == bs[i + 1..];
  }

  lemma SliceConcat<T>(s: seq<T>, a: nat, b: nat, c: nat)
    requires a <= b <= c <= |s|
    ensures s[a..b] + s[b..c] == s[a..c]
  {
  }

  /** A cut [a, b) extended by the next cut [b, c) is the cut [a, c). */
  lemma ExtendCut<T>(s: seq<T>, a: nat, b: nat, c: nat, x: seq<T>, y: seq<T>)
    requires a <= b <= c <= |s| && x == s[a..b] && y == s[b..c]
    ensures x + y == s[a..c]
  {
  }

  /** Taking a sub-slice takes a sub-sequence of the cells. */
  lemma CellsOfSub(p: Ptr, off: nat, len: nat)
    requires p.Ptr? && off + len <= p.len
    ensures CellsOf(Ptr(p.raw, p.off + off, len)) == CellsOf(p)[off..off + len]
  {
  }

  /** Two adjacent slices of one raw denote the cells of their union. */
  lemma CellsOfMerge(p: Ptr, len: nat)
    requires p.Ptr?
    ensures CellsOf(p.(len := p.len + len)) == CellsOf(p) + CellsOf(Ptr(p.raw, p.off + p.len, len))
  {
  }

  lemma ReadConcat(m: Memory, a: seq<Cell>, b: seq<Cell>)
    requires AllPublished(m, a) && AllPublished(m, b)
    ensures AllPublished(m, a + b)
    ensures Read(m, a + b) == Read(m, a) + Read(m, b)
  {
  }

  lemma ReadSlice(m: Memory, cs: seq<Cell>, i: nat, j: nat)
    requires i <= j <= |cs| && AllPublished(m, cs)
    ensures AllPublished(m, cs[i..j])
    ensures Read(m, cs[i..j]) == Read(m, cs)[i..j]
  {
  }

  lemma SegmentsConcat(m: Memory, a: seq<Ptr>, b: seq<Ptr>)
    requires SegmentsOk(m, a) && SegmentsOk(m, b)
    ensures SegmentsOk(m, a + b)
    ensures Flat(m, a + b) == Flat(m, a) + Flat(m, b)
  {
    CellsConcat(a, b);
    CellsPublished(m, a);
    CellsPublished(m, b);
    ReadConcat(m, Cells(a), Cells(b));
  }

  /** The content of one slice is the corresponding stretch of its raw. */
  lemma ReadSegment(m: Memory, p: Ptr)
    requires SegmentOk(m, p)
    ensures AllPublished(m, CellsOf(p))
    ensures Read(m, CellsOf(p)) == m[p.raw].data[p.off..p.off + p.len]
  {
  }

  // ------------------------------------------------------------------
  // How memory may change under an operation of list `id`

  /** Memory after an operation on list `id` that writes no visible byte: allocations stay,
      everything below the old high-water marks is unchanged, and a raw that `id` does not
      own is untouched. */
  ghost predicate Evolves(m: Memory, m': Memory, id: nat) {
    && MemoryOk(m')
    && (forall r | r in m :: r in m' && RawEvolves(m[r], m'[r], id))
    && (forall r | r in m' && r !in m :: m'[r].owner == None || m'[r].owner == Some(id))
  }

  ghost predicate RawEvolves(a: Raw, b: Raw, id: nat) {
    && a.used <= b.used
    && a.used <= |a.data|
    && b == a.(data := b.data, used := b.used)
    && |b.data| == |a.data|
    && b.data[..a.used] == a.data[..a.used]
    && (a.owner != Some(id) ==> b == a)
  }

  lemma EvolvesRefl(m: Memory, id: nat)
    requires MemoryOk(m)
    ensures Evolves(m, m, id)
  {
  }

  lemma EvolvesTrans(m0: Memory, m1: Memory, m2: Memory, id: nat)
    requires Evolves(m0, m1, id) && Evolves(m1, m2, id)
    ensures Evolves(m0, m2, id)
  {
    forall r | r in m0 ensures r in m2 && RawEvolves(m0[r], m2[r], id) {
      assert RawEvolves(m0[r], m1[r], id) && RawEvolves(m1[r], m2[r], id);
      var u := m0[r].used;
      assert m2[r].data[..u] == m2[r].data[..m1[r].used][..u];
      assert m1[r].data[..u] == m1[r].data[..m1[r].used][..u];
    }
  }

  lemma EvolvesKeepsCells(m: Memory, m': Memory, id: nat, cs: seq<Cell>)
    requires Evolves(m, m', id) && AllPublished(m, cs)
    ensures AllPublished(m', cs)
    ensures Read(m', cs) == Read(m, cs)
  {
    forall k | 0 <= k < |cs|
      ensures Published(m', cs[k]) && m'[cs[k].raw].data[cs[k].pos] == m[cs[k].raw].data[cs[k].pos]
    {
      var c := cs[k];
      assert Published(m, c);
      assert RawEvolves(m[c.raw], m'[c.raw], id);
      assert m'[c.raw].data[..m[c.raw].used][c.pos] == m[c.raw].data[..m[c.raw].used][c.pos];
    }
  }

  lemma EvolvesKeepsSegments(m: Memory, m': Memory, id: nat, bs: seq<Ptr>)
    requires Evolves(m, m', id) && SegmentsOk(m, bs)
    ensures SegmentsOk(m', bs)
    ensures Flat(m', bs) == Flat(m, bs)
  {
    forall i | 0 <= i < |bs| ensures SegmentOk(m', bs[i]) {
      assert SegmentOk(m, bs[i]);
      assert RawEvolves(m[bs[i].raw], m'[bs[i].raw], id);
    }
    CellsPublished(m, bs);
    EvolvesKeepsCells(m, m', id, Cells(bs));
  }

  /** An operation through list `id` cannot be seen through any other list. */
  lemma EvolvesFramesOthers(m: Memory, m': Memory, id: nat, l: ListState, other: nat)
    requires Evolves(m, m', id) && ListOk(m, l, other) && other != id
    ensures ListOk(m', l, other)
    ensures Flat(m', l.buffers) == Flat(m, l.buffers)
  {
    EvolvesKeepsSegments(m, m', id, l.buffers);
    if l.appendBuffer.Ptr? {
      assert RawEvolves(m[l.appendBuffer.raw], m'[l.appendBuffer.raw], id);
    }
  }

  lemma FreshIdExists(m: Memory) returns (r: RawId)
    ensures r !in m
  {
    r := Above(m.Keys);
  }

  lemma {:induction false} Above(s: set<RawId>) returns (r: RawId)
    ensures forall x | x in s :: x < r
    decreases s
  {
    if s == {} {
      r := 0;
    } else {
      var x :| x in s;
      var r0 := Above(s - {x});
      r := if x < r0 then r0 else x + 1;
      assert forall y | y in s :: y == x || y in s - {x};
    }
  }
}
