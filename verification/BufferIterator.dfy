/** buffer::list::iterator: moving over the segments of a list, copying bytes out and in. */
module BufferIterators {
  import opened Basics
  import opened Buffer
  import opened Slices
  import opened BufferLists

  /** std::list position: a segment, or end(). Appending segments moves neither. */
  datatype Cursor = At(i: nat) | End

  /** The iterator stands at byte `off` of the list as it is now. */
  ghost predicate Normal(bs: seq<Ptr>, off: nat, p: Cursor, pOff: nat) {
    match p
    case At(i) => i < |bs| && Located(bs, i, pOff, off)
    case End => pOff == 0 && off == |Cells(bs)|
  }

  /** It stood at byte `off`, perhaps at the end, of a list that has only grown since. */
  ghost predicate Stands(bs: seq<Ptr>, off: nat, p: Cursor, pOff: nat) {
    match p
    case At(i) => i < |bs| && Located(bs, i, pOff, off)
    case End => pOff == 0 && off <= |Cells(bs)|
  }

  lemma GrowingKeepsPlace(bs: seq<Ptr>, bs': seq<Ptr>, off: nat, p: Cursor, pOff: nat)
    requires Stands(bs, off, p, pOff) && Grown(bs, bs') && |Cells(bs)| <= |Cells(bs')|
    ensures Stands(bs', off, p, pOff)
  {
    if p.At? {
      assert bs'[..p.i] == bs[..p.i];
    }
  }

  function CursorAt(bs: seq<Ptr>, i: nat): Cursor
    requires i <= |bs|
  {
    if i < |bs| then At(i) else End
  }

  lemma NormalFromLocated(m: Memory, bs: seq<Ptr>, i: nat, pOff: nat, off: nat)
    requires SegmentsOk(m, bs) && Located(bs, i, pOff, off)
    ensures Normal(bs, off, CursorAt(bs, i), if i < |bs| then pOff else 0)
  {
    LocatedInside(m, bs, i, pOff, off);
  }

  /** A position reached by walking forward past whole segments. */
  lemma Settle(m: Memory, bs: seq<Ptr>, i: nat, pOff: nat, target: nat)
    requires SegmentsOk(m, bs) && i <= |bs| && |Cells(bs[..i])| + pOff == target
    ensures i < |bs| && pOff < bs[i].Length() ==> Located(bs, i, pOff, target) && target < |Cells(bs)|
    ensures i == |bs| ==> target == |Cells(bs)| + pOff
    ensures i < |bs| ==> |Cells(bs[..i + 1])| == |Cells(bs[..i])| + bs[i].Length()
  {
    if i < |bs| {
      CellsPrefix(bs, i);
      if pOff < bs[i].Length() {
        LocatedInside(m, bs, i, pOff, target);
      }
    } else {
      assert bs[..i] == bs;
    }
  }

  class ListIterator {
    const bl: BufferList
    var off: nat
    var p: Cursor
    var pOff: nat

    ghost predicate Here()
      reads this, bl
    {
      Normal(bl.buffers, off, p, pOff)
    }

    ghost predicate Placed()
      reads this, bl
    {
      Stands(bl.buffers, off, p, pOff)
    }

    /** begin(). */
    constructor Begin(bl: BufferList)
      requires bl.Valid()
      ensures this.bl == bl && off == 0 && Here()
    {
      this.bl := bl;
      off, pOff := 0, 0;
      p := CursorAt(bl.buffers, 0);
      new;
      LocatedStart(bl.heap.raws, bl.buffers);
      NormalFromLocated(bl.heap.raws, bl.buffers, 0, 0, 0);
    }

    /** end(). */
    constructor AtEnd(bl: BufferList)
      requires bl.Valid()
      ensures this.bl == bl && off == bl.len && Here()
    {
      this.bl := bl;
      off, pOff := bl.len, 0;
      p := End;
    }

    /** advance(o) for o >= 0; fails exactly when the list ends first. */
    method Forward(o: nat) returns (ok: bool)
      requires bl.Valid() && Here()
      modifies this
      ensures ok <==> old(off) + o <= bl.len
      ensures ok ==> Here() && off == old(off) + o
    {
      if o == 0 {
        PlaceInRange(bl.heap.raws, bl.buffers, off, p, pOff);
        return true;
      }
      var i: nat, rest: nat := if p.At? then p.i else |bl.buffers|, pOff + o;
      ghost var target := off + o;
      StartOfPlace(bl.heap.raws, bl.buffers, off, p, pOff);
      while rest > 0
        invariant i <= |bl.buffers| && |Cells(bl.buffers[..i])| + rest == target
        invariant off == old(off)
        decreases |bl.buffers| - i
      {
        Settle(bl.heap.raws, bl.buffers, i, rest, target);
        if i == |bl.buffers| {
          return false;
        }
        if rest >= bl.buffers[i].Length() {
          rest := rest - bl.buffers[i].Length();
          i := i + 1;
        } else {
          break;
        }
      }
      Arrive(bl.heap.raws, bl.buffers, i, rest, target);
      p, pOff := CursorAt(bl.buffers, i), rest;
      off := off + o;
      return true;
    }

    /** advance(-o); fails exactly when the list begins first. */
    method Backward(o: nat) returns (ok: bool)
      requires bl.Valid() && Here()
      modifies this
      ensures ok <==> o <= old(off)
      ensures ok ==> off == old(off) - o && Placed() && (o > 0 ==> Here())
    {
      hide Cells, Located, Flat, ListOk, SegmentsOk;
      ListIsOk(bl.heap.raws, bl.State(), bl.id);
      var left := o;
      var i: nat := if p.At? then p.i else |bl.buffers|;
      StartOfPlace(bl.heap.raws, bl.buffers, off, p, pOff);
      while left > 0
        invariant 0 <= left <= o && off + o == old(off) + left
        invariant i <= |bl.buffers| && off == |Cells(bl.buffers[..i])| + pOff
        invariant left < o && left == 0 ==> i < |bl.buffers| && pOff < bl.buffers[i].Length()
        invariant p == old(p) && (o == 0 ==> pOff == old(pOff))
        invariant i < |bl.buffers| ==> pOff <= bl.buffers[i].Length()
        invariant i == |bl.buffers| ==> pOff == 0
        decreases left, i
      {
        if pOff > 0 {
          var d := if left > pOff then pOff else left;
          pOff, off, left := pOff - d, off - d, left - d;
        } else if off > 0 {
          BackOne(bl.heap.raws, bl.buffers, i, off);
          i := i - 1;
          pOff := bl.buffers[i].Length();
        } else {
          return false;
        }
      }
      if o > 0 {
        Arrive(bl.heap.raws, bl.buffers, i, pOff, off);
        p := CursorAt(bl.buffers, i);
      }
      return true;
    }

    /** seek(o): start over from begin(). */
    method Seek(o: nat) returns (ok: bool)
      requires bl.Valid()
      modifies this
      ensures ok <==> o <= bl.len
      ensures ok ==> Here() && off == o
    {
      p := CursorAt(bl.buffers, 0);
      off, pOff := 0, 0;
      LocatedStart(bl.heap.raws, bl.buffers);
      NormalFromLocated(bl.heap.raws, bl.buffers, 0, 0, 0);
      ok := Forward(o);
    }

    /** `if (p == ls->end()) seek(off)`: an iterator left at the end finds later bytes again. */
    method Refresh()
      requires bl.Valid() && Placed()
      modifies this
      ensures Here() && off == old(off) <= bl.len
    {
      PlaceInRange(bl.heap.raws, bl.buffers, off, p, pOff);
      if p.End? {
        var ok := Seek(off);
      }
    }

    /** copy(len, dest): the next n bytes; fails exactly when there are fewer. */
    method Copy(n: nat) returns (ok: bool, out: seq<byte>)
      requires bl.Valid() && Placed()
      modifies this
      ensures ok <==> old(off) + n <= bl.len
      ensures ok ==> off == old(off) + n && Here() && out == bl.Contents()[old(off)..old(off) + n]
    {
      Refresh();
      out := [];
      var left: nat := n;
      ghost var start, flat := off, bl.Contents();
      hide Cells, Located, SegmentsOk, Flat;
      while left > 0
        invariant Here() && off + left == start + n
        invariant start <= off <= bl.len == |flat| && out == flat[start..off]
      {
        if p.End? {
          return false, out;
        }
        var part := Chunk(left);
        ExtendCut(flat, start, off, off + |part|, out, part);
        out := out + part;
        var moved := Forward(|part|);
        left := left - |part|;
      }
      return true, out;
    }

    /** What one round of the copying loops takes: the rest of this segment, or less. */
    method Chunk(left: nat) returns (part: seq<byte>)
      requires bl.Valid() && Here() && p.At? && 0 < left
      ensures 0 < |part| <= left && pOff + |part| <= bl.buffers[p.i].Length()
      ensures off + |part| <= bl.len && part == bl.Contents()[off..off + |part|]
    {
      hide Cells, CellsOf, SegmentsOk, Located, ListOk, Flat;
      ListIsOk(bl.heap.raws, bl.State(), bl.id);
      LenIsExact(bl.heap.raws, bl.State(), bl.id);
      var seg := bl.buffers[p.i];
      LocatedInside(bl.heap.raws, bl.buffers, p.i, pOff, off);
      var howmuch := RunIn(seg, pOff, left);
      LocatedFlat(bl.heap.raws, bl.buffers, p.i, pOff, off, howmuch);
      part := bl.heap.raws[seg.raw].data[seg.off + pOff..seg.off + pOff + howmuch];
    }

    /** copy_in(len, src): overwrite the next bytes of the list in place; fails exactly when there
        are fewer. What the bytes become is what the written cells become: see Written. */
    method CopyIn(src: seq<byte>) returns (ok: bool)
      requires bl.Valid() && Placed()
      modifies this, bl.heap
      ensures ok <==> old(off) + |src| <= bl.len
      ensures ok ==> Written(old(bl.heap.raws), bl.heap.raws, Cells(bl.buffers)[old(off)..old(off) + |src|], src)
      ensures ok ==> off == old(off) + |src| && Placed() && bl.Valid()
    {
      hide Cells, Located, SegmentsOk, Written, ListOk, Flat;
      Refresh();
      LenIsExact(bl.heap.raws, bl.State(), bl.id);
      var rest := src;
      ghost var m, start, cs, done := bl.heap.raws, off, Cells(bl.buffers), [];
      WrittenNothing(m);
      assert cs[off..off] == [];
      while |rest| > 0
        invariant Here() && bl.Valid() && src == done + rest && off == start + |done| <= bl.len
        invariant Written(m, bl.heap.raws, cs[start..off], done)
      {
        if p.End? {
          return false;
        }
        var n := PutSome(rest, m, start, done);
        TakeMore(done, rest, n);
        done, rest := done + rest[..n], rest[n..];
      }
      TakeMore(done, rest, 0);
      return true;
    }

    /** One round of copy_in. */
    method PutSome(rest: seq<byte>, ghost m: Memory, ghost start: nat, ghost done: seq<byte>) returns (n: nat)
      requires bl.Valid() && Here() && p.At? && rest != [] && start <= off <= bl.len
      requires Written(m, bl.heap.raws, Cells(bl.buffers)[start..off], done)
      modifies this, bl.heap
      ensures 0 < n <= |rest| && Here() && bl.Valid() && off == old(off) + n <= bl.len
      ensures Written(m, bl.heap.raws, Cells(bl.buffers)[start..off], done + rest[..n])
    {
      hide Cells, Located, SegmentsOk, Written;
      n := ChunkSize(|rest|);
      ghost var m1 := bl.heap.raws;
      Put(rest[..n]);
      WrittenMore(m, m1, bl.heap.raws, Cells(bl.buffers), start, off, n, done, rest[..n]);
      var moved := Forward(n);
    }

    method ChunkSize(left: nat) returns (n: nat)
      requires bl.Valid() && Here() && p.At? && 0 < left
      ensures 0 < n <= left && pOff + n <= bl.buffers[p.i].Length() && off + n <= bl.len
    {
      LocatedInside(bl.heap.raws, bl.buffers, p.i, pOff, off);
      n := RunIn(bl.buffers[p.i], pOff, left);
    }

    /** p->copy_in(p_off, n, src). */
    method Put(data: seq<byte>)
      requires bl.Valid() && Here() && p.At? && pOff + |data| <= bl.buffers[p.i].Length()
      modifies bl.heap
      ensures bl.Valid() && off + |data| <= bl.len
      ensures Written(old(bl.heap.raws), bl.heap.raws, Cells(bl.buffers)[off..off + |data|], data)
    {
      hide Written, PutChunk, Located, Cells, CellsOf, SegmentsOk;
      PutIsWritten(bl.heap.raws, bl.buffers, p.i, pOff, off, data);
      var seg := bl.buffers[p.i];
      ghost var m, cs := bl.heap.raws, Cells(bl.buffers)[off..off + |data|];
      var m' := PutChunk(bl.heap.raws, seg.raw, seg.off + pOff, data);
      WrittenKeepsList(m, m', cs, data, bl.State(), bl.id);
      bl.heap.raws := m';
    }
  }

  lemma PutIsWritten(m: Memory, bs: seq<Ptr>, i: nat, pOff: nat, off: nat, data: seq<byte>)
    requires SegmentsOk(m, bs) && i < |bs| && Located(bs, i, pOff, off)
    requires pOff + |data| <= bs[i].Length()
    ensures SegmentOk(m, bs[i]) && off + |data| <= |Cells(bs)|
    ensures Written(m, PutChunk(m, bs[i].raw, bs[i].off + pOff, data), Cells(bs)[off..off + |data|], data)
  {
    hide Written, PutChunk, Cells, CellsOf, Located, SegmentsOk;
    LocatedInside(m, bs, i, pOff, off);
    LocatedCells(bs, i, pOff, off, |data|);
    WriteChunk(m, bs[i].raw, bs[i].off + pOff, data);
  }

  /** Memory m' is m with `data` written into the cells cs, in this order. */
  ghost predicate Written(m: Memory, m': Memory, cs: seq<Cell>, data: seq<byte>) {
    && |cs| == |data|
    && m'.Keys == m.Keys
    && (forall r | r in m :: m'[r] == m[r].(data := m'[r].data) && |m'[r].data| == |m[r].data|)
    && (forall r, k | r in m && 0 <= k < |m[r].data| && Cell(r, k) !in cs :: m'[r].data[k] == m[r].data[k])
    && (forall j | 0 <= j < |cs| :: cs[j].raw in m && cs[j].pos < |m[cs[j].raw].data|)
    && (forall j | 0 <= j < |cs| && cs[j] !in cs[j + 1..] :: m'[cs[j].raw].data[cs[j].pos] == data[j])
  }

  lemma WrittenNothing(m: Memory)
    ensures Written(m, m, [], [])
  {
  }

  /** memcpy into one allocation. */
  function PutChunk(m: Memory, r: RawId, at: nat, data: seq<byte>): Memory
    requires r in m && at + |data| <= |m[r].data|
  {
    m[r := m[r].(data := m[r].data[..at] + data + m[r].data[at + |data|..])]
  }

  lemma CellsOfAt(p: Ptr)
    requires p.Ptr?
    ensures forall k | 0 <= k < p.len :: CellsOf(p)[k] == Cell(p.raw, p.off + k)
  {
  }

  lemma WriteChunk(m: Memory, r: RawId, at: nat, data: seq<byte>)
    requires r in m && at + |data| <= |m[r].data|
    ensures Written(m, PutChunk(m, r, at, data), CellsOf(Ptr(r, at, |data|)), data)
  {
    var cs := CellsOf(Ptr(r, at, |data|));
    var m' := PutChunk(m, r, at, data);
    hide CellsOf;
    CellsOfAt(Ptr(r, at, |data|));
    forall k: nat | at <= k < at + |data| ensures Cell(r, k) in cs {
      assert cs[k - at] == Cell(r, k);
    }
  }

  lemma WrittenConcat(m0: Memory, m1: Memory, m2: Memory, a: seq<Cell>, x: seq<byte>, b: seq<Cell>, y: seq<byte>)
    requires Written(m0, m1, a, x) && Written(m1, m2, b, y)
    ensures Written(m0, m2, a + b, x + y)
  {
    var cs := a + b;
    forall j | 0 <= j < |cs| && cs[j] !in cs[j + 1..]
      ensures m2[cs[j].raw].data[cs[j].pos] == (x + y)[j]
    {
      if j < |a| {
        assert cs[j + 1..] == a[j + 1..] + b;
        assert Cell(cs[j].raw, cs[j].pos) !in b;
      } else {
        assert cs[j + 1..] == b[j - |a| + 1..];
      }
    }
  }

  lemma WrittenMore(m0: Memory, m1: Memory, m2: Memory, cs: seq<Cell>, start: nat, at: nat, n: nat,
                    done: seq<byte>, more: seq<byte>)
    requires start <= at && at + n <= |cs|
    requires Written(m0, m1, cs[start..at], done) && Written(m1, m2, cs[at..at + n], more)
    ensures Written(m0, m2, cs[start..at + n], done + more)
  {
    hide Written;
    SliceConcat(cs, start, at, at + n);
    WrittenConcat(m0, m1, m2, cs[start..at], done, cs[at..at + n], more);
  }

  lemma WrittenKeepsList(m: Memory, m': Memory, cs: seq<Cell>, data: seq<byte>, l: ListState, id: nat)
    requires Written(m, m', cs, data) && ListOk(m, l, id)
    ensures ListOk(m', l, id)
  {
    forall i | 0 <= i < |l.buffers| ensures SegmentOk(m', l.buffers[i]) {
      assert SegmentOk(m, l.buffers[i]);
    }
  }

  lemma PlaceInRange(m: Memory, bs: seq<Ptr>, off: nat, p: Cursor, pOff: nat)
    requires SegmentsOk(m, bs) && Stands(bs, off, p, pOff)
    ensures off <= |Cells(bs)|
  {
    if p.At? {
      LocatedInside(m, bs, p.i, pOff, off);
    }
  }

  lemma StartOfPlace(m: Memory, bs: seq<Ptr>, off: nat, p: Cursor, pOff: nat)
    requires SegmentsOk(m, bs) && Normal(bs, off, p, pOff)
    ensures var i := if p.At? then p.i else |bs|;
            && i <= |bs|
            && off == |Cells(bs[..i])| + pOff
            && (i < |bs| ==> pOff < bs[i].Length())
            && (i == |bs| ==> pOff == 0)
  {
    assert bs[..|bs|] == bs;
  }

  lemma Arrive(m: Memory, bs: seq<Ptr>, i: nat, rest: nat, target: nat)
    requires SegmentsOk(m, bs) && i <= |bs| && |Cells(bs[..i])| + rest == target
    requires if i < |bs| then rest == 0 || rest < bs[i].Length() else rest == 0
    ensures Normal(bs, target, CursorAt(bs, i), rest) && target <= |Cells(bs)|
  {
    if i < |bs| {
      assert SegmentOk(m, bs[i]);
      LocatedInside(m, bs, i, rest, target);
    } else {
      assert bs[..i] == bs;
    }
  }

  lemma BackOne(m: Memory, bs: seq<Ptr>, i: nat, off: nat)
    requires SegmentsOk(m, bs) && i <= |bs| && 0 < off == |Cells(bs[..i])|
    ensures 0 < i && off == |Cells(bs[..i - 1])| + bs[i - 1].Length() && 0 < bs[i - 1].Length()
  {
    NoSegments(bs[..0]);
    CellsPrefix(bs, i - 1);
    assert SegmentOk(m, bs[i - 1]);
  }

  // ------------------------------------------------------------------
  // What copy_in means for the bytes of a list

  /** The flat bytes a caller of copy_in expects. */
  ghost function Overwrite(m: Memory, bs: seq<Ptr>, off: nat, src: seq<byte>): (t: seq<byte>)
    requires SegmentsOk(m, bs) && off + |src| <= |Cells(bs)|
    ensures |t| == |Cells(bs)|
  {
    Flat(m, bs)[..off] + src + Flat(m, bs)[off + |src|..]
  }

  /** Places that show the same cell are to show the same byte. */
  ghost predicate Agrees(cs: seq<Cell>, bytes: seq<byte>)
    requires |cs| == |bytes|
  {
    forall i, j | 0 <= i < |cs| && 0 <= j < |cs| && cs[i] == cs[j] :: bytes[i] == bytes[j]
  }

  lemma {:induction false} LastOccurrence(cs: seq<Cell>, c: Cell) returns (j: nat)
    requires c in cs
    ensures j < |cs| && cs[j] == c && c !in cs[j + 1..]
  {
    j := |cs| - 1;
    if cs[j] != c {
      var front := cs[..j];
      j := LastOccurrence(front, c);
      assert forall k | j + 1 <= k < |cs| :: cs[k] != c by {
        forall k | j + 1 <= k < |cs| ensures cs[k] != c {
          if k < |cs| - 1 {
            assert front[j + 1..][k - j - 1] == cs[k];
          }
        }
      }
    }
  }

  lemma FlatAt(m: Memory, bs: seq<Ptr>, k: nat)
    requires SegmentsOk(m, bs) && k < |Cells(bs)|
    ensures var c := Cells(bs)[k];
            c.raw in m && c.pos < |m[c.raw].data| && Flat(m, bs)[k] == m[c.raw].data[c.pos]
  {
    CellsPublished(m, bs);
    assert Published(m, Cells(bs)[k]);
  }

  lemma OverwriteAt(m: Memory, bs: seq<Ptr>, off: nat, src: seq<byte>, k: nat)
    requires SegmentsOk(m, bs) && off + |src| <= |Cells(bs)| && k < |Cells(bs)|
    ensures Overwrite(m, bs, off, src)[k] == if off <= k < off + |src| then src[k - off] else Flat(m, bs)[k]
  {
  }

  /** A write shows at one place of the list: the byte written there last, or the old byte. */
  lemma WrittenAt(m: Memory, m': Memory, bs: seq<Ptr>, off: nat, src: seq<byte>, k: nat)
    requires SegmentsOk(m, bs) && SegmentsOk(m', bs) && off + |src| <= |Cells(bs)| && k < |Cells(bs)|
    requires Written(m, m', Cells(bs)[off..off + |src|], src)
    requires Agrees(Cells(bs), Overwrite(m, bs, off, src))
    ensures Flat(m', bs)[k] == Overwrite(m, bs, off, src)[k]
  {
    hide SegmentsOk, Cells, Flat, Overwrite, Written, Agrees;
    FlatAt(m, bs, k);
    FlatAt(m', bs, k);
    OverwriteAt(m, bs, off, src, k);
    var cs, c := Cells(bs)[off..off + |src|], Cells(bs)[k];
    assert off <= k < off + |src| ==> cs[k - off] == c;
    if c in cs {
      var j := LastOccurrence(cs, c);
      assert cs[j] == Cells(bs)[off + j];
      OverwriteAt(m, bs, off, src, off + j);
      AgreesAt(Cells(bs), Overwrite(m, bs, off, src), k, off + j);
      WrittenLast(m, m', cs, src, j);
    } else {
      WrittenOther(m, m', cs, src, c);
    }
  }

  lemma AgreesAt(cs: seq<Cell>, bytes: seq<byte>, i: nat, j: nat)
    requires |cs| == |bytes| && Agrees(cs, bytes) && i < |cs| && j < |cs| && cs[i] == cs[j]
    ensures bytes[i] == bytes[j]
  {
  }

  lemma WrittenLast(m: Memory, m': Memory, cs: seq<Cell>, src: seq<byte>, j: nat)
    requires Written(m, m', cs, src) && j < |cs| && cs[j] !in cs[j + 1..]
    ensures var c := cs[j]; c.raw in m' && c.pos < |m'[c.raw].data| && m'[c.raw].data[c.pos] == src[j]
  {
  }

  lemma WrittenOther(m: Memory, m': Memory, cs: seq<Cell>, src: seq<byte>, c: Cell)
    requires Written(m, m', cs, src) && c !in cs && c.raw in m && c.pos < |m[c.raw].data|
    ensures c.raw in m' && c.pos < |m'[c.raw].data| && m'[c.raw].data[c.pos] == m[c.raw].data[c.pos]
  {
    assert Cell(c.raw, c.pos) == c;
  }

  lemma WrittenSegments(m: Memory, m': Memory, cs: seq<Cell>, src: seq<byte>, bs: seq<Ptr>)
    requires Written(m, m', cs, src) && SegmentsOk(m, bs)
    ensures SegmentsOk(m', bs)
  {
    forall i | 0 <= i < |bs| ensures SegmentOk(m', bs[i]) {
      assert SegmentOk(m, bs[i]);
    }
  }

  /** copy_in overwrites exactly the addressed bytes if and only if the bytes asked for agree
      wherever the list shows one cell at two places. */
  lemma OverwriteExact(m: Memory, m': Memory, bs: seq<Ptr>, off: nat, src: seq<byte>)
    requires SegmentsOk(m, bs) && off + |src| <= |Cells(bs)|
    requires Written(m, m', Cells(bs)[off..off + |src|], src)
    ensures SegmentsOk(m', bs)
    ensures Flat(m', bs) == Overwrite(m, bs, off, src) <==> Agrees(Cells(bs), Overwrite(m, bs, off, src))
  {
    hide Written, Cells, SegmentsOk, Overwrite;
    WrittenSegments(m, m', Cells(bs)[off..off + |src|], src, bs);
    CellsPublished(m', bs);
    if Agrees(Cells(bs), Overwrite(m, bs, off, src)) {
      forall k | 0 <= k < |Cells(bs)| ensures Flat(m', bs)[k] == Overwrite(m, bs, off, src)[k] {
        WrittenAt(m, m', bs, off, src, k);
      }
    }
  }

  /** A list that shows none of the overwritten cells does not change. */
  lemma OverwriteElsewhere(m: Memory, m': Memory, cs: seq<Cell>, src: seq<byte>, other: seq<Ptr>)
    requires Written(m, m', cs, src) && SegmentsOk(m, other)
    requires forall c | c in Cells(other) :: c !in cs
    ensures SegmentsOk(m', other) && Flat(m', other) == Flat(m, other)
  {
    hide Cells, SegmentsOk;
    WrittenSegments(m, m', cs, src, other);
    CellsPublished(m, other);
    CellsPublished(m', other);
    forall k | 0 <= k < |Cells(other)| ensures Flat(m', other)[k] == Flat(m, other)[k] {
      var c := Cells(other)[k];
      assert Published(m, c) && c in Cells(other);
      assert Cell(c.raw, c.pos) !in cs;
    }
  }

  /** A list that holds one slice twice: writing its first byte changes its second one too. */
  lemma AliasedOverwrite(m: Memory, m': Memory, p: Ptr, b: byte)
    requires SegmentOk(m, p) && p.len == 1 && m[p.raw].data[p.off] != b
    requires Written(m, m', Cells([p, p])[..1], [b])
    ensures SegmentsOk(m, [p, p]) && SegmentsOk(m', [p, p])
    ensures Flat(m', [p, p]) == [b, b] != [b] + Flat(m, [p, p])[1..]
  {
    WrittenSegments(m, m', Cells([p, p])[..1], [b], [p, p]);
    assert [p, p][1..] == [p];
    CellsSingle(p);
    var c := Cell(p.raw, p.off);
    assert Cells([p, p]) == [c, c];
    assert Cells([p, p])[..1] == [c];
    CellsPublished(m, [p, p]);
    CellsPublished(m', [p, p]);
    assert [c][0] !in [c][1..];
    assert m'[c.raw].data[c.pos] == [b][0];
    assert Flat(m, [p, p])[1] == m[c.raw].data[c.pos] != ([b, b])[1];
    assert ([b] + Flat(m, [p, p])[1..])[1] == Flat(m, [p, p])[1];
  }
}
