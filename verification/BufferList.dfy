/** buffer::list: the operations that append, share, cut and move slices.
    Each is proved against the flat sequence of cells (hence of bytes) the list denotes. */
module BufferLists {
  import opened Basics
  import opened Buffer
  import opened Slices

  /** The allocator: every buffer::create* call. */
  class Heap {
    var raws: Memory

    constructor ()
      ensures raws == map[]
    {
      raws := map[];
    }

    /** A new allocation whose bytes are not initialised. With an owner it is an append buffer,
        of which nothing is visible yet; without one, all of it may be shown by slices. */
    method Allocate(len: nat, align: nat, owner: Option<nat>) returns (r: RawId)
      requires 0 < align
      requires MemoryOk(raws)
      modifies this
      ensures r !in old(raws) && r in raws && raws == old(raws)[r := raws[r]]
      ensures MemoryOk(raws)
      ensures raws[r].addr % align == 0 && |raws[r].data| == len && raws[r].shareable
      ensures raws[r].owner == owner
      ensures raws[r].used == if owner.Some? then 0 else len
    {
      ghost var free := FreshIdExists(raws);
      r :| r !in raws;
      assert 0 % align == 0;
      var addr: nat :| addr % align == 0;
      ghost var zeros: seq<byte> := seq(len, i => 0);
      assert |zeros| == len;
      var data: seq<byte> :| |data| == len;
      raws := raws[r := Raw(addr, data, true, if owner.Some? then 0 else len, owner)];
    }

    /** raw::clone: a private, shareable copy of a whole allocation. */
    method Clone(r: RawId) returns (c: RawId)
      requires MemoryOk(raws) && r in raws
      modifies this
      ensures c !in old(raws) && c in raws && raws == old(raws)[c := raws[c]]
      ensures MemoryOk(raws)
      ensures raws[c].data == old(raws)[r].data && raws[c].used == old(raws)[r].used
      ensures raws[c].shareable && raws[c].owner == None
    {
      ghost var free := FreshIdExists(raws);
      c :| c !in raws;
      var k: nat := *;
      raws := raws[c := Raw(k, raws[r].data, true, raws[r].used, None)];
    }

    /** `ptr nb(create_aligned(..)); rebuild(nb)`: copy the bytes of some slices, in order, into
        one new allocation. */
    method Consolidate(bs: seq<Ptr>, align: nat) returns (nb: Ptr)
      requires MemoryOk(raws) && SegmentsOk(raws, bs) && bs != [] && 0 < align
      modifies this
      ensures OnlyAllocated(old(raws), raws)
      ensures nb.Ptr? && nb.off == 0 && nb.len == |Cells(bs)|
      ensures nb.raw !in old(raws) && SegmentOk(raws, nb) && raws[nb.raw].addr % align == 0
      ensures SegmentBytes(raws, nb) == Flat(old(raws), bs)
    {
      ghost var m := raws;
      NoEmptySegments(m, bs);
      var total := TotalLength(bs);
      var r := Allocate(total, align, None);
      hide Cells, CellsOf, SegmentsOk;
      var filled := CopyOut(m, raws, bs, raws[r].data);
      raws := raws[r := raws[r].(data := filled)];
      nb := Ptr(r, 0, total);
    }
  }

  /** The copying loop of rebuild(nb): overwrite `image` with the bytes of the slices. */
  method CopyOut(ghost m: Memory, m': Memory, bs: seq<Ptr>, image: seq<byte>) returns (d: seq<byte>)
    requires SegmentsOk(m, bs) && |image| == |Cells(bs)|
    requires forall r | r in m :: r in m' && m'[r] == m[r]
    ensures d == Flat(m, bs)
  {
    hide Cells, CellsOf, Flat, SegmentsOk;
    ghost var flat := Flat(m, bs);
    d := image;
    var pos, i := 0, 0;
    NoSegments(bs[..0]);
    while i < |bs|
      invariant 0 <= i <= |bs| && 0 <= pos == |Cells(bs[..i])| <= |d| == |flat|
      invariant d[..pos] == flat[..pos]
    {
      NthSegment(m, bs, i);
      FlatWindow(m, bs, i, 0, bs[i].Length());
      CellsPrefix(bs, i);
      var part := m'[bs[i].raw].data[bs[i].off..bs[i].End()];
      Overwritten(d, pos, part, flat);
      d := d[..pos] + part + d[pos + |part|..];
      pos := pos + bs[i].len;
      i := i + 1;
    }
    assert bs[..i] == bs;
    assert d == d[..pos] && flat == flat[..pos];
  }

  method TotalLength(bs: seq<Ptr>) returns (n: nat)
    ensures n == |Cells(bs)|
  {
    n := 0;
    var i := 0;
    assert bs[..0] == [];
    while i < |bs|
      invariant 0 <= i <= |bs| && n == |Cells(bs[..i])|
    {
      CellsPrefix(bs, i);
      n := n + bs[i].Length();
      i := i + 1;
    }
    assert bs[..i] == bs;
  }

  lemma ListIsOk(m: Memory, l: ListState, id: nat)
    requires ListOk(m, l, id)
    ensures MemoryOk(m) && SegmentsOk(m, l.buffers)
  {
  }

  class BufferList {
    const id: nat
    const heap: Heap
    var buffers: seq<Ptr>
    var len: nat
    var appendBuffer: Ptr

    ghost function State(): ListState
      reads this
    {
      ListState(buffers, len, appendBuffer)
    }

    ghost predicate Valid()
      reads this, heap
    {
      ListOk(heap.raws, State(), id)
    }

    ghost function Contents(): seq<byte>
      requires Valid()
      reads this, heap
    {
      Flat(heap.raws, buffers)
    }

    constructor (id: nat, heap: Heap)
      requires MemoryOk(heap.raws)
      ensures Valid() && Contents() == []
      ensures this.id == id && this.heap == heap
    {
      this.id := id;
      this.heap := heap;
      buffers := [];
      len := 0;
      appendBuffer := NullPtr;
    }

    method Clear()
      requires Valid()
      modifies this
      ensures Valid() && buffers == [] && Cells(buffers) == [] && appendBuffer == old(appendBuffer)
    {
      buffers := [];
      len := 0;
    }

    /** push_back(const ptr&): empty slices are dropped. */
    method PushBack(bp: Ptr)
      requires Valid()
      requires bp.Length() > 0 ==> SegmentOk(heap.raws, bp)
      modifies this
      ensures Valid() && Cells(buffers) == old(Cells(buffers)) + CellsOf(bp)
      ensures bp.Length() > 0 ==> Contents() == old(Contents()) + SegmentBytes(heap.raws, bp)
      ensures buffers == old(buffers) + (if bp.Length() > 0 then [bp] else [])
      ensures Grown(old(buffers), buffers)
      ensures appendBuffer == old(appendBuffer)
    {
      GrownByConcat(heap.raws, buffers, if bp.Length() > 0 then [bp] else []);
      if bp.Length() == 0 {
        return;
      }
      CellsConcat(buffers, [bp]);
      CellsSingle(bp);
      FlatGrown(heap.raws, buffers, buffers + [bp], bp);
      buffers := buffers + [bp];
      len := len + bp.len;
    }

    /** push_front(ptr&). */
    method PushFront(bp: Ptr)
      requires Valid()
      requires bp.Length() > 0 ==> SegmentOk(heap.raws, bp)
      modifies this
      ensures Valid() && appendBuffer == old(appendBuffer)
      ensures Cells(buffers) == CellsOf(bp) + Cells(old(buffers))
      ensures bp.Length() > 0 ==> Contents() == SegmentBytes(heap.raws, bp) + old(Contents())
    {
      if bp.Length() == 0 {
        return;
      }
      CellsConcat([bp], buffers);
      CellsSingle(bp);
      FlatGrown(heap.raws, buffers, [bp] + buffers, bp);
      buffers := [bp] + buffers;
      len := len + bp.len;
    }

    /** append(const ptr&, off, len): extends the tail slice when the new one continues it. */
    method AppendSlice(bp: Ptr, off: nat, n: nat)
      requires Valid()
      requires bp.Ptr? && off + n <= bp.len
      requires bp.raw in heap.raws && bp.End() <= heap.raws[bp.raw].used
      modifies this
      ensures Valid() && Cells(buffers) == old(Cells(buffers)) + CellsOf(Ptr(bp.raw, bp.off + off, n))
      ensures Contents() == old(Contents()) + heap.raws[bp.raw].data[bp.off + off..bp.off + off + n]
      ensures appendBuffer == old(appendBuffer) && Grown(old(buffers), buffers)
    {
      ghost var bs := buffers;
      Join(bp, off, n);
      FlatGrown(heap.raws, bs, buffers, Ptr(bp.raw, bp.off + off, n));
    }

    /** The two ways append(const ptr&, off, len) takes. */
    method Join(bp: Ptr, off: nat, n: nat)
      requires Valid()
      requires bp.Ptr? && off + n <= bp.len
      requires bp.raw in heap.raws && bp.End() <= heap.raws[bp.raw].used
      modifies this
      ensures Valid() && Cells(buffers) == old(Cells(buffers)) + CellsOf(Ptr(bp.raw, bp.off + off, n))
      ensures appendBuffer == old(appendBuffer) && Grown(old(buffers), buffers)
    {
      var t := |buffers| - 1;
      if buffers != [] && buffers[t].raw == bp.raw && buffers[t].End() == bp.off + off {
        GrowLast(heap.raws, buffers, n);
        buffers := buffers[..t] + [buffers[t].(len := buffers[t].len + n)];
        len := len + n;
        return;
      }
      PushBack(Ptr(bp.raw, bp.off + off, n));
    }

    /** append(const list&): the other list's slices are shared. */
    method AppendList(bl: BufferList)
      requires Valid() && bl.Valid() && bl != this && bl.heap == heap
      modifies this
      ensures Valid() && Cells(buffers) == old(Cells(buffers)) + Cells(bl.buffers)
      ensures Contents() == old(Contents()) + bl.Contents() && appendBuffer == old(appendBuffer)
      ensures Grown(old(buffers), buffers)
    {
      ghost var l0 := State();
      len := len + bl.len;
      var i := 0;
      while i < |bl.buffers|
        invariant 0 <= i <= |bl.buffers|
        invariant buffers == l0.buffers + bl.buffers[..i]
        invariant len == l0.len + bl.len && appendBuffer == l0.appendBuffer
      {
        buffers := buffers + [bl.buffers[i]];
        i := i + 1;
      }
      assert bl.buffers[..i] == bl.buffers;
      GrownByConcat(heap.raws, l0.buffers, bl.buffers);
      SegmentsConcat(heap.raws, l0.buffers, bl.buffers);
      CellsConcat(l0.buffers, bl.buffers);
    }

    /** Write `data` right behind the append buffer and show it as a new tail of the list. */
    method FillAppendBuffer(data: seq<byte>)
      requires Valid() && appendBuffer.Ptr?
      requires appendBuffer.End() + |data| <= |heap.raws[appendBuffer.raw].data|
      modifies this, heap
      ensures AppendedBytes(old(heap.raws), old(State()), heap.raws, State(), id, data)
      ensures appendBuffer == old(appendBuffer).(len := old(appendBuffer).len + |data|)
    {
      hide ListOk, Evolves, FreshBytes, Grown, Cells, CellsOf, Flat, AppendedBytes, WriteBehind;
      ghost var m, l := heap.raws, State();
      var at := appendBuffer.End();
      AppendBufferKnown(m, l, id);
      FilledBehind(m, l, id, data);
      heap.raws := WriteBehind(heap.raws, appendBuffer, data);
      appendBuffer := appendBuffer.(len := appendBuffer.len + |data|);
      AppendSlice(appendBuffer, appendBuffer.End() - |data|, |data|);
      ExtendedByFresh(m, l, heap.raws, State(), id, CellsOf(Ptr(appendBuffer.raw, at, |data|)), data);
    }

    /** Start a fresh append buffer of n bytes, none of them in use yet. */
    method NewAppendBuffer(n: nat)
      requires Valid()
      modifies this, heap
      ensures AppendedBytes(old(heap.raws), old(State()), heap.raws, State(), id, [])
      ensures buffers == old(buffers)
      ensures appendBuffer.Ptr? && appendBuffer.len == 0 && |heap.raws[appendBuffer.raw].data| == n
    {
      ghost var m := heap.raws;
      var r := heap.Allocate(n, APPEND_SIZE, Some(id));
      appendBuffer := Ptr(r, 0, 0);
      assert Evolves(m, heap.raws, id);
      EvolvesKeepsSegments(m, heap.raws, id, buffers);
      GrownByConcat(m, buffers, []);
    }

    function UnusedTail(): nat
      requires appendBuffer.Ptr? ==> appendBuffer.raw in heap.raws && appendBuffer.End() <= |heap.raws[appendBuffer.raw].data|
      reads this, heap
    {
      if appendBuffer.Ptr? then |heap.raws[appendBuffer.raw].data| - appendBuffer.End() else 0
    }

    /** append(char). */
    method AppendChar(c: byte)
      requires Valid()
      modifies this, heap
      ensures Valid()
      ensures AppendedBytes(old(heap.raws), old(State()), heap.raws, State(), id, [c])
    {
      ghost var m, l := heap.raws, State();
      if UnusedTail() == 0 {
        NewAppendBuffer(APPEND_SIZE);
        ghost var m1, l1 := heap.raws, State();
        FillAppendBuffer([c]);
        AppendedBytesTrans(m, l, m1, l1, heap.raws, State(), id, [], [c]);
        assert [] + [c] == [c];
      } else {
        FillAppendBuffer([c]);
      }
    }

    /** append(const char *, len): fill the gap of the append buffer, then take a new one. */
    method AppendBytes(data: seq<byte>)
      requires Valid()
      modifies this, heap
      ensures Valid()
      ensures AppendedBytes(old(heap.raws), old(State()), heap.raws, State(), id, data)
    {
      ghost var m, l := heap.raws, State();
      var rest := data;
      ghost var done: seq<byte> := [];
      EvolvesRefl(m, id);
      GrownByConcat(m, buffers, []);
      while |rest| > 0
        invariant Valid()
        invariant data == done + rest
        invariant AppendedBytes(m, l, heap.raws, State(), id, done)
        decreases |rest|, UnusedTail() == 0
      {
        var gap := UnusedTail();
        if gap > 0 {
          if gap > |rest| {
            gap := |rest|;
          }
          ghost var m1, l1 := heap.raws, State();
          FillAppendBuffer(rest[..gap]);
          AppendedBytesTrans(m, l, m1, l1, heap.raws, State(), id, done, rest[..gap]);
          TakeMore(done, rest, gap);
          done, rest := done + rest[..gap], rest[gap..];
        }
        if |rest| == 0 {
          break;
        }
        ghost var m2, l2 := heap.raws, State();
        NewAppendBuffer(RoundUpToAppendSize(|rest|));
        AppendedBytesTrans(m, l, m2, l2, heap.raws, State(), id, done, []);
        TakeMore(done, [], 0);
      }
      TakeMore(done, rest, 0);
    }

    /** list::make_shareable: private copies replace unshareable allocations. */
    method MakeShareable()
      requires Valid()
      modifies this, heap
      ensures Valid() && OnlyAllocated(old(heap.raws), heap.raws)
      ensures Contents() == old(Contents()) && appendBuffer == old(appendBuffer) && len == old(len)
      ensures AllShareable(heap.raws, buffers) && |buffers| == |old(buffers)|
    {
      hide SameSegments, AllShareable, OnlyAllocated, Cells, Flat, SegmentsOk;
      ghost var m, bs := heap.raws, buffers;
      var i := 0;
      NothingAllocated(m);
      SameAsItself(m, bs);
      while i < |buffers|
        invariant 0 <= i <= |buffers| && MemoryOk(heap.raws)
        invariant OnlyAllocated(m, heap.raws) && appendBuffer == old(appendBuffer) && len == old(len)
        invariant SameSegments(m, bs, heap.raws, buffers) && AllShareable(heap.raws, buffers[..i])
      {
        SameSegmentAt(m, bs, heap.raws, buffers, i);
        if !heap.raws[buffers[i].raw].shareable {
          ghost var m1 := heap.raws;
          var c := heap.Clone(buffers[i].raw);
          SameSegmentsClone(m, bs, m1, buffers, heap.raws, i, c);
          ShareableClone(m1, heap.raws, buffers, i, c);
          OneAllocated(m, m1, heap.raws, c);
          buffers := buffers[i := buffers[i].(raw := c)];
        } else {
          ShareableKeep(heap.raws, buffers, i);
        }
        i := i + 1;
      }
      assert buffers[..i] == buffers;
      SharedDone(m, bs, heap.raws, buffers);
    }

    /** claim_append: the other list's slices move here and it is left empty. */
    method ClaimAppend(bl: BufferList, allowNonshareable: bool)
      requires Valid() && bl.Valid() && bl != this && bl.heap == heap && bl.id != id
      modifies this, bl, heap
      ensures Valid() && bl.Valid() && Evolves(old(heap.raws), heap.raws, id)
      ensures Contents() == old(Contents()) + old(bl.Contents())
      ensures bl.buffers == [] && bl.appendBuffer == old(bl.appendBuffer) && appendBuffer == old(appendBuffer)
      ensures |buffers| == |old(buffers)| + |old(bl.buffers)|
      ensures !allowNonshareable ==> AllShareable(heap.raws, buffers[|old(buffers)|..])
    {
      ghost var m := heap.raws;
      len := len + bl.len;
      if !allowNonshareable {
        bl.MakeShareable();
      }
      EvolvesByAllocation(m, heap.raws, id);
      EvolvesKeepsSegments(m, heap.raws, id, buffers);
      SegmentsConcat(heap.raws, buffers, bl.buffers);
      assert (buffers + bl.buffers)[|buffers|..] == bl.buffers;
      buffers, bl.buffers := buffers + bl.buffers, [];
      bl.len := 0;
    }

    /** operator=, and behind the copy constructor: share the other list's segments, but take private
        copies of those that may not be shared. */
    method Assign(bl: BufferList)
      requires Valid() && bl.Valid() && bl.heap == heap
      modifies this, heap
      ensures Valid() && OnlyAllocated(old(heap.raws), heap.raws)
      ensures Contents() == old(bl.Contents()) && appendBuffer == old(appendBuffer)
      ensures bl == this ==> State() == old(State())
      ensures bl != this ==> AllShareable(heap.raws, buffers) && |buffers| == |bl.buffers|
    {
      NothingAllocated(heap.raws);
      if bl != this {
        hide OnlyAllocated, Cells, Flat, SegmentsOk, AllShareable;
        buffers := bl.buffers;
        len := bl.len;
        MakeShareable();
      }
    }

    /** claim_prepend. */
    method ClaimPrepend(bl: BufferList, allowNonshareable: bool)
      requires Valid() && bl.Valid() && bl != this && bl.heap == heap && bl.id != id
      modifies this, bl, heap
      ensures Valid() && bl.Valid() && Evolves(old(heap.raws), heap.raws, id)
      ensures Contents() == old(bl.Contents()) + old(Contents())
      ensures bl.buffers == [] && bl.appendBuffer == old(bl.appendBuffer) && appendBuffer == old(appendBuffer)
      ensures |buffers| == |old(buffers)| + |old(bl.buffers)|
      ensures !allowNonshareable ==> AllShareable(heap.raws, buffers[..|old(bl.buffers)|])
    {
      ghost var m := heap.raws;
      len := len + bl.len;
      if !allowNonshareable {
        bl.MakeShareable();
      }
      EvolvesByAllocation(m, heap.raws, id);
      EvolvesKeepsSegments(m, heap.raws, id, buffers);
      SegmentsConcat(heap.raws, bl.buffers, buffers);
      assert (bl.buffers + buffers)[..|bl.buffers|] == bl.buffers;
      buffers, bl.buffers := bl.buffers + buffers, [];
      bl.len := 0;
    }

    /** Walk over whole segments to the one that holds byte `pos`. */
    method Skip(pos: nat) returns (i: nat, off: nat)
      requires Valid() && pos <= len
      ensures Located(buffers, i, off, pos)
    {
      i, off := 0, pos;
      ghost var at: nat := 0;
      LocatedStart(heap.raws, buffers);
      while off > 0 && off >= buffers[i].Length()
        invariant Located(buffers, i, 0, at) && at + off == pos
        invariant i == |buffers| ==> off == 0
        decreases |buffers| - i
      {
        LocatedNext(heap.raws, buffers, i, 0, at);
        off, at := off - buffers[i].Length(), at + buffers[i].Length();
        i := i + 1;
        LocatedInside(heap.raws, buffers, i, 0, at);
      }
    }

    /** substr_of: share the cells [pos, pos+n) of another list; fails when it is too short. */
    method SubstrOf(other: BufferList, pos: nat, n: nat) returns (ok: bool)
      requires Valid() && other.Valid() && other != this && other.heap == heap
      modifies this
      ensures ok <==> pos + n <= other.len
      ensures Valid() && appendBuffer == old(appendBuffer)
      ensures !ok ==> State() == old(State())
      ensures ok ==> Cells(buffers) == Cells(other.buffers)[pos..pos + n]
      ensures ok ==> Contents() == other.Contents()[pos..pos + n]
    {
      if pos + n > other.len {
        return false;
      }
      Clear();
      var i, off := other.Skip(pos);
      KeepRestCells(heap.raws, other.buffers, i, off, pos);
      LocatedInside(heap.raws, other.buffers, i, off, pos);
      PiecesCells(heap.raws, other.buffers[i..], off, n);
      CutTail(Cells(other.buffers), pos, off, n);
      var out, total := ShareRun(heap.raws, other.buffers, i, off, n);
      buffers, len := out, total;
      FlatCut(heap.raws, buffers, other.buffers, pos, n);
      return true;
    }

    /** The copying loop of substr_of. */
    static method ShareRun(ghost m: Memory, src: seq<Ptr>, i0: nat, off0: nat, n: nat) returns (out: seq<Ptr>, total: nat)
      requires i0 <= |src| && HasRun(m, src[i0..], off0, n)
      ensures out == Pieces(src[i0..], off0, n) && total == n
    {
      hide HasRun, Pieces, Without;
      out, total := [], 0;
      var i: nat, off: nat, left: nat := i0, off0, n;
      ghost var all := Pieces(src[i0..], off0, n);
      assert [] + all == all;
      while left > 0
        invariant i <= |src| && total + left == n
        invariant left > 0 ==> HasRun(m, src[i..], off, left)
        invariant out + Pieces(src[i..], off, left) == all
      {
        CutRound(m, src[i..], off, left, out);
        assert src[i..][1..] == src[i + 1..];
        var howmuch := RunIn(src[i], off, left);
        out := out + [Ptr(src[i].raw, src[i].off + off, howmuch)];
        total := total + howmuch;
        if off + left < src[i].len {
          left := 0;
          break;
        }
        i, off, left := i + 1, 0, left - howmuch;
      }
      NothingToCut(src[i..], off);
      assert out + [] == out;
    }

    /** The cutting loop of splice, from byte `off0` of segment i on. The slices it hands to
        claim_by are collected in `given`; claim_by is a different list, so appending them
        afterwards makes no difference. The length goes down as the code takes it down: by
        off + len where the cut ends inside a segment, by the segment's length where the whole
        segment goes, even though `off` of its bytes were kept in front. */
    static method CutRun(ghost m: Memory, bs: seq<Ptr>, i: nat, off0: nat, n: nat, len0: nat)
      returns (out: seq<Ptr>, given: seq<Ptr>, total: nat)
      requires i <= |bs| && HasRun(m, bs[i..], off0, n) && len0 == |Cells(bs)|
      ensures out == bs[..i] + Without(bs[i..], off0, n)
      ensures given == Pieces(bs[i..], off0, n)
      ensures total == |Cells(out)|
    {
      hide HasRun, Pieces, Without, Cells, SegmentsOk;
      out, given, total := bs, [], len0;
      CellsSplit(bs, i);
      ghost var rest, all, kept := bs[i..], Pieces(bs[i..], off0, n), Without(bs[i..], off0, n);
      var off: nat, left: nat := off0, n;
      assert bs == bs[..i] + rest && [] + all == all;
      while left > 0
        invariant out == bs[..i] + rest
        invariant left > 0 ==> HasRun(m, rest, off, left)
        invariant Without(rest, off, left) == kept && given + Pieces(rest, off, left) == all
        invariant total == |Cells(bs[..i])| + |Cells(rest)|
      {
        CutRound(m, rest, off, left, given);
        CutLengths(m, rest, off, left);
        assert out[i] == rest[0];
        var cur := out[i];
        var howmuch := RunIn(cur, off, left);
        given := given + [Ptr(cur.raw, cur.off + off, howmuch)];
        if off + left < cur.len {
          out := out[i := Ptr(cur.raw, off + left + cur.off, cur.len - (left + off))];
          total := total - (off + left);
          NothingToCut(rest, off);
          rest := TrimFirst(rest, off + left);
          left := 0;
          break;
        }
        total := total - cur.len;
        out := out[..i] + out[i + 1..];
        rest := rest[1..];
        off, left := 0, left - howmuch;
      }
      NothingToCut(rest, off);
      CellsConcat(bs[..i], rest);
      assert given + [] == given;
    }

    /** Append every slice of `ps`. */
    method AppendSlices(ps: seq<Ptr>)
      requires Valid() && SegmentsOk(heap.raws, ps)
      modifies this
      ensures Valid() && appendBuffer == old(appendBuffer)
      ensures Cells(buffers) == old(Cells(buffers)) + Cells(ps)
    {
      hide Cells, CellsOf, ListOk, Flat;
      var i := 0;
      ghost var cc := Cells(buffers);
      NoSegments(ps[..0]);
      assert cc + [] == cc;
      while i < |ps|
        invariant 0 <= i <= |ps| && Valid() && appendBuffer == old(appendBuffer)
        invariant Cells(buffers) == cc + Cells(ps[..i])
      {
        assert SegmentOk(heap.raws, ps[i]);
        CellsPrefix(ps, i);
        ConcatAssoc(cc, Cells(ps[..i]), CellsOf(ps[i]));
        AppendSlice(ps[i], 0, ps[i].len);
        i := i + 1;
      }
      assert ps[..i] == ps;
    }

    /** splice: cut the bytes [pos, pos+n) out, handing their slices to `claimBy` if there is one. */
    method Splice(pos: nat, n: nat, claimBy: BufferList?) returns (ok: bool)
      requires Valid()
      requires claimBy != null ==> claimBy.Valid() && claimBy != this && claimBy.heap == heap
      requires n > 0 && pos < len ==> pos + n <= len
      modifies this, if claimBy == null then {} else {claimBy}
      ensures ok <==> n == 0 || pos < old(len)
      ensures Valid() && appendBuffer == old(appendBuffer)
      ensures claimBy != null ==> claimBy.Valid() && claimBy.appendBuffer == old(claimBy.appendBuffer)
      ensures !ok || n == 0 ==> State() == old(State()) && (claimBy != null ==> claimBy.State() == old(claimBy.State()))
      ensures ok && n > 0 ==>
        && Cells(buffers) == Cells(old(buffers))[..pos] + Cells(old(buffers))[pos + n..]
        && (claimBy != null ==> Cells(claimBy.buffers) == old(Cells(claimBy.buffers)) + Cells(old(buffers))[pos..pos + n])
      ensures ok && n > 0 ==>
        && Contents() == old(Contents())[..pos] + old(Contents())[pos + n..]
        && (claimBy != null ==> claimBy.Contents() == old(claimBy.Contents()) + old(Contents())[pos..pos + n])
    {
      hide Pieces, Without, Located, HasRun, Cells, Flat;
      if n == 0 {
        return true;
      }
      if pos >= len {
        return false;
      }
      ghost var bs := buffers;
      var i, off := Skip(pos);
      LocatedInside(heap.raws, buffers, i, off, pos);
      SpliceCells(heap.raws, buffers, i, off, pos, n);
      FrontInserted(heap.raws, buffers, i, off, pos);
      var kept := buffers[..i] + Front(buffers[i], off) + buffers[i..];
      if off > 0 {
        i := i + 1;
        len := len + off;
      }
      var out, given, total := CutRun(heap.raws, kept, i, off, n, len);
      buffers, len := out, total;
      FlatCutOut(heap.raws, buffers, bs, pos, n);
      if claimBy != null {
        ghost var own := claimBy.buffers;
        claimBy.AppendSlices(given);
        FlatJoinCut(heap.raws, claimBy.buffers, own, bs, pos, n);
      }
      return true;
    }

    /** rebuild(): one contiguous segment with the same bytes. */
    method Rebuild()
      requires Valid()
      modifies this, heap
      ensures Valid() && OnlyAllocated(old(heap.raws), heap.raws)
      ensures Contents() == old(Contents()) && len == old(len) && appendBuffer == old(appendBuffer)
      ensures |buffers| == if len == 0 then 0 else 1
      ensures len > 0 && len % PAGE_SIZE == 0 ==> IsAligned(heap.raws, buffers[0], PAGE_SIZE)
    {
      NoEmptySegments(heap.raws, buffers);
      if len == 0 {
        buffers := [];
        return;
      }
      ghost var m, bs := heap.raws, buffers;
      var nb := heap.Consolidate(buffers, if len % PAGE_SIZE == 0 then PAGE_SIZE else 1);
      assert bs[0..|bs|] == bs && [] + [nb] + [] == [nb];
      ReplaceMiddle(m, heap.raws, bs, 0, |bs|, nb);
      buffers := [nb];
    }

    /** get_contiguous: the n bytes at `pos` as one stretch of memory, merging the
        segments they spread over. */
    method GetContiguous(pos: nat, n: nat) returns (ok: bool, p: Ptr)
      requires Valid()
      modifies this, heap
      ensures ok <==> pos + n <= old(len)
      ensures Valid() && OnlyAllocated(old(heap.raws), heap.raws)
      ensures Contents() == old(Contents()) && len == old(len) && appendBuffer == old(appendBuffer)
      ensures ok && n == 0 ==> p == NullPtr
      ensures ok && n > 0 ==> p.Ptr? && p.len == n && CellsOf(p) == Cells(buffers)[pos..pos + n]
    {
      hide Cells, CellsOf, Flat, ListOk, SegmentsOk, Located, OnlyAllocated;
      ListIsOk(heap.raws, State(), id);
      LenIsExact(heap.raws, State(), id);
      NothingAllocated(heap.raws);
      if pos + n > len {
        return false, NullPtr;
      }
      if n == 0 {
        return true, NullPtr;
      }
      var i, off := Skip(pos);
      LocatedInside(heap.raws, buffers, i, off, pos);
      if off + n <= buffers[i].len {
        LocatedCells(buffers, i, off, pos, n);
        return true, Ptr(buffers[i].raw, buffers[i].off + off, n);
      }
      KeepRestCells(heap.raws, buffers, i, off, pos);
      var raw := MergeAt(i, off, pos, n);
      return true, Ptr(raw, off, n);
    }

    /** The merging branch of get_contiguous. */
    method MergeAt(i: nat, off: nat, pos: nat, n: nat) returns (raw: RawId)
      requires Valid() && i < |buffers| && Located(buffers, i, off, pos) && 0 < n && off + n <= |Cells(buffers[i..])|
      modifies this`buffers, heap
      ensures Valid() && OnlyAllocated(old(heap.raws), heap.raws)
      ensures Contents() == old(Contents())
      ensures pos + n <= |Cells(buffers)| && CellsOf(Ptr(raw, off, n)) == Cells(buffers)[pos..pos + n]
    {
      hide Cells, CellsOf, SegmentsOk, Flat, ListOk, OnlyAllocated, Located, SegmentBytes;
      ghost var m, bs := heap.raws, buffers;
      ListIsOk(m, State(), id);
      MiddleSegments(m, bs, i, |bs|);
      var j := Gather(buffers, i, off + n);
      MiddleSegments(m, bs, i, j);
      var total := TotalLength(buffers[i..j]);
      var nb := heap.Consolidate(buffers[i..j], if total % PAGE_SIZE == 0 then PAGE_SIZE else 1);
      Merged(m, heap.raws, State(), id, i, j, nb, off, pos, n);
      buffers := buffers[..i] + [nb] + buffers[j..];
      return nb.raw;
    }

    /** The gathering loop of get_contiguous: segments i..j together hold `need` bytes. */
    static method Gather(bs: seq<Ptr>, i: nat, need: nat) returns (j: nat)
      requires i < |bs| && 0 < need <= |Cells(bs[i..])|
      ensures i < j <= |bs| && need <= |Cells(bs[i..j])|
    {
      j := i;
      var l := need;
      ghost var got := 0;
      assert bs[i..i] == [];
      hide Cells;
      while j == i || (j < |bs| && l > 0)
        invariant i <= j <= |bs| && got == |Cells(bs[i..j])|
        invariant l == if got <= need then need - got else 0
        decreases |bs| - j
      {
        if l >= bs[j].Length() {
          l := l - bs[j].Length();
        } else {
          l := 0;
        }
        MiddleGrows(bs, i, j);
        got := got + bs[j].Length();
        j := j + 1;
      }
      assert j == |bs| ==> bs[i..j] == bs[i..];
    }

    /** contents_equal: compares segment by segment, whatever the segmentation of either list. */
    method ContentsEqual(other: BufferList) returns (eq: bool)
      requires Valid() && other.Valid() && other.heap == heap
      ensures eq <==> Contents() == other.Contents()
    {
      if len != other.len {
        return false;
      }
      ghost var x, y := Contents(), other.Contents();
      eq := SameRun(heap.raws, buffers, other.buffers);
    }

    /** The comparing loop. */
    static method SameRun(m: Memory, xs: seq<Ptr>, ys: seq<Ptr>) returns (eq: bool)
      requires SegmentsOk(m, xs) && SegmentsOk(m, ys) && |Cells(xs)| == |Cells(ys)|
      ensures eq <==> Flat(m, xs) == Flat(m, ys)
    {
      hide Cells, CellsOf, Located, Flat, SegmentsOk;
      var a: nat, aoff: nat, b: nat, boff: nat := 0, 0, 0, 0;
      ghost var pos: nat, x, y := 0, Flat(m, xs), Flat(m, ys);
      LocatedStart(m, xs);
      LocatedStart(m, ys);
      while a < |xs|
        invariant Located(xs, a, aoff, pos) && Located(ys, b, boff, pos)
        invariant pos <= |x| && x[..pos] == y[..pos]
        decreases |x| - pos
      {
        LocatedInside(m, xs, a, aoff, pos);
        LocatedInside(m, ys, b, boff, pos);
        var n := if xs[a].len - aoff > ys[b].len - boff then ys[b].len - boff else xs[a].len - aoff;
        CompareRound(m, xs, a, aoff, ys, b, boff, pos, n);
        if m[xs[a].raw].data[xs[a].off + aoff..xs[a].off + aoff + n] != m[ys[b].raw].data[ys[b].off + boff..ys[b].off + boff + n] {
          return false;
        }
        LocatedAdvance(m, xs, a, aoff, pos, n);
        LocatedAdvance(m, ys, b, boff, pos, n);
        aoff, boff, pos := aoff + n, boff + n, pos + n;
        if aoff == xs[a].len {
          aoff, a := 0, a + 1;
        }
        if boff == ys[b].len {
          boff, b := 0, b + 1;
        }
      }
      LocatedInside(m, xs, a, aoff, pos);
      assert x[..pos] == x && y[..pos] == y;
      return true;
    }

    /** rebuild_aligned_size_and_memory: same bytes, every segment memory-aligned, and every
        segment but the last a multiple of alignSize. Addresses are masked with alignMemory - 1 and
        posix_memalign takes no other alignment than a power of two. */
    method RebuildAligned(alignSize: nat, alignMemory: nat)
      requires Valid() && 0 < alignSize && PowerOfTwo(alignMemory)
      modifies this, heap
      ensures Valid() && OnlyAllocated(old(heap.raws), heap.raws)
      ensures Contents() == old(Contents()) && len == old(len) && appendBuffer == old(appendBuffer)
      ensures forall k | 0 <= k < |buffers| :: buffers[k].Ptr? && IsAligned(heap.raws, buffers[k], alignMemory)
      ensures forall k | 0 <= k < |buffers| - 1 :: buffers[k].Length() % alignSize == 0
    {
      ghost var m0, flat := heap.raws, Contents();
      var bs, i: nat := buffers, 0;
      hide Flat, Cells, CellsOf, SegmentsOk, AlignedUpTo, PowerOfTwo, And;
      AlignedStart(m0, bs, alignSize, alignMemory);
      while i < |bs|
        invariant i <= |bs| && OnlyAllocated(m0, heap.raws) && MemoryOk(heap.raws)
        invariant SegmentsOk(heap.raws, bs) && Flat(heap.raws, bs) == flat
        invariant AlignedUpTo(heap.raws, bs, i, alignSize, alignMemory)
        modifies heap
        decreases |bs| - i
      {
        ghost var m := heap.raws;
        NthSegment(m, bs, i);
        MaskTellsAlignment(m, bs[i], alignMemory);
        if Fits(heap.raws, bs[i], alignSize, alignMemory) {
          AlignedKeep(m, bs, i, alignSize, alignMemory);
        } else {
          var j := UnalignedRun(heap.raws, bs, i, alignSize, alignMemory);
          if !(j == i + 1 && MaskedAligned(heap.raws, bs[i], alignMemory)) {
            MiddleSegments(m, bs, i, j);
            var nb := heap.Consolidate(bs[i..j], alignMemory);
            ReplaceMiddle(m, heap.raws, bs, i, j, nb);
            AlignedReplace(m, heap.raws, bs, i, j, nb, alignSize, alignMemory);
            bs := bs[..i] + [nb] + bs[j..];
          } else {
            AlignedLast(m, bs, i, alignSize, alignMemory);
          }
        }
        i := i + 1;
      }
      AlignedDone(heap.raws, bs, alignSize, alignMemory);
      ReshapedOk(m0, heap.raws, buffers, bs, flat);
      buffers := bs;
    }

    /** The inner loop: from the misfit i on, gather segments until a fitting one follows at a
        multiple of alignSize. */
    static method UnalignedRun(m: Memory, bs: seq<Ptr>, i: nat, alignSize: nat, alignMemory: nat) returns (j: nat)
      requires i < |bs| && SegmentsOk(m, bs) && 0 < alignSize && 0 < alignMemory
      ensures i < j <= |bs|
      ensures j == |bs| || |Cells(bs[i..j])| % alignSize == 0
    {
      j := i;
      var offset: nat := 0;
      assert bs[i..i] == [];
      hide SegmentsOk;
      while j == i || (j < |bs| && !(Fits(m, bs[j], alignSize, alignMemory) && offset % alignSize == 0))
        invariant i <= j <= |bs| && offset == |Cells(bs[i..j])|
        decreases |bs| - j
      {
        MiddleGrows(bs, i, j);
        offset := offset + bs[j].Length();
        j := j + 1;
        if j < |bs| {
          NthSegment(m, bs, j);
        }
      }
    }
  }
}
