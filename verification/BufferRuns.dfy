/** Whole runs over any number of buffer::lists that share one heap: the lists behave like
    plain byte sequences, however their slices alias and whoever appends where. */
module BufferRuns {
  import opened Basics
  import opened Buffer
  import opened Slices
  import opened BufferLists

  /** One call on list i; where the operation takes a slice or a second list, it is of list j. */
  datatype Op =
    | AppendChar(i: nat, c: byte)
    | AppendBytes(i: nat, data: seq<byte>)
    | AppendSlice(i: nat, j: nat, pos: nat, n: nat)
    | PushBack(i: nat, j: nat, pos: nat, n: nat)
    | PushFront(i: nat, j: nat, pos: nat, n: nat)
    | AppendList(i: nat, j: nat)
    | ClaimAppend(i: nat, j: nat, nonshareable: bool)
    | ClaimPrepend(i: nat, j: nat, nonshareable: bool)
    | Assign(i: nat, j: nat)
    | SubstrOf(i: nat, j: nat, pos: nat, n: nat)
    | Splice(i: nat, j: nat, pos: nat, n: nat)
    | Clear(i: nat)
    | Rebuild(i: nat)
    | GetContiguous(i: nat, pos: nat, n: nat)
    | RebuildAligned(i: nat, alignSize: nat, alignMemory: nat)
  {
    predicate TakesSlice() { AppendSlice? || PushBack? || PushFront? }

    /** Of two different lists. */
    predicate TakesList() { AppendList? || ClaimAppend? || ClaimPrepend? || SubstrOf? || Splice? }
  }

  type Plain = map<nat, seq<byte>>

  predicate PlainEnabled(s: Plain, op: Op) {
    && op.i in s
    && (op.TakesSlice() || op.TakesList() || op.Assign? ==> op.j in s)
    && (op.TakesSlice() ==> op.pos + op.n <= |s[op.j]|)
    && (op.Splice? && op.n > 0 && op.pos < |s[op.i]| ==> op.pos + op.n <= |s[op.i]|)
  }

  /** Bytes [pos, pos+n) go from the middle of sequence i to the end of sequence j. */
  function Moved(s: Plain, i: nat, j: nat, pos: nat, n: nat): Plain
    requires i in s && j in s && pos + n <= |s[i]|
  {
    s[i := s[i][..pos] + s[i][pos + n..]][j := s[j] + s[i][pos..pos + n]]
  }

  /** The same call on plain byte sequences. */
  function PlainStep(s: Plain, op: Op): Plain
    requires PlainEnabled(s, op)
  {
    match op
    case AppendChar(i, c) => s[i := s[i] + [c]]
    case AppendBytes(i, data) => s[i := s[i] + data]
    case AppendSlice(i, j, pos, n) => s[i := s[i] + s[j][pos..pos + n]]
    case PushBack(i, j, pos, n) => s[i := s[i] + s[j][pos..pos + n]]
    case PushFront(i, j, pos, n) => s[i := s[j][pos..pos + n] + s[i]]
    case AppendList(i, j) => s[i := s[i] + s[j]]
    case ClaimAppend(i, j, _) => s[i := s[i] + s[j]][j := []]
    case ClaimPrepend(i, j, _) => s[i := s[j] + s[i]][j := []]
    case Assign(i, j) => s[i := s[j]]
    case SubstrOf(i, j, pos, n) => if pos + n <= |s[j]| then s[i := s[j][pos..pos + n]] else s
    case Splice(i, j, pos, n) =>
      if n == 0 || pos >= |s[i]| then s
      else Moved(s, i, j, pos, n)
    case Clear(i) => s[i := []]
    case Rebuild(_) => s
    case GetContiguous(_, _, _) => s
    case RebuildAligned(_, _, _) => s
  }

  lemma PlainSlice(s: Plain, op: Op)
    requires PlainEnabled(s, op) && op.TakesSlice()
    ensures op.i in s && op.j in s && op.pos + op.n <= |s[op.j]|
    ensures var bytes := s[op.j][op.pos..op.pos + op.n];
            PlainStep(s, op) == s[op.i := if op.PushFront? then bytes + s[op.i] else s[op.i] + bytes]
  {
  }

  predicate PlainRunOk(s: Plain, ops: seq<Op>)
    decreases |ops|, 0
  {
    |ops| > 0 ==> PlainRunOk(s, ops[..|ops| - 1]) && PlainEnabled(PlainRun(s, ops[..|ops| - 1]), ops[|ops| - 1])
  }

  function PlainRun(s: Plain, ops: seq<Op>): Plain
    requires PlainRunOk(s, ops)
    decreases |ops|, 1
  {
    if ops == [] then s else PlainStep(PlainRun(s, ops[..|ops| - 1]), ops[|ops| - 1])
  }

  lemma PlainRunExtends(s: Plain, ops: seq<Op>, op: Op)
    requires PlainRunOk(s, ops)
    ensures PlainEnabled(PlainRun(s, ops), op) ==>
      PlainRunOk(s, ops + [op]) && PlainRun(s, ops + [op]) == PlainStep(PlainRun(s, ops), op)
  {
    assert (ops + [op])[..|ops|] == ops;
  }

  /** The bytes [pos, pos+n) of a list lie in one of its segments. */
  ghost predicate InOneSegment(bs: seq<Ptr>, pos: nat, n: nat) {
    exists k: nat, off: nat :: k < |bs| && Located(bs, k, off, pos) && off + n <= bs[k].Length()
  }

  lemma {:induction false} LocatedUnique(m: Memory, bs: seq<Ptr>, k: nat, off: nat, k': nat, off': nat, pos: nat)
    requires SegmentsOk(m, bs) && Located(bs, k, off, pos) && Located(bs, k', off', pos)
    ensures k == k' && off == off'
  {
    if k < k' {
      PrefixLonger(m, bs, k, k');
    } else if k' < k {
      PrefixLonger(m, bs, k', k);
    }
  }

  lemma PrefixLonger(m: Memory, bs: seq<Ptr>, k: nat, k': nat)
    requires SegmentsOk(m, bs) && k < k' <= |bs|
    ensures |Cells(bs[..k])| + bs[k].Length() <= |Cells(bs[..k'])|
  {
    CellsPrefix(bs, k);
    var rest := bs[k + 1..k'];
    assert bs[..k'] == bs[..k + 1] + rest;
    CellsConcat(bs[..k + 1], rest);
  }

  lemma SliceIsOneSegment(m: Memory, bs: seq<Ptr>, k: nat, off: nat, pos: nat, n: nat)
    requires SegmentsOk(m, bs) && Located(bs, k, off, pos) && InOneSegment(bs, pos, n)
    ensures k < |bs| && SegmentOk(m, bs[k]) && off + n <= bs[k].len
    ensures pos + n <= |Flat(m, bs)|
    ensures m[bs[k].raw].data[bs[k].off + off..bs[k].off + off + n] == Flat(m, bs)[pos..pos + n]
  {
    var k': nat, off': nat :| k' < |bs| && Located(bs, k', off', pos) && off' + n <= bs[k'].Length();
    LocatedUnique(m, bs, k, off, k', off', pos);
    assert SegmentOk(m, bs[k]);
    LocatedFlat(m, bs, k, off, pos, n);
  }

  /** A place has one address, so its segment holds the bytes or none does. */
  lemma OneSegmentOrNot(m: Memory, bs: seq<Ptr>, k: nat, off: nat, pos: nat, n: nat)
    requires SegmentsOk(m, bs) && Located(bs, k, off, pos)
    ensures InOneSegment(bs, pos, n) <==> k < |bs| && off + n <= bs[k].Length()
  {
    hide Located;
    if InOneSegment(bs, pos, n) {
      var k': nat, off': nat :| k' < |bs| && Located(bs, k', off', pos) && off' + n <= bs[k'].Length();
      LocatedUnique(m, bs, k, off, k', off', pos);
    }
  }

  lemma AppendedFrame(m: Memory, l: ListState, m': Memory, l': ListState, id: nat, data: seq<byte>)
    requires ListOk(m, l, id) && AppendedBytes(m, l, m', l', id, data)
    ensures Evolves(m, m', id) && ListOk(m', l', id)
    ensures Flat(m', l'.buffers) == Flat(m, l.buffers) + data
  {
    AppendedBytesFlat(m, l, m', l', id, data);
  }

  lemma NoBytes(s: seq<byte>)
    ensures s + [] == s && [] + s == s
  {
  }

  lemma FlatOfNothing(m: Memory, bs: seq<Ptr>)
    requires bs == []
    ensures Flat(m, bs) == []
  {
  }

  lemma EvolvedIsOk(m: Memory, m': Memory, id: nat)
    requires Evolves(m, m', id)
    ensures MemoryOk(m')
  {
  }

  lemma MovedIs(s: Plain, s': Plain, i: nat, j: nat, pos: nat, n: nat)
    requires i in s && j in s && i != j && pos + n <= |s[i]|
    requires s' == s[i := s[i][..pos] + s[i][pos + n..]][j := s[j] + s[i][pos..pos + n]]
    ensures s' == Moved(s, i, j, pos, n)
  {
  }

  lemma OnlyAt(s: Plain, s': Plain, i: nat)
    requires s'.Keys == s.Keys && i in s && forall k | k in s && k != i :: s'[k] == s[k]
    ensures s' == s[i := s'[i]]
  {
  }

  lemma OnlyAtTwo(s: Plain, s': Plain, i: nat, j: nat)
    requires s'.Keys == s.Keys && i in s && j in s && forall k | k in s && k != i && k != j :: s'[k] == s[k]
    ensures s' == s[i := s'[i]][j := s'[j]]
  {
  }

  class BufferMachine {
    const heap: Heap
    var lists: map<nat, BufferList>

    ghost predicate Valid()
      reads this, heap, lists.Values
    {
      && MemoryOk(heap.raws)
      && forall i | i in lists :: lists[i].id == i && lists[i].heap == heap && lists[i].Valid()
    }

    ghost function Contents(): (s: Plain)
      requires Valid()
      reads this, heap, lists.Values
      ensures s.Keys == lists.Keys
    {
      map i | i in lists :: lists[i].Contents()
    }

    constructor ()
      ensures Valid() && Contents() == map[]
    {
      heap := new Heap();
      lists := map[];
    }

    /** What the caller owes: lists that exist, distinct lists where two are involved, a slice that
        is one slice, and no cut past the end. */
    ghost predicate Enabled(op: Op)
      requires Valid()
      reads this, heap, lists.Values
    {
      && op.i in lists
      && (op.TakesSlice() || op.TakesList() || op.Assign? ==> op.j in lists)
      && (op.TakesList() ==> op.i != op.j)
      && (op.TakesSlice() ==> InOneSegment(lists[op.j].buffers, op.pos, op.n) && op.pos + op.n <= lists[op.j].len)
      && (op.Splice? && op.n > 0 && op.pos < lists[op.i].len ==> op.pos + op.n <= lists[op.i].len)
      && (op.RebuildAligned? ==> 0 < op.alignSize && PowerOfTwo(op.alignMemory))
    }

    /** A new, empty list. */
    method AddList(i: nat)
      requires Valid() && i !in lists
      modifies this
      ensures Valid() && Contents() == old(Contents())[i := []]
    {
      hide ListOk, Flat;
      var l := new BufferList(i, heap);
      lists := lists[i := l];
    }

    /** After a call on list i alone: every other list keeps its bytes, whatever memory did. */
    twostate lemma OneChanged(i: nat)
      requires old(Valid()) && lists == old(lists) && i in lists && lists[i].Valid()
      requires Evolves(old(heap.raws), heap.raws, i)
      requires forall k | k in lists && k != i :: lists[k].State() == old(lists[k].State())
      ensures Valid() && Contents() == old(Contents())[i := lists[i].Contents()]
    {
      hide Evolves, ListOk, Flat;
      EvolvedIsOk(old(heap.raws), heap.raws, i);
      forall k | k in lists && k != i ensures lists[k].Valid() && lists[k].Contents() == old(lists[k].Contents()) {
        EvolvesFramesOthers(old(heap.raws), heap.raws, i, lists[k].State(), k);
      }
      OnlyAt(old(Contents()), Contents(), i);
    }

    /** After a call on lists i and j. */
    twostate lemma TwoChanged(i: nat, new j: nat)
      requires old(Valid()) && lists == old(lists) && i in lists && lists[i].Valid() && j in lists && lists[j].Valid()
      requires Evolves(old(heap.raws), heap.raws, i)
      requires forall k | k in lists && k != i && k != j :: lists[k].State() == old(lists[k].State())
      ensures Valid() && Contents() == old(Contents())[i := lists[i].Contents()][j := lists[j].Contents()]
    {
      hide Evolves, ListOk, Flat;
      EvolvedIsOk(old(heap.raws), heap.raws, i);
      forall k | k in lists && k != i && k != j
        ensures lists[k].Valid() && lists[k].Contents() == old(lists[k].Contents())
      {
        EvolvesFramesOthers(old(heap.raws), heap.raws, i, lists[k].State(), k);
      }
      OnlyAtTwo(old(Contents()), Contents(), i, j);
    }

    method Append(i: nat, data: seq<byte>, asChar: bool)
      requires Valid() && i in lists && (asChar ==> |data| == 1)
      modifies heap, lists.Values
      ensures Valid() && lists == old(lists)
      ensures Contents() == old(Contents())[i := old(Contents())[i] + data]
    {
      ghost var m, l := heap.raws, lists[i].State();
      var it := lists[i];
      hide AppendedBytes, Evolves, ListOk, Flat;
      if asChar {
        assert data == [data[0]];
        it.AppendChar(data[0]);
      } else {
        it.AppendBytes(data);
      }
      AppendedFrame(m, l, heap.raws, it.State(), i, data);
      OneChanged(i);
    }

    method Empty(i: nat)
      requires Valid() && i in lists
      modifies lists.Values
      ensures Valid() && lists == old(lists)
      ensures Contents() == old(Contents())[i := []]
    {
      EvolvesRefl(heap.raws, i);
      lists[i].Clear();
      FlatOfNothing(heap.raws, lists[i].buffers);
      hide Evolves, ListOk, Flat;
      OneChanged(i);
    }

    method Copy(i: nat, j: nat)
      requires Valid() && i in lists && j in lists
      modifies heap, lists.Values
      ensures Valid() && lists == old(lists)
      ensures Contents() == old(Contents())[i := old(Contents())[j]]
    {
      ghost var m := heap.raws;
      hide OnlyAllocated, Evolves, ListOk, Flat, AllShareable;
      lists[i].Assign(lists[j]);
      EvolvesByAllocation(m, heap.raws, i);
      OneChanged(i);
    }

    method MakeContiguous(i: nat)
      requires Valid() && i in lists
      modifies heap, lists.Values
      ensures Valid() && lists == old(lists) && Contents() == old(Contents())
    {
      ghost var m := heap.raws;
      hide OnlyAllocated, Evolves, ListOk, Flat;
      lists[i].Rebuild();
      EvolvesByAllocation(m, heap.raws, i);
      OneChanged(i);
    }

    method MakePartContiguous(i: nat, pos: nat, n: nat)
      requires Valid() && i in lists
      modifies heap, lists.Values
      ensures Valid() && lists == old(lists) && Contents() == old(Contents())
    {
      ghost var m := heap.raws;
      hide OnlyAllocated, Evolves, ListOk, Flat, Cells, CellsOf;
      var ok, p := lists[i].GetContiguous(pos, n);
      EvolvesByAllocation(m, heap.raws, i);
      OneChanged(i);
    }

    method MakeAligned(i: nat, alignSize: nat, alignMemory: nat)
      requires Valid() && i in lists && 0 < alignSize && PowerOfTwo(alignMemory)
      modifies heap, lists.Values
      ensures Valid() && lists == old(lists) && Contents() == old(Contents())
    {
      ghost var m := heap.raws;
      hide OnlyAllocated, Evolves, ListOk, Flat, IsAligned;
      lists[i].RebuildAligned(alignSize, alignMemory);
      EvolvesByAllocation(m, heap.raws, i);
      OneChanged(i);
    }

    /** The slice of list j that holds its bytes [pos, pos+n). */
    method Find(j: nat, pos: nat, n: nat) returns (p: Ptr)
      requires Valid() && j in lists && pos + n <= |Contents()[j]| && InOneSegment(lists[j].buffers, pos, n)
      ensures p.Ptr? && p.len == n && p.raw in heap.raws && p.End() <= heap.raws[p.raw].used <= |heap.raws[p.raw].data|
      ensures heap.raws[p.raw].data[p.off..p.End()] == Contents()[j][pos..pos + n]
    {
      var k, off := lists[j].Skip(pos);
      SliceIsOneSegment(heap.raws, lists[j].buffers, k, off, pos, n);
      var seg := lists[j].buffers[k];
      p := Ptr(seg.raw, seg.off + off, n);
    }

    method ShareSlice(i: nat, p: Ptr, ghost bytes: seq<byte>)
      requires Valid() && i in lists
      requires p.Ptr? && p.raw in heap.raws && p.End() <= heap.raws[p.raw].used <= |heap.raws[p.raw].data|
      requires bytes == heap.raws[p.raw].data[p.off..p.End()]
      modifies lists.Values
      ensures Valid() && lists == old(lists)
      ensures Contents() == old(Contents())[i := old(Contents())[i] + bytes]
    {
      hide Evolves, ListOk, Flat, Cells, CellsOf;
      EvolvesRefl(heap.raws, i);
      lists[i].AppendSlice(p, 0, p.len);
      OneChanged(i);
    }

    method PushSlice(i: nat, p: Ptr, ghost bytes: seq<byte>, front: bool)
      requires Valid() && i in lists
      requires p.Ptr? && p.raw in heap.raws && p.End() <= heap.raws[p.raw].used <= |heap.raws[p.raw].data|
      requires bytes == heap.raws[p.raw].data[p.off..p.End()]
      modifies lists.Values
      ensures Valid() && lists == old(lists)
      ensures Contents() == old(Contents())[i := if front then bytes + old(Contents())[i] else old(Contents())[i] + bytes]
    {
      EvolvesRefl(heap.raws, i);
      NoBytes(lists[i].Contents());
      hide Evolves, ListOk, Flat, Cells, CellsOf;
      if p.len > 0 {
        if front {
          lists[i].PushFront(p);
        } else {
          lists[i].PushBack(p);
        }
      }
      OneChanged(i);
    }

    method ShareList(i: nat, j: nat)
      requires Valid() && i in lists && j in lists && i != j
      modifies lists.Values
      ensures Valid() && lists == old(lists)
      ensures Contents() == old(Contents())[i := old(Contents())[i] + old(Contents())[j]]
    {
      hide Evolves, ListOk, Flat, Cells, CellsOf;
      EvolvesRefl(heap.raws, i);
      lists[i].AppendList(lists[j]);
      OneChanged(i);
    }

    method TakeRange(i: nat, j: nat, pos: nat, n: nat)
      requires Valid() && i in lists && j in lists && i != j
      modifies lists.Values
      ensures Valid() && lists == old(lists)
      ensures var s := old(Contents());
              Contents() == if pos + n <= |s[j]| then s[i := s[j][pos..pos + n]] else s
    {
      hide Evolves, ListOk, Flat, Cells, CellsOf;
      EvolvesRefl(heap.raws, i);
      LengthIsExact(j);
      var ok := lists[i].SubstrOf(lists[j], pos, n);
      OneChanged(i);
    }

    lemma LengthIsExact(i: nat)
      requires Valid() && i in lists
      ensures lists[i].len == |lists[i].Contents()|
    {
    }

    method Cut(i: nat, j: nat, pos: nat, n: nat)
      requires Valid() && i in lists && j in lists && i != j
      requires n > 0 && pos < lists[i].len ==> pos + n <= lists[i].len
      modifies lists.Values
      ensures Valid() && lists == old(lists)
      ensures n == 0 || pos >= |old(Contents())[i]| ==> Contents() == old(Contents())
      ensures n > 0 && pos < |old(Contents())[i]| ==>
                pos + n <= |old(Contents())[i]| && Contents() == Moved(old(Contents()), i, j, pos, n)
    {
      hide Evolves, ListOk, Flat, Cells, CellsOf, Moved;
      EvolvesRefl(heap.raws, i);
      LengthIsExact(i);
      var ok := lists[i].Splice(pos, n, lists[j]);
      TwoChanged(i, j);
      if ok && n > 0 {
        MovedIs(old(Contents()), Contents(), i, j, pos, n);
      }
    }

    method Claim(i: nat, j: nat, nonshareable: bool, front: bool)
      requires Valid() && i in lists && j in lists && i != j
      modifies heap, lists.Values
      ensures Valid() && lists == old(lists)
      ensures var s := old(Contents());
              Contents() == s[i := if front then s[j] + s[i] else s[i] + s[j]][j := []]
    {
      hide Evolves, Flat, ListOk;
      if front {
        lists[i].ClaimPrepend(lists[j], nonshareable);
      } else {
        lists[i].ClaimAppend(lists[j], nonshareable);
      }
      FlatOfNothing(heap.raws, lists[j].buffers);
      TwoChanged(i, j);
    }

    /** Every call does to the bytes of every list what the plain operation does. */
    method Execute(op: Op)
      requires Valid() && Enabled(op)
      modifies heap, lists.Values
      ensures Valid() && lists == old(lists)
      ensures PlainEnabled(old(Contents()), op) && Contents() == PlainStep(old(Contents()), op)
    {
      EnabledIsPlain(op);
      hide PlainStep, PlainEnabled;
      if op.TakesSlice() {
        ExecuteSlice(op);
      } else if op.TakesList() {
        ExecuteTwo(op);
      } else {
        ExecuteOne(op);
      }
    }

    method ShareFrom(i: nat, j: nat, pos: nat, n: nat)
      requires Valid() && i in lists && j in lists && InOneSegment(lists[j].buffers, pos, n) && pos + n <= |Contents()[j]|
      modifies lists.Values
      ensures Valid() && lists == old(lists)
      ensures Contents() == old(Contents())[i := old(Contents())[i] + old(Contents())[j][pos..pos + n]]
    {
      hide Valid, Contents, InOneSegment;
      var p := Find(j, pos, n);
      ShareSlice(i, p, Contents()[j][pos..pos + n]);
    }

    method PushFrom(i: nat, j: nat, pos: nat, n: nat, front: bool)
      requires Valid() && i in lists && j in lists && InOneSegment(lists[j].buffers, pos, n) && pos + n <= |Contents()[j]|
      modifies lists.Values
      ensures Valid() && lists == old(lists)
      ensures var s := old(Contents());
              var bytes := s[j][pos..pos + n];
              Contents() == s[i := if front then bytes + s[i] else s[i] + bytes]
    {
      hide Valid, Contents, InOneSegment;
      var p := Find(j, pos, n);
      PushSlice(i, p, Contents()[j][pos..pos + n], front);
    }

    lemma SliceEnabled(op: Op)
      requires Valid() && Enabled(op) && op.TakesSlice()
      ensures op.i in lists && op.j in lists && InOneSegment(lists[op.j].buffers, op.pos, op.n)
    {
      hide ListOk, InOneSegment, MemoryOk;
    }

    method ExecuteSlice(op: Op)
      requires Valid() && Enabled(op) && op.TakesSlice() && PlainEnabled(Contents(), op)
      modifies lists.Values
      ensures Valid() && lists == old(lists) && Contents() == PlainStep(old(Contents()), op)
    {
      hide Valid, Contents, PlainStep, PlainEnabled, Enabled, InOneSegment;
      PlainSlice(Contents(), op);
      SliceEnabled(op);
      if op.AppendSlice? {
        ShareFrom(op.i, op.j, op.pos, op.n);
      } else {
        PushFrom(op.i, op.j, op.pos, op.n, op.PushFront?);
      }
    }

    method ExecuteTwo(op: Op)
      requires Valid() && Enabled(op) && op.TakesList() && PlainEnabled(Contents(), op)
      modifies heap, lists.Values
      ensures Valid() && lists == old(lists) && Contents() == PlainStep(old(Contents()), op)
    {
      hide Valid, Contents;
      match op {
        case AppendList(i, j) => ShareList(i, j);
        case ClaimAppend(i, j, nonshareable) => Claim(i, j, nonshareable, false);
        case ClaimPrepend(i, j, nonshareable) => Claim(i, j, nonshareable, true);
        case SubstrOf(i, j, pos, n) => TakeRange(i, j, pos, n);
        case Splice(i, j, pos, n) => Cut(i, j, pos, n);
      }
    }

    method ExecuteOne(op: Op)
      requires Valid() && Enabled(op) && !op.TakesSlice() && !op.TakesList() && PlainEnabled(Contents(), op)
      modifies heap, lists.Values
      ensures Valid() && lists == old(lists) && Contents() == PlainStep(old(Contents()), op)
    {
      hide Valid, Contents;
      match op {
        case AppendChar(i, c) => Append(i, [c], true);
        case AppendBytes(i, data) => Append(i, data, false);
        case Assign(i, j) => Copy(i, j);
        case Clear(i) => Empty(i);
        case Rebuild(i) => MakeContiguous(i);
        case GetContiguous(i, pos, n) => MakePartContiguous(i, pos, n);
        case RebuildAligned(i, alignSize, alignMemory) => MakeAligned(i, alignSize, alignMemory);
      }
    }

    /** Whether the caller may make this call now. */
    method Check(op: Op) returns (yes: bool)
      requires Valid()
      ensures yes <==> Enabled(op)
    {
      hide ListOk, InOneSegment, MemoryOk;
      if op.i !in lists || (op.TakesSlice() || op.TakesList() || op.Assign? ==> op.j in lists) == false {
        return false;
      }
      if op.TakesSlice() {
        yes := CheckSlice(op.j, op.pos, op.n);
        return;
      }
      yes :=
        && (op.TakesList() ==> op.i != op.j)
        && (op.Splice? && op.n > 0 && op.pos < lists[op.i].len ==> op.pos + op.n <= lists[op.i].len)
        && (op.RebuildAligned? ==> 0 < op.alignSize && PowerOfTwo(op.alignMemory));
    }

    method CheckSlice(j: nat, pos: nat, n: nat) returns (yes: bool)
      requires Valid() && j in lists
      ensures yes <==> InOneSegment(lists[j].buffers, pos, n) && pos + n <= lists[j].len
    {
      if pos + n > lists[j].len {
        return false;
      }
      var bs := lists[j].buffers;
      var k, off := lists[j].Skip(pos);
      yes := k < |bs| && off + n <= bs[k].Length();
      OneSegmentOrNot(heap.raws, bs, k, off, pos, n);
    }

    /** Any run, up to the first call the caller may not make: every list holds the bytes that the
        same calls on plain sequences give it. */
    method Run(ops: seq<Op>) returns (made: nat)
      requires Valid()
      modifies heap, lists.Values
      ensures Valid() && lists == old(lists)
      ensures made <= |ops| && (made < |ops| ==> !Enabled(ops[made]))
      ensures PlainRunOk(old(Contents()), ops[..made]) && Contents() == PlainRun(old(Contents()), ops[..made])
    {
      hide PlainStep, PlainEnabled, Valid, Contents, Enabled;
      made := 0;
      assert ops[..0] == [];
      while made < |ops|
        invariant made <= |ops| && Valid() && lists == old(lists)
        invariant PlainRunOk(old(Contents()), ops[..made]) && Contents() == PlainRun(old(Contents()), ops[..made])
      {
        var yes := Check(ops[made]);
        if !yes {
          return;
        }
        PlainRunExtends(old(Contents()), ops[..made], ops[made]);
        assert ops[..made + 1] == ops[..made] + [ops[made]];
        Execute(ops[made]);
        made := made + 1;
      }
    }

    lemma EnabledIsPlain(op: Op)
      requires Valid() && Enabled(op)
      ensures PlainEnabled(Contents(), op)
    {
    }
  }
}
