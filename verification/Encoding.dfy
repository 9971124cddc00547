/** include/encoding.h on a buffer::list: the encoders append, and patch what they wrote earlier
    through stored iterators; the decoders read through an iterator. */
module Encoding {
  import opened Basics
  import opened Buffer
  import opened Slices
  import opened BufferLists
  import opened BufferIterators
  import opened Wire

  lemma AppendedNothing(m: Memory, l: ListState, id: nat)
    requires ListOk(m, l, id)
    ensures AppendedBytes(m, l, m, l, id, [])
  {
    EvolvesRefl(m, id);
    GrownByConcat(m, l.buffers, []);
  }

  lemma {:induction false} EncodeAllSnoc(vs: seq<Value>, i: nat)
    requires i < |vs|
    ensures EncodeAll(vs[..i + 1]) == EncodeAll(vs[..i]) + Encode(vs[i])
  {
    hide Encode;
    if i == 0 {
      assert vs[..1] == [vs[0]] && vs[..0] == [] && [vs[0]][1..] == [];
    } else {
      assert vs[..i + 1][1..] == vs[1..][..i] && vs[..i][1..] == vs[1..][..i - 1];
      EncodeAllSnoc(vs[1..], i - 1);
      ConcatAssoc(Encode(vs[0]), EncodeAll(vs[..i][1..]), Encode(vs[i]));
    }
  }

  // ------------------------------------------------------------------
  // Patching bytes written earlier

  function Patched(data: seq<byte>, k: nat, src: seq<byte>): seq<byte>
    requires k + |src| <= |data|
  {
    data[..k] + src + data[k + |src|..]
  }

  /** The cells an encoder has appended since m0 belong to raws only this list may extend. */
  lemma AppendedCellIsOwn(m0: Memory, m1: Memory, id: nat, c: Cell)
    requires MemoryOk(m0) && Evolves(m0, m1, id) && Published(m1, c) && !Published(m0, c)
    ensures c.raw in m0 ==> m0[c.raw].owner == Some(id) && m0[c.raw].used <= c.pos
  {
    if c.raw in m0 {
      assert RawEvolves(m0[c.raw], m1[c.raw], id);
    }
  }

  lemma PatchEvolves(m0: Memory, m1: Memory, m2: Memory, id: nat, cs: seq<Cell>, src: seq<byte>)
    requires MemoryOk(m0) && Evolves(m0, m1, id) && Written(m1, m2, cs, src)
    requires NonePublished(m0, cs) && AllPublished(m1, cs)
    ensures Evolves(m0, m2, id)
  {
    forall j | 0 <= j < |cs|
      ensures cs[j].raw in m0 ==> m0[cs[j].raw].owner == Some(id) && m0[cs[j].raw].used <= cs[j].pos
    {
      assert Published(m1, cs[j]) && !Published(m0, cs[j]);
      AppendedCellIsOwn(m0, m1, id, cs[j]);
    }
    forall r | r in m0 ensures r in m2 && RawEvolves(m0[r], m2[r], id) {
      assert RawEvolves(m0[r], m1[r], id);
      assert m2[r] == m1[r].(data := m2[r].data);
      forall k | 0 <= k < |m1[r].data| && (k < m0[r].used || m0[r].owner != Some(id))
        ensures m2[r].data[k] == m1[r].data[k]
      {
        assert Cell(r, k) !in cs;
      }
      assert m2[r].data[..m0[r].used] == m1[r].data[..m0[r].used];
    }
  }

  /** What the tail reads after a stretch of it was overwritten. */
  lemma PatchReads(m1: Memory, m2: Memory, tail: seq<Cell>, data: seq<byte>, k: nat, src: seq<byte>)
    requires AllPublished(m1, tail) && Read(m1, tail) == data && Distinct(tail)
    requires k + |src| <= |tail| && Written(m1, m2, tail[k..k + |src|], src)
    ensures AllPublished(m2, tail) && Read(m2, tail) == Patched(data, k, src)
  {
    var cs := tail[k..k + |src|];
    forall j | 0 <= j < |tail|
      ensures Published(m2, tail[j]) && m2[tail[j].raw].data[tail[j].pos] == Patched(data, k, src)[j]
    {
      assert Published(m1, tail[j]);
      var c := tail[j];
      assert Read(m1, tail)[j] == m1[c.raw].data[c.pos];
      if k <= j < k + |src| {
        assert cs[j - k] == c;
        assert c !in cs[j - k + 1..];
      } else {
        assert Cell(c.raw, c.pos) !in cs;
      }
    }
  }

  lemma SubCells(m: Memory, m1: Memory, cs: seq<Cell>, a: nat, b: nat)
    requires a <= b <= |cs| && NonePublished(m, cs) && AllPublished(m1, cs)
    ensures NonePublished(m, cs[a..b]) && AllPublished(m1, cs[a..b])
  {
  }

  /** Overwriting bytes appended since m0 amounts to having appended the patched bytes. */
  lemma PatchAppended(m0: Memory, l0: ListState, m1: Memory, m2: Memory, l: ListState, id: nat,
                      data: seq<byte>, pos: nat, src: seq<byte>)
    requires ListOk(m0, l0, id) && AppendedBytes(m0, l0, m1, l, id, data)
    requires |Cells(l0.buffers)| <= pos && pos + |src| <= |Cells(l.buffers)|
    requires Written(m1, m2, Cells(l.buffers)[pos..pos + |src|], src)
    ensures |data| == |Tail(l0, l)|
    ensures AppendedBytes(m0, l0, m2, l, id, Patched(data, pos - |Cells(l0.buffers)|, src))
  {
    hide Cells, Grown, Evolves, Written, SegmentsOk, Patched, Distinct, AppendBufferOk;
    var tail, k := Tail(l0, l), pos - |Cells(l0.buffers)|;
    assert tail[k..k + |src|] == Cells(l.buffers)[pos..pos + |src|];
    SubCells(m0, m1, tail, k, k + |src|);
    PatchEvolves(m0, m1, m2, id, tail[k..k + |src|], src);
    PatchReads(m1, m2, tail, data, k, src);
    WrittenKeepsList(m1, m2, tail[k..k + |src|], src, l, id);
  }

  // ------------------------------------------------------------------
  // Encoders

  /** encode(v, bl). */
  method EncodeValue(v: Value, bl: BufferList)
    requires bl.Valid()
    modifies bl, bl.heap
    ensures bl.Valid() && bl.Contents() == old(bl.Contents()) + Encode(v)
    ensures AppendedBytes(old(bl.heap.raws), old(bl.State()), bl.heap.raws, bl.State(), bl.id, Encode(v))
    decreases v, 2
  {
    hide AppendedBytes, ListOk, Flat, LittleEndian;
    ghost var m, l := bl.heap.raws, bl.State();
    match v {
      case U8(b) => bl.AppendBytes([b]);
      case U32(n) => bl.AppendBytes(LittleEndian(n, 4));
      case U64(n) => bl.AppendBytes(LittleEndian(n, 8));
      case Str(s) =>
        bl.AppendBytes(LittleEndian(|s|, 4));
        AppendMore(bl, s, m, l, LittleEndian(|s|, 4));
      case ListOf(items) => EncodeList(items, bl);
      case VectorOf(items) => EncodeVector(items, bl);
      case Struct(_, _, _, _) => EncodeStruct(v, bl);
    }
    Grew(m, l, bl.heap.raws, bl.State(), bl.id, Encode(v));
  }

  lemma Grew(m: Memory, l: ListState, m': Memory, l': ListState, id: nat, data: seq<byte>)
    requires ListOk(m, l, id) && AppendedBytes(m, l, m', l', id, data)
    ensures ListOk(m', l', id) && Flat(m', l'.buffers) == Flat(m, l.buffers) + data
  {
    AppendedBytesFlat(m, l, m', l', id, data);
  }

  method AppendMore(bl: BufferList, data: seq<byte>, ghost m: Memory, ghost l: ListState, ghost done: seq<byte>)
    requires bl.Valid() && AppendedBytes(m, l, bl.heap.raws, bl.State(), bl.id, done)
    modifies bl, bl.heap
    ensures bl.Valid() && AppendedBytes(m, l, bl.heap.raws, bl.State(), bl.id, done + data)
  {
    hide AppendedBytes, ListOk;
    ghost var m1, l1 := bl.heap.raws, bl.State();
    bl.AppendBytes(data);
    AppendedBytesTrans(m, l, m1, l1, bl.heap.raws, bl.State(), bl.id, done, data);
  }

  /** The element loop of the container encoders; n counts what it wrote. */
  method EncodeItems(items: seq<Value>, bl: BufferList, ghost m: Memory, ghost l: ListState, ghost done: seq<byte>)
    returns (n: nat)
    requires bl.Valid() && AppendedBytes(m, l, bl.heap.raws, bl.State(), bl.id, done)
    modifies bl, bl.heap
    ensures n == |items|
    ensures bl.Valid() && AppendedBytes(m, l, bl.heap.raws, bl.State(), bl.id, done + EncodeAll(items))
    ensures Grown(old(bl.buffers), bl.buffers) && old(bl.len) + |EncodeAll(items)| == bl.len
    decreases items, 0
  {
    hide AppendedBytes, ListOk, Encode;
    n := 0;
    ghost var m0, l0 := bl.heap.raws, bl.State();
    AppendedNothing(m0, l0, bl.id);
    assert items[..0] == [];
    while n < |items|
      invariant n <= |items| && bl.Valid()
      invariant AppendedBytes(m0, l0, bl.heap.raws, bl.State(), bl.id, EncodeAll(items[..n]))
    {
      ghost var m1, l1 := bl.heap.raws, bl.State();
      EncodeValue(items[n], bl);
      AppendedBytesTrans(m0, l0, m1, l1, bl.heap.raws, bl.State(), bl.id, EncodeAll(items[..n]), Encode(items[n]));
      EncodeAllSnoc(items, n);
      n := n + 1;
    }
    assert items[..n] == items;
    AppendedBytesTrans(m, l, m0, l0, bl.heap.raws, bl.State(), bl.id, done, EncodeAll(items));
    HowItGrew(m0, l0, bl.heap.raws, bl.State(), bl.id, EncodeAll(items));
  }

  lemma HowItGrew(m: Memory, l: ListState, m': Memory, l': ListState, id: nat, data: seq<byte>)
    requires ListOk(m, l, id) && AppendedBytes(m, l, m', l', id, data)
    ensures Grown(l.buffers, l'.buffers) && l'.len == l.len + |data| && ListOk(m', l', id)
    ensures l.len == |Cells(l.buffers)| <= |Cells(l'.buffers)| == l'.len
  {
  }

  /** encode(const std::vector<T>&). */
  method EncodeVector(items: seq<Value>, bl: BufferList)
    requires bl.Valid()
    modifies bl, bl.heap
    ensures bl.Valid()
    ensures AppendedBytes(old(bl.heap.raws), old(bl.State()), bl.heap.raws, bl.State(), bl.id,
                          LittleEndian(|items|, 4) + EncodeAll(items))
    decreases items, 1
  {
    hide AppendedBytes, ListOk, EncodeAll, LittleEndian;
    ghost var m, l := bl.heap.raws, bl.State();
    bl.AppendBytes(LittleEndian(|items|, 4));
    var n := EncodeItems(items, bl, m, l, LittleEndian(|items|, 4));
  }

  /** encode(const std::list<T>&): the count is patched in after the elements. */
  method EncodeList(items: seq<Value>, bl: BufferList)
    requires bl.Valid()
    modifies bl, bl.heap
    ensures bl.Valid()
    ensures AppendedBytes(old(bl.heap.raws), old(bl.State()), bl.heap.raws, bl.State(), bl.id,
                          LittleEndian(|items|, 4) + EncodeAll(items))
    decreases items, 2
  {
    hide AppendedBytes, ListOk, EncodeAll, LittleEndian, Written, Flat, Located;
    ghost var m, l := bl.heap.raws, bl.State();
    if items == [] {
      EncodeVector([], bl);
      return;
    }
    var pos := bl.len;
    bl.AppendBytes(LittleEndian(0, 4));
    HowItGrew(m, l, bl.heap.raws, bl.State(), bl.id, LittleEndian(0, 4));
    var n := EncodeItems(items, bl, m, l, LittleEndian(0, 4));
    LenIsExact(bl.heap.raws, bl.State(), bl.id);
    var it := new ListIterator.Begin(bl);
    var ok := it.Seek(pos);
    ghost var m1 := bl.heap.raws;
    ok := it.CopyIn(LittleEndian(n, 4));
    PatchAppended(m, l, m1, bl.heap.raws, bl.State(), bl.id, LittleEndian(0, 4) + EncodeAll(items), pos, LittleEndian(n, 4));
    PatchFront(LittleEndian(0, 4), EncodeAll(items), LittleEndian(n, 4));
  }

  lemma PatchFront(a: seq<byte>, rest: seq<byte>, b: seq<byte>)
    requires |a| == |b|
    ensures Patched(a + rest, 0, b) == b + rest
  {
  }

  /** ENCODE_START: header with a length of 0, and iterators at the compat byte and the length. */
  method StartStruct(version: byte, compat: byte, bl: BufferList) returns (compatIt: ListIterator, lenIt: ListIterator)
    requires bl.Valid()
    modifies bl, bl.heap
    ensures bl.Valid()
    ensures AppendedBytes(old(bl.heap.raws), old(bl.State()), bl.heap.raws, bl.State(), bl.id,
                          [version, compat] + LittleEndian(0, 4))
    ensures fresh(compatIt) && compatIt.bl == bl && compatIt.Placed() && compatIt.off == old(bl.len) + 1
    ensures fresh(lenIt) && lenIt.bl == bl && lenIt.Placed() && lenIt.off == old(bl.len) + 2
    ensures compatIt != lenIt
  {
    hide AppendedBytes, ListOk, LittleEndian, Stands, Normal;
    ghost var m, l := bl.heap.raws, bl.State();
    bl.AppendBytes([version]);
    AppendMore(bl, [compat], m, l, [version]);
    assert [version] + [compat] == [version, compat];
    HowItGrew(m, l, bl.heap.raws, bl.State(), bl.id, [version, compat]);
    compatIt := new ListIterator.AtEnd(bl);
    var ok := compatIt.Backward(1);
    ghost var m1, l1 := bl.heap.raws, bl.State();
    bl.AppendBytes(LittleEndian(0, 4));
    HowItGrew(m1, l1, bl.heap.raws, bl.State(), bl.id, LittleEndian(0, 4));
    GrowingKeepsPlace(l1.buffers, bl.buffers, compatIt.off, compatIt.p, compatIt.pOff);
    AppendedBytesTrans(m, l, m1, l1, bl.heap.raws, bl.State(), bl.id, [version, compat], LittleEndian(0, 4));
    lenIt := new ListIterator.AtEnd(bl);
    ok := lenIt.Backward(4);
  }

  /** ENCODE_FINISH_NEW_COMPAT: patch the length, and the compat byte when a new one is given. */
  method FinishStruct(bl: BufferList, compatIt: ListIterator, lenIt: ListIterator, newCompat: byte,
                      ghost m: Memory, ghost l: ListState, ghost version: byte, ghost compat: byte, ghost payload: seq<byte>)
    requires bl.Valid() && ListOk(m, l, bl.id)
    requires AppendedBytes(m, l, bl.heap.raws, bl.State(), bl.id, [version, compat] + LittleEndian(0, 4) + payload)
    requires compatIt.bl == bl && compatIt.Placed() && compatIt.off == l.len + 1
    requires lenIt.bl == bl && lenIt.Placed() && lenIt.off == l.len + 2 && compatIt != lenIt
    modifies compatIt, lenIt, bl.heap
    ensures bl.Valid()
    ensures AppendedBytes(m, l, bl.heap.raws, bl.State(), bl.id,
                          [version, if newCompat != 0 then newCompat else compat] + LittleEndian(|payload|, 4) + payload)
  {
    hide AppendedBytes, ListOk, LittleEndian, Stands, Normal, Written;
    ghost var zero := LittleEndian(0, 4);
    ghost var data := [version, compat] + zero + payload;
    HowItGrew(m, l, bl.heap.raws, bl.State(), bl.id, data);
    var len := bl.len - lenIt.off - 4;
    ghost var m1, le := bl.heap.raws, LittleEndian(len, 4);
    var ok := lenIt.CopyIn(LittleEndian(len, 4));
    PatchAppended(m, l, m1, bl.heap.raws, bl.State(), bl.id, data, l.len + 2, le);
    PatchLength(version, compat, zero, payload, le);
    if newCompat != 0 {
      ghost var m2 := bl.heap.raws;
      ok := compatIt.CopyIn([newCompat]);
      PatchAppended(m, l, m2, bl.heap.raws, bl.State(), bl.id, [version, compat] + le + payload, l.len + 1, [newCompat]);
      PatchCompat(version, compat, le, payload, newCompat);
    }
  }

  lemma PatchLength(version: byte, compat: byte, a: seq<byte>, rest: seq<byte>, b: seq<byte>)
    requires |a| == |b|
    ensures Patched([version, compat] + a + rest, 2, b) == [version, compat] + b + rest
  {
  }

  lemma PatchCompat(version: byte, compat: byte, a: seq<byte>, rest: seq<byte>, newCompat: byte)
    ensures Patched([version, compat] + a + rest, 1, [newCompat]) == [version, newCompat] + a + rest
  {
  }

  /** A struct's encode(): ENCODE_START, the fields, ENCODE_FINISH_NEW_COMPAT. */
  method EncodeStruct(v: Value, bl: BufferList)
    requires v.Struct? && bl.Valid()
    modifies bl, bl.heap
    ensures bl.Valid()
    ensures AppendedBytes(old(bl.heap.raws), old(bl.State()), bl.heap.raws, bl.State(), bl.id, Encode(v))
    decreases v, 1
  {
    hide AppendedBytes, ListOk, LittleEndian, Located, EncodeAll;
    ghost var m, l := bl.heap.raws, bl.State();
    var compatIt, lenIt := StartStruct(v.version, v.compat, bl);
    ghost var bs := bl.buffers;
    LenIsExact(bl.heap.raws, bl.State(), bl.id);
    LenIsExact(m, l, bl.id);
    var n := EncodeItems(v.fields, bl, m, l, [v.version, v.compat] + LittleEndian(0, 4));
    LenIsExact(bl.heap.raws, bl.State(), bl.id);
    GrowingKeepsPlace(bs, bl.buffers, compatIt.off, compatIt.p, compatIt.pOff);
    GrowingKeepsPlace(bs, bl.buffers, lenIt.off, lenIt.p, lenIt.pOff);
    FinishStruct(bl, compatIt, lenIt, v.newCompat, m, l, v.version, v.compat, EncodeAll(v.fields));
  }

  // ------------------------------------------------------------------
  // Decoders

  /** decode(v, p): every read the decoders make, on the list's segments, gives what the same read
      gives on its flat bytes, exceptions included. */
  method DecodeValue(t: Type, it: ListIterator) returns (d: Decoded<Value>)
    requires it.bl.Valid() && it.Placed()
    modifies it
    ensures d == Decode(t, it.bl.Contents(), old(it.off))
    ensures d.Ok? ==> it.Here() && it.off == d.next
    decreases t, 0
  {
    hide ListOk, Located, Flat, FromLittleEndian;
    match t {
      case TU8 =>
        var r := ReadBytes(it, 1);
        return if r.Ok? then Ok(U8(r.value[0]), r.next) else EndOfBuffer;
      case TU32 =>
        var r := ReadNumber(it, 4);
        return if r.Ok? then Ok(U32(r.value), r.next) else EndOfBuffer;
      case TU64 =>
        var r := ReadNumber(it, 8);
        return if r.Ok? then Ok(U64(r.value), r.next) else EndOfBuffer;
      case TStr =>
        var n := ReadNumber(it, 4);
        if !n.Ok? {
          return EndOfBuffer;
        }
        var r := ReadBytes(it, n.value);
        return if r.Ok? then Ok(Str(r.value), r.next) else EndOfBuffer;
      case TList(elem) =>
        var r := ReadMany(elem, it);
        return if r.Ok? then Ok(ListOf(r.value), r.next) else r.PropagateFailure();
      case TVector(elem) =>
        var r := ReadMany(elem, it);
        return if r.Ok? then Ok(VectorOf(r.value), r.next) else r.PropagateFailure();
      case TStruct(version, fields) =>
        d := DecodeStruct(version, fields, it);
    }
  }

  method ReadBytes(it: ListIterator, n: nat) returns (d: Decoded<seq<byte>>)
    requires it.bl.Valid() && it.Placed()
    modifies it
    ensures d == TakeBytes(it.bl.Contents(), old(it.off), n)
    ensures d.Ok? ==> it.Here() && it.off == d.next
  {
    var ok, s := it.Copy(n);
    d := if ok then Ok(s, it.off) else EndOfBuffer;
  }

  method ReadNumber(it: ListIterator, k: nat) returns (d: Decoded<nat>)
    requires it.bl.Valid() && it.Placed()
    modifies it
    ensures d == TakeNumber(it.bl.Contents(), old(it.off), k)
    ensures d.Ok? ==> it.Here() && it.off == d.next
  {
    var s := ReadBytes(it, k);
    d := if s.Ok? then Ok(FromLittleEndian(s.value), s.next) else EndOfBuffer;
  }

  /** What is left of a decode whose first items are known. */
  function After(items: seq<Value>, d: Decoded<seq<Value>>): Decoded<seq<Value>> {
    if d.Ok? then Ok(items + d.value, d.next) else d
  }

  /** The count and the element loop of the container decoders. */
  method ReadMany(elem: Type, it: ListIterator) returns (d: Decoded<seq<Value>>)
    requires it.bl.Valid() && it.Placed()
    modifies it
    ensures var n := TakeNumber(it.bl.Contents(), old(it.off), 4);
            d == if n.Ok? then DecodeMany(elem, n.value, it.bl.Contents(), n.next) else EndOfBuffer
    ensures d.Ok? ==> it.Here() && it.off == d.next
    decreases elem, 1
  {
    hide ListOk, Located, Flat, TakeNumber, Decode;
    var n := ReadNumber(it, 4);
    if !n.Ok? {
      return EndOfBuffer;
    }
    var left: nat, items := n.value, [];
    ghost var flat := it.bl.Contents();
    ghost var whole := DecodeMany(elem, n.value, flat, n.next);
    assert whole.Ok? ==> [] + whole.value == whole.value;
    while left > 0
      invariant it.Here() && whole == After(items, DecodeMany(elem, left, flat, it.off))
    {
      var v := DecodeValue(elem, it);
      if !v.Ok? {
        return v.PropagateFailure();
      }
      AfterOne(items, v.value, DecodeMany(elem, left - 1, flat, it.off));
      items, left := items + [v.value], left - 1;
    }
    assert items + [] == items;
    return Ok(items, it.off);
  }

  lemma AfterOne(items: seq<Value>, v: Value, d: Decoded<seq<Value>>)
    ensures After(items, After([v], d)) == After(items + [v], d)
  {
    if d.Ok? {
      assert items + ([v] + d.value) == (items + [v]) + d.value;
    }
  }

  method ReadFields(fields: seq<Type>, it: ListIterator) returns (d: Decoded<seq<Value>>)
    requires it.bl.Valid() && it.Placed()
    modifies it
    ensures d == DecodeFields(fields, it.bl.Contents(), old(it.off))
    ensures d.Ok? ==> it.Placed() && it.off == d.next && (fields != [] || old(it.Here()) ==> it.Here())
    decreases fields, 0
  {
    hide ListOk, Located, Flat, Decode;
    if fields == [] {
      return Ok([], it.off);
    }
    var v := DecodeValue(fields[0], it);
    if !v.Ok? {
      return v.PropagateFailure();
    }
    var rest := ReadFields(fields[1..], it);
    d := if rest.Ok? then Ok([v.value] + rest.value, rest.next) else rest.PropagateFailure();
  }

  /** DECODE_START: the two version bytes and the length, with both malformed cases. */
  method ReadHeader(version: byte, it: ListIterator) returns (d: Decoded<(byte, byte)>)
    requires it.bl.Valid() && it.Placed()
    modifies it
    ensures d == DecodeHeader(version, it.bl.Contents(), old(it.off))
    ensures d.Ok? ==> it.Here() && it.off == old(it.off) + 6
  {
    hide ListOk, Located, Flat, FromLittleEndian;
    LenIsExact(it.bl.heap.raws, it.bl.State(), it.bl.id);
    var v := ReadBytes(it, 1);
    if !v.Ok? {
      return EndOfBuffer;
    }
    var c := ReadBytes(it, 1);
    if !c.Ok? {
      return EndOfBuffer;
    }
    if version < c.value[0] {
      return Malformed;
    }
    var len := ReadNumber(it, 4);
    if !len.Ok? {
      return EndOfBuffer;
    }
    if len.value > it.bl.len - it.off {
      return Malformed;
    }
    return Ok((v.value[0], c.value[0]), it.off + len.value);
  }

  /** A struct's decode(): DECODE_START, the fields this reader knows, DECODE_FINISH. */
  method DecodeStruct(version: byte, fields: seq<Type>, it: ListIterator) returns (d: Decoded<Value>)
    requires it.bl.Valid() && it.Placed()
    modifies it
    ensures d == Decode(TStruct(version, fields), it.bl.Contents(), old(it.off))
    ensures d.Ok? ==> it.Here() && it.off == d.next
    decreases fields, 1
  {
    hide ListOk, Located, Flat, DecodeHeader, DecodeFields;
    var header := ReadHeader(version, it);
    if !header.Ok? {
      return header.PropagateFailure();
    }
    HeaderFits(version, it.bl.Contents(), old(it.off));
    LenIsExact(it.bl.heap.raws, it.bl.State(), it.bl.id);
    var vs := ReadFields(fields, it);
    if !vs.Ok? {
      return vs.PropagateFailure();
    }
    var end := header.next;
    if it.off > end {
      return Malformed;
    }
    if it.off < end {
      var ok := it.Forward(end - it.off);
    }
    return Ok(Struct(header.value.0, header.value.1, 0, vs.value), end);
  }

  lemma HeaderFits(version: byte, bytes: seq<byte>, pos: nat)
    ensures var d := DecodeHeader(version, bytes, pos); d.Ok? ==> pos + 6 <= d.next <= |bytes|
  {
  }

  /** Through a rope and back: whatever a list held, encoding v and reading at the place where it
      was put gives the reader's view of v and leaves the iterator behind it. */
  method RoundTrip(v: Value, t: Type, bl: BufferList) returns (d: Decoded<Value>)
    requires bl.Valid() && Fitting(v) && Readable(v, t)
    modifies bl, bl.heap
    ensures bl.Valid() && d == Ok(View(v, t), bl.len) && bl.Contents() == old(bl.Contents()) + Encode(v)
  {
    hide AppendedBytes, ListOk, Encode, Decode, View, Readable, Fitting, Located, Flat;
    var pos := bl.len;
    ghost var before := bl.Contents();
    LenIsExact(bl.heap.raws, bl.State(), bl.id);
    EncodeValue(v, bl);
    LenIsExact(bl.heap.raws, bl.State(), bl.id);
    var it := new ListIterator.Begin(bl);
    var ok := it.Seek(pos);
    d := DecodeValue(t, it);
    DecodeEncode(v, t, before, []);
    assert before + Encode(v) + [] == before + Encode(v);
  }
}
