/** buffer::ptr and the reference count of buffer::raw (common/buffer.cc): every raw counts the
    ptrs on it, and goes away once, with the last of them. */
module Refcount {
  import opened Basics

  type RawId = nat
  type PtrId = nat

  datatype Raw = Raw(nref: nat, len: nat, shareable: bool)

  datatype Slot = Slot(raw: Option<RawId>, off: nat, len: nat)

  const NULL_SLOT: Slot := Slot(None, 0, 0)

  /** The ptrs on a raw. */
  ghost function On(ptrs: map<PtrId, Slot>, r: RawId): set<PtrId> {
    set p | p in ptrs && ptrs[p].raw == Some(r)
  }

  lemma OnAfterSet(ptrs: map<PtrId, Slot>, p: PtrId, s: Slot, r: RawId)
    ensures On(ptrs[p := s], r) == if s.raw == Some(r) then On(ptrs, r) + {p} else On(ptrs, r) - {p}
  {
  }

  /** All counts are exact, with the references in flight counted too. */
  ghost predicate Counts(raws: map<RawId, Raw>, ptrs: map<PtrId, Slot>, flight: multiset<RawId>) {
    && (forall p | p in ptrs && ptrs[p].raw.Some? :: ptrs[p].raw.value in raws)
    && (forall r | r in flight :: r in raws)
    && (forall r | r in raws :: raws[r].nref == |On(ptrs, r)| + flight[r])
  }

  /** A raw that was ever referenced lives exactly as long as something refers to it. */
  ghost predicate Lives(raws: map<RawId, Raw>, used: set<RawId>, freed: seq<RawId>, next: RawId) {
    && (forall r | r in raws :: r < next && r !in freed)
    && (forall r | r in raws :: r in used <==> raws[r].nref > 0)
    && (forall r | r in used :: r in raws || r in freed)
    && (forall r | r in freed :: r in used && r < next)
    && (forall i, j | 0 <= i < j < |freed| :: freed[i] != freed[j])
  }

  function More(raws: map<RawId, Raw>, r: RawId): map<RawId, Raw>
    requires r in raws
  {
    raws[r := raws[r].(nref := raws[r].nref + 1)]
  }

  /** One reference fewer; none left means no raw. */
  function Less(raws: map<RawId, Raw>, r: RawId): map<RawId, Raw>
    requires r in raws && raws[r].nref > 0
  {
    if raws[r].nref == 1 then raws - {r} else raws[r := raws[r].(nref := raws[r].nref - 1)]
  }

  lemma IncKeeps(raws: map<RawId, Raw>, ptrs: map<PtrId, Slot>, flight: multiset<RawId>, r: RawId)
    requires Counts(raws, ptrs, flight) && r in raws
    ensures Counts(More(raws, r), ptrs, flight + multiset{r})
  {
  }

  lemma IncLives(raws: map<RawId, Raw>, used: set<RawId>, freed: seq<RawId>, next: RawId, r: RawId)
    requires Lives(raws, used, freed, next) && r in raws
    ensures Lives(More(raws, r), used + {r}, freed, next)
  {
  }

  lemma DecKeeps(raws: map<RawId, Raw>, ptrs: map<PtrId, Slot>, flight: multiset<RawId>, r: RawId)
    requires Counts(raws, ptrs, flight + multiset{r})
    ensures r in raws && raws[r].nref > 0
    ensures raws[r].nref == 1 <==> On(ptrs, r) == {} && r !in flight
    ensures Counts(Less(raws, r), ptrs, flight)
  {
    assert r in flight + multiset{r};
    assert forall p | p in ptrs && ptrs[p].raw == Some(r) :: p in On(ptrs, r);
  }

  lemma DecLives(raws: map<RawId, Raw>, used: set<RawId>, freed: seq<RawId>, next: RawId, r: RawId)
    requires Lives(raws, used, freed, next) && r in raws && raws[r].nref > 0
    ensures Lives(Less(raws, r), used, if raws[r].nref == 1 then freed + [r] else freed, next)
  {
  }

  lemma NullKeeps(raws: map<RawId, Raw>, ptrs: map<PtrId, Slot>, p: PtrId, s: Slot)
    requires Counts(raws, ptrs, multiset{}) && s.raw == None && (p in ptrs ==> ptrs[p].raw == None)
    ensures Counts(raws, ptrs[p := s], multiset{})
  {
    forall r | r in raws ensures On(ptrs[p := s], r) == On(ptrs, r) {
      OnAfterSet(ptrs, p, s, r);
    }
  }

  lemma DropKeeps(raws: map<RawId, Raw>, ptrs: map<PtrId, Slot>, p: PtrId)
    requires Counts(raws, ptrs, multiset{}) && p in ptrs && ptrs[p].raw == None
    ensures Counts(raws, ptrs - {p}, multiset{})
  {
    forall r | r in raws ensures On(ptrs - {p}, r) == On(ptrs, r) {
    }
  }

  lemma NoDangling(raws: map<RawId, Raw>, ptrs: map<PtrId, Slot>, flight: multiset<RawId>, p: PtrId)
    requires Counts(raws, ptrs, flight) && p in ptrs && ptrs[p].raw.Some?
    ensures ptrs[p].raw.value in raws
  {
  }

  /** Trading two slots trades two members of the sets of ptrs, so no set changes size. */
  lemma SwapKeeps(raws: map<RawId, Raw>, ptrs: map<PtrId, Slot>, p: PtrId, q: PtrId)
    requires Counts(raws, ptrs, multiset{}) && p in ptrs && q in ptrs
    ensures Counts(raws, ptrs[p := ptrs[q]][q := ptrs[p]], multiset{})
  {
    hide On;
    var after := ptrs[p := ptrs[q]][q := ptrs[p]];
    forall r | r in raws ensures |On(after, r)| == |On(ptrs, r)| {
      SwapOn(ptrs, p, q, r);
    }
  }

  lemma SwapOn(ptrs: map<PtrId, Slot>, p: PtrId, q: PtrId, r: RawId)
    requires p in ptrs && q in ptrs
    ensures |On(ptrs[p := ptrs[q]][q := ptrs[p]], r)| == |On(ptrs, r)|
  {
    var after := ptrs[p := ptrs[q]][q := ptrs[p]];
    assert On(after, r) - {p, q} == On(ptrs, r) - {p, q};
    Pair(On(ptrs, r), p, q);
    Pair(On(after, r), p, q);
  }

  lemma Pair(s: set<PtrId>, p: PtrId, q: PtrId)
    ensures |s| == |s - {p, q}| + (if p in s then 1 else 0) + (if q in s && q != p then 1 else 0)
  {
    assert s == (s - {p, q}) + (s * {p, q});
    if p in s && q in s {
      assert s * {p, q} == {p, q};
    } else if p in s {
      assert s * {p, q} == {p};
    } else if q in s {
      assert s * {p, q} == {q};
    } else {
      assert s * {p, q} == {};
    }
  }

  lemma {:induction false} OnceIn(freed: seq<RawId>, r: RawId)
    requires forall i, j | 0 <= i < j < |freed| :: freed[i] != freed[j]
    ensures multiset(freed)[r] == if r in freed then 1 else 0
  {
    if freed != [] {
      var front, last := freed[..|freed| - 1], freed[|freed| - 1];
      assert freed == front + [last];
      OnceIn(front, r);
    }
  }

  /** In every reachable state, a raw that was ever referenced has been freed once if no ptr is on
      it, and not at all otherwise; no ptr is on a freed raw. */
  lemma FreedWithTheLastPtr(raws: map<RawId, Raw>, ptrs: map<PtrId, Slot>, used: set<RawId>, freed: seq<RawId>,
                            next: RawId, r: RawId)
    requires Counts(raws, ptrs, multiset{}) && Lives(raws, used, freed, next) && r in used
    ensures multiset(freed)[r] == if On(ptrs, r) == {} then 1 else 0
    ensures On(ptrs, r) != {} ==> r in raws && raws[r].nref == |On(ptrs, r)|
  {
    OnceIn(freed, r);
    if p :| p in On(ptrs, r) {
      assert r in raws;
    }
  }

  /** Constructions, assignments and destructions of ptrs. */
  datatype Op =
    | DoCreate(len: nat, shareable: bool)
    | DoFromRaw(p: PtrId, r: RawId)
    | DoNull(p: PtrId)
    | DoCopy(p: PtrId, q: PtrId)
    | DoSubSlice(p: PtrId, q: PtrId, o: nat, l: nat)
    | DoAssign(p: PtrId, q: PtrId)
    | DoMakeShareable(p: PtrId)
    | DoSwap(p: PtrId, q: PtrId)
    | DoDestroy(p: PtrId)

  /** A ptr is constructed once, and what an operation names exists; the sub-slice constructor
      asserts its range. */
  predicate Allowed(raws: map<RawId, Raw>, ptrs: map<PtrId, Slot>, op: Op) {
    match op
    case DoCreate(_, _) => true
    case DoFromRaw(p, r) => p !in ptrs && r in raws
    case DoNull(p) => p !in ptrs
    case DoCopy(p, q) => p !in ptrs && q in ptrs
    case DoSubSlice(p, q, o, l) => p !in ptrs && q in ptrs && o + l <= ptrs[q].len && ptrs[q].raw.Some?
    case DoAssign(p, q) => p in ptrs && q in ptrs
    case DoMakeShareable(p) => p in ptrs
    case DoSwap(p, q) => p in ptrs && q in ptrs
    case DoDestroy(p) => p in ptrs
  }

  predicate Unshareable(raws: map<RawId, Raw>, s: Slot) {
    s.raw.Some? && s.raw.value in raws && !raws[s.raw.value].shareable
  }

  class Pointers {
    var raws: map<RawId, Raw>
    var ptrs: map<PtrId, Slot>
    var next: RawId
    ghost var used: set<RawId>
    ghost var freed: seq<RawId>

    /** nref is the number of live ptrs; nothing dangles; no raw is freed twice. */
    ghost predicate Valid()
      reads this
    {
      Counts(raws, ptrs, multiset{}) && Lives(raws, used, freed, next)
    }

    constructor ()
      ensures Valid() && raws == map[] && ptrs == map[] && freed == []
    {
      raws, ptrs, next, used, freed := map[], map[], 0, {}, [];
    }

    /** create(): a raw that nothing refers to yet. */
    method Create(len: nat, shareable: bool) returns (r: RawId)
      requires Valid()
      modifies this
      ensures Valid() && r !in old(raws) && raws == old(raws)[r := Raw(0, len, shareable)]
      ensures ptrs == old(ptrs) && freed == old(freed) && used == old(used)
    {
      r := next;
      next := next + 1;
      assert On(ptrs, r) == {};
      raws := raws[r := Raw(0, len, shareable)];
    }

    /** nref.inc(). */
    method Inc(r: RawId, ghost flight: multiset<RawId>)
      requires Counts(raws, ptrs, flight) && Lives(raws, used, freed, next) && r in raws
      modifies this`raws, this`used
      ensures Counts(raws, ptrs, flight + multiset{r}) && Lives(raws, used, freed, next)
      ensures raws.Keys == old(raws).Keys && used == old(used) + {r}
      ensures forall x | x in raws :: raws[x] == old(raws)[x].(nref := raws[x].nref)
    {
      hide Counts, Lives;
      IncKeeps(raws, ptrs, flight, r);
      IncLives(raws, used, freed, next, r);
      raws := raws[r := raws[r].(nref := raws[r].nref + 1)];
      used := used + {r};
    }

    /** nref.dec(), and delete when it drops to 0. */
    method Dec(r: RawId, ghost flight: multiset<RawId>)
      requires Counts(raws, ptrs, flight + multiset{r}) && Lives(raws, used, freed, next)
      modifies this`raws, this`freed
      ensures Counts(raws, ptrs, flight) && Lives(raws, used, freed, next)
      ensures freed == if On(ptrs, r) == {} && r !in flight then old(freed) + [r] else old(freed)
      ensures forall x | x in old(raws) && x != r :: x in raws && raws[x] == old(raws)[x]
    {
      hide Counts, Lives, On;
      DecKeeps(raws, ptrs, flight, r);
      DecLives(raws, used, freed, next, r);
      raws := raws[r := raws[r].(nref := raws[r].nref - 1)];
      if raws[r].nref == 0 {
        raws := raws - {r};
        freed := freed + [r];
      }
      assert raws == Less(old(raws), r);
    }

    /** Point p, which must not refer to a raw, at a reference in flight. */
    method Settle(p: PtrId, s: Slot, ghost flight: multiset<RawId>)
      requires s.raw.Some? && (p in ptrs ==> ptrs[p].raw == None)
      requires Counts(raws, ptrs, flight + multiset{s.raw.value})
      modifies this`ptrs
      ensures Counts(raws, ptrs, flight) && ptrs == old(ptrs)[p := s]
    {
      assert s.raw.value in flight + multiset{s.raw.value};
      forall r | r in raws ensures raws[r].nref == |On(ptrs[p := s], r)| + flight[r] {
        OnAfterSet(ptrs, p, s, r);
        assert p !in On(ptrs, r);
        assert s.raw != Some(r) ==> On(ptrs, r) - {p} == On(ptrs, r);
      }
      ptrs := ptrs[p := s];
    }

    /** Take p's reference off it, leaving it in flight. */
    method Detach(p: PtrId, s: Slot, ghost flight: multiset<RawId>)
      requires p in ptrs && ptrs[p].raw.Some? && s.raw == None && Counts(raws, ptrs, flight)
      modifies this`ptrs
      ensures ptrs == old(ptrs)[p := s] && Counts(raws, ptrs, flight + multiset{old(ptrs)[p].raw.value})
    {
      forall r | r in raws
        ensures raws[r].nref == |On(ptrs[p := s], r)| + flight[r] + if ptrs[p].raw == Some(r) then 1 else 0
      {
        OnAfterSet(ptrs, p, s, r);
        if ptrs[p].raw == Some(r) {
          assert p in On(ptrs, r);
        } else {
          assert On(ptrs, r) - {p} == On(ptrs, r);
        }
      }
      ptrs := ptrs[p := s];
    }

    /** ptr(raw *): the first reference to a raw, or one more. */
    method FromRaw(p: PtrId, r: RawId)
      requires Valid() && p !in ptrs && r in raws
      modifies this
      ensures Valid() && ptrs == old(ptrs)[p := Slot(Some(r), 0, old(raws)[r].len)] && freed == old(freed)
    {
      Inc(r, multiset{});
      Settle(p, Slot(Some(r), 0, raws[r].len), multiset{});
    }

    /** ptr(): no raw. */
    method Null(p: PtrId)
      requires Valid() && p !in ptrs
      modifies this
      ensures Valid() && ptrs == old(ptrs)[p := NULL_SLOT] && raws == old(raws) && freed == old(freed)
    {
      NullKeeps(raws, ptrs, p, NULL_SLOT);
      ptrs := ptrs[p := NULL_SLOT];
    }

    /** ptr(const ptr&). */
    method Copy(p: PtrId, q: PtrId)
      requires Valid() && p !in ptrs && q in ptrs
      modifies this
      ensures Valid() && ptrs == old(ptrs)[p := old(ptrs)[q]] && freed == old(freed)
    {
      if ptrs[q].raw.Some? {
        Inc(ptrs[q].raw.value, multiset{});
        Settle(p, ptrs[q], multiset{});
      } else {
        NullKeeps(raws, ptrs, p, ptrs[q]);
        ptrs := ptrs[p := ptrs[q]];
      }
    }

    /** ptr(const ptr&, o, l): part of what q shows. */
    method SubSlice(p: PtrId, q: PtrId, o: nat, l: nat)
      requires Valid() && p !in ptrs && q in ptrs && o + l <= ptrs[q].len && ptrs[q].raw.Some?
      modifies this
      ensures Valid() && ptrs == old(ptrs)[p := Slot(old(ptrs)[q].raw, old(ptrs)[q].off + o, l)] && freed == old(freed)
    {
      Inc(ptrs[q].raw.value, multiset{});
      Settle(p, Slot(ptrs[q].raw, ptrs[q].off + o, l), multiset{});
    }

    /** release(): drop p's reference; the raw goes with the last one. */
    method Release(p: PtrId, ghost flight: multiset<RawId>)
      requires Counts(raws, ptrs, flight) && Lives(raws, used, freed, next) && p in ptrs
      modifies this
      ensures Counts(raws, ptrs, flight) && Lives(raws, used, freed, next)
      ensures ptrs == old(ptrs)[p := old(ptrs)[p].(raw := None)] && next == old(next) && used == old(used)
      ensures freed == if old(ptrs)[p].raw.Some? && old(On(ptrs, ptrs[p].raw.value)) == {p} && old(ptrs)[p].raw.value !in flight
                       then old(freed) + [old(ptrs)[p].raw.value] else old(freed)
      ensures forall x | x in old(raws) && old(ptrs)[p].raw != Some(x) :: x in raws && raws[x] == old(raws)[x]
    {
      if ptrs[p].raw.Some? {
        var r := ptrs[p].raw.value;
        OnAfterSet(ptrs, p, ptrs[p].(raw := None), r);
        Detach(p, ptrs[p].(raw := None), flight);
        Dec(r, flight);
      }
    }

    /** operator=: the new reference is taken before the old one is dropped, so that assigning a
        ptr to itself or to another on the same raw never frees it. */
    method Assign(p: PtrId, q: PtrId)
      requires Valid() && p in ptrs && q in ptrs
      modifies this
      ensures Valid() && ptrs == old(ptrs)[p := if old(ptrs)[q].raw.Some? then old(ptrs)[q] else NULL_SLOT]
      ensures freed == if old(ptrs)[p].raw.Some? && old(ptrs)[p].raw != old(ptrs)[q].raw
                          && old(On(ptrs, ptrs[p].raw.value)) == {p}
                       then old(freed) + [old(ptrs)[p].raw.value] else old(freed)
    {
      hide Counts, Lives, On;
      var s := ptrs[q];
      if s.raw.Some? {
        NoDangling(raws, ptrs, multiset{}, q);
        Inc(s.raw.value, multiset{});
        Release(p, multiset{} + multiset{s.raw.value});
        Settle(p, s, multiset{});
      } else {
        Release(p, multiset{});
        NullKeeps(raws, ptrs, p, NULL_SLOT);
        ptrs := ptrs[p := NULL_SLOT];
      }
    }

    /** make_shareable(): a private clone replaces an unshareable raw. */
    method MakeShareable(p: PtrId)
      requires Valid() && p in ptrs
      modifies this
      ensures Valid()
      ensures p in ptrs && ptrs == old(ptrs)[p := old(ptrs)[p].(raw := ptrs[p].raw)]
      ensures ptrs[p].raw.Some? ==> ptrs[p].raw.value in raws && raws[ptrs[p].raw.value].shareable
      ensures Unshareable(old(raws), old(ptrs)[p]) ==>
                && ptrs[p].raw.Some? && ptrs[p].raw.value !in old(raws)
                && freed == if old(On(ptrs, ptrs[p].raw.value)) == {p} then old(freed) + [old(ptrs)[p].raw.value] else old(freed)
      ensures !Unshareable(old(raws), old(ptrs)[p]) ==> ptrs == old(ptrs) && raws == old(raws) && freed == old(freed)
    {
      hide Counts, Lives, On;
      if ptrs[p].raw.Some? {
        NoDangling(raws, ptrs, multiset{}, p);
      }
      if ptrs[p].raw.Some? && !raws[ptrs[p].raw.value].shareable {
        var s := ptrs[p];
        var c := Create(raws[s.raw.value].len, true);
        Release(p, multiset{});
        Inc(c, multiset{});
        Settle(p, s.(raw := Some(c)), multiset{});
      }
    }

    /** swap(): the two trade places, nothing is counted. */
    method Swap(p: PtrId, q: PtrId)
      requires Valid() && p in ptrs && q in ptrs
      modifies this
      ensures Valid() && ptrs == old(ptrs)[p := old(ptrs)[q]][q := old(ptrs)[p]]
      ensures raws == old(raws) && freed == old(freed)
    {
      SwapKeeps(raws, ptrs, p, q);
      ptrs := ptrs[p := ptrs[q]][q := ptrs[p]];
    }

    /** ~ptr(). */
    method Destroy(p: PtrId)
      requires Valid() && p in ptrs
      modifies this
      ensures Valid() && ptrs == old(ptrs) - {p}
      ensures freed == if old(ptrs)[p].raw.Some? && old(On(ptrs, ptrs[p].raw.value)) == {p}
                       then old(freed) + [old(ptrs)[p].raw.value] else old(freed)
    {
      hide Counts, Lives, On;
      Release(p, multiset{});
      DropKeeps(raws, ptrs, p);
      ptrs := ptrs - {p};
    }

    method Execute(op: Op)
      requires Valid() && Allowed(raws, ptrs, op)
      modifies this
      ensures Valid()
    {
      hide Counts, Lives, On;
      match op {
        case DoCreate(len, shareable) => var r := Create(len, shareable);
        case DoFromRaw(p, r) => FromRaw(p, r);
        case DoNull(p) => Null(p);
        case DoCopy(p, q) => Copy(p, q);
        case DoSubSlice(p, q, o, l) => SubSlice(p, q, o, l);
        case DoAssign(p, q) => Assign(p, q);
        case DoMakeShareable(p) => MakeShareable(p);
        case DoSwap(p, q) => Swap(p, q);
        case DoDestroy(p) => Destroy(p);
      }
    }

    /** Any run, stopped where an operation is not allowed. */
    method Run(ops: seq<Op>) returns (done: nat)
      requires Valid()
      modifies this
      ensures Valid() && done <= |ops| && (done < |ops| ==> !Allowed(raws, ptrs, ops[done]))
      ensures forall r | r in used :: multiset(freed)[r] == if On(ptrs, r) == {} then 1 else 0
    {
      hide Counts, Lives, On;
      done := 0;
      while done < |ops| && Allowed(raws, ptrs, ops[done])
        invariant done <= |ops| && Valid()
      {
        Execute(ops[done]);
        done := done + 1;
      }
      forall r | r in used ensures multiset(freed)[r] == if On(ptrs, r) == {} then 1 else 0 {
        FreedWithTheLastPtr(raws, ptrs, used, freed, next, r);
      }
    }
  }
}
