/** The wire format of include/encoding.h on flat bytes: what the encoders write, how a reader
    that knows only an older version reads it, and that the two fit together. */
module Wire {
  import opened Basics

  /** Values the encoders take. A struct carries its version, the oldest compatible reader, and
      the compat value ENCODE_FINISH_NEW_COMPAT patches in (0 for plain ENCODE_FINISH). */
  datatype Value =
    | U8(b: byte)
    | U32(n: nat)
    | U64(n: nat)
    | Str(s: seq<byte>)
    | ListOf(items: seq<Value>)
    | VectorOf(items: seq<Value>)
    | Struct(version: byte, compat: byte, newCompat: byte, fields: seq<Value>)

  /** What a reader expects; a struct reader has its own version and may know fewer fields. */
  datatype Type =
    | TU8
    | TU32
    | TU64
    | TStr
    | TList(elem: Type)
    | TVector(elem: Type)
    | TStruct(version: byte, fields: seq<Type>)

  /** A decoded value and where the next one starts, or the exception the reader throws. */
  datatype Decoded<+T> =
    | Ok(value: T, next: nat)
    | Malformed
    | EndOfBuffer
  {
    predicate IsFailure() { !Ok? }

    function PropagateFailure<U>(): Decoded<U>
      requires IsFailure()
    {
      if Malformed? then Malformed else EndOfBuffer
    }

    function Extract(): (T, nat)
      requires Ok?
    {
      (value, next)
    }
  }

  // ------------------------------------------------------------------
  // Integers

  function Pow256(k: nat): (p: nat)
    ensures p > 0
  {
    if k == 0 then 1 else 256 * Pow256(k - 1)
  }

  /** ceph_le16/32/64: k bytes, least significant first; higher bits are lost. */
  function LittleEndian(n: nat, k: nat): (s: seq<byte>)
    ensures |s| == k
    decreases k
  {
    if k == 0 then [] else [n % 256] + LittleEndian(n / 256, k - 1)
  }

  function FromLittleEndian(s: seq<byte>): nat {
    if s == [] then 0 else s[0] + 256 * FromLittleEndian(s[1..])
  }

  lemma {:induction false} LittleEndianRoundTrip(n: nat, k: nat)
    requires n < Pow256(k)
    ensures FromLittleEndian(LittleEndian(n, k)) == n
    decreases k
  {
    if k > 0 {
      assert n / 256 < Pow256(k - 1);
      LittleEndianRoundTrip(n / 256, k - 1);
      assert LittleEndian(n, k)[1..] == LittleEndian(n / 256, k - 1);
    }
  }

  /** Byte i has the bits 8*i and up. */
  lemma {:induction false} LittleEndianBytes(n: nat, k: nat, i: nat)
    requires i < k
    ensures LittleEndian(n, k)[i] == n / Pow256(i) % 256
    decreases k
  {
    if i > 0 {
      LittleEndianBytes(n / 256, k - 1, i - 1);
      DivideTwice(n, Pow256(i - 1));
    }
  }

  lemma DivideTwice(n: nat, p: nat)
    requires p > 0
    ensures n / 256 / p == n / (256 * p)
  {
    var q := n / 256 / p;
    var r := n % 256 + 256 * (n / 256 % p);
    assert n / 256 == p * q + n / 256 % p;
    assert n == (256 * p) * q + r && 0 <= r < 256 * p;
    QuotientIs(n, 256 * p, q, r);
  }

  lemma QuotientIs(n: nat, d: nat, q: nat, r: nat)
    requires 0 < d && n == d * q + r && r < d
    ensures n / d == q
  {
    RemainderIs(n, d, q, r);
    assert n == d * (n / d) + r;
    var e := n / d - q;
    assert d * e == 0;
    assert e > 0 ==> d * e >= d;
    assert e < 0 ==> d * e <= 0 - d;
  }

  /** Every k bytes are the encoding of the number they are read as. */
  lemma {:induction false} BytesRoundTrip(s: seq<byte>)
    ensures FromLittleEndian(s) < Pow256(|s|) && LittleEndian(FromLittleEndian(s), |s|) == s
    decreases |s|
  {
    if s != [] {
      BytesRoundTrip(s[1..]);
      var n := FromLittleEndian(s);
      assert n % 256 == s[0] && n / 256 == FromLittleEndian(s[1..]);
      assert s == [s[0]] + s[1..];
    }
  }

  // ------------------------------------------------------------------
  // Encoding

  function CompatOnWire(v: Value): byte
    requires v.Struct?
  {
    if v.newCompat != 0 then v.newCompat else v.compat
  }

  function Encode(v: Value): seq<byte>
    decreases v, 0
  {
    match v
    case U8(b) => [b]
    case U32(n) => LittleEndian(n, 4)
    case U64(n) => LittleEndian(n, 8)
    case Str(s) => LittleEndian(|s|, 4) + s
    case ListOf(items) => LittleEndian(|items|, 4) + EncodeAll(items)
    case VectorOf(items) => LittleEndian(|items|, 4) + EncodeAll(items)
    case Struct(version, _, _, fields) =>
      [version, CompatOnWire(v)] + LittleEndian(|EncodeAll(fields)|, 4) + EncodeAll(fields)
  }

  function EncodeAll(vs: seq<Value>): seq<byte>
    decreases vs
  {
    if vs == [] then [] else Encode(vs[0]) + EncodeAll(vs[1..])
  }

  /** A 32-bit number, least significant byte first. */
  function Word(n: nat): seq<byte> {
    [n % 256, n / 0x100 % 256, n / 0x1_0000 % 256, n / 0x100_0000 % 256]
  }

  lemma WordIs(n: nat)
    ensures LittleEndian(n, 4) == Word(n)
  {
    assert Pow256(1) == 256 && Pow256(2) == 0x1_0000 && Pow256(3) == 0x100_0000;
    LittleEndianBytes(n, 4, 0);
    LittleEndianBytes(n, 4, 1);
    LittleEndianBytes(n, 4, 2);
    LittleEndianBytes(n, 4, 3);
  }

  /** The bytes of several values, one behind the other. */
  function Joined(parts: seq<seq<byte>>): seq<byte> {
    if parts == [] then [] else parts[0] + Joined(parts[1..])
  }

  function Parts(vs: seq<Value>): seq<seq<byte>> {
    seq(|vs|, i requires 0 <= i < |vs| => Encode(vs[i]))
  }

  lemma {:induction false} AllIsJoined(vs: seq<Value>)
    ensures EncodeAll(vs) == Joined(Parts(vs))
    decreases |vs|
  {
    hide Encode;
    if vs != [] {
      AllIsJoined(vs[1..]);
      assert Parts(vs)[1..] == Parts(vs[1..]);
    }
  }

  /** What stands where on the wire: counts and lengths are 32 bits wide and come first; a struct has
      its version, the oldest reader and the length of its fields before them. */
  lemma Layout(v: Value)
    ensures match v
            case U8(b) => Encode(v) == [b]
            case U32(n) => Encode(v) == Word(n)
            case U64(n) => Encode(v) == Word(n) + Word(n / 0x1_0000_0000)
            case Str(s) => Encode(v) == Word(|s|) + s
            case ListOf(items) => Encode(v) == Word(|items|) + Joined(Parts(items))
            case VectorOf(items) => Encode(v) == Word(|items|) + Joined(Parts(items))
            case Struct(version, compat, newCompat, fields) =>
              Encode(v) == [version, if newCompat == 0 then compat else newCompat]
                           + Word(|Joined(Parts(fields))|) + Joined(Parts(fields))
  {
    hide LittleEndian, Joined, Parts, Word;
    match v {
      case U8(b) =>
      case U32(n) => WordIs(n);
      case U64(n) => LongIs(n);
      case Str(s) => WordIs(|s|);
      case ListOf(items) => WordIs(|items|); AllIsJoined(items);
      case VectorOf(items) => WordIs(|items|); AllIsJoined(items);
      case Struct(_, _, _, fields) => AllIsJoined(fields); WordIs(|EncodeAll(fields)|);
    }
  }

  lemma LongIs(n: nat)
    ensures LittleEndian(n, 8) == Word(n) + Word(n / 0x1_0000_0000)
  {
    hide LittleEndian, Word;
    LowerHalf(n, 4);
    var a, b, c := n / 256, n / 256 / 256, n / 256 / 256 / 256;
    assert Upper(n, 4) == Upper(a, 3) == Upper(b, 2) == Upper(c, 1) == c / 256 == n / 0x1_0000_0000;
    WordIs(n);
    WordIs(n / 0x1_0000_0000);
  }

  /** n >> 8*k */
  function Upper(n: nat, k: nat): nat {
    if k == 0 then n else Upper(n / 256, k - 1)
  }

  lemma {:induction false} LowerHalf(n: nat, k: nat)
    ensures LittleEndian(n, k + 4) == LittleEndian(n, k) + LittleEndian(Upper(n, k), 4)
    decreases k
  {
    if k > 0 {
      LowerHalf(n / 256, k - 1);
    }
  }

  /** Every length, count and integer fits its field. */
  predicate Fitting(v: Value)
    decreases v, 0
  {
    match v
    case U8(_) => true
    case U32(n) => n < Pow256(4)
    case U64(n) => n < Pow256(8)
    case Str(s) => |s| < Pow256(4)
    case ListOf(items) => |items| < Pow256(4) && AllFitting(items)
    case VectorOf(items) => |items| < Pow256(4) && AllFitting(items)
    case Struct(_, _, _, fields) => |EncodeAll(fields)| < Pow256(4) && AllFitting(fields)
  }

  predicate AllFitting(vs: seq<Value>)
    decreases vs
  {
    vs == [] || (Fitting(vs[0]) && AllFitting(vs[1..]))
  }

  // ------------------------------------------------------------------
  // Decoding

  function TakeBytes(bytes: seq<byte>, pos: nat, n: nat): Decoded<seq<byte>> {
    if pos + n <= |bytes| then Ok(bytes[pos..pos + n], pos + n) else EndOfBuffer
  }

  function TakeNumber(bytes: seq<byte>, pos: nat, k: nat): Decoded<nat> {
    var (s, next) :- TakeBytes(bytes, pos, k);
    Ok(FromLittleEndian(s), next)
  }

  function Decode(t: Type, bytes: seq<byte>, pos: nat): Decoded<Value>
    decreases t, 0
  {
    match t
    case TU8 =>
      var (s, next) :- TakeBytes(bytes, pos, 1);
      Ok(U8(s[0]), next)
    case TU32 =>
      var (n, next) :- TakeNumber(bytes, pos, 4);
      Ok(U32(n), next)
    case TU64 =>
      var (n, next) :- TakeNumber(bytes, pos, 8);
      Ok(U64(n), next)
    case TStr =>
      var (n, at) :- TakeNumber(bytes, pos, 4);
      var (s, next) :- TakeBytes(bytes, at, n);
      Ok(Str(s), next)
    case TList(elem) =>
      var (n, at) :- TakeNumber(bytes, pos, 4);
      var (items, next) :- DecodeMany(elem, n, bytes, at);
      Ok(ListOf(items), next)
    case TVector(elem) =>
      var (n, at) :- TakeNumber(bytes, pos, 4);
      var (items, next) :- DecodeMany(elem, n, bytes, at);
      Ok(VectorOf(items), next)
    case TStruct(version, fields) =>
      var (header, end) :- DecodeHeader(version, bytes, pos);
      var (vs, at) :- DecodeFields(fields, bytes, pos + 6);
      if at > end then Malformed else Ok(Struct(header.0, header.1, 0, vs), end)
  }

  /** DECODE_START: version, compat and length; Ok with the offset at which the struct ends. */
  function DecodeHeader(version: byte, bytes: seq<byte>, pos: nat): Decoded<(byte, byte)> {
    var (v, at1) :- TakeBytes(bytes, pos, 1);
    var (c, at2) :- TakeBytes(bytes, at1, 1);
    if version < c[0] then Malformed
    else
      var (len, at3) :- TakeNumber(bytes, at2, 4);
      if len > |bytes| - at3 then Malformed else Ok((v[0], c[0]), at3 + len)
  }

  function DecodeMany(t: Type, n: nat, bytes: seq<byte>, pos: nat): Decoded<seq<Value>>
    decreases t, n + 1
  {
    if n == 0 then Ok([], pos)
    else
      var (v, at) :- Decode(t, bytes, pos);
      var (vs, next) :- DecodeMany(t, n - 1, bytes, at);
      Ok([v] + vs, next)
  }

  function DecodeFields(ts: seq<Type>, bytes: seq<byte>, pos: nat): Decoded<seq<Value>>
    decreases ts
  {
    if ts == [] then Ok([], pos)
    else
      var (v, at) :- Decode(ts[0], bytes, pos);
      var (vs, next) :- DecodeFields(ts[1..], bytes, at);
      Ok([v] + vs, next)
  }

  // ------------------------------------------------------------------
  // What a reader gets

  /** Reader type t can read v: the same shape, but a struct reader may know only the first fields
      and must not be older than the struct's compat value. */
  predicate Readable(v: Value, t: Type)
    decreases v, 0
  {
    match (v, t)
    case (U8(_), TU8) => true
    case (U32(_), TU32) => true
    case (U64(_), TU64) => true
    case (Str(_), TStr) => true
    case (ListOf(items), TList(elem)) => AllReadable(items, elem)
    case (VectorOf(items), TVector(elem)) => AllReadable(items, elem)
    case (Struct(_, _, _, fields), TStruct(version, types)) =>
      version >= CompatOnWire(v) && FieldsReadable(fields, types)
    case _ => false
  }

  predicate AllReadable(vs: seq<Value>, t: Type)
    decreases vs
  {
    vs == [] || (Readable(vs[0], t) && AllReadable(vs[1..], t))
  }

  predicate FieldsReadable(vs: seq<Value>, ts: seq<Type>)
    decreases vs
  {
    ts == [] || (vs != [] && Readable(vs[0], ts[0]) && FieldsReadable(vs[1..], ts[1..]))
  }

  /** What reader t sees of v. */
  function View(v: Value, t: Type): Value
    requires Readable(v, t)
    decreases v, 0
  {
    match (v, t)
    case (ListOf(items), TList(elem)) => ListOf(ViewAll(items, elem))
    case (VectorOf(items), TVector(elem)) => VectorOf(ViewAll(items, elem))
    case (Struct(version, _, _, fields), TStruct(_, types)) => Struct(version, CompatOnWire(v), 0, ViewFields(fields, types))
    case _ => v
  }

  function ViewAll(vs: seq<Value>, t: Type): seq<Value>
    requires AllReadable(vs, t)
    decreases vs
  {
    if vs == [] then [] else [View(vs[0], t)] + ViewAll(vs[1..], t)
  }

  function ViewFields(vs: seq<Value>, ts: seq<Type>): seq<Value>
    requires FieldsReadable(vs, ts)
    decreases vs
  {
    if ts == [] then [] else [View(vs[0], ts[0])] + ViewFields(vs[1..], ts[1..])
  }

  // ------------------------------------------------------------------
  // Round trip

  lemma TakeAt(pre: seq<byte>, s: seq<byte>, rest: seq<byte>)
    ensures TakeBytes(pre + s + rest, |pre|, |s|) == Ok(s, |pre| + |s|)
  {
    assert (pre + s + rest)[|pre|..|pre| + |s|] == s;
  }

  lemma TakeNumberAt(pre: seq<byte>, n: nat, k: nat, rest: seq<byte>)
    requires n < Pow256(k)
    ensures TakeNumber(pre + LittleEndian(n, k) + rest, |pre|, k) == Ok(n, |pre| + k)
  {
    TakeAt(pre, LittleEndian(n, k), rest);
    LittleEndianRoundTrip(n, k);
  }

  lemma Regroup(a: seq<byte>, b: seq<byte>, c: seq<byte>, d: seq<byte>)
    ensures a + (b + c) + d == a + b + (c + d)
    ensures a + (b + c) + d == (a + b) + c + d
  {
  }

  /** Decoding what was encoded gives back what the reader can see of it, and stops exactly behind
      it, whatever comes before and after. */
  lemma {:induction false} DecodeEncode(v: Value, t: Type, pre: seq<byte>, rest: seq<byte>)
    requires Fitting(v) && Readable(v, t)
    ensures Decode(t, pre + Encode(v) + rest, |pre|) == Ok(View(v, t), |pre| + |Encode(v)|)
    decreases v, 0
  {
    match v {
      case U8(b) => TakeAt(pre, [b], rest);
      case U32(n) => TakeNumberAt(pre, n, 4, rest);
      case U64(n) => TakeNumberAt(pre, n, 8, rest);
      case Str(s) =>
        var len := LittleEndian(|s|, 4);
        Regroup(pre, len, s, rest);
        TakeNumberAt(pre, |s|, 4, s + rest);
        TakeAt(pre + len, s, rest);
      case ListOf(items) => DecodeEncodeMany(items, t.elem, pre, rest);
      case VectorOf(items) => DecodeEncodeMany(items, t.elem, pre, rest);
      case Struct(_, _, _, _) => DecodeEncodeStruct(v, t, pre, rest);
    }
  }

  lemma {:induction false} DecodeEncodeMany(items: seq<Value>, t: Type, pre: seq<byte>, rest: seq<byte>)
    requires |items| < Pow256(4) && AllFitting(items) && AllReadable(items, t)
    ensures var bytes := pre + (LittleEndian(|items|, 4) + EncodeAll(items)) + rest;
            && TakeNumber(bytes, |pre|, 4) == Ok(|items|, |pre| + 4)
            && DecodeMany(t, |items|, bytes, |pre| + 4) == Ok(ViewAll(items, t), |pre| + 4 + |EncodeAll(items)|)
    decreases items, 1
  {
    var len := LittleEndian(|items|, 4);
    Regroup(pre, len, EncodeAll(items), rest);
    TakeNumberAt(pre, |items|, 4, EncodeAll(items) + rest);
    DecodeAll(items, t, pre + len, rest);
  }

  lemma {:induction false} DecodeAll(items: seq<Value>, t: Type, pre: seq<byte>, rest: seq<byte>)
    requires AllFitting(items) && AllReadable(items, t)
    ensures DecodeMany(t, |items|, pre + EncodeAll(items) + rest, |pre|) == Ok(ViewAll(items, t), |pre| + |EncodeAll(items)|)
    decreases items, 0
  {
    hide Encode, Decode, View, Readable, Fitting;
    if items != [] {
      var e := Encode(items[0]);
      Regroup(pre, e, EncodeAll(items[1..]), rest);
      DecodeEncode(items[0], t, pre, EncodeAll(items[1..]) + rest);
      DecodeAll(items[1..], t, pre + e, rest);
    }
  }

  /** A reader that knows only the first fields reads those and nothing else. */
  lemma {:induction false} DecodePrefix(fields: seq<Value>, types: seq<Type>, pre: seq<byte>, rest: seq<byte>)
    requires AllFitting(fields) && FieldsReadable(fields, types)
    ensures var d := DecodeFields(types, pre + EncodeAll(fields) + rest, |pre|);
            d.Ok? && d.value == ViewFields(fields, types) && |pre| <= d.next <= |pre| + |EncodeAll(fields)|
    decreases fields, 0
  {
    hide Encode, Decode, View, Readable, Fitting;
    if types != [] {
      var e := Encode(fields[0]);
      Regroup(pre, e, EncodeAll(fields[1..]), rest);
      DecodeEncode(fields[0], types[0], pre, EncodeAll(fields[1..]) + rest);
      DecodePrefix(fields[1..], types[1..], pre + e, rest);
    }
  }

  lemma {:induction false} DecodeEncodeStruct(v: Value, t: Type, pre: seq<byte>, rest: seq<byte>)
    requires v.Struct? && Fitting(v) && Readable(v, t)
    ensures Decode(t, pre + Encode(v) + rest, |pre|) == Ok(View(v, t), |pre| + |Encode(v)|)
    decreases v.fields, 1
  {
    var payload := EncodeAll(v.fields);
    var head := [v.version, CompatOnWire(v)] + LittleEndian(|payload|, 4);
    HeaderAt(v.version, CompatOnWire(v), |payload|, t.version, pre, payload + rest);
    Regroup(pre, head, payload, rest);
    DecodePrefix(v.fields, t.fields, pre + head, rest);
  }

  lemma HeaderAt(version: byte, compat: byte, len: nat, reader: byte, pre: seq<byte>, rest: seq<byte>)
    requires len < Pow256(4) && len <= |rest|
    ensures DecodeHeader(reader, pre + ([version, compat] + LittleEndian(len, 4)) + rest, |pre|)
         == if reader < compat then Malformed else Ok((version, compat), |pre| + 6 + len)
  {
    hide LittleEndian, TakeBytes;
    var le := LittleEndian(len, 4);
    var bytes := pre + ([version, compat] + le) + rest;
    assert bytes == pre + [version] + ([compat] + le + rest);
    TakeAt(pre, [version], [compat] + le + rest);
    assert bytes == (pre + [version]) + [compat] + (le + rest);
    TakeAt(pre + [version], [compat], le + rest);
    assert bytes == (pre + [version, compat]) + le + rest;
    TakeNumberAt(pre + [version, compat], len, 4, rest);
  }

  /** A reader older than the compat value on the wire rejects the struct. */
  lemma TooOldReaderRejects(v: Value, version: byte, types: seq<Type>, pre: seq<byte>, rest: seq<byte>)
    requires v.Struct? && Fitting(v) && version < CompatOnWire(v)
    ensures Decode(TStruct(version, types), pre + Encode(v) + rest, |pre|) == Malformed
  {
    var payload := EncodeAll(v.fields);
    var head := [v.version, CompatOnWire(v)] + LittleEndian(|payload|, 4);
    HeaderAt(v.version, CompatOnWire(v), |payload|, version, pre, payload + rest);
    Regroup(pre, head, payload, rest);
  }

  /** Values with the same bytes look the same to every reader that can read both. */
  lemma SameBytesSameView(v: Value, w: Value, t: Type)
    requires Fitting(v) && Fitting(w) && Readable(v, t) && Readable(w, t)
    requires Encode(v) == Encode(w)
    ensures View(v, t) == View(w, t)
  {
    DecodeEncode(v, t, [], []);
    DecodeEncode(w, t, [], []);
  }

  // ------------------------------------------------------------------
  // Any input

  /** Whatever the bytes, a decoder that succeeds has stayed inside them. */
  lemma {:induction false} DecodeStaysInside(t: Type, bytes: seq<byte>, pos: nat)
    requires pos <= |bytes|
    ensures var d := Decode(t, bytes, pos); d.Ok? ==> pos <= d.next <= |bytes|
    decreases t, 0
  {
    match t {
      case TU8 =>
      case TU32 =>
      case TU64 =>
      case TStr =>
      case TList(elem) => CountedStaysInside(elem, bytes, pos);
      case TVector(elem) => CountedStaysInside(elem, bytes, pos);
      case TStruct(version, fields) =>
    }
  }

  lemma {:induction false} CountedStaysInside(t: Type, bytes: seq<byte>, pos: nat)
    requires pos <= |bytes|
    ensures var n := TakeNumber(bytes, pos, 4);
            n.Ok? ==> var d := DecodeMany(t, n.value, bytes, n.next); d.Ok? ==> pos <= d.next <= |bytes|
    decreases t, 2
  {
    var n := TakeNumber(bytes, pos, 4);
    if n.Ok? {
      ManyStayInside(t, n.value, bytes, n.next);
    }
  }

  lemma {:induction false} ManyStayInside(t: Type, n: nat, bytes: seq<byte>, pos: nat)
    requires pos <= |bytes|
    ensures var d := DecodeMany(t, n, bytes, pos); d.Ok? ==> pos <= d.next <= |bytes| && |d.value| == n
    decreases t, 1, n
  {
    hide Decode;
    if n > 0 {
      DecodeStaysInside(t, bytes, pos);
      var v := Decode(t, bytes, pos);
      if v.Ok? {
        ManyStayInside(t, n - 1, bytes, v.next);
      }
    }
  }

  /** A struct that decodes ends where its header says, whatever the reader knows of it. */
  lemma StructEndsAsDeclared(version: byte, fields: seq<Type>, bytes: seq<byte>, pos: nat)
    requires Decode(TStruct(version, fields), bytes, pos).Ok?
    ensures pos + 6 <= |bytes|
    ensures Decode(TStruct(version, fields), bytes, pos).next == pos + 6 + FromLittleEndian(bytes[pos + 2..pos + 6]) <= |bytes|
    ensures bytes[pos + 1] <= version
  {
    hide FromLittleEndian;
  }

  /** What DECODE_START makes of any bytes. */
  lemma HeaderExactly(version: byte, bytes: seq<byte>, pos: nat)
    ensures DecodeHeader(version, bytes, pos)
         == if |bytes| < pos + 2 then EndOfBuffer
            else if bytes[pos + 1] > version then Malformed
            else if |bytes| < pos + 6 then EndOfBuffer
            else
              var end := pos + 6 + FromLittleEndian(bytes[pos + 2..pos + 6]);
              if end > |bytes| then Malformed else Ok((bytes[pos], bytes[pos + 1]), end)
  {
    hide FromLittleEndian;
  }

  /** The bytes behind what was read do not matter: with fewer of them, or more, the same value is read. */
  ghost predicate Same<T>(d: Decoded<T>, short: Decoded<T>, m: nat) {
    (d.Ok? && d.next <= m) || short.Ok? ==> d == short
  }

  lemma TakeSame(bytes: seq<byte>, m: nat, pos: nat, n: nat)
    requires m <= |bytes|
    ensures Same(TakeBytes(bytes, pos, n), TakeBytes(bytes[..m], pos, n), m)
    ensures Same(TakeNumber(bytes, pos, n), TakeNumber(bytes[..m], pos, n), m)
    ensures TakeBytes(bytes[..m], pos, n).Ok? <==> pos + n <= m
  {
    hide FromLittleEndian;
    if pos + n <= m {
      assert bytes[..m][pos..pos + n] == bytes[pos..pos + n];
    }
  }

  lemma HeaderSame(version: byte, bytes: seq<byte>, m: nat, pos: nat)
    requires m <= |bytes|
    ensures Same(DecodeHeader(version, bytes, pos), DecodeHeader(version, bytes[..m], pos), m)
  {
    HeaderExactly(version, bytes, pos);
    HeaderExactly(version, bytes[..m], pos);
    hide DecodeHeader, FromLittleEndian;
    if pos + 6 <= m {
      assert bytes[..m][pos + 2..pos + 6] == bytes[pos + 2..pos + 6];
    }
  }

  lemma {:induction false} DecodeSame(t: Type, bytes: seq<byte>, m: nat, pos: nat)
    requires m <= |bytes|
    ensures Same(Decode(t, bytes, pos), Decode(t, bytes[..m], pos), m)
    decreases t, 0
  {
    hide TakeNumber, TakeBytes, DecodeMany, DecodeFields, DecodeHeader;
    match t {
      case TU8 => TakeSame(bytes, m, pos, 1); TakesThatMany(bytes, pos, 1); TakesThatMany(bytes[..m], pos, 1);
      case TU32 => TakeSame(bytes, m, pos, 4);
      case TU64 => TakeSame(bytes, m, pos, 8);
      case TStr => StrSame(bytes, m, pos);
      case TList(elem) => CountedSame(elem, bytes, m, pos);
      case TVector(elem) => CountedSame(elem, bytes, m, pos);
      case TStruct(version, fields) =>
        HeaderSame(version, bytes, m, pos);
        FieldsSame(fields, bytes, m, pos + 6);
    }
  }

  lemma TakesThatMany(bytes: seq<byte>, pos: nat, n: nat)
    ensures TakeBytes(bytes, pos, n).Ok? ==> |TakeBytes(bytes, pos, n).value| == n
  {
  }

  lemma StrSame(bytes: seq<byte>, m: nat, pos: nat)
    requires m <= |bytes|
    ensures Same(Decode(TStr, bytes, pos), Decode(TStr, bytes[..m], pos), m)
  {
    hide FromLittleEndian;
    TakeSame(bytes, m, pos, 4);
    var n := TakeNumber(bytes, pos, 4);
    if n.Ok? {
      TakeSame(bytes, m, n.next, n.value);
    }
  }

  /** The count, and then the elements. */
  function DecodeCounted(t: Type, bytes: seq<byte>, pos: nat): Decoded<seq<Value>> {
    var (n, at) :- TakeNumber(bytes, pos, 4);
    DecodeMany(t, n, bytes, at)
  }

  lemma {:induction false} CountedSame(t: Type, bytes: seq<byte>, m: nat, pos: nat)
    requires m <= |bytes|
    ensures Same(DecodeCounted(t, bytes, pos), DecodeCounted(t, bytes[..m], pos), m)
    decreases t, 2
  {
    hide TakeBytes, Decode;
    TakeSame(bytes, m, pos, 4);
    var n := TakeNumber(bytes, pos, 4);
    if n.Ok? {
      ManySame(t, n.value, bytes, m, n.next);
      ManyForward(t, n.value, bytes, n.next);
    }
  }

  lemma {:induction false} ManySame(t: Type, n: nat, bytes: seq<byte>, m: nat, pos: nat)
    requires m <= |bytes|
    ensures Same(DecodeMany(t, n, bytes, pos), DecodeMany(t, n, bytes[..m], pos), m)
    decreases t, 1, n
  {
    hide Decode;
    if n > 0 {
      DecodeSame(t, bytes, m, pos);
      var v := Decode(t, bytes, pos);
      if v.Ok? {
        ManySame(t, n - 1, bytes, m, v.next);
        ManyForward(t, n - 1, bytes, v.next);
      }
    }
  }

  lemma {:induction false} FieldsSame(ts: seq<Type>, bytes: seq<byte>, m: nat, pos: nat)
    requires m <= |bytes|
    ensures Same(DecodeFields(ts, bytes, pos), DecodeFields(ts, bytes[..m], pos), m)
    decreases ts
  {
    hide Decode;
    if ts != [] {
      DecodeSame(ts[0], bytes, m, pos);
      var v := Decode(ts[0], bytes, pos);
      if v.Ok? {
        FieldsSame(ts[1..], bytes, m, v.next);
        FieldsForward(ts[1..], bytes, v.next);
      }
    }
  }

  /** Readers move forward. */
  lemma {:induction false} DecodeForward(t: Type, bytes: seq<byte>, pos: nat)
    ensures Decode(t, bytes, pos).Ok? ==> pos <= Decode(t, bytes, pos).next
    decreases t, 0
  {
    match t {
      case TU8 =>
      case TU32 =>
      case TU64 =>
      case TStr =>
      case TList(elem) => if TakeNumber(bytes, pos, 4).Ok? { ManyForward(elem, TakeNumber(bytes, pos, 4).value, bytes, pos + 4); }
      case TVector(elem) => if TakeNumber(bytes, pos, 4).Ok? { ManyForward(elem, TakeNumber(bytes, pos, 4).value, bytes, pos + 4); }
      case TStruct(_, _) =>
    }
  }

  lemma {:induction false} ManyForward(t: Type, n: nat, bytes: seq<byte>, pos: nat)
    ensures DecodeMany(t, n, bytes, pos).Ok? ==> pos <= DecodeMany(t, n, bytes, pos).next
    decreases t, 1, n
  {
    hide Decode;
    if n > 0 {
      DecodeForward(t, bytes, pos);
      if Decode(t, bytes, pos).Ok? {
        ManyForward(t, n - 1, bytes, Decode(t, bytes, pos).next);
      }
    }
  }

  lemma {:induction false} FieldsForward(ts: seq<Type>, bytes: seq<byte>, pos: nat)
    ensures DecodeFields(ts, bytes, pos).Ok? ==> pos <= DecodeFields(ts, bytes, pos).next
    decreases ts
  {
    hide Decode;
    if ts != [] {
      DecodeForward(ts[0], bytes, pos);
      if Decode(ts[0], bytes, pos).Ok? {
        FieldsForward(ts[1..], bytes, Decode(ts[0], bytes, pos).next);
      }
    }
  }

  /** A value depends on its own bytes only: cut off behind it, it reads the same. */
  lemma OwnBytesOnly(t: Type, bytes: seq<byte>, pos: nat)
    requires pos <= |bytes| && Decode(t, bytes, pos).Ok?
    ensures Decode(t, bytes, pos).next <= |bytes|
    ensures Decode(t, bytes[..Decode(t, bytes, pos).next], pos) == Decode(t, bytes, pos)
  {
    hide Decode;
    DecodeStaysInside(t, bytes, pos);
    DecodeSame(t, bytes, Decode(t, bytes, pos).next, pos);
  }

  /** On any bytes: a struct is read if and only if its header is good and its fields can be read from
      the bytes up to the end the header declares, and then it has those fields. Fields that can be
      read only from the bytes behind that end make it malformed. */
  lemma StructReadsItsOwn(version: byte, fields: seq<Type>, bytes: seq<byte>, pos: nat)
    requires DecodeHeader(version, bytes, pos).Ok?
    ensures var header := DecodeHeader(version, bytes, pos);
            && header.next <= |bytes|
            && var d, own := Decode(TStruct(version, fields), bytes, pos), DecodeFields(fields, bytes[..header.next], pos + 6);
            && (d.Ok? <==> own.Ok?)
            && (d.Ok? ==> d == Ok(Struct(header.value.0, header.value.1, 0, own.value), header.next))
            && (!own.Ok? && DecodeFields(fields, bytes, pos + 6).Ok? ==> d == Malformed)
  {
    HeaderExactly(version, bytes, pos);
    hide DecodeHeader, DecodeFields;
    var end := DecodeHeader(version, bytes, pos).next;
    FieldsSame(fields, bytes, end, pos + 6);
    FieldsInside(fields, bytes[..end], pos + 6);
  }

  lemma {:induction false} FieldsInside(ts: seq<Type>, bytes: seq<byte>, pos: nat)
    requires pos <= |bytes|
    ensures DecodeFields(ts, bytes, pos).Ok? ==> DecodeFields(ts, bytes, pos).next <= |bytes|
    decreases ts
  {
    hide Decode;
    if ts != [] {
      DecodeStaysInside(ts[0], bytes, pos);
      if Decode(ts[0], bytes, pos).Ok? {
        FieldsInside(ts[1..], bytes, Decode(ts[0], bytes, pos).next);
      }
    }
  }

  /** An encoding that is cut short is not read, wherever it is cut. */
  lemma TruncatedFails(v: Value, t: Type, pre: seq<byte>, m: nat)
    requires Fitting(v) && Readable(v, t) && m < |Encode(v)|
    ensures Decode(t, pre + Encode(v)[..m], |pre|).IsFailure()
  {
    hide Encode, Decode, View, Readable, Fitting;
    var whole, short := pre + Encode(v) + [], pre + Encode(v)[..m];
    assert short == whole[..|short|];
    DecodeEncode(v, t, pre, []);
    DecodeSame(t, whole, |short|, |pre|);
    DecodeStaysInside(t, short, |pre|);
  }

  lemma NumberExactly(bytes: seq<byte>, pos: nat, k: nat)
    ensures var d := TakeNumber(bytes, pos, k);
            if pos + k <= |bytes| then d.Ok? && d.next == pos + k && LittleEndian(d.value, k) == bytes[pos..pos + k]
            else d == EndOfBuffer
  {
    hide LittleEndian;
    if pos + k <= |bytes| {
      BytesRoundTrip(bytes[pos..pos + k]);
    }
  }

  /** Numbers on any bytes: too few of them end the buffer, and nothing else fails. */
  lemma NumbersExactly(bytes: seq<byte>, pos: nat)
    ensures Decode(TU8, bytes, pos) == if pos + 1 <= |bytes| then Ok(U8(bytes[pos]), pos + 1) else EndOfBuffer
    ensures var d := Decode(TU32, bytes, pos);
            if pos + 4 <= |bytes| then d.Ok? && d.next == pos + 4 && d.value.U32? && Word(d.value.n) == bytes[pos..pos + 4]
            else d == EndOfBuffer
    ensures var d := Decode(TU64, bytes, pos);
            if pos + 8 <= |bytes| then
              d.Ok? && d.next == pos + 8 && d.value.U64? && Word(d.value.n) + Word(d.value.n / 0x1_0000_0000) == bytes[pos..pos + 8]
            else d == EndOfBuffer
  {
    hide TakeNumber, LittleEndian, Word;
    NumberExactly(bytes, pos, 4);
    NumberExactly(bytes, pos, 8);
    if pos + 4 <= |bytes| {
      WordIs(TakeNumber(bytes, pos, 4).value);
    }
    if pos + 8 <= |bytes| {
      LongIs(TakeNumber(bytes, pos, 8).value);
    }
  }

  /** Strings on any bytes: the length, and then that many bytes or the end of the buffer. */
  lemma StringExactly(bytes: seq<byte>, pos: nat)
    ensures var n := Decode(TU32, bytes, pos);
            Decode(TStr, bytes, pos) == if n.Ok? && n.value.U32? && n.next + n.value.n <= |bytes|
                                        then Ok(Str(bytes[n.next..n.next + n.value.n]), n.next + n.value.n) else EndOfBuffer
  {
    hide TakeNumber;
    NumberExactly(bytes, pos, 4);
  }
}
