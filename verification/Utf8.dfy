/** 31-bit UTF-8 (common/utf8.c, section 2 of RFC 2279). Shifts and masks are written as division and
    remainder; an "or" of disjoint bits is a sum. */
module Utf8 {
  import opened Basics

  const MAX_UTF8_SZ: nat := 6

  // ------------------------------------------------------------------
  // Code points

  /** How many bytes follow the first one. */
  function Extra(u: nat): Option<nat> {
    if u <= 0x7f then Some(0)
    else if u <= 0x7ff then Some(1)
    else if u <= 0xffff then Some(2)
    else if u <= 0x1f_ffff then Some(3)
    else if u <= 0x3ff_ffff then Some(4)
    else if u <= 0x7fff_ffff then Some(5)
    else None
  }

  /** The mask of i + 1 leading ones. */
  function Mask(i: nat): (m: nat)
    requires 1 <= i <= 5
  {
    match i
    case 1 => 0xC0
    case 2 => 0xE0
    case 3 => 0xF0
    case 4 => 0xF8
    case 5 => 0xFC
  }

  /** u >> 6*i */
  function Shift(u: nat, i: nat): nat {
    if i == 0 then u else Shift(u / 64, i - 1)
  }

  /** The low 6*i bits of u, six to a byte. */
  function Low(u: nat, i: nat): (s: seq<byte>)
    ensures |s| == i
    decreases i
  {
    if i == 0 then [] else Low(u / 64, i - 1) + [0x80 + u % 64]
  }

  /** What is left of the first byte for bits of the code point. */
  function Room(i: nat): nat
    requires 1 <= i <= 5
  {
    match i
    case 1 => 32
    case 2 => 16
    case 3 => 8
    case 4 => 4
    case 5 => 2
  }

  function Times64(m: nat, i: nat): nat {
    if i == 0 then m else 64 * Times64(m, i - 1)
  }

  lemma {:induction false} ShiftBelow(u: nat, i: nat, m: nat)
    requires u < Times64(m, i)
    ensures Shift(u, i) < m
    decreases i
  {
    if i > 0 {
      ShiftBelow(u / 64, i - 1, m);
    }
  }

  lemma ShiftFits(u: nat, i: nat)
    requires Extra(u) == Some(i) && 1 <= i
    ensures Shift(u, i) < Room(i)
  {
    var m := Room(i);
    assert Times64(m, 1) == 64 * m && Times64(m, 2) == 64 * 64 * m;
    assert Times64(m, 3) == 64 * Times64(m, 2) && Times64(m, 4) == 64 * Times64(m, 3) && Times64(m, 5) == 64 * Times64(m, 4);
    ShiftBelow(u, i, m);
  }

  function Encode(u: nat): Option<seq<byte>> {
    match Extra(u)
    case None => None
    case Some(i) =>
      if i == 0 then Some([u])
      else
        ShiftFits(u, i);
        Some([Mask(i) + Shift(u, i)] + Low(u, i))
  }

  /** Code points that decode_utf8 lets through. */
  predicate Permitted(u: nat) {
    u <= 0x7fff_ffff && u != 0xFFFE && u != 0xFFFF && !(0xD800 <= u <= 0xDFFF)
  }

  /** Leading ones of a byte. */
  function HighBits(b: byte): nat {
    if b < 0x80 then 0
    else if b < 0xC0 then 1
    else if b < 0xE0 then 2
    else if b < 0xF0 then 3
    else if b < 0xF8 then 4
    else if b < 0xFC then 5
    else if b < 0xFE then 6
    else if b < 0xFF then 7
    else 8
  }

  predicate Continuation(b: byte) {
    b / 64 == 2
  }

  /** b & (0xff >> n) */
  function Payload(b: byte, n: nat): nat
    requires 2 <= n <= 6
  {
    match n
    case 2 => b % 64
    case 3 => b % 32
    case 4 => b % 16
    case 5 => b % 8
    case 6 => b % 4
  }

  /** code << 6 | next bits, over all the bytes; None at one that is no continuation. */
  function Collect(code: nat, rest: seq<byte>): Option<nat>
    decreases |rest|
  {
    if rest == [] then Some(code)
    else if !Continuation(rest[0]) then None
    else Collect(code * 64 + rest[0] % 64, rest[1..])
  }

  function Decode(buf: seq<byte>): Option<nat> {
    if |buf| == 0 then None
    else if |buf| == 1 then if buf[0] >= 0x80 then None else Some(buf[0])
    else if HighBits(buf[0]) != |buf| || |buf| > 6 then None
    else
      match Collect(Payload(buf[0], |buf|), buf[1..])
      case None => None
      case Some(code) => if Permitted(code) then Some(code) else None
  }

  lemma {:induction false} CollectSnoc(code: nat, s: seq<byte>, b: byte)
    requires Collect(code, s).Some? && Continuation(b)
    ensures Collect(code, s + [b]) == Some(Collect(code, s).value * 64 + b % 64)
    decreases |s|
  {
    if s == [] {
      assert s + [b] == [b];
    } else {
      assert (s + [b])[1..] == s[1..] + [b];
      CollectSnoc(code * 64 + s[0] % 64, s[1..], b);
    }
  }

  lemma {:induction false} CollectLow(u: nat, i: nat)
    ensures Collect(Shift(u, i), Low(u, i)) == Some(u)
    decreases i
  {
    if i > 0 {
      CollectLow(u / 64, i - 1);
      CollectSnoc(Shift(u, i), Low(u / 64, i - 1), 0x80 + u % 64);
    }
  }

  lemma HeadBits(i: nat, x: nat)
    requires 1 <= i <= 5 && x < Room(i)
    ensures var b := Mask(i) + x; b < 256 && b >= 0xC0 && HighBits(b) == i + 1 && Payload(b, i + 1) == x
  {
  }

  lemma HeadRoundTrip(u: nat, i: nat)
    requires Extra(u) == Some(i) && 1 <= i
    ensures var b := Mask(i) + Shift(u, i); b < 256 && b >= 0xC0 && HighBits(b) == i + 1 && Payload(b, i + 1) == Shift(u, i)
  {
    hide Shift, Mask, Room, HighBits, Payload;
    ShiftFits(u, i);
    HeadBits(i, Shift(u, i));
  }

  /** Decoding an encoded code point gives it back, for every permitted one. */
  lemma DecodeEncode(u: nat)
    requires Permitted(u)
    ensures Encode(u).Some? && Decode(Encode(u).value) == Some(u)
  {
    var i := Extra(u).value;
    if i > 0 {
      HeadRoundTrip(u, i);
      CollectLow(u, i);
      assert Encode(u).value[1..] == Low(u, i);
    }
  }

  // ------------------------------------------------------------------
  // Streams

  /** An ASCII byte, or the shortest encoding of a permitted code point. */
  ghost predicate Character(part: seq<byte>) {
    exists u :: Permitted(u) && Encode(u) == Some(part)
  }

  function Flatten(parts: seq<seq<byte>>): seq<byte> {
    if parts == [] then [] else parts[0] + Flatten(parts[1..])
  }

  ghost predicate AllCharacters(parts: seq<seq<byte>>) {
    forall i | 0 <= i < |parts| :: Character(parts[i])
  }

  /** The bytes are characters put one after the other. */
  ghost predicate Text(s: seq<byte>) {
    exists parts :: AllCharacters(parts) && Flatten(parts) == s
  }

  /** Continuation bytes from position i on. */
  function RunEnd(s: seq<byte>, i: nat): (e: nat)
    requires i <= |s|
    ensures i <= e <= |s|
    ensures forall k | i <= k < e :: Continuation(s[k])
    ensures e < |s| ==> !Continuation(s[e])
    decreases |s| - i
  {
    if i == |s| || !Continuation(s[i]) then i else RunEnd(s, i + 1)
  }

  /** What check_utf8 asks of one collected piece. */
  predicate PieceOk(c: seq<byte>) {
    match Decode(c)
    case None => false
    case Some(code) => Encode(code) == Some(c)
  }

  /** check_utf8 on the bytes from i on, piece by piece. */
  predicate Checks(s: seq<byte>, i: nat)
    requires i <= |s|
    decreases |s| - i
  {
    if i == |s| then true
    else if s[i] < 0x80 then Checks(s, i + 1)
    else PieceOk(s[i..RunEnd(s, i + 1)]) && Checks(s, RunEnd(s, i + 1))
  }

  /** The pieces that pass are the multi-byte characters. */
  lemma PieceIsCharacter(c: seq<byte>)
    ensures PieceOk(c) <==> Character(c)
  {
    if PieceOk(c) {
      var code := Decode(c).value;
      assert Permitted(code) && Encode(code) == Some(c);
    }
    if Character(c) {
      var u :| Permitted(u) && Encode(u) == Some(c);
      DecodeEncode(u);
    }
  }

  lemma {:induction false} LowContinues(u: nat, i: nat, k: nat)
    requires k < i
    ensures Continuation(Low(u, i)[k])
    decreases i
  {
    if k < i - 1 {
      LowContinues(u / 64, i - 1, k);
    }
  }

  /** A character is one ASCII byte, or a byte that starts a piece and continuation bytes. */
  lemma CharacterShape(c: seq<byte>)
    requires Character(c)
    ensures 1 <= |c| <= MAX_UTF8_SZ
    ensures c[0] < 0x80 ==> |c| == 1
    ensures c[0] >= 0x80 ==> !Continuation(c[0]) && |c| > 1
    ensures forall k | 1 <= k < |c| :: Continuation(c[k])
  {
    hide Shift, Low, HighBits, Payload, Mask, Room;
    var u :| Permitted(u) && Encode(u) == Some(c);
    var i := Extra(u).value;
    if i > 0 {
      HeadRoundTrip(u, i);
      forall k | 1 <= k < |c| ensures Continuation(c[k]) {
        LowContinues(u, i, k - 1);
        assert c[k] == Low(u, i)[k - 1];
      }
    }
  }

  // ------------------------------------------------------------------
  // The characters, byte by byte

  /** What the bytes of a character can be, without reference to code points: the table of section 2 of
      RFC 2279, without encodings that are longer than need be, the surrogates, U+FFFE and U+FFFF. */
  predicate InTable(c: seq<byte>) {
    && 1 <= |c| <= 6
    && (forall k | 1 <= k < |c| :: 0x80 <= c[k] < 0xC0)
    && (|c| == 1 ==> c[0] < 0x80)
    && (|c| == 2 ==> 0xC2 <= c[0] < 0xE0)
    && (|c| == 3 ==> && 0xE0 <= c[0] < 0xF0 && (c[0] == 0xE0 ==> c[1] >= 0xA0) && (c[0] == 0xED ==> c[1] < 0xA0)
                     && !(c[0] == 0xEF && c[1] == 0xBF && c[2] >= 0xBE))
    && (|c| == 4 ==> 0xF0 <= c[0] < 0xF8 && (c[0] == 0xF0 ==> c[1] >= 0x90))
    && (|c| == 5 ==> 0xF8 <= c[0] < 0xFC && (c[0] == 0xF8 ==> c[1] >= 0x88))
    && (|c| == 6 ==> 0xFC <= c[0] < 0xFE && (c[0] == 0xFC ==> c[1] >= 0x84))
  }

  /** The first byte announces how many follow. */
  predicate Shaped(c: seq<byte>) {
    && 2 <= |c| <= 6 && HighBits(c[0]) == |c|
    && forall k | 1 <= k < |c| :: Continuation(c[k])
  }

  /** The number the payload bits are. */
  function Bits(x: nat, rest: seq<byte>): nat {
    if rest == [] then x else Bits(x, rest[..|rest| - 1]) * 64 + rest[|rest| - 1] % 64
  }

  lemma {:induction false} CollectIs(x: nat, rest: seq<byte>)
    ensures Collect(x, rest) == if forall k | 0 <= k < |rest| :: Continuation(rest[k]) then Some(Bits(x, rest)) else None
    decreases |rest|
  {
    hide Continuation;
    if rest != [] {
      var front, b := rest[..|rest| - 1], rest[|rest| - 1];
      assert rest == front + [b];
      CollectIs(x, front);
      CollectLast(x, front, b);
      assert forall k | 0 <= k < |front| :: front[k] == rest[k];
    }
  }

  lemma {:induction false} CollectLast(x: nat, s: seq<byte>, b: byte)
    ensures Collect(x, s + [b])
         == if Collect(x, s).Some? && Continuation(b) then Some(Collect(x, s).value * 64 + b % 64) else None
    decreases |s|
  {
    hide Continuation;
    if s == [] {
      assert s + [b] == [b] && [b][1..] == [];
    } else {
      assert (s + [b])[1..] == s[1..] + [b];
      CollectLast(x * 64 + s[0] % 64, s[1..], b);
    }
  }

  /** Cutting that number into groups of six bits again. */
  lemma {:induction false} BitsCut(x: nat, rest: seq<byte>)
    requires forall k | 0 <= k < |rest| :: Continuation(rest[k])
    ensures Low(Bits(x, rest), |rest|) == rest && Shift(Bits(x, rest), |rest|) == x
    decreases |rest|
  {
    if rest != [] {
      var front, b := rest[..|rest| - 1], rest[|rest| - 1];
      BitsCut(x, front);
      assert Continuation(b) && b == 0x80 + b % 64;
      var n := Bits(x, rest);
      assert n / 64 == Bits(x, front) && n % 64 == b % 64;
      assert rest == front + [b];
    }
  }

  /** A piece is a character exactly if it has the shape, and its number is permitted and needs that many
      bytes. */
  lemma CharacterIs(c: seq<byte>)
    requires |c| >= 2
    ensures Character(c) <==>
              Shaped(c) && var u := Bits(Payload(c[0], |c|), c[1..]); Permitted(u) && Extra(u) == Some(|c| - 1)
  {
    hide Bits, Collect, Low, Shift, Extra, Continuation, Character;
    PieceIsCharacter(c);
    var rest := c[1..];
    assert forall k | 0 <= k < |rest| :: rest[k] == c[k + 1];
    assert (forall k | 0 <= k < |rest| :: Continuation(rest[k])) <==> (forall k | 1 <= k < |c| :: Continuation(c[k])) by {
      forall k | 1 <= k < |c| ensures c[k] == rest[k - 1] {
      }
    }
    if 2 <= |c| <= 6 && HighBits(c[0]) == |c| {
      CollectIs(Payload(c[0], |c|), rest);
      if Shaped(c) {
        EncodesBack(c);
      }
    }
  }

  lemma EncodesBack(c: seq<byte>)
    requires Shaped(c)
    ensures var u := Bits(Payload(c[0], |c|), c[1..]); Encode(u) == Some(c) <==> Extra(u) == Some(|c| - 1)
  {
    hide Bits, Low, Shift, Continuation;
    var rest, x := c[1..], Payload(c[0], |c|);
    assert forall k | 0 <= k < |rest| :: rest[k] == c[k + 1];
    BitsCut(x, rest);
    var u := Bits(x, rest);
    if Extra(u) == Some(|c| - 1) {
      FirstByte(c[0], |c| - 1);
      assert c == [c[0]] + rest;
    }
    if Encode(u) == Some(c) {
      EncodeLength(u);
    }
  }

  lemma FirstByte(b: byte, i: nat)
    requires 1 <= i <= 5 && HighBits(b) == i + 1
    ensures Mask(i) + Payload(b, i + 1) == b
  {
  }

  lemma EncodeLength(u: nat)
    ensures Encode(u).Some? ==> Extra(u).Some? && |Encode(u).value| == Extra(u).value + 1
  {
  }

  lemma BitsOf(x: nat, rest: seq<byte>)
    ensures |rest| == 1 ==> Bits(x, rest) == x * 64 + rest[0] % 64
    ensures |rest| == 2 ==> Bits(x, rest) == (x * 64 + rest[0] % 64) * 64 + rest[1] % 64
  {
    if 1 <= |rest| <= 2 {
      var front := rest[..|rest| - 1];
      assert |rest| == 2 ==> front[0] == rest[0] && front[..0] == [];
    }
  }

  /** Six more bits below: what is at least m, or is below it, stays so times 64. */
  lemma {:induction false} BitsBound(x: nat, rest: seq<byte>, m: nat)
    ensures Bits(x, rest) >= Times64(m, |rest|) <==> x >= m
    decreases |rest|
  {
    if rest != [] {
      BitsBound(x, rest[..|rest| - 1], m);
    }
  }

  lemma {:induction false} BitsFirst(x: nat, rest: seq<byte>)
    requires rest != []
    ensures Bits(x, rest) == Bits(x * 64 + rest[0] % 64, rest[1..])
    decreases |rest|
  {
    if |rest| == 1 {
      assert rest[..0] == [] && rest[1..] == [];
    } else {
      BitsFirst(x, rest[..|rest| - 1]);
      assert rest[..|rest| - 1][1..] == rest[1..][..|rest| - 2];
    }
  }

  /** The least number that needs i more bytes, in units of the second byte's bits. */
  function Least(i: nat): nat
    requires 2 <= i <= 5
  {
    match i
    case 2 => 0x20
    case 3 => 0x10
    case 4 => 0x08
    case 5 => 0x04
  }

  lemma ExtraByLeast(u: nat, i: nat)
    requires 2 <= i <= 5 && u < Times64(Room(i), i)
    ensures Extra(u) == Some(i) <==> u >= Times64(Least(i), i - 1)
  {
    assert Times64(Room(2), 2) == 0x1_0000 && Times64(Room(3), 3) == 0x20_0000 && Times64(Room(4), 4) == 0x400_0000
        && Times64(Room(5), 5) == 0x8000_0000 by { Times64Is(); }
    assert Times64(Least(2), 1) == 0x800 && Times64(Least(3), 2) == 0x1_0000 && Times64(Least(4), 3) == 0x20_0000
        && Times64(Least(5), 4) == 0x400_0000 by { Times64Is(); }
  }

  lemma Times64Is()
    ensures forall m: nat :: Times64(m, 1) == 64 * m && Times64(m, 2) == 0x1000 * m && Times64(m, 3) == 0x4_0000 * m
    ensures forall m: nat :: Times64(m, 4) == 0x100_0000 * m && Times64(m, 5) == 0x4000_0000 * m
  {
    forall m: nat
      ensures Times64(m, 1) == 64 * m && Times64(m, 2) == 0x1000 * m && Times64(m, 3) == 0x4_0000 * m
      ensures Times64(m, 4) == 0x100_0000 * m && Times64(m, 5) == 0x4000_0000 * m
    {
      assert Times64(m, 2) == 64 * Times64(m, 1) && Times64(m, 3) == 64 * Times64(m, 2);
      assert Times64(m, 4) == 64 * Times64(m, 3) && Times64(m, 5) == 64 * Times64(m, 4);
    }
  }

  /** A byte of a shaped piece, and what it has for the number. */
  lemma PayloadIs(b: byte, n: nat)
    requires 2 <= n <= 6 && HighBits(b) == n
    ensures Payload(b, n) == b - Mask(n - 1) && Payload(b, n) < Room(n - 1)
  {
  }

  /** Not longer than need be: seen from the first two bytes. */
  lemma ShortestIs(c: seq<byte>)
    requires Shaped(c) && |c| >= 3
    ensures var u := Bits(Payload(c[0], |c|), c[1..]);
            Extra(u) == Some(|c| - 1) <==> (c[0] == Mask(|c| - 1) ==> c[1] % 64 >= Least(|c| - 1))
  {
    hide Bits, Extra, Times64, Payload;
    var i, x, rest := |c| - 1, Payload(c[0], |c|), c[1..];
    PayloadIs(c[0], |c|);
    BitsBound(x, rest, Room(i));
    ExtraByLeast(Bits(x, rest), i);
    BitsFirst(x, rest);
    BitsBound(x * 64 + rest[0] % 64, rest[1..], Least(i));
  }

  /** The characters are exactly those of the table. */
  lemma CharacterInTable(c: seq<byte>)
    ensures Character(c) <==> InTable(c)
  {
    if |c| <= 1 {
      ShortCharacter(c);
    } else if |c| > 6 {
      CharacterIs(c);
    } else if !Shaped(c) {
      CharacterIs(c);
      TableIsShaped(c);
    } else {
      ShapedInTable(c);
    }
  }

  lemma ShortCharacter(c: seq<byte>)
    requires |c| <= 1
    ensures Character(c) <==> InTable(c)
  {
    if Character(c) {
      CharacterShape(c);
    }
    if InTable(c) {
      assert c == [c[0]];
      AsciiIsCharacter(c[0]);
    }
  }

  lemma TableIsShaped(c: seq<byte>)
    requires 2 <= |c| <= 6
    ensures InTable(c) ==> Shaped(c)
  {
  }

  lemma ShapedInTable(c: seq<byte>)
    requires Shaped(c)
    ensures Character(c) <==> InTable(c)
  {
    hide Bits, Extra, Payload, Permitted;
    CharacterIs(c);
    if |c| == 2 {
      TwoBytes(c);
    } else {
      ShortestIs(c);
      PermittedIs(c);
    }
  }

  lemma TwoBytes(c: seq<byte>)
    requires Shaped(c) && |c| == 2
    ensures var u := Bits(Payload(c[0], 2), c[1..]); Permitted(u) && Extra(u) == Some(1) <==> c[0] >= 0xC2
  {
    hide Bits;
    BitsOf(Payload(c[0], 2), c[1..]);
  }

  lemma PermittedIs(c: seq<byte>)
    requires Shaped(c) && |c| >= 3
    ensures var u := Bits(Payload(c[0], |c|), c[1..]);
            Extra(u) == Some(|c| - 1) ==>
              (Permitted(u) <==> |c| > 3 || !((c[0] == 0xED && c[1] >= 0xA0) || (c[0] == 0xEF && c[1] == 0xBF && c[2] >= 0xBE)))
  {
    hide Bits;
    BitsOf(Payload(c[0], |c|), c[1..]);
  }

  lemma {:induction false} TextChecks(s: seq<byte>, i: nat, parts: seq<seq<byte>>)
    requires i <= |s| && AllCharacters(parts) && Flatten(parts) == s[i..]
    ensures Checks(s, i)
    decreases |s| - i
  {
    hide Character, PieceOk, RunEnd;
    if parts == [] {
      assert s[i..] == [];
    } else {
      var c := parts[0];
      assert Character(c);
      CharacterShape(c);
      var j := i + |c|;
      assert s[i..] == c + Flatten(parts[1..]);
      assert s[i..j] == c && s[j..] == Flatten(parts[1..]);
      assert AllCharacters(parts[1..]);
      TextChecks(s, j, parts[1..]);
      if c[0] >= 0x80 {
        NextStarts(s, j, parts[1..]);
        assert forall k | i + 1 <= k < j :: s[k] == c[k - i];
        RunIs(s, i + 1, j);
        PieceIsCharacter(c);
      }
    }
  }

  lemma NextStarts(s: seq<byte>, j: nat, parts: seq<seq<byte>>)
    requires j <= |s| && AllCharacters(parts) && Flatten(parts) == s[j..]
    ensures j < |s| ==> !Continuation(s[j])
  {
    if parts != [] {
      assert Character(parts[0]);
      CharacterShape(parts[0]);
      assert s[j..][0] == parts[0][0];
    }
  }

  lemma {:induction false} RunIs(s: seq<byte>, i: nat, j: nat)
    requires i <= j <= |s| && (j < |s| ==> !Continuation(s[j])) && forall k | i <= k < j :: Continuation(s[k])
    ensures RunEnd(s, i) == j
    decreases j - i
  {
    if i < j {
      RunIs(s, i + 1, j);
    }
  }

  lemma AsciiIsCharacter(b: byte)
    requires b < 0x80
    ensures Character([b])
  {
    assert Permitted(b) && Encode(b) == Some([b]);
  }

  lemma {:induction false} ChecksText(s: seq<byte>, i: nat) returns (parts: seq<seq<byte>>)
    requires i <= |s| && Checks(s, i)
    ensures AllCharacters(parts) && Flatten(parts) == s[i..]
    decreases |s| - i
  {
    hide Encode, Decode, Character, PieceOk;
    if i == |s| {
      parts := [];
    } else {
      var j := if s[i] < 0x80 then i + 1 else RunEnd(s, i + 1);
      var rest := ChecksText(s, j);
      var c := s[i..j];
      parts := [c] + rest;
      if s[i] < 0x80 {
        assert c == [s[i]];
        AsciiIsCharacter(s[i]);
      } else {
        PieceIsCharacter(c);
      }
      assert parts[1..] == rest;
      assert s[i..] == c + s[j..];
    }
  }

  /** The pieces pass exactly when the bytes are text. */
  lemma ChecksIsText(s: seq<byte>)
    ensures Checks(s, 0) <==> Text(s)
  {
    assert s[0..] == s;
    if Checks(s, 0) {
      var parts := ChecksText(s, 0);
    }
    if Text(s) {
      var parts :| AllCharacters(parts) && Flatten(parts) == s;
      TextChecks(s, 0, parts);
    }
  }

  lemma {:induction false} FlattenConcat(a: seq<seq<byte>>, b: seq<seq<byte>>)
    ensures Flatten(a + b) == Flatten(a) + Flatten(b)
  {
    if a == [] {
      assert a + b == b;
    } else {
      assert (a + b)[1..] == a[1..] + b;
      FlattenConcat(a[1..], b);
    }
  }

  /** Text put after text is text. */
  lemma TextConcat(a: seq<byte>, b: seq<byte>)
    requires Text(a) && Text(b)
    ensures Text(a + b)
  {
    var p :| AllCharacters(p) && Flatten(p) == a;
    var q :| AllCharacters(q) && Flatten(q) == b;
    FlattenConcat(p, q);
    assert AllCharacters(p + q);
  }

  /** No character reaches across an ASCII byte. */
  lemma {:induction false} SplitParts(parts: seq<seq<byte>>, a: seq<byte>, c: byte, b: seq<byte>)
    requires AllCharacters(parts) && Flatten(parts) == a + [c] + b && c < 0x80
    ensures Text(a) && Text(b)
    decreases |parts|
  {
    hide Character;
    var s := a + [c] + b;
    assert parts != [] && s[|a|] == c;
    var p, rest := parts[0], parts[1..];
    assert Character(p) && AllCharacters(rest);
    CharacterShape(p);
    if a == [] {
      assert s[0] == p[0];
      assert s[1..] == b && (p + Flatten(rest))[1..] == Flatten(rest);
      assert AllCharacters([]) && Flatten([]) == a;
    } else {
      assert forall k | 0 <= k < |p| :: p[k] == s[k];
      assert forall k | 1 <= k < |p| :: s[k] != c;
      assert |p| <= |a|;
      var a' := a[|p|..];
      assert s[..|p|] == p && a == p + a';
      assert s[|p|..] == a' + [c] + b && (p + Flatten(rest))[|p|..] == Flatten(rest);
      SplitParts(rest, a', c, b);
      assert AllCharacters([p]) && Flatten([p]) == p;
      TextConcat(p, a');
    }
  }

  /** Text on both sides of an ASCII byte of a text. */
  lemma TextSplit(a: seq<byte>, c: byte, b: seq<byte>)
    requires Text(a + [c] + b) && c < 0x80
    ensures Text(a) && Text(b)
  {
    var parts :| AllCharacters(parts) && Flatten(parts) == a + [c] + b;
    SplitParts(parts, a, c, b);
  }

  lemma {:induction false} AsciiIsText(s: seq<byte>)
    requires forall i | 0 <= i < |s| :: s[i] < 0x80
    ensures Text(s)
  {
    hide Character;
    if s == [] {
      assert AllCharacters([]) && Flatten([]) == s;
    } else {
      AsciiIsText(s[1..]);
      AsciiIsCharacter(s[0]);
      assert AllCharacters([[s[0]]]) && Flatten([[s[0]]]) == [s[0]];
      TextConcat([s[0]], s[1..]);
      assert s == [s[0]] + s[1..];
    }
  }

  // ------------------------------------------------------------------
  // utf8.c

  /** high_bits_set. */
  method HighBitsSet(b: byte) returns (ret: nat)
    ensures ret == HighBits(b)
  {
    var c: nat := b;
    ret := 0;
    while c / 128 % 2 == 1
      invariant ret <= 8 && c == b * Pow2(ret)
      invariant ret <= HighBits(b)
      decreases 8 - ret
    {
      NextBit(b, ret);
      c := c * 2;
      ret := ret + 1;
    }
    NextBit(b, ret);
  }

  function Pow2(k: nat): nat {
    if k == 0 then 1 else 2 * Pow2(k - 1)
  }

  /** Bit 7 of b shifted left by k is set exactly when b has more than k leading ones, as far as the
      first k are ones. */
  lemma NextBit(b: byte, k: nat)
    requires k <= HighBits(b)
    ensures k <= 8
    ensures b * Pow2(k) / 128 % 2 == 1 <==> k < HighBits(b)
  {
    assert Pow2(2) == 4 && Pow2(3) == 8 && Pow2(4) == 16 && Pow2(5) == 32;
    assert Pow2(6) == 64 && Pow2(7) == 128 && Pow2(8) == 256;
    hide Pow2;
    if k < 4 {
      assert k == 0 ==> b * 1 / 128 % 2 == b / 128 % 2;
      assert k == 1 ==> b * 2 / 128 % 2 == b / 64 % 2;
      assert k == 2 ==> b * 4 / 128 % 2 == b / 32 % 2;
      assert k == 3 ==> b * 8 / 128 % 2 == b / 16 % 2;
    } else {
      assert k == 4 ==> b * 16 / 128 % 2 == b / 8 % 2;
      assert k == 5 ==> b * 32 / 128 % 2 == b / 4 % 2;
      assert k == 6 ==> b * 64 / 128 % 2 == b / 2 % 2;
      assert k == 7 ==> b * 128 / 128 % 2 == b % 2;
    }
  }

  /** encode_utf8: the bytes are filled in from the last to the second, then the first. */
  method EncodeUtf8(u: nat) returns (r: Option<seq<byte>>)
    ensures r == Encode(u)
  {
    var extra := Extra(u);
    if extra == None {
      return None;
    }
    var i := extra.value;
    if i == 0 {
      return Some([u]);
    }
    var tail: seq<byte>, v, j := [], u, i;
    while j > 0
      invariant 0 <= j <= i && Low(u, i) == Low(v, j) + tail && Shift(v, j) == Shift(u, i)
    {
      tail, v, j := [0x80 + v % 64] + tail, v / 64, j - 1;
    }
    ShiftFits(u, i);
    assert v == Shift(u, i) && tail == Low(u, i);
    return Some([Mask(i) + v] + tail);
  }

  /** decode_utf8. */
  method DecodeUtf8(buf: seq<byte>) returns (r: Option<nat>)
    requires |buf| <= MAX_UTF8_SZ
    ensures r == Decode(buf)
  {
    if |buf| == 0 {
      return None;
    }
    if |buf| == 1 {
      return if buf[0] >= 0x80 then None else Some(buf[0]);
    }
    var i := HighBitsSet(buf[0]);
    if i != |buf| {
      return None;
    }
    var code: nat := Payload(buf[0], i);
    var j := 1;
    while j < |buf|
      invariant 1 <= j <= |buf| && Collect(Payload(buf[0], i), buf[1..]) == Collect(code, buf[j..])
    {
      if !Continuation(buf[j]) {
        return None;
      }
      assert buf[j..][1..] == buf[j + 1..];
      code := code * 64 + buf[j] % 64;
      j := j + 1;
    }
    return if Permitted(code) then Some(code) else None;
  }

  /** One collected piece: it decodes, and encoding the code point gives the same bytes. */
  method CheckPiece(u: seq<byte>) returns (ok: bool)
    requires |u| <= MAX_UTF8_SZ
    ensures ok <==> PieceOk(u)
  {
    hide Decode, Encode;
    var code := DecodeUtf8(u);
    if code == None {
      return false;
    }
    var again := EncodeUtf8(code.value);
    return again == Some(u);
  }

  /** check_utf8: 0 exactly when the buffer is text. */
  method CheckUtf8(buf: seq<byte>) returns (r: nat)
    ensures r == 0 <==> Text(buf)
  {
    hide Decode, Encode, Text, Checks, RunEnd, PieceOk;
    ChecksIsText(buf);
    var u: seq<byte>, i := [], 0;
    while true
      invariant 0 <= i <= |buf| && |u| <= i && |u| <= MAX_UTF8_SZ && u == buf[i - |u|..i]
      invariant Checks(buf, 0) <==> Checks(buf, i - |u|)
      invariant u != [] ==> u[0] >= 0x80 && RunEnd(buf, i - |u| + 1) == RunEnd(buf, i)
      decreases |buf| - i
    {
      RunStep(buf, i);
      if i == |buf| || buf[i] < 0x80 || !Continuation(buf[i]) {
        if u != [] {
          PieceEnds(buf, i - |u|, i);
          var ok := CheckPiece(u);
          if !ok {
            return i + 1;
          }
        }
        u := [];
        if i == |buf| {
          break;
        }
        if buf[i] >= 0x80 {
          u := [buf[i]];
        } else {
          AsciiStep(buf, i);
        }
      } else {
        if |u| == MAX_UTF8_SZ {
          TooLong(buf, i - |u|, i);
          return i + 1;
        }
        u := u + [buf[i]];
      }
      i := i + 1;
    }
    NothingToCheck(buf);
    return 0;
  }

  lemma RunStep(buf: seq<byte>, i: nat)
    requires i <= |buf|
    ensures RunEnd(buf, i) == if i == |buf| || !Continuation(buf[i]) then i else RunEnd(buf, i + 1)
  {
  }

  lemma PieceEnds(buf: seq<byte>, start: nat, i: nat)
    requires start < i <= |buf| && buf[start] >= 0x80 && RunEnd(buf, start + 1) == i
    ensures Checks(buf, start) <==> PieceOk(buf[start..i]) && Checks(buf, i)
  {
  }

  lemma AsciiStep(buf: seq<byte>, i: nat)
    requires i < |buf| && buf[i] < 0x80
    ensures Checks(buf, i) <==> Checks(buf, i + 1)
  {
  }

  lemma NothingToCheck(buf: seq<byte>)
    ensures Checks(buf, |buf|)
  {
  }

  /** A start byte with six continuation bytes behind it belongs to no character. */
  lemma TooLong(buf: seq<byte>, start: nat, i: nat)
    requires start + MAX_UTF8_SZ == i < |buf| && buf[start] >= 0x80
    requires Continuation(buf[i]) && RunEnd(buf, start + 1) == RunEnd(buf, i)
    ensures !Checks(buf, start)
  {
    var c := buf[start..RunEnd(buf, start + 1)];
    assert RunEnd(buf, i) > i;
    PieceIsCharacter(c);
    if Character(c) {
      CharacterShape(c);
    }
  }
}
