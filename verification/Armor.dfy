/** Base64 (common/armor.c, section 4 of RFC 4648; the decoder also takes the alphabet of section 5).
    Shifts and masks are written as division and remainder; an "or" of disjoint bits is a sum. */
module Armor {
  import opened Basics

  const EINVAL: int := 22
  const ERANGE: int := 34

  // ------------------------------------------------------------------
  // The alphabet

  /** A-Z, a-z, 0-9, '+', '/'. */
  function EncodeBits(c: nat): char
    requires c < 64
  {
    if c < 26 then 'A' + c as char
    else if c < 52 then 'a' + (c - 26) as char
    else if c < 62 then '0' + (c - 52) as char
    else if c == 62 then '+'
    else '/'
  }

  const UPPER: string := "ABCDEFGHIJKLMNOPQRSTUVWXYZ"
  const LOWER: string := "abcdefghijklmnopqrstuvwxyz"
  const DIGITS: string := "0123456789"

  /** Table 1 of RFC 4648. */
  const ALPHABET: string := UPPER + LOWER + DIGITS + "+/"

  lemma UpperIs(c: nat)
    requires c < 26
    ensures UPPER[c] == 'A' + c as char
  {
  }

  lemma LowerIs(c: nat)
    requires c < 26
    ensures LOWER[c] == 'a' + c as char
  {
  }

  lemma DigitIs(c: nat)
    requires c < 10
    ensures DIGITS[c] == '0' + c as char
  {
  }

  lemma AlphabetIs(c: nat)
    requires c < 64
    ensures |ALPHABET| == 64 && EncodeBits(c) == ALPHABET[c]
  {
    if c < 26 {
      UpperIs(c);
      assert ALPHABET[c] == UPPER[c];
    } else if c < 52 {
      LowerIs(c - 26);
      assert ALPHABET[c] == LOWER[c - 26];
    } else if c < 62 {
      DigitIs(c - 52);
      assert ALPHABET[c] == DIGITS[c - 52];
    }
  }

  function DecodeBits(c: char): int {
    if 'A' <= c <= 'Z' then c as int - 'A' as int
    else if 'a' <= c <= 'z' then c as int - 'a' as int + 26
    else if '0' <= c <= '9' then c as int - '0' as int + 52
    else if c == '+' || c == '-' then 62
    else if c == '/' || c == '_' then 63
    else if c == '=' then 0
    else -EINVAL
  }

  lemma BitsRange(c: char)
    ensures DecodeBits(c) == -EINVAL || 0 <= DecodeBits(c) < 64
  {
  }

  lemma BitsRoundTrip(c: nat)
    requires c < 64
    ensures DecodeBits(EncodeBits(c)) == c && EncodeBits(c) != '=' && EncodeBits(c) != '\n'
  {
  }

  /** The decoder takes the alphabet, '-' and '_' for its last two characters, and '=' as if it were zero. */
  lemma DecodesExactly(c: char)
    ensures DecodeBits(c) >= 0 <==> c in ALPHABET || c in "-_="
    ensures forall i | 0 <= i < |ALPHABET| && ALPHABET[i] == c :: DecodeBits(c) == i
    ensures DecodeBits('-') == 62 && DecodeBits('_') == 63 && DecodeBits('=') == 0
  {
    AlphabetIs(0);
    forall i | 0 <= i < |ALPHABET| && ALPHABET[i] == c ensures DecodeBits(c) == i {
      AlphabetIs(i);
      BitsRoundTrip(i);
    }
    if DecodeBits(c) >= 0 && c != '-' && c != '_' && c != '=' {
      AlphabetIs(DecodeBits(c));
      assert EncodeBits(DecodeBits(c)) == c;
    }
    assert "-_="[0] == '-' && "-_="[1] == '_' && "-_="[2] == '=';
  }

  // ------------------------------------------------------------------
  // Groups of three bytes and of four characters

  /** Four characters for up to three bytes. */
  function Group(g: seq<byte>): (t: string)
    requires 1 <= |g| <= 3
    ensures |t| == 4
  {
    var a := g[0];
    if |g| == 1 then [EncodeBits(a / 4), EncodeBits(a % 4 * 16), '=', '=']
    else
      var b := g[1];
      if |g| == 2 then [EncodeBits(a / 4), EncodeBits(a % 4 * 16 + b / 16), EncodeBits(b % 16 * 4), '=']
      else
        var c := g[2];
        [EncodeBits(a / 4), EncodeBits(a % 4 * 16 + b / 16), EncodeBits(b % 16 * 4 + c / 64), EncodeBits(c % 64)]
  }

  predicate GroupOk(t: string)
    requires |t| == 4
  {
    DecodeBits(t[0]) >= 0 && DecodeBits(t[1]) >= 0 && DecodeBits(t[2]) >= 0 && DecodeBits(t[3]) >= 0
  }

  /** Up to three bytes for four characters; '=' ends it early. */
  function Ungroup(t: string): (g: seq<byte>)
    requires |t| == 4 && GroupOk(t)
    ensures 1 <= |g| <= 3
    ensures |g| == if t[2] == '=' then 1 else if t[3] == '=' then 2 else 3
  {
    BitsRange(t[0]); BitsRange(t[1]); BitsRange(t[2]); BitsRange(t[3]);
    var a, b, c, d := DecodeBits(t[0]), DecodeBits(t[1]), DecodeBits(t[2]), DecodeBits(t[3]);
    if t[2] == '=' then [a * 4 + b / 16]
    else if t[3] == '=' then [a * 4 + b / 16, b % 16 * 16 + c / 4]
    else [a * 4 + b / 16, b % 16 * 16 + c / 4, c % 4 * 64 + d]
  }

  /** Three bytes as one number of 24 bits. */
  function Number(a: nat, b: nat, c: nat): nat {
    a * 0x1_0000 + b * 0x100 + c
  }

  /** The four characters stand for the number's four times six bits, highest first; bytes that are not there
      are zero, and characters that would stand for nothing else are '='. */
  lemma GroupIsNumber(g: seq<byte>)
    requires 1 <= |g| <= 3
    ensures var n, t := Number(g[0], if |g| > 1 then g[1] else 0, if |g| > 2 then g[2] else 0), Group(g);
            && |ALPHABET| == 64 && n < 0x100_0000
            && t[0] == ALPHABET[n / 0x4_0000]
            && t[1] == ALPHABET[n / 0x1000 % 64]
            && t[2] == (if |g| == 1 then '=' else ALPHABET[n / 64 % 64])
            && t[3] == (if |g| < 3 then '=' else ALPHABET[n % 64])
  {
    GroupIs(g);
    hide EncodeBits, Number, Group;
    var a, b, c := g[0], if |g| > 1 then g[1] else 0, if |g| > 2 then g[2] else 0;
    SixBits(a, b, c);
    AlphabetIs(a / 4);
    AlphabetIs(a % 4 * 16 + b / 16);
    AlphabetIs(b % 16 * 4 + c / 64);
    AlphabetIs(c % 64);
  }

  lemma GroupIs(g: seq<byte>)
    requires 1 <= |g| <= 3
    ensures var a, b, c := g[0], if |g| > 1 then g[1] else 0, if |g| > 2 then g[2] else 0;
            && Group(g)[0] == EncodeBits(a / 4)
            && Group(g)[1] == EncodeBits(a % 4 * 16 + b / 16)
            && Group(g)[2] == (if |g| == 1 then '=' else EncodeBits(b % 16 * 4 + c / 64))
            && Group(g)[3] == (if |g| < 3 then '=' else EncodeBits(c % 64))
  {
    hide EncodeBits;
  }

  lemma SixBits(a: nat, b: nat, c: nat)
    requires a < 256 && b < 256 && c < 256
    ensures var n := Number(a, b, c);
            && n < 0x100_0000
            && n / 0x4_0000 == a / 4
            && n / 0x1000 % 64 == a % 4 * 16 + b / 16
            && n / 64 % 64 == b % 16 * 4 + c / 64
            && n % 64 == c % 64
  {
    FourDigits(a / 4, a % 4 * 16 + b / 16, b % 16 * 4 + c / 64, c % 64);
  }

  lemma FourDigits(p: nat, q: nat, r: nat, s: nat)
    requires p < 64 && q < 64 && r < 64 && s < 64
    ensures var n := p * 0x4_0000 + q * 0x1000 + r * 64 + s;
            n / 0x4_0000 == p && n / 0x1000 % 64 == q && n / 64 % 64 == r && n % 64 == s
  {
    var n := p * 0x4_0000 + q * 0x1000 + r * 64 + s;
    assert n / 0x1000 == p * 64 + q;
    assert n / 64 == p * 0x1000 + q * 64 + r;
  }

  lemma GroupRoundTrip(g: seq<byte>)
    requires 1 <= |g| <= 3
    ensures GroupOk(Group(g)) && Ungroup(Group(g)) == g && Group(g)[0] != '\n'
  {
    hide EncodeBits, DecodeBits;
    PaddingDecodes();
    BitsRoundTrip(g[0] / 4);
    if |g| == 1 {
      BitsRoundTrip(g[0] % 4 * 16);
    } else {
      BitsRoundTrip(g[0] % 4 * 16 + g[1] / 16);
      if |g| == 2 {
        BitsRoundTrip(g[1] % 16 * 4);
      } else {
        BitsRoundTrip(g[1] % 16 * 4 + g[2] / 64);
        BitsRoundTrip(g[2] % 64);
      }
    }
  }

  lemma PaddingDecodes()
    ensures DecodeBits('=') == 0
  {
  }

  // ------------------------------------------------------------------
  // Texts

  function First(src: seq<byte>): seq<byte> {
    if |src| < 3 then src else src[..3]
  }

  function Rest(src: seq<byte>): seq<byte> {
    if |src| < 3 then [] else src[3..]
  }

  /** Whether a line ends behind a group that brings it to `line` characters. */
  predicate Breaks(width: int, line: nat) {
    width != 0 && line == width
  }

  /** The armor of src, `line` characters into a line. */
  function Armored(src: seq<byte>, width: int, line: nat): string
    decreases |src|
  {
    if src == [] then ""
    else if Breaks(width, line + 4) then Group(First(src)) + "\n" + Armored(Rest(src), width, 0)
    else Group(First(src)) + Armored(Rest(src), width, line + 4)
  }

  datatype Decoded = Bytes(bytes: seq<byte>) | Invalid

  function Unarmored(t: string): Decoded
    decreases |t|
  {
    if t == "" then Bytes([])
    else if t[0] == '\n' then Unarmored(t[1..])
    else if |t| < 4 || !GroupOk(t[..4]) then Invalid
    else
      var g := Ungroup(t[..4]);
      if |g| < 3 then Bytes(g)
      else
        match Unarmored(t[4..])
        case Invalid => Invalid
        case Bytes(more) => Bytes(g + more)
  }

  lemma UnarmoredGroup(g: seq<byte>, tail: string)
    requires 1 <= |g| <= 3
    ensures Unarmored(Group(g) + tail)
         == if |g| < 3 then Bytes(g) else if Unarmored(tail).Bytes? then Bytes(g + Unarmored(tail).bytes) else Invalid
  {
    hide Group, Ungroup, GroupOk;
    GroupRoundTrip(g);
    var t := Group(g) + tail;
    assert t[..4] == Group(g) && t[4..] == tail && t[0] == Group(g)[0];
  }

  lemma UnarmoredBreak(tail: string)
    ensures Unarmored("\n" + tail) == Unarmored(tail)
  {
    assert ("\n" + tail)[1..] == tail;
  }

  /** Decoding what was encoded gives the bytes back, for every line width. */
  lemma {:induction false} RoundTrip(src: seq<byte>, width: int, line: nat)
    ensures Unarmored(Armored(src, width, line)) == Bytes(src)
    decreases |src|
  {
    hide Unarmored, Group;
    if src == [] {
      NothingUnarmored();
    } else {
      var g, rest := First(src), Rest(src);
      assert src == g + rest;
      if Breaks(width, line + 4) {
        var more := Armored(rest, width, 0);
        RoundTrip(rest, width, 0);
        UnarmoredBreak(more);
        UnarmoredGroup(g, "\n" + more);
        assert Group(g) + "\n" + more == Group(g) + ("\n" + more);
      } else {
        RoundTrip(rest, width, line + 4);
        UnarmoredGroup(g, Armored(rest, width, line + 4));
      }
    }
  }

  lemma NothingUnarmored()
    ensures Unarmored("") == Bytes([])
  {
  }

  /** Without line breaks the armor is four characters for every three bytes begun. */
  lemma {:induction false} ArmoredLength(src: seq<byte>, line: nat)
    ensures |Armored(src, 0, line)| == (|src| + 2) / 3 * 4
    decreases |src|
  {
    hide Group;
    if src != [] {
      var rest := Rest(src);
      ArmoredLength(rest, line + 4);
      assert (|src| + 2) / 3 == (|rest| + 2) / 3 + 1;
    }
  }

  lemma GroupHasNoBreak(g: seq<byte>, i: nat)
    requires 1 <= |g| <= 3 && i < 4
    ensures Group(g)[i] != '\n'
  {
    hide EncodeBits;
    BitsRoundTrip(g[0] / 4);
    if |g| == 1 {
      BitsRoundTrip(g[0] % 4 * 16);
    } else {
      BitsRoundTrip(g[0] % 4 * 16 + g[1] / 16);
      if |g| == 2 {
        BitsRoundTrip(g[1] % 16 * 4);
      } else {
        BitsRoundTrip(g[1] % 16 * 4 + g[2] / 64);
        BitsRoundTrip(g[2] % 64);
      }
    }
  }

  /** For a width that is a multiple of four, a line break stands behind every `width` characters, and nowhere
      else; for any other width there is none. */
  lemma BreaksExactly(src: seq<byte>, width: int, i: nat)
    requires i < |Armored(src, width, 0)|
    ensures Armored(src, width, 0)[i] == '\n' <==> width > 0 && width % 4 == 0 && i % (width + 1) == width
  {
    if width > 0 && width % 4 == 0 {
      BreaksFrom(src, width, 0, i);
    } else {
      NoBreaksFrom(src, width, 0, i);
    }
  }

  lemma {:induction false} BreaksFrom(src: seq<byte>, width: nat, line: nat, i: nat)
    requires width > 0 && width % 4 == 0 && line % 4 == 0 && line < width && i < |Armored(src, width, line)|
    ensures Armored(src, width, line)[i] == '\n' <==> (i + line) % (width + 1) == width
    decreases |src|
  {
    hide Group;
    var g, rest := First(src), Rest(src);
    if i < 4 {
      GroupHasNoBreak(g, i);
      Below(i + line, width + 1);
    } else if Breaks(width, line + 4) {
      if i == 4 {
        Below(i + line, width + 1);
      } else {
        BreaksFrom(rest, width, 0, i - 5);
        OneRound(i - 5, width + 1);
      }
    } else {
      BreaksFrom(rest, width, line + 4, i - 4);
    }
  }

  lemma Below(n: nat, m: nat)
    requires n < m
    ensures n % m == n
  {
  }

  lemma OneRound(n: nat, m: nat)
    requires 0 < m
    ensures (n + m) % m == n % m
  {
    RemainderIs(n + m, m, n / m + 1, n % m);
  }

  lemma {:induction false} NoBreaksFrom(src: seq<byte>, width: int, line: nat, i: nat)
    requires !(width > 0 && width % 4 == 0) && line % 4 == 0 && i < |Armored(src, width, line)|
    ensures Armored(src, width, line)[i] != '\n'
    decreases |src|
  {
    hide Group;
    if i < 4 {
      GroupHasNoBreak(First(src), i);
    } else {
      NoBreaksFrom(Rest(src), width, line + 4, i - 4);
    }
  }

  /** Without the line breaks the armor is the same for every width. */
  function Unbroken(t: string): string {
    if t == "" then "" else (if t[0] == '\n' then "" else [t[0]]) + Unbroken(t[1..])
  }

  lemma {:induction false} UnbrokenConcat(a: string, b: string)
    ensures Unbroken(a + b) == Unbroken(a) + Unbroken(b)
    decreases |a|
  {
    if a == "" {
      assert a + b == b;
    } else {
      assert (a + b)[1..] == a[1..] + b;
      UnbrokenConcat(a[1..], b);
    }
  }

  lemma {:induction false} UnbrokenIs(t: string)
    requires forall i | 0 <= i < |t| :: t[i] != '\n'
    ensures Unbroken(t) == t
    decreases |t|
  {
    if t != "" {
      UnbrokenIs(t[1..]);
      assert t == [t[0]] + t[1..];
    }
  }

  /** The groups of the bytes, one behind the other. */
  function Groups(src: seq<byte>): string
    decreases |src|
  {
    if src == [] then "" else Group(First(src)) + Groups(Rest(src))
  }

  lemma GroupUnbroken(g: seq<byte>)
    requires 1 <= |g| <= 3
    ensures Unbroken(Group(g)) == Group(g)
  {
    hide Group, Unbroken;
    forall i | 0 <= i < 4 ensures Group(g)[i] != '\n' {
      GroupHasNoBreak(g, i);
    }
    UnbrokenIs(Group(g));
  }

  lemma BreakGoes(more: string)
    ensures Unbroken("\n" + more) == Unbroken(more)
  {
    assert ("\n" + more)[1..] == more;
  }

  lemma {:induction false} BreaksApart(src: seq<byte>, width: int, line: nat)
    ensures Unbroken(Armored(src, width, line)) == Groups(src)
    decreases |src|
  {
    hide Group, Unbroken;
    if src == [] {
      UnbrokenIs("");
    } else {
      var g, rest := Group(First(src)), Rest(src);
      GroupUnbroken(First(src));
      if Breaks(width, line + 4) {
        var more := Armored(rest, width, 0);
        BreaksApart(rest, width, 0);
        ConcatAssoc(g, "\n", more);
        UnbrokenConcat(g, "\n" + more);
        BreakGoes(more);
      } else {
        BreaksApart(rest, width, line + 4);
        UnbrokenConcat(g, Armored(rest, width, line + 4));
      }
    }
  }

  // ------------------------------------------------------------------
  // armor.c

  /** set_str_val: one character, if there is room. */
  method Put<T>(dst: seq<T>, room: nat, c: T) returns (ok: bool, out: seq<T>)
    ensures ok <==> |dst| < room
    ensures out == if ok then dst + [c] else dst
  {
    if |dst| < room {
      return true, dst + [c];
    }
    return false, dst;
  }

  /** Four times SET_DST. */
  method PutAll<T>(dst: seq<T>, room: nat, cs: seq<T>) returns (ok: bool, out: seq<T>)
    requires |dst| <= room
    ensures ok <==> |dst| + |cs| <= room
    ensures out == dst + (if ok then cs else cs[..room - |dst|])
  {
    out := dst;
    var i := 0;
    while i < |cs|
      invariant 0 <= i <= |cs| && out == dst + cs[..i] && |out| <= room
    {
      var done;
      done, out := Put(out, room, cs[i]);
      if !done {
        return false, out;
      }
      assert cs[..i + 1] == cs[..i] + [cs[i]];
      i := i + 1;
    }
    assert cs[..i] == cs;
    return true, out;
  }

  /** ceph_armor_line_break into a buffer of `room` characters. */
  method ArmorLineBreak(room: nat, src: seq<byte>, width: int) returns (r: int, dst: string)
    ensures |Armored(src, width, 0)| <= room ==> dst == Armored(src, width, 0) && r == |dst|
    ensures |Armored(src, width, 0)| > room ==> r == -ERANGE
  {
    hide Group;
    dst := "";
    var olen, line: nat, rest := 0, 0, src;
    while rest != []
      invariant olen == |dst| <= room && Armored(src, width, 0) == dst + Armored(rest, width, line)
      decreases |rest|
    {
      var ok;
      ghost var before, group := dst, Group(First(rest));
      Unfold(dst, rest, width, line);
      ok, dst := PutAll(dst, room, Group(First(rest)));
      if !ok {
        return -ERANGE, dst;
      }
      olen, line, rest := olen + 4, line + 4, Rest(rest);
      if Breaks(width, line) {
        line := 0;
        ok, dst := Put(dst, room, '\n');
        if !ok {
          return -ERANGE, dst;
        }
        olen := olen + 1;
      }
    }
    assert dst + "" == dst;
    return olen, dst;
  }

  lemma Unfold(dst: string, src: seq<byte>, width: int, line: nat)
    requires src != []
    ensures var g := Group(First(src));
            dst + Armored(src, width, line)
            == if Breaks(width, line + 4) then (dst + g + ['\n']) + Armored(Rest(src), width, 0)
               else (dst + g) + Armored(Rest(src), width, line + 4)
  {
    hide Group;
    var g := Group(First(src));
    assert "\n" == ['\n'];
    if Breaks(width, line + 4) {
      var more := Armored(Rest(src), width, 0);
      assert dst + (g + "\n" + more) == (dst + g + ['\n']) + more;
    } else {
      var more := Armored(Rest(src), width, line + 4);
      assert dst + (g + more) == (dst + g) + more;
    }
  }

  /** The bytes of the groups before the first malformed one, or of them all. */
  function ReadableBytes(t: string): seq<byte>
    decreases |t|
  {
    if t == "" then []
    else if t[0] == '\n' then ReadableBytes(t[1..])
    else if |t| < 4 || !GroupOk(t[..4]) then []
    else
      var g := Ungroup(t[..4]);
      if |g| < 3 then g else g + ReadableBytes(t[4..])
  }

  /** They are the decoded bytes of a well-formed text, and at most three for every four characters. */
  lemma {:induction false} ReadableIsDecoded(t: string)
    ensures Unarmored(t).Bytes? ==> Unarmored(t).bytes == ReadableBytes(t)
    ensures |ReadableBytes(t)| * 4 <= |t| * 3
    decreases |t|
  {
    hide Ungroup, GroupOk;
    if t != "" {
      if t[0] == '\n' {
        ReadableIsDecoded(t[1..]);
      } else if |t| >= 4 && GroupOk(t[..4]) {
        ReadableIsDecoded(t[4..]);
      }
    }
  }

  /** One group of a text that is being read. */
  lemma ReadGroup(done: seq<byte>, t: string)
    requires t != "" && t[0] != '\n' && |t| >= 4 && GroupOk(t[..4])
    ensures var g := Ungroup(t[..4]);
            && done + ReadableBytes(t) == (if |g| < 3 then done + g else done + g + ReadableBytes(t[4..]))
            && |done| + |g| <= |done + ReadableBytes(t)|
            && (Unarmored(t).Bytes? <==> |g| < 3 || Unarmored(t[4..]).Bytes?)
  {
    hide Ungroup, GroupOk;
    var g := Ungroup(t[..4]);
    assert done + (g + ReadableBytes(t[4..])) == done + g + ReadableBytes(t[4..]);
  }

  /** ceph_unarmor into a buffer of `room` bytes: out of room exactly when the bytes before the first
      malformed group do not fit, malformed exactly when they do and there is such a group. */
  method UnarmorInto(room: nat, text: string) returns (r: int, dst: seq<byte>)
    ensures r == if |ReadableBytes(text)| > room then -ERANGE else if Unarmored(text) == Invalid then -EINVAL else |dst|
    ensures dst == ReadableBytes(text)[..if r == -ERANGE then room else |ReadableBytes(text)|]
    ensures r >= 0 ==> Unarmored(text) == Bytes(dst)
  {
    hide Ungroup, GroupOk, Unarmored, ReadableBytes;
    dst := [];
    var olen, src := 0, 0;
    ghost var all := ReadableBytes(text);
    ReadableIsDecoded(text);
    assert text[0..] == text && [] + all == all;
    while src < |text|
      invariant 0 <= src <= |text| && olen == |dst| <= room
      invariant dst + ReadableBytes(text[src..]) == all
      invariant Unarmored(text).Bytes? <==> Unarmored(text[src..]).Bytes?
    {
      var t := text[src..];
      ReadOther(t);
      if t[0] == '\n' {
        assert t[1..] == text[src + 1..];
        src := src + 1;
        continue;
      }
      if |t| < 4 || !GroupOk(t[..4]) {
        assert dst + [] == dst;
        return -EINVAL, dst;
      }
      ReadGroup(dst, t);
      assert t[4..] == text[src + 4..];
      var g, ok := Ungroup(t[..4]), false;
      ghost var before := dst;
      ok, dst := PutAll(dst, room, g);
      if !ok {
        FullPrefix(before, g, all, room);
        return -ERANGE, dst;
      }
      if |g| < 3 {
        return olen + |g|, dst;
      }
      olen, src := olen + 3, src + 4;
    }
    ReadNothing();
    assert text[src..] == "" && dst + [] == dst;
    return olen, dst;
  }

  lemma ReadNothing()
    ensures ReadableBytes("") == [] && Unarmored("") == Bytes([])
  {
  }

  /** A line break, or a malformed group. */
  lemma ReadOther(t: string)
    requires t != ""
    ensures t[0] == '\n' ==> ReadableBytes(t) == ReadableBytes(t[1..]) && Unarmored(t) == Unarmored(t[1..])
    ensures t[0] != '\n' && (|t| < 4 || !GroupOk(t[..4])) ==> ReadableBytes(t) == [] && Unarmored(t) == Invalid
  {
    hide Ungroup, GroupOk;
  }

  lemma FullPrefix(done: seq<byte>, g: seq<byte>, all: seq<byte>, room: nat)
    requires |done| <= room < |done| + |g| && done + g <= all
    ensures done + g[..room - |done|] == all[..room]
  {
    assert all[..|done| + |g|] == done + g;
  }

  /** buffer::list::encode_base64: the buffer it allocates is always large enough. */
  method EncodeBase64(src: seq<byte>) returns (text: string)
    ensures text == Armored(src, 0, 0)
  {
    ArmoredLength(src, 0);
    var r, dst := ArmorLineBreak(|src| * 4 / 3 + 3, src, 0);
    return dst;
  }

  /** buffer::list::decode_base64: malformed input is the only failure. */
  method DecodeBase64(text: string) returns (ok: bool, bytes: seq<byte>)
    ensures ok <==> Unarmored(text).Bytes?
    ensures ok ==> Unarmored(text) == Bytes(bytes)
  {
    ReadableIsDecoded(text);
    var r, dst := UnarmorInto(4 + |text| * 3 / 4, text);
    return r >= 0, dst;
  }

  method Base64RoundTrip(src: seq<byte>) returns (ok: bool, bytes: seq<byte>)
    ensures ok && bytes == src
  {
    var text := EncodeBase64(src);
    RoundTrip(src, 0, 0);
    ok, bytes := DecodeBase64(text);
  }
}
