/** Printing a ConfFile and loading the text again (common/ConfUtils.cc): the printer escapes nothing,
    so the round trip is exact for some files and not for others. */
module ConfRoundTrips {
  import opened Basics
  import opened ConfFiles
  import Utf8

  // ------------------------------------------------------------------
  // Whatever is loaded is sound

  ghost predicate Pure(s: Bytes) {
    NUL !in s && NEWLINE !in s && Utf8.Text(s)
  }

  lemma SoundIsPure(s: Bytes)
    ensures Sound(s) <==> Pure(s)
  {
    Utf8.ChecksIsText(s);
  }

  lemma PureEmpty()
    ensures Pure([])
  {
    SoundIsPure([]);
  }

  /** An ASCII byte of a pure text may be taken out, or the text cut there. */
  lemma PureSplit(a: Bytes, c: byte, b: Bytes)
    requires Pure(a + [c] + b) && c < 0x80
    ensures Pure(a) && Pure(b) && Pure(a + b)
  {
    Utf8.TextSplit(a, c, b);
    Utf8.TextConcat(a, b);
    forall x | x in a ensures x != NUL && x != NEWLINE {
      assert x in a + [c] + b;
    }
    forall x | x in b ensures x != NUL && x != NEWLINE {
      assert x in a + [c] + b;
    }
  }

  lemma PureTail(c: byte, b: Bytes)
    requires Pure([c] + b) && c < 0x80
    ensures Pure(b)
  {
    assert [] + [c] + b == [c] + b;
    PureSplit([], c, b);
  }

  lemma {:induction false} TrimLeftPure(s: Bytes)
    requires Pure(s)
    ensures Pure(TrimLeft(s))
    decreases |s|
  {
    hide Pure;
    if s != [] && IsSpace(s[0]) {
      assert s == [s[0]] + s[1..];
      PureTail(s[0], s[1..]);
      TrimLeftPure(s[1..]);
    }
  }

  lemma {:induction false} TrimRightPure(s: Bytes)
    requires Pure(s)
    ensures Pure(TrimRight(s))
    decreases |s|
  {
    hide Pure;
    if s != [] && IsSpace(s[|s| - 1]) {
      var a, c := s[..|s| - 1], s[|s| - 1];
      assert s == a + [c] + [];
      PureSplit(a, c, []);
      TrimRightPure(a);
    }
  }

  /** `done` is what has been squeezed already. */
  lemma {:induction false} SqueezePure(done: Bytes, s: Bytes, afterSpace: bool)
    requires Pure(done + s)
    ensures Pure(done + Squeeze(s, afterSpace))
    decreases |s|
  {
    hide Pure, Squeeze;
    if s == [] {
      EmptySqueezed(afterSpace);
    } else {
      SqueezeStep(done, s, afterSpace);
      assert done + s == done + [s[0]] + s[1..];
      if IsSpace(s[0]) && afterSpace {
        PureSplit(done, s[0], s[1..]);
        SqueezePure(done, s[1..], true);
      } else {
        SqueezePure(done + [s[0]], s[1..], IsSpace(s[0]));
      }
    }
  }

  lemma EmptySqueezed(afterSpace: bool)
    ensures Squeeze([], afterSpace) == []
  {
  }

  lemma TrimPure(s: Bytes, internal: bool)
    requires Pure(s)
    ensures Pure(Trim(s, internal))
  {
    hide Pure, TrimLeft, TrimRight, Squeeze;
    TrimLeftPure(s);
    TrimRightPure(TrimLeft(s));
    var t := TrimRight(TrimLeft(s));
    assert [] + t == t && [] + Squeeze(t, false) == Squeeze(t, false);
    SqueezePure([], t, false);
  }

  /** `done` has its underscores already. */
  lemma {:induction false} UnderscoredPure(done: Bytes, s: Bytes)
    requires Pure(done + s)
    ensures Pure(done + Underscored(s))
    decreases |s|
  {
    hide Pure;
    if s == [] {
      assert Underscored(s) == s;
    } else {
      var c := Underscored(s)[0];
      assert Underscored(s) == [c] + Underscored(s[1..]);
      assert done + s == done + [s[0]] + s[1..];
      if s[0] == SPACE {
        PureSplit(done, SPACE, s[1..]);
        PureAscii(UNDERSCORE);
        PureConcat(done, [UNDERSCORE]);
        PureConcat(done + [UNDERSCORE], s[1..]);
      }
      UnderscoredPure(done + [c], s[1..]);
      assert done + [c] + Underscored(s[1..]) == done + Underscored(s);
    }
  }

  lemma PureAscii(c: byte)
    requires c < 0x80 && c != NUL && c != NEWLINE
    ensures Pure([c])
  {
    Utf8.AsciiIsText([c]);
  }

  lemma PureConcat(a: Bytes, b: Bytes)
    requires Pure(a) && Pure(b)
    ensures Pure(a + b)
  {
    Utf8.TextConcat(a, b);
  }

  lemma NormalizePure(s: Bytes)
    requires Pure(s)
    ensures Pure(Normalize(s))
  {
    hide Pure, Trim;
    TrimPure(s, true);
    var t := Trim(s, true);
    assert [] + t == t && [] + Underscored(t) == Underscored(t);
    UnderscoredPure([], t);
  }

  /** What the parser has collected, with the rest of the line where it is still collecting. */
  ghost predicate PureScan(s: Scan, rest: Bytes) {
    match s.state
    case Init => s.key == [] && s.val == [] && s.section == [] && Pure(rest)
    case SectionName => s.key == [] && s.val == [] && Pure(s.section + rest)
    case Key => s.val == [] && s.section == [] && Pure(s.key + rest)
    case ValStart => Pure(s.key) && s.val == [] && s.section == [] && Pure(rest)
    case UnquotedVal => Pure(s.key) && s.section == [] && Pure(s.val + rest)
    case QuotedVal => Pure(s.key) && s.section == [] && Pure(s.val + rest)
    case CommentStart => Pure(s.key) && Pure(s.val) && Pure(s.section)
    case CommentText => Pure(s.key) && Pure(s.val) && Pure(s.section)
  }

  /** The character is collected, or taken out, or ends what is collected. */
  lemma PureRead(a: Bytes, c: byte, rest: Bytes)
    requires Pure(a + ([c] + rest))
    ensures Pure(a + [c] + rest)
    ensures c < 0x80 ==> Pure(a) && Pure(rest) && Pure(a + rest)
  {
    hide Pure;
    assert a + ([c] + rest) == a + [c] + rest;
    if c < 0x80 {
      PureSplit(a, c, rest);
    }
  }

  lemma PureStep(s: Scan, c: byte, rest: Bytes)
    requires PureScan(s, [c] + rest) && Accept(s, c).Some?
    ensures var (s', read) := Accept(s, c).value; PureScan(s', if read then rest else [c] + rest)
  {
    hide Pure, Trim, Normalize;
    PureEmpty();
    var got := match s.state
      case SectionName => s.section
      case Key => s.key
      case UnquotedVal => s.val
      case QuotedVal => s.val
      case _ => [];
    assert [] + ([c] + rest) == [c] + rest && [] + rest == rest;
    if s.state != CommentStart && s.state != CommentText {
      PureRead(got, c, rest);
      if c < 0x80 {
        TrimPure(got, true);
        TrimPure(got, false);
        NormalizePure(got);
      }
    }
  }

  lemma PureAtEnd(s: Scan)
    requires PureScan(s, [])
    ensures var r := AtEnd(s); r.Line? ==> Pure(r.key) && Pure(r.val) && Pure(r.section)
  {
    hide Pure, Trim;
    PureEmpty();
    assert s.val + [] == s.val;
    if s.state == UnquotedVal {
      TrimPure(s.val, false);
    }
  }

  lemma {:induction false} ParsedIsPure(s: Scan, line: Bytes, i: nat)
    requires i <= |line| && PureScan(s, line[i..])
    ensures var r := Parse(s, line, i); r.Line? ==> Pure(r.key) && Pure(r.val) && Pure(r.section)
    decreases |line| - i, Looking(s)
  {
    hide Accept, AtEnd, PureScan, Pure;
    if i == |line| {
      assert line[i..] == [];
      PureAtEnd(s);
    } else {
      assert line[i..] == [line[i]] + line[i + 1..];
      LooksOnce(s, line[i]);
      if Accept(s, line[i]).Some? {
        PureStep(s, line[i], line[i + 1..]);
        var (s', read) := Accept(s, line[i]).value;
        ParsedIsPure(s', line, if read then i + 1 else i);
      }
    }
  }

  ghost predicate SoundFile(f: File) {
    forall n | n in f :: Sound(n) && SoundSection(f[n])
  }

  ghost predicate SoundSection(m: Section) {
    forall k | k in m :: Sound(k) && Sound(m[k])
  }

  lemma SoundSet(m: Section, key: Bytes, val: Bytes)
    requires SoundSection(m) && Sound(key) && Sound(val)
    ensures SoundSection(m[key := val])
  {
  }

  lemma AppliedIsSound(f: File, cur: Bytes, line: Bytes)
    requires SoundFile(f) && cur in f && Sound(line)
    ensures var (f', cur') := Apply(f, cur, Parse(START, line, 0)); SoundFile(f') && cur' in f'
  {
    hide Parse, Sound, Pure, SoundSection;
    SoundIsPure(line);
    assert line[0..] == line;
    ParsedIsPure(START, line, 0);
    var r := Parse(START, line, 0);
    if r.Line? {
      SoundIsPure(r.key);
      SoundIsPure(r.val);
      SoundIsPure(r.section);
      SoundSet(f[cur], r.key, r.val);
      NothingInIt();
    }
  }

  lemma NothingInIt()
    ensures SoundSection(map[])
  {
  }

  lemma {:induction false} AllAppliedIsSound(f: File, cur: Bytes, lines: seq<Bytes>)
    requires SoundFile(f) && cur in f && forall i | 0 <= i < |lines| :: Sound(lines[i])
    ensures SoundFile(ApplyAll(f, cur, lines))
    decreases |lines|
  {
    hide Parse, Sound, SoundFile, Apply;
    if lines != [] {
      AppliedIsSound(f, cur, lines[0]);
      var (f', cur') := Apply(f, cur, Parse(START, lines[0], 0));
      AllAppliedIsSound(f', cur', lines[1..]);
    }
  }

  /** Whatever the input, every section name, key and value in the loaded file is UTF-8 without NUL
      and newline, although the parser drops, cuts and replaces single bytes. */
  lemma LoadedIsSound(buf: Bytes)
    ensures SoundFile(Loaded(buf))
  {
    hide Logical, Sound;
    var lines := Logical(buf, []);
    EmptyIsSound();
    forall i | 0 <= i < |lines| ensures Sound(lines[i]) {
      LogicalLinesAreSound(buf, [], i);
    }
    GlobalIsOk();
    AllAppliedIsSound(map[GLOBAL := map[]], GLOBAL, lines);
  }

  lemma GlobalIsOk()
    ensures NameOk(GLOBAL) && Sound(GLOBAL)
  {
    hide Utf8.Checks, Trim;
    AsciiChecks(GLOBAL);
    SpacelessIsTrimmed(GLOBAL);
  }

  lemma SpacelessIsTrimmed(s: Bytes)
    requires forall i | 0 <= i < |s| :: !IsSpace(s[i])
    ensures Trim(s, true) == s
  {
    assert TrimLeft(s) == s && TrimRight(s) == s;
    hide TrimLeft, TrimRight, Squeeze;
    NoSpacesToSqueeze(s, false);
  }

  lemma {:induction false} NoSpacesToSqueeze(s: Bytes, afterSpace: bool)
    requires forall i | 0 <= i < |s| :: !IsSpace(s[i])
    ensures Squeeze(s, afterSpace) == s
    decreases |s|
  {
    if s != [] {
      NoSpacesToSqueeze(s[1..], false);
      assert s == [s[0]] + s[1..];
    }
  }

  // ------------------------------------------------------------------
  // What a printed line can read as

  lemma {:induction false} SqueezeShorter(s: Bytes, afterSpace: bool)
    ensures |Squeeze(s, afterSpace)| <= |s|
    ensures |Squeeze(s, afterSpace)| == |s| ==> Squeeze(s, afterSpace) == s
    decreases |s|
  {
    if s != [] {
      SqueezeShorter(s[1..], IsSpace(s[0]));
      assert s == [s[0]] + s[1..];
    }
  }

  lemma {:induction false} TrimLeftShorter(s: Bytes)
    ensures |TrimLeft(s)| <= |s| && (|TrimLeft(s)| == |s| ==> TrimLeft(s) == s)
    decreases |s|
  {
    if s != [] && IsSpace(s[0]) {
      TrimLeftShorter(s[1..]);
    }
  }

  /** Trimming changes a text only by making it shorter. */
  lemma TrimShorter(s: Bytes)
    ensures |Trim(s, true)| <= |s| && (|Trim(s, true)| == |s| ==> Trim(s, true) == s)
  {
    hide TrimLeft, TrimRight, Squeeze;
    TrimLeftShorter(s);
    RightEnd(TrimLeft(s));
    SqueezeShorter(TrimRight(TrimLeft(s)), false);
  }

  lemma {:induction false} TrimLeftSpaceBehind(s: Bytes)
    ensures if TrimLeft(s) == [] then TrimLeft(s + [SPACE]) == [] else TrimLeft(s + [SPACE]) == TrimLeft(s) + [SPACE]
    decreases |s|
  {
    if s == [] {
      assert (s + [SPACE])[1..] == [];
    } else {
      assert (s + [SPACE])[1..] == s[1..] + [SPACE];
      if IsSpace(s[0]) {
        TrimLeftSpaceBehind(s[1..]);
      }
    }
  }

  lemma TrimSpaceBehind(s: Bytes)
    ensures Normalize(s + [SPACE]) == Normalize(s)
  {
    hide TrimLeft, Squeeze;
    TrimLeftSpaceBehind(s);
    var l := TrimLeft(s);
    assert (l + [SPACE])[..|l + [SPACE]| - 1] == l;
  }

  /** Behind the '=' the key is fixed. */
  lemma {:induction false} BehindKey(s: Scan, line: Bytes, i: nat)
    requires i <= |line| && s.state != Init && s.state != SectionName && s.state != Key
    ensures var r := Parse(s, line, i); r == Bad || (r.Line? && r.key == s.key && r.section == s.section)
    decreases |line| - i, Looking(s)
  {
    hide Trim, Normalize;
    if i < |line| {
      match Accept(s, line[i]) {
        case None =>
        case Some((s', read)) => BehindKey(s', line, if read then i + 1 else i);
      }
    }
  }

  predicate PlainName(s: Bytes) {
    NoComment(s) && RIGHT !in s && BACKSLASH !in s
  }

  predicate PlainKey(s: Bytes) {
    NoComment(s) && EQUALS !in s && BACKSLASH !in s
  }

  function Pending(s: Scan): nat {
    if s.escaping then 1 else 0
  }

  /** What a section name printed between brackets reads as: nothing, something shorter, or itself trimmed. */
  lemma {:induction false} NameScan(s: Scan, line: Bytes, i: nat, rest: Bytes)
    requires s.state == SectionName && s.key == [] && s.val == []
    requires i <= |line| && line[i..] == rest + [RIGHT]
    ensures var r := Parse(s, line, i);
            || r == Bad
            || (&& r.Line? && r.key == [] && r.val == [] && r.section != []
                && (|| |r.section| < |s.section| + |rest| + Pending(s)
                    || (!s.escaping && PlainName(rest) && r.section == Trim(s.section + rest, true))))
    decreases |rest|
  {
    hide Parse, Trim;
    TrimShorter(s.section + rest);
    if rest == [] {
      assert line[i] == (rest + [RIGHT])[0] && |line| == i + 1;
      assert s.section + rest == s.section;
      if s.escaping {
        var s' := s.(escaping := false, section := s.section + [RIGHT]);
        Reads(s, line, i, s');
        Ends(s', line);
      } else if Trim(s.section, true) == [] {
        Fails(s, line, i);
      } else {
        var s' := s.(section := Trim(s.section, true), state := CommentStart);
        Reads(s, line, i, s');
        Ends(s', line);
      }
    } else {
      var c := rest[0];
      assert line[i] == (rest + [RIGHT])[0] == c;
      assert line[i + 1..] == rest[1..] + [RIGHT];
      match Accept(s, c) {
        case None => Fails(s, line, i);
        case Some((s', read)) =>
          Reads(s, line, i, s');
          if s'.state == CommentStart {
            TrimShorter(s.section);
            BehindValue(s', line, i + 1);
          } else {
            NameScan(s', line, i + 1, rest[1..]);
            NameTail(s, c, rest);
          }
      }
    }
  }

  lemma NameTail(s: Scan, c: byte, rest: Bytes)
    requires rest != [] && c == rest[0]
    ensures s.section + [c] + rest[1..] == s.section + rest
    ensures c != HASH && c != SEMICOLON && c != RIGHT && c != BACKSLASH && PlainName(rest[1..]) ==> PlainName(rest)
  {
    assert rest == [c] + rest[1..];
  }

  lemma Fails(s: Scan, line: Bytes, i: nat)
    requires i < |line| && Accept(s, line[i]) == None
    ensures Parse(s, line, i) == Bad
  {
  }

  /** A printed header is not read, read as a shorter name, or read as it was; the last for exactly the
      names that NameOk describes. */
  lemma HeaderReads(name: Bytes)
    requires Sound(name)
    ensures var r := Parse(START, Header(name), 0);
            || r == Bad
            || (&& r.Line? && r.key == [] && r.val == [] && r.section != []
                && (|r.section| < |name| || (r.section == name && NameOk(name))))
    ensures Parse(START, Header(name), 0) == Line([], [], name) <==> NameOk(name)
  {
    hide Parse, Trim, Utf8.Checks;
    var line, s := Header(name), START.(state := SectionName);
    Reads(START, line, 0, s);
    assert line[1..] == name + [RIGHT] && [] + name == name;
    NameScan(s, line, 1, name);
    TrimShorter(name);
    if NameOk(name) {
      HeaderParses(name);
    }
  }

  lemma NormalizedKey(s: Bytes)
    ensures |Normalize(s)| <= |s| && SPACE !in Normalize(s)
  {
    hide Trim;
    TrimShorter(s);
  }

  /** What a printed key reads as, from somewhere inside it: nothing, something shorter, or itself normalized. */
  lemma {:induction false} KeyScan(s: Scan, line: Bytes, i: nat, rest: Bytes)
    requires s.state == Key && s.section == []
    requires i + |rest| + 2 <= |line| && line[i..i + |rest| + 2] == rest + [SPACE, EQUALS]
    ensures var r := Parse(s, line, i);
            || r == Bad
            || (&& r.Line? && r.section == [] && SPACE !in r.key
                && (|| |r.key| < |s.key| + |rest| + Pending(s)
                    || (!s.escaping && PlainKey(rest) && r.key == Normalize(s.key + rest))))
    decreases |rest|
  {
    hide Parse, Normalize;
    NormalizedKey(s.key + rest);
    if rest == [] {
      var s' := s.(escaping := false, key := s.key + [SPACE]);
      assert line[i] == line[i..i + 2][0] && line[i + 1] == line[i..i + 2][1];
      Reads(s, line, i, s');
      TrimSpaceBehind(s.key);
      assert s.key + rest == s.key;
      KeyEnds(s', line, i + 1);
    } else {
      var c := rest[0];
      KeyMoves(line, i, rest);
      match Accept(s, c) {
        case None => Fails(s, line, i);
        case Some((s', read)) =>
          if s'.state == ValStart {
            NormalizedKey(s.key);
            KeyEnds(s, line, i);
          } else {
            Reads(s, line, i, s');
            KeyScan(s', line, i + 1, rest[1..]);
            KeyTail(s, c, rest);
          }
      }
    }
  }

  lemma KeyMoves(line: Bytes, i: nat, rest: Bytes)
    requires i + |rest| + 2 <= |line| && line[i..i + |rest| + 2] == rest + [SPACE, EQUALS] && rest != []
    ensures line[i] == rest[0] && line[i + 1..i + 1 + |rest[1..]| + 2] == rest[1..] + [SPACE, EQUALS]
  {
    var part := line[i..i + |rest| + 2];
    assert line[i] == part[0] && line[i + 1..i + |rest| + 2] == part[1..];
    assert rest == [rest[0]] + rest[1..];
  }

  /** The '=' that ends the key. */
  lemma KeyEnds(s: Scan, line: Bytes, i: nat)
    requires s.state == Key && s.section == [] && !s.escaping && i < |line| && line[i] == EQUALS
    ensures var r := Parse(s, line, i); r == Bad || (r.Line? && r.section == [] && r.key == Normalize(s.key))
  {
    hide Parse, Normalize;
    if Normalize(s.key) == [] {
      Fails(s, line, i);
    } else {
      var s' := s.(key := Normalize(s.key), state := ValStart);
      Reads(s, line, i, s');
      BehindKey(s', line, i + 1);
    }
  }

  lemma KeyTail(s: Scan, c: byte, rest: Bytes)
    requires rest != [] && c == rest[0]
    ensures s.key + [c] + rest[1..] == s.key + rest
    ensures c != HASH && c != SEMICOLON && c != EQUALS && c != BACKSLASH && PlainKey(rest[1..]) ==> PlainKey(rest)
  {
    assert rest == [c] + rest[1..];
  }

  lemma {:induction false} SectionOutcome(s: Scan, line: Bytes, i: nat)
    requires i <= |line| && s.state == SectionName
    ensures var r := Parse(s, line, i); r == Bad || (r.Line? && r.section != [])
    decreases |line| - i
  {
    hide Trim, Normalize;
    if i < |line| {
      match Accept(s, line[i]) {
        case None =>
        case Some((s', read)) =>
          if s'.state == CommentStart {
            BehindValue(s', line, i + 1);
          } else {
            SectionOutcome(s', line, i + 1);
          }
      }
    }
  }

  /** What stands at the start of a line decides what it is; only a key = value line has a key. */
  lemma {:induction false} LineScan(line: Bytes, i: nat, rest: Bytes)
    requires i + |rest| + 2 <= |line| && line[i..i + |rest| + 2] == rest + [SPACE, EQUALS]
    ensures var r := Parse(START, line, i);
            || r == Bad
            || (r.Line? && r.section != [])
            || (r.Line? && r.key == [])
            || (&& r.Line? && SPACE !in r.key
                && (|| |r.key| < |rest|
                    || (rest != [] && rest[0] != LEFT && rest[0] != RIGHT && PlainKey(rest) && r.key == Normalize(rest))))
    decreases |rest|
  {
    hide Parse, Normalize;
    var inKey := START.(state := Key);
    assert [] + rest == rest;
    if rest == [] {
      assert line[i] == line[i..i + 2][0] && line[i + 1] == line[i..i + 2][1];
      Reads(START, line, i, START);
      Looks(START, line, i + 1, inKey);
      NormalizedKey([]);
      KeyEnds(inKey, line, i + 1);
    } else {
      var c := rest[0];
      KeyMoves(line, i, rest);
      if c == LEFT {
        Reads(START, line, i, START.(state := SectionName));
        SectionOutcome(START.(state := SectionName), line, i + 1);
      } else if IsComment(c) {
        Reads(START, line, i, START.(state := CommentText));
        CommentRuns(START.(state := CommentText), line, i + 1);
      } else if c == RIGHT {
        Fails(START, line, i);
      } else if IsSpace(c) {
        Reads(START, line, i, START);
        LineScan(line, i + 1, rest[1..]);
        NormalizedKey(rest[1..]);
      } else {
        Looks(START, line, i, inKey);
        KeyScan(inKey, line, i, rest);
      }
    }
  }

  /** A measure of keys that reading never raises: normalizing removes characters, or replaces spaces. */
  function Weight(key: Bytes): nat {
    |key| + if SPACE in key then 1 else 0
  }

  /** If a printed setting is read as a setting, then under a lighter key, or under its own key; the
      latter only for the keys that KeyOk describes. */
  lemma SettingReads(key: Bytes, val: Bytes)
    requires Sound(key) && key != []
    ensures var r := Parse(START, Setting(key, val), 0);
            r.Line? && r.section == [] ==> Weight(r.key) < Weight(key) || (r.key == key && KeyOk(key))
  {
    hide Parse, Normalize, Setting, Utf8.Checks;
    SettingShaped(key, val);
    var line := Setting(key, val);
    Reads(START, line, 0, START);
    assert line[1..1 + |key| + 2] == line[1..1 + |key|] + [SPACE, EQUALS];
    LineScan(line, 1, key);
    NormalizedKey(key);
    KeyKeepsLength(key);
  }

  lemma KeyKeepsLength(key: Bytes)
    ensures |Normalize(key)| == |key| && SPACE !in key ==> Normalize(key) == key
  {
    hide Trim;
    TrimShorter(key);
  }

  // ------------------------------------------------------------------
  // The printed lines, one by one

  datatype Item = Head(name: Bytes) | Set(section: Bytes, key: Bytes, val: Bytes)

  function TextOf(it: Item): Bytes {
    match it
    case Head(name) => Header(name)
    case Set(_, key, val) => Setting(key, val)
  }

  function Texts(items: seq<Item>): seq<Bytes> {
    if items == [] then [] else [TextOf(items[0])] + Texts(items[1..])
  }

  function SetItems(name: Bytes, lines: seq<(Bytes, Bytes)>): seq<Item> {
    if lines == [] then [] else [Set(name, lines[0].0, lines[0].1)] + SetItems(name, lines[1..])
  }

  function Items(sections: seq<Printable>): seq<Item> {
    if sections == [] then []
    else [Head(sections[0].name)] + SetItems(sections[0].name, sections[0].lines) + Items(sections[1..])
  }

  function PrintedItems(items: seq<Item>): Bytes {
    if items == [] then [] else TextOf(items[0]) + [NEWLINE] + PrintedItems(items[1..])
  }

  ghost predicate SoundItem(it: Item) {
    match it
    case Head(name) => Sound(name)
    case Set(_, key, val) => Sound(key) && Sound(val) && key != []
  }

  ghost predicate SoundItems(items: seq<Item>) {
    forall i | 0 <= i < |items| :: SoundItem(items[i])
  }

  lemma {:induction false} PrintedItemsConcat(a: seq<Item>, b: seq<Item>)
    ensures PrintedItems(a + b) == PrintedItems(a) + PrintedItems(b)
    decreases |a|
  {
    hide TextOf;
    if a == [] {
      assert a + b == b;
    } else {
      assert (a + b)[1..] == a[1..] + b;
      PrintedItemsConcat(a[1..], b);
      ConcatAssoc(TextOf(a[0]) + [NEWLINE], PrintedItems(a[1..]), PrintedItems(b));
    }
  }

  lemma {:induction false} PrintedSettings(name: Bytes, lines: seq<(Bytes, Bytes)>)
    ensures PrintedLines(lines) == PrintedItems(SetItems(name, lines))
    decreases |lines|
  {
    hide Setting;
    if lines != [] {
      PrintedSettings(name, lines[1..]);
      assert SetItems(name, lines)[1..] == SetItems(name, lines[1..]);
    }
  }

  lemma {:induction false} PrintedIsItems(sections: seq<Printable>)
    ensures Printed(sections) == PrintedItems(Items(sections))
    decreases |sections|
  {
    hide Header, PrintedLines, Items, SetItems;
    if sections == [] {
      NoItems();
    } else {
      var s := sections[0];
      PrintedIsItems(sections[1..]);
      PrintedSettings(s.name, s.lines);
      PrintedItemsConcat(SetItems(s.name, s.lines), Items(sections[1..]));
      ItemsOfFirst(sections);
      ConcatAssoc(Header(s.name) + [NEWLINE], PrintedLines(s.lines), Printed(sections[1..]));
    }
  }

  lemma {:induction false} ItemsAreLines(items: seq<Item>)
    requires SoundItems(items)
    ensures Logical(PrintedItems(items), []) == Texts(items)
    decreases |items|
  {
    hide Logical, Header, Setting, Sound, LineOk;
    if items == [] {
      NothingLogicalFrom([]);
    } else {
      assert SoundItem(items[0]);
      ItemsAreLines(items[1..]);
      match items[0] {
        case Head(name) => HeaderIsLine(name);
        case Set(_, key, val) => SettingIsLine(key, val);
      }
      OneLogical(TextOf(items[0]), PrintedItems(items[1..]));
    }
  }

  // ------------------------------------------------------------------
  // What the lines should assign

  function Wanted(items: seq<Item>): seq<Assignment> {
    if items == [] then []
    else
      match items[0]
      case Head(_) => Wanted(items[1..])
      case Set(section, key, val) => [Assignment(section, key, val)] + Wanted(items[1..])
  }

  function Pairs(a: seq<Assignment>): seq<(Bytes, Bytes)> {
    if a == [] then [] else [(a[0].section, a[0].key)] + Pairs(a[1..])
  }

  function Total(ps: seq<(Bytes, Bytes)>): nat {
    if ps == [] then 0 else Weight(ps[0].1) + Total(ps[1..])
  }

  ghost predicate NoRepeat(ps: seq<(Bytes, Bytes)>) {
    ps == [] || (ps[0] !in ps[1..] && NoRepeat(ps[1..]))
  }

  /** Read as a setting, whatever the key and value. */
  predicate ReadsAsSetting(it: Item) {
    it.Set? ==> var r := Parse(START, TextOf(it), 0); r.Line? && r.section == []
  }

  predicate ReadsItsKey(it: Item) {
    it.Set? ==> var r := Parse(START, TextOf(it), 0); r.Line? && r.section == [] && r.key == it.key && KeyOk(it.key)
  }

  /** A line assigns at most once, and a header not at all. */
  lemma {:induction false} CountBound(cur: Bytes, items: seq<Item>)
    requires SoundItems(items)
    ensures var a := Assignments(cur, Texts(items));
            && |a| <= |Wanted(items)|
            && (|a| == |Wanted(items)| ==> forall i | 0 <= i < |items| :: ReadsAsSetting(items[i]))
    decreases |items|
  {
    hide Parse, Header, Setting, Sound;
    if items != [] {
      var r := Parse(START, TextOf(items[0]), 0);
      assert SoundItem(items[0]);
      assert Texts(items)[1..] == Texts(items[1..]);
      if items[0].Head? {
        HeaderReads(items[0].name);
      }
      CountBound(if r.Line? && r.section != [] then r.section else cur, items[1..]);
      assert forall i | 1 <= i < |items| :: items[i] == items[1..][i - 1];
    }
  }

  lemma {:induction false} KeyTotals(cur: Bytes, items: seq<Item>)
    requires SoundItems(items) && forall i | 0 <= i < |items| :: ReadsAsSetting(items[i])
    ensures var a, w := Total(Pairs(Assignments(cur, Texts(items)))), Total(Pairs(Wanted(items)));
            a <= w && (a == w ==> forall i | 0 <= i < |items| :: ReadsItsKey(items[i]))
    decreases |items|
  {
    hide Parse, Header, Setting, Sound, Weight, KeyOk;
    if items != [] {
      var r := Parse(START, TextOf(items[0]), 0);
      assert SoundItem(items[0]) && ReadsAsSetting(items[0]);
      assert Texts(items)[1..] == Texts(items[1..]);
      if items[0].Head? {
        HeaderReads(items[0].name);
        KeyTotals(if r.Line? && r.section != [] then r.section else cur, items[1..]);
      } else {
        SettingReads(items[0].key, items[0].val);
        KeyTotals(cur, items[1..]);
        FirstPair(Assignment(cur, r.key, r.val), Assignments(cur, Texts(items[1..])));
        FirstPair(Assignment(items[0].section, items[0].key, items[0].val), Wanted(items[1..]));
      }
      assert forall i | 1 <= i < |items| :: items[i] == items[1..][i - 1];
    }
  }

  lemma FirstPair(x: Assignment, a: seq<Assignment>)
    ensures Total(Pairs([x] + a)) == Weight(x.key) + Total(Pairs(a))
  {
    assert ([x] + a)[1..] == a;
    assert Pairs([x] + a)[1..] == Pairs(a);
  }

  lemma {:induction false} AtMostOnce(ps: seq<(Bytes, Bytes)>, x: (Bytes, Bytes))
    requires NoRepeat(ps)
    ensures multiset(ps)[x] <= 1
    decreases |ps|
  {
    if ps != [] {
      AtMostOnce(ps[1..], x);
      assert ps == [ps[0]] + ps[1..];
      assert x == ps[0] ==> x !in multiset(ps[1..]);
    }
  }

  /** A list without repetitions, all of it in a list that is not longer, is that list rearranged. */
  lemma Rearranged(a: seq<(Bytes, Bytes)>, b: seq<(Bytes, Bytes)>)
    requires |a| <= |b| && NoRepeat(b) && forall x | x in b :: x in a
    ensures multiset(a) == multiset(b)
  {
    hide NoRepeat;
    forall x ensures multiset(b)[x] <= multiset(a)[x] {
      AtMostOnce(b, x);
      if x in multiset(b) {
        assert x in b && x in a && x in multiset(a);
      }
    }
    assert multiset(b) <= multiset(a);
    assert |multiset(a) - multiset(b)| == |a| - |b|;
    assert multiset(a) == multiset(b) + (multiset(a) - multiset(b));
  }

  lemma {:induction false} TotalWithout(ps: seq<(Bytes, Bytes)>, j: nat)
    requires j < |ps|
    ensures Total(ps) == Weight(ps[j].1) + Total(ps[..j] + ps[j + 1..])
    decreases j
  {
    hide Weight;
    if j == 0 {
      assert ps[..0] + ps[1..] == ps[1..];
    } else {
      TotalWithout(ps[1..], j - 1);
      var rest := ps[..j] + ps[j + 1..];
      assert rest[1..] == ps[1..][..j - 1] + ps[1..][j..];
    }
  }

  lemma OneLess<T>(s: seq<T>, j: nat)
    requires j < |s|
    ensures multiset(s[..j] + s[j + 1..]) == multiset(s) - multiset{s[j]}
  {
    assert s == s[..j] + [s[j]] + s[j + 1..];
    assert multiset(s) == multiset(s[..j]) + multiset{s[j]} + multiset(s[j + 1..]);
  }

  lemma PlaceOf<T>(s: seq<T>, x: T) returns (j: nat)
    requires x in multiset(s)
    ensures j < |s| && s[j] == x
  {
    j :| 0 <= j < |s| && s[j] == x;
  }

  /** The first of one list, taken out of the other. */
  lemma Matching<T>(a: seq<T>, b: seq<T>) returns (j: nat)
    requires multiset(a) == multiset(b) && a != []
    ensures j < |b| && b[j] == a[0] && multiset(a[1..]) == multiset(b[..j] + b[j + 1..])
  {
    j := PlaceOf(b, a[0]);
    OneLess(a, 0);
    OneLess(b, j);
    assert a[..0] + a[1..] == a[1..];
  }

  lemma NothingMatches<T>(a: seq<T>, b: seq<T>)
    requires multiset(a) == multiset(b) && a == []
    ensures b == []
  {
    assert |multiset(b)| == 0;
  }

  lemma {:induction false} TotalRearranged(a: seq<(Bytes, Bytes)>, b: seq<(Bytes, Bytes)>)
    requires multiset(a) == multiset(b)
    ensures Total(a) == Total(b)
    decreases |a|
  {
    if a == [] {
      NothingMatches(a, b);
    } else {
      hide Weight;
      var j := Matching(a, b);
      var b' := b[..j] + b[j + 1..];
      TotalWithout(b, j);
      TotalRearranged(a[1..], b');
    }
  }

  // ------------------------------------------------------------------
  // Sections

  /** Where settings read as settings, only headers make sections. */
  lemma {:induction false} SectionsFromHeaders(f: File, cur: Bytes, items: seq<Item>, n: Bytes)
    requires cur in f && SoundItems(items) && forall i | 0 <= i < |items| :: ReadsAsSetting(items[i])
    requires n in ApplyAll(f, cur, Texts(items))
    ensures n in f || exists i | 0 <= i < |items| :: items[i].Head? && Parse(START, TextOf(items[i]), 0) == Line([], [], n)
    decreases |items|
  {
    hide Parse, Header, Setting, Sound;
    if items != [] {
      var r := Parse(START, TextOf(items[0]), 0);
      assert SoundItem(items[0]) && ReadsAsSetting(items[0]);
      assert Texts(items)[1..] == Texts(items[1..]);
      if items[0].Head? {
        HeaderReads(items[0].name);
      }
      var (f', cur') := Apply(f, cur, r);
      SectionsFromHeaders(f', cur', items[1..], n);
      if n !in f' {
        var i :| 0 <= i < |items[1..]| && items[1..][i].Head? && Parse(START, TextOf(items[1..][i]), 0) == Line([], [], n);
        assert items[i + 1] == items[1..][i];
      }
    }
  }

  /** A header read as another name would need a longer one read as its own, and so on without end. */
  lemma {:induction false} NamesReadBack(items: seq<Item>, max: nat, n: Bytes)
    requires SoundItems(items) && Head(n) in items
    requires forall i | 0 <= i < |items| && items[i].Head? :: |items[i].name| <= max
    requires forall i | 0 <= i < |items| && items[i].Head? ::
               || items[i].name == GLOBAL
               || exists j | 0 <= j < |items| :: items[j].Head? && Parse(START, TextOf(items[j]), 0) == Line([], [], items[i].name)
    ensures NameOk(n)
    decreases max - |n|
  {
    hide Parse, Header, Setting, Sound, NameOk;
    GlobalIsOk();
    var i :| 0 <= i < |items| && items[i] == Head(n);
    if n != GLOBAL {
      assert items[i].Head? && items[i].name == n;
      var j :| 0 <= j < |items| && items[j].Head? && Parse(START, TextOf(items[j]), 0) == Line([], [], n);
      var m := items[j].name;
      assert SoundItem(items[j]) && items[j] == Head(m);
      HeaderReads(m);
      if |n| < |m| {
        NamesReadBack(items, max, m);
        HeaderParses(m);
      }
    }
  }

  function Longest(items: seq<Item>): (max: nat)
    ensures forall i | 0 <= i < |items| && items[i].Head? :: |items[i].name| <= max
  {
    if items == [] then 0
    else
      var rest := Longest(items[1..]);
      assert forall i | 1 <= i < |items| :: items[i] == items[1..][i - 1];
      if items[0].Head? && |items[0].name| > rest then |items[0].name| else rest
  }

  // ------------------------------------------------------------------
  // Values

  ghost predicate NameOkItem(it: Item) {
    it.Head? ==> NameOk(it.name)
  }

  /** The settings follow the header of their section. */
  predicate InOrder(cur: Bytes, items: seq<Item>)
    decreases |items|
  {
    items == []
    || match items[0]
       case Head(name) => InOrder(name, items[1..])
       case Set(section, _, _) => section == cur && InOrder(cur, items[1..])
  }

  /** With names and keys as they were, the lines assign to the sections and keys they should. */
  lemma {:induction false} PairsAsWanted(cur: Bytes, items: seq<Item>)
    requires InOrder(cur, items) && forall i | 0 <= i < |items| :: NameOkItem(items[i]) && ReadsItsKey(items[i])
    ensures Pairs(Assignments(cur, Texts(items))) == Pairs(Wanted(items))
    ensures Assignments(cur, Texts(items)) == Wanted(items) ==>
              forall i | 0 <= i < |items| && items[i].Set? :: Parse(START, TextOf(items[i]), 0) == Line(items[i].key, items[i].val, [])
    decreases |items|
  {
    hide Parse, Header, Setting, KeyOk, NameOk;
    if items != [] {
      var r := Parse(START, TextOf(items[0]), 0);
      assert NameOkItem(items[0]) && ReadsItsKey(items[0]);
      assert Texts(items)[1..] == Texts(items[1..]);
      assert forall i | 1 <= i < |items| :: items[i] == items[1..][i - 1];
      var rest := items[1..];
      if items[0].Head? {
        HeaderParses(items[0].name);
        NameNotEmpty(items[0].name);
        PairsAsWanted(items[0].name, rest);
      } else {
        PairsAsWanted(cur, rest);
        var a, w := Assignments(cur, Texts(rest)), Wanted(rest);
        assert Assignments(cur, Texts(items))[1..] == a && Wanted(items)[1..] == w;
      }
    }
  }

  /** Assignments to distinct keys, each the last for its key, are the wanted ones. */
  lemma {:induction false} LastIsOnly(a: seq<Assignment>, w: seq<Assignment>)
    requires Pairs(a) == Pairs(w) && NoRepeat(Pairs(w))
    requires forall i | 0 <= i < |w| :: LastFor(a, w[i].section, w[i].key) == Some(w[i].val)
    ensures a == w
    decreases |w|
  {
    PairsLength(a);
    PairsLength(w);
    if w != [] {
      assert Pairs(a)[0] == Pairs(w)[0] && Pairs(a)[1..] == Pairs(a[1..]) && Pairs(w)[1..] == Pairs(w[1..]);
      NotAgain(a[1..], w[0].section, w[0].key);
      forall i | 0 <= i < |w[1..]| ensures LastFor(a[1..], w[1..][i].section, w[1..][i].key) == Some(w[1..][i].val) {
        assert w[1..][i] == w[i + 1];
        PairAt(w[1..], i);
      }
      LastIsOnly(a[1..], w[1..]);
      assert a == [a[0]] + a[1..] && w == [w[0]] + w[1..];
      assert LastFor(a, w[0].section, w[0].key) == Some(w[0].val);
    }
  }

  lemma {:induction false} PairsLength(a: seq<Assignment>)
    ensures |Pairs(a)| == |a|
    decreases |a|
  {
    if a != [] {
      PairsLength(a[1..]);
    }
  }

  lemma {:induction false} PairAt(a: seq<Assignment>, i: nat)
    requires i < |a|
    ensures (a[i].section, a[i].key) in Pairs(a)
    decreases i
  {
    if i > 0 {
      PairAt(a[1..], i - 1);
    }
  }

  lemma {:induction false} NotAgain(a: seq<Assignment>, section: Bytes, key: Bytes)
    ensures (section, key) in Pairs(a) <==> LastFor(a, section, key).Some?
    decreases |a|
  {
    if a != [] {
      NotAgain(a[1..], section, key);
    }
  }

  lemma NameNotEmpty(name: Bytes)
    requires NameOk(name)
    ensures name != []
  {
  }

  // ------------------------------------------------------------------
  // The items of a listed file

  lemma {:induction false} SetItemsHold(name: Bytes, lines: seq<(Bytes, Bytes)>, it: Item)
    ensures it in SetItems(name, lines) <==> exists j | 0 <= j < |lines| :: it == Set(name, lines[j].0, lines[j].1)
    decreases |lines|
  {
    if lines != [] {
      SetItemsHold(name, lines[1..], it);
      assert forall j | 1 <= j < |lines| :: lines[j] == lines[1..][j - 1];
    }
  }

  ghost predicate ListedIn(s: Printable, it: Item) {
    it == Head(s.name) || it in SetItems(s.name, s.lines)
  }

  lemma {:induction false} ItemsHold(sections: seq<Printable>, it: Item)
    ensures it in Items(sections) <==> exists i | 0 <= i < |sections| :: ListedIn(sections[i], it)
    decreases |sections|
  {
    if sections != [] {
      ItemsHold(sections[1..], it);
      assert forall i | 1 <= i < |sections| :: sections[i] == sections[1..][i - 1];
    }
  }

  lemma ListedItem(sections: seq<Printable>, f: File, it: Item)
    requires Lists(sections, f)
    ensures it in Items(sections) <==>
              match it
              case Head(n) => n in f
              case Set(n, k, v) => n in f && k != [] && Get(f, n, k) == Some(v)
  {
    hide NoNameTwice, SetItems, Items;
    ItemsHold(sections, it);
    forall i | 0 <= i < |sections| {
      SetItemsHold(sections[i].name, sections[i].lines, it);
    }
  }

  lemma SetItemsStart(name: Bytes, lines: seq<(Bytes, Bytes)>, rest: seq<Item>)
    ensures var items := SetItems(name, lines) + rest;
            if lines == [] then items == rest
            else items != [] && items[0] == Set(name, lines[0].0, lines[0].1) && items[1..] == SetItems(name, lines[1..]) + rest
  {
    if lines == [] {
      assert [] + rest == rest;
    } else {
      var first := [Set(name, lines[0].0, lines[0].1)];
      assert first + SetItems(name, lines[1..]) + rest == first + (SetItems(name, lines[1..]) + rest);
    }
  }

  lemma {:induction false} SettingsInOrder(name: Bytes, lines: seq<(Bytes, Bytes)>, rest: seq<Item>)
    requires InOrder(name, rest)
    ensures InOrder(name, SetItems(name, lines) + rest)
    decreases |lines|
  {
    hide SetItems;
    SetItemsStart(name, lines, rest);
    if lines != [] {
      SettingsInOrder(name, lines[1..], rest);
    }
  }

  lemma NoItems()
    ensures Items([]) == []
  {
  }

  lemma ItemsOfFirst(sections: seq<Printable>)
    requires sections != []
    ensures var s, items := sections[0], Items(sections);
            items != [] && items[0] == Head(s.name) && items[1..] == SetItems(s.name, s.lines) + Items(sections[1..])
  {
    hide SetItems;
    var s := sections[0];
    assert [Head(s.name)] + SetItems(s.name, s.lines) + Items(sections[1..])
        == [Head(s.name)] + (SetItems(s.name, s.lines) + Items(sections[1..]));
  }

  lemma {:induction false} ItemsInOrder(cur: Bytes, sections: seq<Printable>)
    ensures InOrder(cur, Items(sections))
    decreases |sections|
  {
    hide Items, SetItems;
    if sections == [] {
      NoItems();
    } else {
      var s := sections[0];
      ItemsInOrder(s.name, sections[1..]);
      SettingsInOrder(s.name, s.lines, Items(sections[1..]));
      ItemsOfFirst(sections);
    }
  }

  lemma {:induction false} WantedIs(items: seq<Item>, x: Assignment)
    ensures x in Wanted(items) <==> Set(x.section, x.key, x.val) in items
    decreases |items|
  {
    if items != [] {
      WantedIs(items[1..], x);
    }
  }

  lemma {:induction false} PairFrom(a: seq<Assignment>, p: (Bytes, Bytes)) returns (x: Assignment)
    requires p in Pairs(a)
    ensures x in a && p == (x.section, x.key)
    decreases |a|
  {
    if p == (a[0].section, a[0].key) {
      x := a[0];
    } else {
      x := PairFrom(a[1..], p);
    }
  }

  lemma {:induction false} SettingsDistinct(name: Bytes, lines: seq<(Bytes, Bytes)>, rest: seq<Item>)
    requires NoKeyTwice(lines) && NoRepeat(Pairs(Wanted(rest)))
    requires forall it | it in rest && it.Set? :: it.section != name
    ensures NoRepeat(Pairs(Wanted(SetItems(name, lines) + rest)))
    decreases |lines|
  {
    var items := SetItems(name, lines) + rest;
    if lines == [] {
      assert items == rest;
    } else {
      var more := SetItems(name, lines[1..]) + rest;
      assert items[1..] == more;
      SettingsDistinct(name, lines[1..], rest);
      var p := (name, lines[0].0);
      if p in Pairs(Wanted(more)) {
        var x := PairFrom(Wanted(more), p);
        WantedIs(more, x);
        SetItemsHold(name, lines[1..], Set(x.section, x.key, x.val));
        assert false;
      }
      var w := Wanted(items);
      assert w[1..] == Wanted(more) && Pairs(w)[1..] == Pairs(Wanted(more));
    }
  }

  lemma SectionOf(sections: seq<Printable>, it: Item)
    requires it in Items(sections) && it.Set?
    ensures exists i | 0 <= i < |sections| :: sections[i].name == it.section
  {
    hide Items, SetItems;
    ItemsHold(sections, it);
    var i :| 0 <= i < |sections| && ListedIn(sections[i], it);
    SetItemsHold(sections[i].name, sections[i].lines, it);
  }

  lemma NothingRepeats()
    ensures NoRepeat(Pairs(Wanted([])))
  {
  }

  lemma {:induction false} ItemsDistinct(sections: seq<Printable>)
    requires NoNameTwice(sections) && forall i | 0 <= i < |sections| :: NoKeyTwice(sections[i].lines)
    ensures NoRepeat(Pairs(Wanted(Items(sections))))
    decreases |sections|
  {
    hide NoKeyTwice, Items, SetItems, NoRepeat, Pairs;
    if sections == [] {
      NoItems();
      NothingRepeats();
    } else {
      var s, rest := sections[0], Items(sections[1..]);
      ItemsDistinct(sections[1..]);
      forall it | it in rest && it.Set? ensures it.section != s.name {
        SectionOf(sections[1..], it);
      }
      SettingsDistinct(s.name, s.lines, rest);
      ItemsOfFirst(sections);
    }
  }

  // ------------------------------------------------------------------
  // Both directions

  ghost predicate OkItem(it: Item) {
    match it
    case Head(name) => NameOk(name)
    case Set(_, key, val) => KeyOk(key) && ValOk(val)
  }

  ghost function LoadedItems(items: seq<Item>): File {
    ApplyAll(map[GLOBAL := map[]], GLOBAL, Texts(items))
  }

  ghost function AssignedBy(items: seq<Item>): seq<Assignment> {
    Assignments(GLOBAL, Texts(items))
  }

  /** Each wanted assignment is the last for its key in what was loaded. */
  ghost predicate AllThere(items: seq<Item>) {
    forall x | x in Wanted(items) :: LastFor(AssignedBy(items), x.section, x.key) == Some(x.val)
  }

  lemma KeysBack(items: seq<Item>)
    requires SoundItems(items) && NoRepeat(Pairs(Wanted(items))) && AllThere(items)
    ensures forall i | 0 <= i < |items| :: ReadsAsSetting(items[i]) && ReadsItsKey(items[i])
  {
    hide NoRepeat, Pairs, SoundItems, Wanted, Assignments, Texts, LastFor, ReadsAsSetting, ReadsItsKey, Total;
    var a, w := AssignedBy(items), Wanted(items);
    CountBound(GLOBAL, items);
    PairsLength(a);
    PairsLength(w);
    forall p | p in Pairs(w) ensures p in Pairs(a) {
      var x := PairFrom(w, p);
      NotAgain(a, x.section, x.key);
    }
    Rearranged(Pairs(a), Pairs(w));
    assert |multiset(Pairs(a))| == |a| && |multiset(Pairs(w))| == |w|;
    TotalRearranged(Pairs(a), Pairs(w));
    KeyTotals(GLOBAL, items);
  }

  lemma NamesBack(items: seq<Item>)
    requires SoundItems(items) && forall i | 0 <= i < |items| :: ReadsAsSetting(items[i])
    requires forall i | 0 <= i < |items| && items[i].Head? :: items[i].name in LoadedItems(items)
    ensures forall i | 0 <= i < |items| :: NameOkItem(items[i])
  {
    hide SoundItems, ReadsAsSetting, NameOk, Parse, ApplyAll, TextOf, Texts;
    forall i | 0 <= i < |items| && items[i].Head?
      ensures || items[i].name == GLOBAL
              || exists j | 0 <= j < |items| :: items[j].Head? && Parse(START, TextOf(items[j]), 0) == Line([], [], items[i].name)
    {
      SectionsFromHeaders(map[GLOBAL := map[]], GLOBAL, items, items[i].name);
    }
    forall i | 0 <= i < |items| && items[i].Head? ensures NameOk(items[i].name) {
      assert items[i] == Head(items[i].name);
      NamesReadBack(items, Longest(items), items[i].name);
    }
  }

  lemma ValuesBack(items: seq<Item>)
    requires SoundItems(items) && NoRepeat(Pairs(Wanted(items))) && AllThere(items) && InOrder(GLOBAL, items)
    requires forall i | 0 <= i < |items| :: NameOkItem(items[i]) && ReadsItsKey(items[i])
    ensures forall i | 0 <= i < |items| :: OkItem(items[i])
  {
    hide NoRepeat, Pairs, Wanted, Assignments, Texts, LastFor, Parse, Setting, NameOk, KeyOk, Utf8.Checks;
    PairsAsWanted(GLOBAL, items);
    LastIsOnly(AssignedBy(items), Wanted(items));
    forall i | 0 <= i < |items| ensures OkItem(items[i]) {
      assert NameOkItem(items[i]) && ReadsItsKey(items[i]) && SoundItem(items[i]);
      if items[i].Set? {
        QuotedReadsBack(items[i].key, items[i].val);
      }
    }
  }

  lemma {:induction false} OkAssigns(cur: Bytes, items: seq<Item>)
    requires InOrder(cur, items) && forall i | 0 <= i < |items| :: OkItem(items[i])
    ensures Assignments(cur, Texts(items)) == Wanted(items)
    decreases |items|
  {
    hide Parse, Header, Setting, KeyOk, NameOk, ValOk;
    if items != [] {
      assert OkItem(items[0]);
      assert Texts(items)[1..] == Texts(items[1..]);
      match items[0] {
        case Head(name) =>
          HeaderParses(name);
          NameNotEmpty(name);
          OkAssigns(name, items[1..]);
        case Set(_, key, val) =>
          SettingParses(key, val);
          OkAssigns(cur, items[1..]);
      }
    }
  }

  lemma {:induction false} SectionsStay(f: File, cur: Bytes, lines: seq<Bytes>, n: Bytes)
    requires cur in f && n in f
    ensures n in ApplyAll(f, cur, lines)
    decreases |lines|
  {
    hide Parse;
    if lines != [] {
      var (f', cur') := Apply(f, cur, Parse(START, lines[0], 0));
      SectionsStay(f', cur', lines[1..], n);
    }
  }

  lemma {:induction false} HeadersMakeSections(f: File, cur: Bytes, items: seq<Item>, n: Bytes)
    requires cur in f && NameOk(n) && Head(n) in items
    ensures n in ApplyAll(f, cur, Texts(items))
    decreases |items|
  {
    hide Parse, Header, Setting, NameOk;
    var (f', cur') := Apply(f, cur, Parse(START, TextOf(items[0]), 0));
    assert Texts(items)[1..] == Texts(items[1..]);
    if items[0] == Head(n) {
      HeaderParses(n);
      NameNotEmpty(n);
      SectionsStay(f', cur', Texts(items[1..]), n);
    } else {
      HeadersMakeSections(f', cur', items[1..], n);
    }
  }

  /** What the file is to be read back as. */
  function Expected(f: File): File {
    Opened(WithoutComments(f), GLOBAL)
  }

  lemma ExpectedIs(sections: seq<Printable>, f: File)
    requires Lists(sections, f)
    ensures forall n :: n in Expected(f) <==> n == GLOBAL || Head(n) in Items(sections)
    ensures forall n, k :: Get(Expected(f), n, k) == if k == [] then None else Get(f, n, k)
  {
    hide Items, Lists;
    forall n ensures n in f <==> Head(n) in Items(sections) {
      ListedItem(sections, f, Head(n));
    }
  }

  /** The wanted assignments say what every key of the file is. */
  lemma WantedIsFile(sections: seq<Printable>, f: File, n: Bytes, k: Bytes)
    requires Lists(sections, f)
    ensures LastFor(Wanted(Items(sections)), n, k) == if k == [] then None else Get(f, n, k)
  {
    hide Items, Lists, Wanted;
    var w := Wanted(Items(sections));
    LastIsThere(w, n, k);
    match LastFor(w, n, k) {
      case Some(v) =>
        WantedIs(Items(sections), Assignment(n, k, v));
        ListedItem(sections, f, Set(n, k, v));
      case None =>
        if k != [] && Get(f, n, k).Some? {
          var v := Get(f, n, k).value;
          ListedItem(sections, f, Set(n, k, v));
          WantedIs(Items(sections), Assignment(n, k, v));
        }
    }
  }

  lemma {:induction false} LastIsThere(a: seq<Assignment>, n: Bytes, k: Bytes)
    ensures match LastFor(a, n, k)
            case Some(v) => Assignment(n, k, v) in a
            case None => forall x | x in a :: x.section != n || x.key != k
    decreases |a|
  {
    if a != [] {
      LastIsThere(a[1..], n, k);
    }
  }

  lemma SameFile(f: File, g: File)
    requires forall n :: n in f <==> n in g
    requires forall n, k :: Get(f, n, k) == Get(g, n, k)
    ensures f == g
  {
    forall n | n in f ensures f[n] == g[n] {
      forall k ensures k in f[n] <==> k in g[n] {
        assert Get(f, n, k) == Get(g, n, k);
      }
      forall k | k in f[n] ensures f[n][k] == g[n][k] {
        assert Get(f, n, k) == Get(g, n, k);
      }
    }
  }

  lemma LoadedPrinted(sections: seq<Printable>)
    requires SoundItems(Items(sections))
    ensures Loaded(Printed(sections)) == LoadedItems(Items(sections))
  {
    hide Items, Logical, SoundItems, PrintedItems, Texts;
    PrintedIsItems(sections);
    ItemsAreLines(Items(sections));
  }

  lemma OkIsSound(it: Item)
    requires OkItem(it)
    ensures SoundItem(it) && (it.Head? ==> NameOkItem(it)) && ReadsAsSetting(it)
  {
    hide Parse, Trim, Normalize, Utf8.Checks, Header, Setting;
    if it.Set? {
      SettingParses(it.key, it.val);
    }
  }

  lemma OkFileLoads(f: File, sections: seq<Printable>)
    requires Lists(sections, f) && FileOk(f)
    ensures Loaded(Printed(sections)) == Expected(f)
  {
    hide Items, Lists, Loaded, Printed, NameOk, KeyOk, ValOk, Texts, Wanted, SoundItem, ReadsAsSetting, ApplyAll, Assignments,
         WithoutComments, LastFor;
    var items := Items(sections);
    forall i | 0 <= i < |items| ensures OkItem(items[i]) && SoundItem(items[i]) && ReadsAsSetting(items[i]) {
      ListedItem(sections, f, items[i]);
      OkIsSound(items[i]);
    }
    LoadedPrinted(sections);
    ExpectedIs(sections, f);
    ItemsInOrder(GLOBAL, sections);
    OkAssigns(GLOBAL, items);
    var start: File := map[GLOBAL := map[]];
    forall n ensures n in LoadedItems(items) <==> n in Expected(f) {
      OkSections(items, n);
    }
    forall n, k ensures Get(LoadedItems(items), n, k) == Get(Expected(f), n, k) {
      AppliedIsLast(start, GLOBAL, Texts(items), n, k);
      WantedIsFile(sections, f, n, k);
    }
    SameFile(LoadedItems(items), Expected(f));
  }

  lemma OkSections(items: seq<Item>, n: Bytes)
    requires forall i | 0 <= i < |items| :: OkItem(items[i]) && SoundItem(items[i]) && ReadsAsSetting(items[i])
    ensures n in LoadedItems(items) <==> n == GLOBAL || Head(n) in items
  {
    hide Parse, Header, Setting, NameOk, KeyOk, ValOk, ApplyAll, SoundItem, ReadsAsSetting, Texts;
    var start: File := map[GLOBAL := map[]];
    SectionsStay(start, GLOBAL, Texts(items), GLOBAL);
    if n in LoadedItems(items) && n != GLOBAL {
      SectionsFromHeaders(start, GLOBAL, items, n);
      var i :| 0 <= i < |items| && items[i].Head? && Parse(START, TextOf(items[i]), 0) == Line([], [], n);
      assert OkItem(items[i]);
      HeaderParses(items[i].name);
      assert items[i] == Head(n);
    }
    if Head(n) in items {
      var i :| 0 <= i < |items| && items[i] == Head(n);
      assert OkItem(items[i]);
      HeadersMakeSections(start, GLOBAL, items, n);
    }
  }

  lemma LoadedFileOk(f: File, sections: seq<Printable>)
    requires Lists(sections, f) && Loaded(Printed(sections)) == Expected(f)
    ensures FileOk(f)
  {
    hide Items, Lists, Loaded, Printed, NameOk, KeyOk, ValOk, Texts, Wanted, Sound, ApplyAll, Assignments, WithoutComments,
         LastFor, Pairs, NoRepeat, ReadsAsSetting, ReadsItsKey;
    var items, start: File := Items(sections), map[GLOBAL := map[]];
    ExpectedIs(sections, f);
    LoadedIsSound(Printed(sections));
    forall i | 0 <= i < |items| ensures SoundItem(items[i]) {
      ListedItem(sections, f, items[i]);
      SoundInFile(Expected(f), items[i]);
    }
    LoadedPrinted(sections);
    ListsDistinct(sections, f);
    ItemsDistinct(sections);
    ItemsInOrder(GLOBAL, sections);
    forall x | x in Wanted(items) ensures LastFor(AssignedBy(items), x.section, x.key) == Some(x.val) {
      WantedIs(items, x);
      ListedItem(sections, f, Set(x.section, x.key, x.val));
      AppliedIsLast(start, GLOBAL, Texts(items), x.section, x.key);
    }
    KeysBack(items);
    forall i | 0 <= i < |items| && items[i].Head? ensures items[i].name in LoadedItems(items) {
      assert items[i] == Head(items[i].name);
    }
    NamesBack(items);
    ValuesBack(items);
    forall n | n in f ensures NameOk(n) {
      ListedItem(sections, f, Head(n));
      assert OkItem(Head(n));
    }
    forall n, k | n in f && k in f[n] && k != [] ensures KeyOk(k) && ValOk(f[n][k]) {
      ListedItem(sections, f, Set(n, k, f[n][k]));
      assert OkItem(Set(n, k, f[n][k]));
    }
  }

  lemma SoundInFile(f: File, it: Item)
    requires SoundFile(f)
    requires match it
             case Head(n) => n in f
             case Set(n, k, v) => k != [] && Get(f, n, k) == Some(v)
    ensures SoundItem(it)
  {
    hide Sound;
  }

  lemma ListsDistinct(sections: seq<Printable>, f: File)
    requires Lists(sections, f)
    ensures NoNameTwice(sections) && forall i | 0 <= i < |sections| :: NoKeyTwice(sections[i].lines)
  {
  }

  /** For every file: printing it, in whatever order, and loading the text gives the file back, without
      the entry that stands for comments and with the global section that loading always makes, if and
      only if its names, keys and values avoid what the grammar gives a meaning. */
  lemma PrintThenLoad(f: File, sections: seq<Printable>)
    requires Lists(sections, f)
    ensures Loaded(Printed(sections)) == Expected(f) <==> FileOk(f)
  {
    if FileOk(f) {
      OkFileLoads(f, sections);
    } else if Loaded(Printed(sections)) == Expected(f) {
      LoadedFileOk(f, sections);
    }
  }

  /** One section with one setting survives if and only if its name, key and value are of that kind. */
  lemma SettingReadsBack(section: Bytes, key: Bytes, val: Bytes)
    requires key != []
    ensures Loaded(Printed([Printable(section, [(key, val)])])) == Opened(map[section := map[key := val]], GLOBAL)
            <==> NameOk(section) && KeyOk(key) && ValOk(val)
  {
    hide Loaded, Printed, NameOk, KeyOk, ValOk;
    var f: File := map[section := map[key := val]];
    var sections := [Printable(section, [(key, val)])];
    assert sections[0].lines[0].0 == key;
    assert ListsSection(sections[0].lines, f[section]);
    assert sections[0].name == section;
    assert Lists(sections, f);
    assert map[key := val] - {[]} == map[key := val];
    assert WithoutComments(f) == f;
    PrintThenLoad(f, sections);
  }

  /** a\=b = v */
  const ESCAPED_LINE: Bytes := [97, 92, 61, 98, 32, 61, 32, 118]

  /** a=b */
  const KEY_WITH_EQUALS: Bytes := [97, 61, 98]

  lemma EscapedLineStart(line: Bytes, key: Scan)
    requires line == ESCAPED_LINE && key == Scan(Key, [], [], [], false)
    ensures Parse(START, line, 0) == Parse(key.(key := [97, 61]), line, 3)
  {
    hide Parse, Normalize;
    assert [] + [97] == [97] && [97] + [61] == [97, 61];
    Looks(START, line, 0, key);
    Reads(key, line, 0, key.(key := [97]));
    Reads(key.(key := [97]), line, 1, key.(key := [97], escaping := true));
    Reads(key.(key := [97], escaping := true), line, 2, key.(key := [97, 61]));
  }

  lemma EscapedLineReads()
    ensures Parse(START, ESCAPED_LINE, 0) == Line(KEY_WITH_EQUALS, [118], [])
  {
    hide Parse, Normalize;
    var line, key := ESCAPED_LINE, Scan(Key, [], [], [], false);
    EscapedLineStart(line, key);
    assert [97, 61] + [98] == KEY_WITH_EQUALS;
    Reads(key.(key := [97, 61]), line, 3, key.(key := KEY_WITH_EQUALS));
    Reads(key.(key := KEY_WITH_EQUALS), line, 4, key.(key := KEY_WITH_EQUALS + [SPACE]));
    KeyIsNormal();
    EscapedLineValue(line);
  }

  lemma KeyIsNormal()
    ensures Normalize(KEY_WITH_EQUALS + [SPACE]) == KEY_WITH_EQUALS
  {
    hide Trim;
    TrimSpaceBehind(KEY_WITH_EQUALS);
    SpacelessIsTrimmed(KEY_WITH_EQUALS);
  }

  lemma EscapedLineValue(line: Bytes)
    requires line == ESCAPED_LINE && Normalize(KEY_WITH_EQUALS + [SPACE]) == KEY_WITH_EQUALS
    ensures Parse(Scan(Key, KEY_WITH_EQUALS + [SPACE], [], [], false), line, 5) == Line(KEY_WITH_EQUALS, [118], [])
  {
    hide Parse, Normalize;
    var val := Scan(ValStart, KEY_WITH_EQUALS, [], [], false);
    assert [] + [118] == [118];
    Reads(Scan(Key, KEY_WITH_EQUALS + [SPACE], [], [], false), line, 5, val);
    Reads(val, line, 6, val);
    Looks(val, line, 7, val.(state := UnquotedVal));
    Reads(val.(state := UnquotedVal), line, 7, val.(state := UnquotedVal, val := [118]));
    Ends(val.(state := UnquotedVal, val := [118]), line);
  }

  ghost function FileWithEquals(): File {
    map[GLOBAL := map[KEY_WITH_EQUALS := [118]]]
  }

  lemma EscapedLineLoads()
    ensures Loaded(ESCAPED_LINE + [NEWLINE]) == FileWithEquals()
  {
    hide Parse, Loaded, Utf8.Checks;
    AsciiChecks(ESCAPED_LINE);
    EscapedLineReads();
    OneLineLoads(ESCAPED_LINE, KEY_WITH_EQUALS, [118]);
  }

  lemma OneLineLoads(line: Bytes, key: Bytes, val: Bytes)
    requires LineOk(line) && Parse(START, line, 0) == Line(key, val, [])
    ensures Loaded(line + [NEWLINE]) == map[GLOBAL := map[key := val]]
  {
    hide Parse, Logical, LineOk;
    OneLogical(line, []);
    NothingLogicalFrom([]);
    assert line + [NEWLINE] + [] == line + [NEWLINE];
    var lines, f: File := [line], map[GLOBAL := map[key := val]];
    assert Logical(line + [NEWLINE], []) == lines && lines[1..] == [];
    var start: File := map[GLOBAL := map[]];
    assert start[GLOBAL][key := val] == f[GLOBAL];
    assert start[GLOBAL := f[GLOBAL]] == f;
    assert ApplyAll(start, GLOBAL, lines) == ApplyAll(f, GLOBAL, []);
  }

  lemma FileWithEqualsIs()
    ensures Expected(FileWithEquals()) == FileWithEquals() && !FileOk(FileWithEquals())
  {
    var m: Section := map[KEY_WITH_EQUALS := [118]];
    assert m - {[]} == m;
    assert KEY_WITH_EQUALS[1] == EQUALS && !KeyOk(KEY_WITH_EQUALS);
    assert GLOBAL in FileWithEquals() && KEY_WITH_EQUALS in FileWithEquals()[GLOBAL];
  }

  /** A file that loading can make and that printing and loading does not keep: an escaped '=' gives a
      key with '=', which is printed without the escape. */
  lemma KeyWithEqualsIsLost(sections: seq<Printable>)
    requires Lists(sections, FileWithEquals())
    ensures Loaded(ESCAPED_LINE + [NEWLINE]) == FileWithEquals() == Expected(FileWithEquals())
    ensures Loaded(Printed(sections)) != FileWithEquals()
  {
    hide Lists, Printed, Loaded, FileWithEquals, FileOk;
    EscapedLineLoads();
    FileWithEqualsIs();
    PrintThenLoad(FileWithEquals(), sections);
  }

  /** Writing a file out and reading it back. */
  method Reload(cf: ConfFile) returns (copy: ConfFile)
    ensures fresh(copy)
    ensures copy.sections == Expected(cf.sections) <==> FileOk(cf.sections)
  {
    hide FileOk, Lists, Printed, Loaded, Expected;
    var text := cf.Print();
    ghost var listing :| Lists(listing, cf.sections) && text == Printed(listing);
    copy := new ConfFile();
    copy.Load(text);
    PrintThenLoad(cf.sections, listing);
  }
}
