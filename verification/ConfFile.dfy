/** ConfFile (common/ConfUtils.cc): the configuration file's lines, its parser and its printer. */
module ConfFiles {
  import opened Basics
  import Utf8

  type Bytes = seq<byte>

  const NUL: byte := 0
  const TAB: byte := 9
  const NEWLINE: byte := 10
  const SPACE: byte := 32
  const QUOTE: byte := 34
  const HASH: byte := 35
  const SEMICOLON: byte := 59
  const EQUALS: byte := 61
  const LEFT: byte := 91
  const BACKSLASH: byte := 92
  const RIGHT: byte := 93
  const UNDERSCORE: byte := 95

  /** "global" */
  const GLOBAL: Bytes := [103, 108, 111, 98, 97, 108]

  /** isspace in the C locale. */
  predicate IsSpace(c: byte) {
    c == SPACE || 9 <= c <= 13
  }

  predicate IsComment(c: byte) {
    c == HASH || c == SEMICOLON
  }

  // ------------------------------------------------------------------
  // White space

  function TrimLeft(s: Bytes): Bytes {
    if s != [] && IsSpace(s[0]) then TrimLeft(s[1..]) else s
  }

  function TrimRight(s: Bytes): Bytes {
    if s != [] && IsSpace(s[|s| - 1]) then TrimRight(s[..|s| - 1]) else s
  }

  /** Of each run of white space, the first character. */
  function Squeeze(s: Bytes, afterSpace: bool): Bytes {
    if s == [] then []
    else if IsSpace(s[0]) then (if afterSpace then [] else [s[0]]) + Squeeze(s[1..], true)
    else [s[0]] + Squeeze(s[1..], false)
  }

  function Trim(s: Bytes, internal: bool): Bytes {
    var t := TrimRight(TrimLeft(s));
    if internal then Squeeze(t, false) else t
  }

  function Underscored(s: Bytes): Bytes {
    seq(|s|, i requires 0 <= i < |s| => if s[i] == SPACE then UNDERSCORE else s[i])
  }

  function Normalize(key: Bytes): Bytes {
    Underscored(Trim(key, true))
  }

  // ------------------------------------------------------------------
  // One line

  datatype Acceptor = Init | SectionName | Key | ValStart | UnquotedVal | QuotedVal | CommentStart | CommentText

  datatype Scan = Scan(state: Acceptor, key: Bytes, val: Bytes, section: Bytes, escaping: bool)

  /** What process_line returns: nothing, for a blank line; nothing and an error; or a line. */
  datatype Line = Blank | Bad | Line(key: Bytes, val: Bytes, section: Bytes)

  const START: Scan := Scan(Init, [], [], [], false)

  /** What the end of the line makes of the state. */
  function AtEnd(s: Scan): Line {
    match s.state
    case Init => Blank
    case SectionName => Bad
    case Key => Bad
    case ValStart => Line(s.key, s.val, s.section)
    case UnquotedVal => if s.escaping then Bad else Line(s.key, Trim(s.val, false), s.section)
    case QuotedVal => Bad
    case CommentStart => Line(s.key, s.val, s.section)
    case CommentText => Line(s.key, s.val, s.section)
  }

  /** The state after one character; None is an error. A state that only looks at the character
      (Init and ValStart, at the start of a key or value) leaves it to be read again. */
  function Accept(s: Scan, c: byte): Option<(Scan, bool)> {
    match s.state
    case Init =>
      if c == LEFT then Some((s.(state := SectionName), true))
      else if IsComment(c) then Some((s.(state := CommentText), true))
      else if c == RIGHT then None
      else if IsSpace(c) then Some((s, true))
      else Some((s.(state := Key), false))
    case SectionName =>
      if c == RIGHT && !s.escaping then
        var name := Trim(s.section, true);
        if name == [] then None else Some((s.(section := name, state := CommentStart), true))
      else if IsComment(c) && !s.escaping then None
      else if c == BACKSLASH && !s.escaping then Some((s.(escaping := true), true))
      else Some((s.(escaping := false, section := s.section + [c]), true))
    case Key =>
      if IsComment(c) && !s.escaping then None
      else if c == EQUALS && !s.escaping then
        var key := Normalize(s.key);
        if key == [] then None else Some((s.(key := key, state := ValStart), true))
      else if c == BACKSLASH && !s.escaping then Some((s.(escaping := true), true))
      else Some((s.(escaping := false, key := s.key + [c]), true))
    case ValStart =>
      if IsComment(c) then Some((s.(state := CommentText), true))
      else if c == QUOTE then Some((s.(state := QuotedVal), true))
      else if IsSpace(c) then Some((s, true))
      else Some((s.(state := UnquotedVal), false))
    case UnquotedVal =>
      if IsComment(c) && !s.escaping then Some((s.(val := Trim(s.val, false), state := CommentText), true))
      else if c == BACKSLASH && !s.escaping then Some((s.(escaping := true), true))
      else Some((s.(escaping := false, val := s.val + [c]), true))
    case QuotedVal =>
      if c == QUOTE && !s.escaping then Some((s.(state := CommentStart), true))
      else if c == BACKSLASH && !s.escaping then Some((s.(escaping := true), true))
      else Some((s.(escaping := false, val := s.val + [c]), true))
    case CommentStart =>
      if IsComment(c) then Some((s.(state := CommentText), true))
      else if IsSpace(c) then Some((s, true))
      else None
    case CommentText => Some((s, true))
  }

  function Looking(s: Scan): nat {
    if s.state == Init || s.state == ValStart then 1 else 0
  }

  /** The rest of a line from position i. */
  function Parse(s: Scan, line: Bytes, i: nat): Line
    requires i <= |line|
    decreases |line| - i, Looking(s)
  {
    if i == |line| then AtEnd(s)
    else
      match Accept(s, line[i])
      case None => Bad
      case Some((s', read)) => Parse(s', line, if read then i + 1 else i)
  }

  // ------------------------------------------------------------------
  // Whole files

  type Section = map<Bytes, Bytes>
  type File = map<Bytes, Section>

  function NewlineAt(buf: Bytes): (r: Option<nat>)
    ensures match r
            case None => NEWLINE !in buf
            case Some(e) => e < |buf| && buf[e] == NEWLINE && NEWLINE !in buf[..e]
  {
    if buf == [] then None
    else if buf[0] == NEWLINE then Some(0)
    else
      match NewlineAt(buf[1..])
      case None => None
      case Some(e) =>
        assert buf[..e + 1] == [buf[0]] + buf[1..][..e];
        Some(e + 1)
  }

  /** The logical lines: a backslash at the end joins a line to the next; a line that holds a NUL or
      is not UTF-8 is dropped with what it was to be joined to; an unfinished line is dropped. */
  function Logical(buf: Bytes, acc: Bytes): seq<Bytes>
    decreases |buf|
  {
    match NewlineAt(buf)
    case None => []
    case Some(e) =>
      var line, rest := buf[..e], buf[e + 1..];
      if NUL in line || !Utf8.Checks(line, 0) then Logical(rest, [])
      else if e >= 1 && line[e - 1] == BACKSLASH then Logical(rest, acc + line[..e - 1])
      else [acc + line] + Logical(rest, [])
  }

  function Opened(f: File, name: Bytes): File {
    if name in f then f else f[name := map[]]
  }

  /** What a line does to the file being read and to the current section. */
  function Apply(f: File, cur: Bytes, line: Line): (File, Bytes) {
    match line
    case Line(key, val, section) =>
      if section != [] then (Opened(f, section), section)
      else (f[cur := (if cur in f then f[cur] else map[])[key := val]], cur)
    case _ => (f, cur)
  }

  function ApplyAll(f: File, cur: Bytes, lines: seq<Bytes>): File
    decreases |lines|
  {
    if lines == [] then f
    else
      var (f', cur') := Apply(f, cur, Parse(START, lines[0], 0));
      ApplyAll(f', cur', lines[1..])
  }

  /** load_from_buffer on an empty ConfFile. */
  function Loaded(buf: Bytes): File {
    ApplyAll(map[GLOBAL := map[]], GLOBAL, Logical(buf, []))
  }

  /** read(). */
  function Lookup(f: File, section: Bytes, key: Bytes): Option<Bytes> {
    var k := Normalize(key);
    if section in f && k in f[section] then Some(f[section][k]) else None
  }

  // ------------------------------------------------------------------
  // What the line parser is given

  predicate Sound(line: Bytes) {
    NUL !in line && NEWLINE !in line && Utf8.Checks(line, 0)
  }

  /** Joining keeps lines sound: what is put before the rest, and a line without its backslash. */
  lemma JoinedIsSound(acc: Bytes, line: Bytes)
    requires Sound(acc) && Sound(line)
    ensures Sound(acc + line)
    ensures line != [] && line[|line| - 1] == BACKSLASH ==> Sound(acc + line[..|line| - 1])
  {
    CleanConcat(acc, line);
    if line != [] && line[|line| - 1] == BACKSLASH {
      var front := line[..|line| - 1];
      assert line == front + [BACKSLASH];
      Utf8.ChecksIsText(line);
      assert front + [BACKSLASH] + [] == line;
      Utf8.TextSplit(front, BACKSLASH, []);
      Utf8.ChecksIsText(front);
      CleanConcat(acc, front);
    }
  }

  /** For any input, process_line sees only UTF-8 without NUL, so it sees the whole of each line. */
  lemma {:induction false} LogicalLinesAreSound(buf: Bytes, acc: Bytes, i: nat)
    requires Sound(acc) && i < |Logical(buf, acc)|
    ensures Sound(Logical(buf, acc)[i])
    decreases |buf|
  {
    hide Sound;
    EmptyIsSound();
    var e := NewlineAt(buf).value;
    var line, rest := buf[..e], buf[e + 1..];
    if NUL in line || !Utf8.Checks(line, 0) {
      LogicalLinesAreSound(rest, [], i);
    } else {
      LineIsSound(line);
      JoinedIsSound(acc, line);
      if e >= 1 && line[e - 1] == BACKSLASH {
        LogicalLinesAreSound(rest, acc + line[..e - 1], i);
      } else if i > 0 {
        LogicalLinesAreSound(rest, [], i - 1);
      }
    }
  }

  lemma EmptyIsSound()
    ensures Sound([])
  {
  }

  lemma LineIsSound(line: Bytes)
    requires NUL !in line && NEWLINE !in line && Utf8.Checks(line, 0)
    ensures Sound(line)
  {
  }

  // ------------------------------------------------------------------
  // Joining lines

  /** Physical lines that are continued, each with a backslash before its newline. */
  function Continued(parts: seq<Bytes>): Bytes {
    if parts == [] then [] else parts[0] + [BACKSLASH, NEWLINE] + Continued(parts[1..])
  }

  function Joined(parts: seq<Bytes>): Bytes {
    if parts == [] then [] else parts[0] + Joined(parts[1..])
  }

  /** Lines that are continued, and the one behind them, are one logical line: their texts one behind the
      other without the backslashes, behind what was to be joined before. */
  lemma {:induction false} LinesAreJoined(parts: seq<Bytes>, last: Bytes, rest: Bytes, acc: Bytes)
    requires (forall i | 0 <= i < |parts| :: Sound(parts[i])) && Sound(last) && (last == [] || last[|last| - 1] != BACKSLASH)
    ensures Logical(Continued(parts) + last + [NEWLINE] + rest, acc) == [acc + Joined(parts) + last] + Logical(rest, [])
    decreases |parts|
  {
    hide Logical, Sound, Continued;
    if parts == [] {
      assert Continued(parts) == [] by { NothingContinued(); }
      assert Continued(parts) + last + [NEWLINE] + rest == last + [NEWLINE] + rest && acc + [] == acc;
      SoundEnds(last, rest, acc);
    } else {
      var p, more := parts[0], Continued(parts[1..]) + last + [NEWLINE] + rest;
      FirstContinued(parts, last, rest);
      SoundContinues(p, more, acc);
      LinesAreJoined(parts[1..], last, rest, acc + p);
      assert acc + p + Joined(parts[1..]) == acc + Joined(parts);
    }
  }

  lemma NothingContinued()
    ensures Continued([]) == []
  {
  }

  lemma FirstContinued(parts: seq<Bytes>, last: Bytes, rest: Bytes)
    requires parts != []
    ensures Continued(parts) + last + [NEWLINE] + rest
         == parts[0] + [BACKSLASH] + [NEWLINE] + (Continued(parts[1..]) + last + [NEWLINE] + rest)
  {
    var p, c := parts[0], Continued(parts[1..]);
    assert p + [BACKSLASH, NEWLINE] + c + last + [NEWLINE] + rest == p + [BACKSLASH] + [NEWLINE] + (c + last + [NEWLINE] + rest);
  }

  lemma SoundEnds(line: Bytes, rest: Bytes, acc: Bytes)
    requires Sound(line) && (line == [] || line[|line| - 1] != BACKSLASH)
    ensures Logical(line + [NEWLINE] + rest, acc) == [acc + line] + Logical(rest, [])
  {
    hide Utf8.Checks;
    NewlineBehind(line, rest);
    var buf := line + [NEWLINE] + rest;
    assert buf[..|line|] == line && buf[|line| + 1..] == rest;
  }

  lemma SoundContinues(p: Bytes, rest: Bytes, acc: Bytes)
    requires Sound(p)
    ensures Logical(p + [BACKSLASH] + [NEWLINE] + rest, acc) == Logical(rest, acc + p)
  {
    hide Utf8.Checks;
    var line := p + [BACKSLASH];
    AsciiChecks([BACKSLASH]);
    CleanConcat(p, [BACKSLASH]);
    NewlineBehind(line, rest);
    var buf := line + [NEWLINE] + rest;
    assert buf[..|line|] == line && buf[|line| + 1..] == rest && line[..|line| - 1] == p;
  }

  /** A line with a NUL or that is not UTF-8 is dropped, with all that it was to be joined to. */
  lemma BadLineIsDropped(line: Bytes, rest: Bytes, acc: Bytes)
    requires NEWLINE !in line && (NUL in line || !Utf8.Checks(line, 0))
    ensures Logical(line + [NEWLINE] + rest, acc) == Logical(rest, [])
  {
    hide Utf8.Checks;
    NewlineBehind(line, rest);
    var buf := line + [NEWLINE] + rest;
    assert buf[..|line|] == line && buf[|line| + 1..] == rest;
  }

  /** What has no newline behind it is not read. */
  lemma UnfinishedIsDropped(line: Bytes, acc: Bytes)
    requires NEWLINE !in line
    ensures Logical(line, acc) == []
  {
    hide Utf8.Checks;
  }

  // ------------------------------------------------------------------
  // White space, without the recursion

  /** Trimming leaves what is between the white space at both ends. */
  lemma TrimIs(s: Bytes) returns (i: nat, j: nat)
    ensures i <= j <= |s| && Trim(s, false) == s[i..j]
    ensures forall k | 0 <= k < i || j <= k < |s| :: IsSpace(s[k])
    ensures i < j ==> !IsSpace(s[i]) && !IsSpace(s[j - 1])
  {
    hide TrimLeft, TrimRight;
    i := LeftCut(s);
    var n := RightCut(s[i..]);
    j := i + n;
    LeftEnd(s);
    assert s[i..][..n] == s[i..j];
    forall k | j <= k < |s| ensures IsSpace(s[k]) {
      assert s[k] == s[i..][k - i];
    }
    if i < j {
      assert s[i] == TrimLeft(s)[0] && s[j - 1] == s[i..][n - 1];
    }
  }

  lemma {:induction false} LeftCut(s: Bytes) returns (i: nat)
    ensures i <= |s| && TrimLeft(s) == s[i..] && forall k | 0 <= k < i :: IsSpace(s[k])
    decreases |s|
  {
    if s != [] && IsSpace(s[0]) {
      var i' := LeftCut(s[1..]);
      i := i' + 1;
      assert s[1..][i'..] == s[i..];
      forall k | 0 <= k < i ensures IsSpace(s[k]) {
        assert k > 0 ==> s[k] == s[1..][k - 1];
      }
    } else {
      i := 0;
    }
  }

  lemma {:induction false} RightCut(s: Bytes) returns (n: nat)
    ensures n <= |s| && TrimRight(s) == s[..n] && (forall k | n <= k < |s| :: IsSpace(s[k])) && (n > 0 ==> !IsSpace(s[n - 1]))
    decreases |s|
  {
    if s != [] && IsSpace(s[|s| - 1]) {
      n := RightCut(s[..|s| - 1]);
      assert s[..|s| - 1][..n] == s[..n];
      forall k | n <= k < |s| ensures IsSpace(s[k]) {
        assert k < |s| - 1 ==> s[k] == s[..|s| - 1][k];
      }
    } else {
      n := |s|;
    }
  }

  /** Of a run of white space inside, the first character stays; what is before and behind it is squeezed
      for itself. */
  lemma {:induction false} SqueezeRun(a: Bytes, run: Bytes, b: Bytes, afterSpace: bool)
    requires a != [] && !IsSpace(a[|a| - 1]) && run != [] && (forall i | 0 <= i < |run| :: IsSpace(run[i]))
    requires b == [] || !IsSpace(b[0])
    ensures Squeeze(a + run + b, afterSpace) == Squeeze(a, afterSpace) + [run[0]] + Squeeze(b, false)
    decreases |a|
  {
    var s := a + run + b;
    if |a| == 1 {
      assert s[1..] == run + b && a[1..] == [];
      assert (run + b)[1..] == run[1..] + b;
      RunGoes(run[1..], b);
    } else {
      assert s[1..] == a[1..] + run + b;
      SqueezeRun(a[1..], run, b, IsSpace(a[0]));
    }
  }

  lemma {:induction false} RunGoes(run: Bytes, b: Bytes)
    requires (forall i | 0 <= i < |run| :: IsSpace(run[i])) && (b == [] || !IsSpace(b[0]))
    ensures Squeeze(run + b, true) == Squeeze(b, false)
    decreases |run|
  {
    if run == [] {
      assert run + b == b;
    } else {
      assert (run + b)[1..] == run[1..] + b;
      RunGoes(run[1..], b);
    }
  }

  // ------------------------------------------------------------------
  // The last line wins

  datatype Assignment = Assignment(section: Bytes, key: Bytes, val: Bytes)

  /** Every key = value line, with the section it stands in. */
  function Assignments(cur: Bytes, lines: seq<Bytes>): seq<Assignment>
    decreases |lines|
  {
    if lines == [] then []
    else
      match Parse(START, lines[0], 0)
      case Line(key, val, section) =>
        if section != [] then Assignments(section, lines[1..])
        else [Assignment(cur, key, val)] + Assignments(cur, lines[1..])
      case _ => Assignments(cur, lines[1..])
  }

  function LastFor(a: seq<Assignment>, section: Bytes, key: Bytes): Option<Bytes> {
    if a == [] then None
    else
      match LastFor(a[1..], section, key)
      case Some(v) => Some(v)
      case None => if a[0].section == section && a[0].key == key then Some(a[0].val) else None
  }

  function Get(f: File, section: Bytes, key: Bytes): Option<Bytes> {
    if section in f && key in f[section] then Some(f[section][key]) else None
  }

  lemma {:induction false} AppliedIsLast(f: File, cur: Bytes, lines: seq<Bytes>, section: Bytes, key: Bytes)
    requires cur in f
    ensures Get(ApplyAll(f, cur, lines), section, key)
         == match LastFor(Assignments(cur, lines), section, key)
            case Some(v) => Some(v)
            case None => Get(f, section, key)
    decreases |lines|
  {
    hide Parse;
    if lines != [] {
      var (f', cur') := Apply(f, cur, Parse(START, lines[0], 0));
      AppliedIsLast(f', cur', lines[1..], section, key);
      var a := Assignments(cur, lines);
      match Parse(START, lines[0], 0) {
        case Line(k, v, s) =>
          if s == [] {
            assert a[1..] == Assignments(cur, lines[1..]);
          }
        case _ =>
      }
    }
  }

  /** For any input, read() finds what the last line for that key in that section says. */
  lemma ReadIsLast(buf: Bytes, section: Bytes, key: Bytes)
    ensures Lookup(Loaded(buf), section, key) == LastFor(Assignments(GLOBAL, Logical(buf, [])), section, Normalize(key))
  {
    AppliedIsLast(map[GLOBAL := map[]], GLOBAL, Logical(buf, []), section, Normalize(key));
  }

  // ------------------------------------------------------------------
  // Printing

  datatype Printable = Printable(name: Bytes, lines: seq<(Bytes, Bytes)>)

  function Header(name: Bytes): Bytes {
    [LEFT] + name + [RIGHT]
  }

  function Setting(key: Bytes, val: Bytes): Bytes {
    [TAB] + key + [SPACE, EQUALS, SPACE, QUOTE] + val + [QUOTE]
  }

  function PrintedLines(lines: seq<(Bytes, Bytes)>): Bytes
    decreases |lines|
  {
    if lines == [] then [] else Setting(lines[0].0, lines[0].1) + [NEWLINE] + PrintedLines(lines[1..])
  }

  /** operator<<, on the sections and keys in the order they are visited; the empty key, which stands
      for comment lines, has been left out. */
  function Printed(sections: seq<Printable>): Bytes
    decreases |sections|
  {
    if sections == [] then []
    else Header(sections[0].name) + [NEWLINE] + PrintedLines(sections[0].lines) + Printed(sections[1..])
  }

  predicate Clean(s: Bytes) {
    NUL !in s && NEWLINE !in s && BACKSLASH !in s && Utf8.Checks(s, 0)
  }

  predicate NoComment(s: Bytes) {
    HASH !in s && SEMICOLON !in s
  }

  /** A section name in normal form without special characters. */
  predicate NameOk(name: Bytes) {
    Clean(name) && NoComment(name) && RIGHT !in name && name != [] && Trim(name, true) == name
  }

  predicate KeyOk(key: Bytes) {
    Clean(key) && NoComment(key) && EQUALS !in key && key != [] && Normalize(key) == key && key[0] != LEFT && key[0] != RIGHT
  }

  predicate ValOk(val: Bytes) {
    Clean(val) && QUOTE !in val
  }

  // Lines that the parser reads back

  lemma {:induction false} ReadName(line: Bytes, i: nat, name: Bytes, done: Bytes)
    requires i + |name| <= |line| && line[i..i + |name|] == name
    requires NoComment(name) && RIGHT !in name && BACKSLASH !in name
    ensures Parse(Scan(SectionName, [], [], done, false), line, i)
         == Parse(Scan(SectionName, [], [], done + name, false), line, i + |name|)
    decreases |name|
  {
    if name == [] {
      assert done + name == done;
    } else {
      assert line[i] == name[0] && name[0] in name;
      assert line[i + 1..i + 1 + |name[1..]|] == name[1..];
      ReadName(line, i + 1, name[1..], done + [name[0]]);
      assert done + [name[0]] + name[1..] == done + name;
    }
  }

  lemma HeaderParses(name: Bytes)
    requires NameOk(name)
    ensures Parse(START, Header(name), 0) == Line([], [], name)
  {
    hide Trim;
    var line := Header(name);
    assert line[1..1 + |name|] == name;
    ReadName(line, 1, name, []);
    assert [] + name == name;
    assert line[1 + |name|] == RIGHT;
  }

  lemma {:induction false} ReadKey(line: Bytes, i: nat, key: Bytes, done: Bytes)
    requires i + |key| <= |line| && line[i..i + |key|] == key
    requires NoComment(key) && EQUALS !in key && BACKSLASH !in key
    ensures Parse(Scan(Key, done, [], [], false), line, i) == Parse(Scan(Key, done + key, [], [], false), line, i + |key|)
    decreases |key|
  {
    if key == [] {
      assert done + key == done;
    } else {
      assert line[i] == key[0] && key[0] in key;
      assert line[i + 1..i + 1 + |key[1..]|] == key[1..];
      ReadKey(line, i + 1, key[1..], done + [key[0]]);
      assert done + [key[0]] + key[1..] == done + key;
    }
  }

  lemma {:induction false} ReadVal(line: Bytes, i: nat, val: Bytes, key: Bytes, done: Bytes)
    requires i + |val| <= |line| && line[i..i + |val|] == val && QUOTE !in val && BACKSLASH !in val
    ensures Parse(Scan(QuotedVal, key, done, [], false), line, i)
         == Parse(Scan(QuotedVal, key, done + val, [], false), line, i + |val|)
    decreases |val|
  {
    if val == [] {
      assert done + val == done;
    } else {
      assert line[i] == val[0] && val[0] in val;
      assert line[i + 1..i + 1 + |val[1..]|] == val[1..];
      ReadVal(line, i + 1, val[1..], key, done + [val[0]]);
      assert done + [val[0]] + val[1..] == done + val;
    }
  }

  lemma {:induction false} LeftEnd(s: Bytes)
    ensures var t := TrimLeft(s); t != [] ==> !IsSpace(t[0])
    decreases |s|
  {
    if s != [] && IsSpace(s[0]) {
      LeftEnd(s[1..]);
    }
  }

  lemma {:induction false} RightEnd(s: Bytes)
    ensures var t := TrimRight(s); t <= s && (t != [] ==> !IsSpace(t[|t| - 1]))
    decreases |s|
  {
    if s != [] && IsSpace(s[|s| - 1]) {
      RightEnd(s[..|s| - 1]);
    }
  }

  lemma {:induction false} SqueezeEnds(s: Bytes, afterSpace: bool)
    requires s != [] && !IsSpace(s[|s| - 1])
    ensures var t := Squeeze(s, afterSpace); t != [] && t[|t| - 1] == s[|s| - 1] && (!IsSpace(s[0]) ==> t[0] == s[0])
    decreases |s|
  {
    if |s| > 1 {
      SqueezeEnds(s[1..], IsSpace(s[0]));
    } else {
      assert s[1..] == [];
    }
  }

  /** Normal names neither begin nor end with white space. */
  lemma TrimmedEnds(s: Bytes)
    requires Trim(s, true) != []
    ensures var t := Trim(s, true); !IsSpace(t[0]) && !IsSpace(t[|t| - 1])
  {
    hide TrimLeft, TrimRight, Squeeze;
    var l := TrimLeft(s);
    var t := TrimRight(l);
    LeftEnd(s);
    RightEnd(l);
    if t == [] {
      SqueezeNothing();
    } else {
      SqueezeEnds(t, false);
    }
  }

  lemma SqueezeNothing()
    ensures Squeeze([], false) == []
  {
  }

  /** The space the printer puts behind a key is trimmed again. */
  lemma KeyAndSpace(key: Bytes)
    requires Normalize(key) == key && key != []
    ensures !IsSpace(key[0]) && Normalize(key + [SPACE]) == key
  {
    hide Squeeze;
    var t := Trim(key, true);
    assert |t| == |key|;
    TrimmedEnds(key);
    assert key[0] == Underscored(t)[0] && key[|key| - 1] == Underscored(t)[|key| - 1];
    assert !IsSpace(key[0]) && !IsSpace(key[|key| - 1]);
    var k := key + [SPACE];
    assert k[..|k| - 1] == key;
    assert TrimLeft(k) == k && TrimRight(k) == TrimRight(key) == key && TrimLeft(key) == key;
  }

  lemma Reads(s: Scan, line: Bytes, i: nat, s': Scan)
    requires i < |line| && Accept(s, line[i]) == Some((s', true))
    ensures Parse(s, line, i) == Parse(s', line, i + 1)
  {
  }

  lemma Looks(s: Scan, line: Bytes, i: nat, s': Scan)
    requires i < |line| && Accept(s, line[i]) == Some((s', false))
    ensures Parse(s, line, i) == Parse(s', line, i)
  {
  }

  lemma Ends(s: Scan, line: Bytes)
    ensures Parse(s, line, |line|) == AtEnd(s)
  {
  }

  /** Where everything stands in a printed setting. */
  ghost predicate Shaped(line: Bytes, key: Bytes, val: Bytes) {
    var n := 1 + |key|;
    && |line| == n + 5 + |val|
    && line[0] == TAB
    && line[1..n] == key
    && line[n] == SPACE
    && line[n + 1] == EQUALS
    && line[n + 2] == SPACE
    && line[n + 3] == QUOTE
    && line[n + 4..n + 4 + |val|] == val
    && line[n + 4 + |val|] == QUOTE
  }

  lemma SettingShaped(key: Bytes, val: Bytes)
    ensures Shaped(Setting(key, val), key, val)
  {
    var line, n := Setting(key, val), 1 + |key|;
    assert line == ([TAB] + key) + ([SPACE, EQUALS, SPACE, QUOTE] + (val + [QUOTE]));
    assert line[n..] == [SPACE, EQUALS, SPACE, QUOTE] + (val + [QUOTE]);
    assert line[n + 4..] == val + [QUOTE];
  }

  lemma SettingParses(key: Bytes, val: Bytes)
    requires KeyOk(key) && ValOk(val)
    ensures Parse(START, Setting(key, val), 0) == Line(key, val, [])
  {
    hide Normalize, Parse, Setting, Utf8.Checks;
    SettingShaped(key, val);
    var line := Setting(key, val);
    KeyParses(line, key, val);
    ValueParses(line, key, val);
  }

  lemma KeyParses(line: Bytes, key: Bytes, val: Bytes)
    requires KeyOk(key) && Shaped(line, key, val)
    ensures Normalize(key + [SPACE]) == key
    ensures Parse(START, line, 0) == Parse(Scan(Key, key + [SPACE], [], [], false), line, 2 + |key|)
  {
    hide Normalize, Parse, Utf8.Checks;
    KeyAndSpace(key);
    assert line[1] == line[1..1 + |key|][0];
    assert key[0] in key;
    Reads(START, line, 0, START);
    Looks(START, line, 1, Scan(Key, [], [], [], false));
    ReadKey(line, 1, key, []);
    assert [] + key == key;
    Reads(Scan(Key, key, [], [], false), line, 1 + |key|, Scan(Key, key + [SPACE], [], [], false));
  }

  lemma ValueParses(line: Bytes, key: Bytes, val: Bytes)
    requires QUOTE !in val && BACKSLASH !in val && Normalize(key + [SPACE]) == key && key != [] && Shaped(line, key, val)
    ensures Parse(Scan(Key, key + [SPACE], [], [], false), line, 2 + |key|) == Line(key, val, [])
  {
    hide Normalize, Parse, Utf8.Checks;
    var n := 2 + |key|;
    Reads(Scan(Key, key + [SPACE], [], [], false), line, n, Scan(ValStart, key, [], [], false));
    Reads(Scan(ValStart, key, [], [], false), line, n + 1, Scan(ValStart, key, [], [], false));
    Reads(Scan(ValStart, key, [], [], false), line, n + 2, Scan(QuotedVal, key, [], [], false));
    ReadVal(line, n + 3, val, key, []);
    assert [] + val == val;
    Reads(Scan(QuotedVal, key, val, [], false), line, n + 3 + |val|, Scan(CommentStart, key, val, [], false));
    Ends(Scan(CommentStart, key, val, [], false), line);
  }

  // The printer does not escape

  lemma {:induction false} BehindValue(s: Scan, line: Bytes, i: nat)
    requires (s.state == CommentStart || s.state == CommentText) && i <= |line|
    ensures Parse(s, line, i) == Bad || Parse(s, line, i) == Line(s.key, s.val, s.section)
    decreases |line| - i
  {
    hide Trim, Normalize;
    if i < |line| {
      match Accept(s, line[i]) {
        case None =>
        case Some((s', read)) => BehindValue(s', line, i + 1);
      }
    }
  }

  /** A quoted value is never longer than what stands before the closing quote. */
  lemma {:induction false} QuotedBound(s: Scan, line: Bytes, i: nat)
    requires s.state == QuotedVal && i <= |line|
    ensures var r := Parse(s, line, i); r == Bad || (r.Line? && |r.val| < |s.val| + |line| - i)
    decreases |line| - i
  {
    hide Trim, Normalize;
    if i < |line| {
      var s' := Accept(s, line[i]).value.0;
      if s'.state == CommentStart {
        BehindValue(s', line, i + 1);
      } else {
        QuotedBound(s', line, i + 1);
      }
    }
  }

  /** A quote or backslash in the value makes what is read shorter, or unreadable. */
  lemma {:induction false} SpecialShortens(s: Scan, line: Bytes, i: nat, val: Bytes)
    requires s.state == QuotedVal && !s.escaping && i + |val| + 1 == |line| && line[i..i + |val|] == val
    requires QUOTE in val || BACKSLASH in val
    ensures var r := Parse(s, line, i); r == Bad || (r.Line? && |r.val| < |s.val| + |val|)
    decreases |val|
  {
    hide Parse, Trim, Normalize;
    assert line[i] == line[i..i + |val|][0] == val[0];
    var s' := Accept(s, line[i]).value.0;
    Reads(s, line, i, s');
    if val[0] == QUOTE {
      BehindValue(s', line, i + 1);
    } else if val[0] == BACKSLASH {
      QuotedBound(s', line, i + 1);
    } else {
      assert line[i + 1..i + 1 + |val[1..]|] == val[1..];
      assert QUOTE in val[1..] || BACKSLASH in val[1..];
      SpecialShortens(s', line, i + 1, val[1..]);
    }
  }

  /** A value in quotes reads as what it was if and only if it has no quote and no backslash. */
  lemma QuotedReadsBack(key: Bytes, val: Bytes)
    requires KeyOk(key)
    ensures Parse(START, Setting(key, val), 0) == Line(key, val, []) <==> QUOTE !in val && BACKSLASH !in val
  {
    hide Normalize, Parse, Setting, Utf8.Checks;
    SettingShaped(key, val);
    var line, n := Setting(key, val), 2 + |key|;
    KeyParses(line, key, val);
    if QUOTE !in val && BACKSLASH !in val {
      ValueParses(line, key, val);
    } else {
      Reads(Scan(Key, key + [SPACE], [], [], false), line, n, Scan(ValStart, key, [], [], false));
      Reads(Scan(ValStart, key, [], [], false), line, n + 1, Scan(ValStart, key, [], [], false));
      Reads(Scan(ValStart, key, [], [], false), line, n + 2, Scan(QuotedVal, key, [], [], false));
      SpecialShortens(Scan(QuotedVal, key, [], [], false), line, n + 3, val);
    }
  }

  // Escapes and comments

  /** A backslash before each character that would otherwise end the value or be dropped. */
  function Escaped(val: Bytes): Bytes {
    if val == [] then []
    else (if val[0] == QUOTE || val[0] == BACKSLASH || IsComment(val[0]) then [BACKSLASH, val[0]] else [val[0]])
         + Escaped(val[1..])
  }

  /** Inside or outside quotes, an escaped text reads as the text itself. */
  lemma {:induction false} EscapesRead(s: Scan, line: Bytes, i: nat, val: Bytes)
    requires (s.state == QuotedVal || s.state == UnquotedVal) && !s.escaping
    requires i + |Escaped(val)| <= |line| && line[i..i + |Escaped(val)|] == Escaped(val)
    ensures Parse(s, line, i) == Parse(s.(val := s.val + val), line, i + |Escaped(val)|)
    decreases |val|
  {
    hide Parse, Trim;
    if val == [] {
      assert s.val + val == s.val;
    } else {
      var k := |Escaped(val)| - |Escaped(val[1..])|;
      assert line[i] == Escaped(val)[0];
      assert line[i + k..i + k + |Escaped(val[1..])|] == Escaped(val)[k..] == Escaped(val[1..]);
      var s' := s.(val := s.val + [val[0]]);
      if k == 2 {
        assert line[i + 1] == Escaped(val)[1] == val[0];
        Reads(s, line, i, s.(escaping := true));
        Reads(s.(escaping := true), line, i + 1, s');
      } else {
        Reads(s, line, i, s');
      }
      EscapesRead(s', line, i + k, val[1..]);
      assert s.val + [val[0]] + val[1..] == s.val + val;
    }
  }

  /** With escapes every value can be written in quotes: the line reads as the key and the value. */
  lemma EscapedSettingParses(key: Bytes, val: Bytes)
    requires KeyOk(key)
    ensures Parse(START, Setting(key, Escaped(val)), 0) == Line(key, val, [])
  {
    hide Normalize, Parse, Setting, Utf8.Checks;
    var e := Escaped(val);
    SettingShaped(key, e);
    var line, n := Setting(key, e), 2 + |key|;
    KeyParses(line, key, e);
    Reads(Scan(Key, key + [SPACE], [], [], false), line, n, Scan(ValStart, key, [], [], false));
    Reads(Scan(ValStart, key, [], [], false), line, n + 1, Scan(ValStart, key, [], [], false));
    Reads(Scan(ValStart, key, [], [], false), line, n + 2, Scan(QuotedVal, key, [], [], false));
    EscapesRead(Scan(QuotedVal, key, [], [], false), line, n + 3, val);
    assert [] + val == val;
    Reads(Scan(QuotedVal, key, val, [], false), line, n + 3 + |e|, Scan(CommentStart, key, val, [], false));
    Ends(Scan(CommentStart, key, val, [], false), line);
  }

  /** An unquoted value is what stands up to the end of the line, without the white space around it. */
  lemma UnquotedParses(key: Bytes, line: Bytes, i: nat, val: Bytes)
    requires i < |line| && line[i..] == Escaped(val) && val != []
    requires !IsSpace(val[0]) && val[0] != QUOTE && !IsComment(val[0])
    ensures Parse(Scan(ValStart, key, [], [], false), line, i) == Line(key, Trim(val, false), [])
  {
    hide Parse, Trim;
    assert line[i] == Escaped(val)[0];
    Looks(Scan(ValStart, key, [], [], false), line, i, Scan(UnquotedVal, key, [], [], false));
    assert line[i..i + |Escaped(val)|] == Escaped(val);
    EscapesRead(Scan(UnquotedVal, key, [], [], false), line, i, val);
    assert [] + val == val;
    Ends(Scan(UnquotedVal, key, val, [], false), line);
  }

  lemma {:induction false} CommentRuns(s: Scan, line: Bytes, i: nat)
    requires s.state == CommentText && i <= |line|
    ensures Parse(s, line, i) == Line(s.key, s.val, s.section)
    decreases |line| - i
  {
    if i < |line| {
      CommentRuns(s, line, i + 1);
    }
  }

  /** A comment marker that is not escaped ends the line, wherever a comment may stand. */
  lemma CommentEndsLine(s: Scan, line: Bytes, i: nat)
    requires i < |line| && IsComment(line[i])
    requires s.state == ValStart || s.state == CommentStart || (s.state == UnquotedVal && !s.escaping)
    ensures Parse(s, line, i) == AtEnd(s)
  {
    hide Parse, Trim;
    var s' := if s.state == UnquotedVal then s.(val := Trim(s.val, false), state := CommentText) else s.(state := CommentText);
    Reads(s, line, i, s');
    CommentRuns(s', line, i + 1);
  }

  // The lines of what was printed

  /** A line without NUL, newline and a backslash at its end, in UTF-8. */
  predicate LineOk(line: Bytes) {
    NUL !in line && NEWLINE !in line && Utf8.Checks(line, 0) && (line == [] || line[|line| - 1] != BACKSLASH)
  }

  lemma {:induction false} NewlineBehind(line: Bytes, rest: Bytes)
    requires NEWLINE !in line
    ensures NewlineAt(line + [NEWLINE] + rest) == Some(|line|)
    decreases |line|
  {
    if line != [] {
      assert (line + [NEWLINE] + rest)[1..] == line[1..] + [NEWLINE] + rest;
      NewlineBehind(line[1..], rest);
    }
  }

  lemma OneLogical(line: Bytes, rest: Bytes)
    requires LineOk(line)
    ensures Logical(line + [NEWLINE] + rest, []) == [line] + Logical(rest, [])
  {
    NewlineBehind(line, rest);
    var buf, e := line + [NEWLINE] + rest, |line|;
    assert buf[..e] == line && buf[e + 1..] == rest && [] + line == line;
  }

  lemma CleanConcat(a: Bytes, b: Bytes)
    requires Utf8.Checks(a, 0) && Utf8.Checks(b, 0)
    ensures Utf8.Checks(a + b, 0)
  {
    Utf8.ChecksIsText(a);
    Utf8.ChecksIsText(b);
    Utf8.ChecksIsText(a + b);
    Utf8.TextConcat(a, b);
  }

  lemma AsciiChecks(s: Bytes)
    requires forall i | 0 <= i < |s| :: s[i] < 0x80
    ensures Utf8.Checks(s, 0)
  {
    Utf8.AsciiIsText(s);
    Utf8.ChecksIsText(s);
  }

  lemma HeaderIsLine(name: Bytes)
    requires Sound(name)
    ensures LineOk(Header(name))
  {
    hide Utf8.Checks;
    AsciiChecks([LEFT]);
    AsciiChecks([RIGHT]);
    CleanConcat([LEFT], name);
    CleanConcat([LEFT] + name, [RIGHT]);
  }

  lemma SettingIsLine(key: Bytes, val: Bytes)
    requires Sound(key) && Sound(val)
    ensures LineOk(Setting(key, val))
  {
    hide Utf8.Checks;
    AsciiChecks([TAB]);
    AsciiChecks([SPACE, EQUALS, SPACE, QUOTE]);
    AsciiChecks([QUOTE]);
    CleanConcat([TAB], key);
    CleanConcat([TAB] + key, [SPACE, EQUALS, SPACE, QUOTE]);
    CleanConcat([TAB] + key + [SPACE, EQUALS, SPACE, QUOTE], val);
    CleanConcat([TAB] + key + [SPACE, EQUALS, SPACE, QUOTE] + val, [QUOTE]);
  }

  // ------------------------------------------------------------------
  // Printing and loading

  ghost predicate NoKeyTwice(lines: seq<(Bytes, Bytes)>) {
    forall i, j | 0 <= i < j < |lines| :: lines[i].0 != lines[j].0
  }

  ghost predicate NoNameTwice(sections: seq<Printable>) {
    forall i, j | 0 <= i < j < |sections| :: sections[i].name != sections[j].name
  }

  /** The lines hold each key of the section once, but not the empty one, with its value. */
  ghost predicate ListsSection(lines: seq<(Bytes, Bytes)>, m: Section) {
    && NoKeyTwice(lines)
    && (forall j | 0 <= j < |lines| :: lines[j].0 != [] && lines[j].0 in m && lines[j].1 == m[lines[j].0])
    && (forall k | k in m && k != [] :: exists j | 0 <= j < |lines| :: lines[j].0 == k)
  }

  /** The sections of the file, each once and with its lines, in any order. */
  ghost predicate Lists(sections: seq<Printable>, f: File) {
    && NoNameTwice(sections)
    && (forall i | 0 <= i < |sections| :: sections[i].name in f && ListsSection(sections[i].lines, f[sections[i].name]))
    && (forall n | n in f :: exists i | 0 <= i < |sections| :: sections[i].name == n)
  }

  function WithoutComments(f: File): File {
    map n | n in f :: f[n] - {[]}
  }

  /** Names, keys and values that avoid what the grammar gives a meaning. */
  predicate FileOk(f: File) {
    forall n | n in f :: NameOk(n) && forall k | k in f[n] && k != [] :: KeyOk(k) && ValOk(f[n][k])
  }

  // ------------------------------------------------------------------
  // ConfUtils.cc

  /** trim_whitespace. */
  method TrimWhitespace(s: Bytes, internal: bool) returns (r: Bytes)
    ensures r == Trim(s, internal)
  {
    var i := 0;
    assert s[0..] == s;
    while i < |s| && IsSpace(s[i])
      invariant 0 <= i <= |s| && TrimLeft(s) == TrimLeft(s[i..])
    {
      assert s[i..][1..] == s[i + 1..];
      i := i + 1;
    }
    r := s[i..];
    assert TrimLeft(r) == r;
    var o := |r|;
    assert r[..o] == r;
    while o > 0 && IsSpace(r[o - 1])
      invariant 0 <= o <= |r| && TrimRight(r) == TrimRight(r[..o])
    {
      assert r[..o][..o - 1] == r[..o - 1];
      o := o - 1;
    }
    r := r[..o];
    assert TrimRight(r) == r;
    if internal {
      r := SqueezeSpaces(r);
    }
  }

  method SqueezeSpaces(s: Bytes) returns (r: Bytes)
    ensures r == Squeeze(s, false)
  {
    var i, prev := 0, false;
    r := [];
    assert s[0..] == s && [] + Squeeze(s, false) == Squeeze(s, false);
    while i < |s|
      invariant 0 <= i <= |s| && r + Squeeze(s[i..], prev) == Squeeze(s, false)
    {
      SqueezeStep(r, s[i..], prev);
      assert s[i..][1..] == s[i + 1..];
      if IsSpace(s[i]) {
        if !prev {
          r := r + [s[i]];
        }
        prev := true;
      } else {
        r := r + [s[i]];
        prev := false;
      }
      i := i + 1;
    }
    assert s[i..] == [] && r + [] == r;
  }

  lemma SqueezeStep(r: Bytes, s: Bytes, prev: bool)
    requires s != []
    ensures r + Squeeze(s, prev)
         == (if IsSpace(s[0]) && prev then r else r + [s[0]]) + Squeeze(s[1..], IsSpace(s[0]))
  {
    if IsSpace(s[0]) && prev {
      assert [] + Squeeze(s[1..], true) == Squeeze(s[1..], true);
    } else {
      assert r + ([s[0]] + Squeeze(s[1..], IsSpace(s[0]))) == r + [s[0]] + Squeeze(s[1..], IsSpace(s[0]));
    }
  }

  /** process_line: it ends, and never reads past the end of the line. */
  method ProcessLine(line: Bytes) returns (r: Line)
    ensures r == Parse(START, line, 0)
  {
    hide Accept, AtEnd;
    var s, l := START, 0;
    while l < |line|
      invariant 0 <= l <= |line| && Parse(START, line, 0) == Parse(s, line, l)
      decreases |line| - l, Looking(s)
    {
      LooksOnce(s, line[l]);
      match Accept(s, line[l]) {
        case None => return Bad;
        case Some((next, read)) =>
          s := next;
          if read {
            l := l + 1;
          }
      }
    }
    return AtEnd(s);
  }

  lemma LooksOnce(s: Scan, c: byte)
    ensures match Accept(s, c)
            case None => true
            case Some((s', read)) => !read ==> Looking(s') < Looking(s)
  {
    hide Trim, Normalize;
  }

  class ConfFile {
    var sections: File

    constructor ()
      ensures sections == map[]
    {
      sections := map[];
    }

    /** parse_bufferlist: clear() and load_from_buffer. */
    method Load(buf: Bytes)
      modifies this
      ensures sections == Loaded(buf)
    {
      hide Parse, Logical;
      sections := map[GLOBAL := map[]];
      var cur, acc, b := GLOBAL, [], 0;
      assert buf[0..] == buf;
      while b < |buf|
        invariant 0 <= b <= |buf| && ApplyAll(sections, cur, Logical(buf[b..], acc)) == Loaded(buf)
      {
        var e := NewlineAt(buf[b..]);
        LogicalStep(buf, b, acc);
        if e == None {
          return;
        }
        var line := buf[b..b + e.value];
        b := b + e.value + 1;
        if NUL in line || !Utf8.Checks(line, 0) {
          acc := [];
          continue;
        }
        if |line| >= 1 && line[|line| - 1] == BACKSLASH {
          acc := acc + line[..|line| - 1];
          continue;
        }
        acc := acc + line;
        ghost var rest := Logical(buf[b..], []);
        assert ([acc] + rest)[1..] == rest;
        var cline := ProcessLine(acc);
        acc := [];
        var applied := Apply(sections, cur, cline);
        sections, cur := applied.0, applied.1;
      }
      NothingLogicalFrom(acc);
      assert buf[b..] == [];
    }

    /** read(): Some exactly when the section has the key. */
    method Read(section: Bytes, key: Bytes) returns (r: Option<Bytes>)
      ensures r == Lookup(sections, section, key)
    {
      var k := TrimWhitespace(key, true);
      k := Underscored(k);
      if section !in sections || k !in sections[section] {
        return None;
      }
      return Some(sections[section][k]);
    }

    /** operator<<; the order in which the containers are walked is left open. */
    method Print() returns (text: Bytes)
      ensures exists listing :: Lists(listing, sections) && text == Printed(listing)
    {
      hide FileListsBut, ListsSection, Lists, Header, PrintedLines, Printed;
      text := [];
      ghost var listing := [];
      var todo := sections.Keys;
      FileListsNone(sections);
      while todo != {}
        invariant todo <= sections.Keys && text == Printed(listing) && FileListsBut(listing, sections, todo)
        decreases |todo|
      {
        var name :| name in todo;
        var body := PrintSection(sections[name]);
        ghost var lines :| ListsSection(lines, sections[name]) && body == PrintedLines(lines);
        PrintedSnoc(listing, Printable(name, lines));
        FileListsMore(listing, sections, todo, Printable(name, lines));
        text := text + (Header(name) + [NEWLINE] + body);
        listing := listing + [Printable(name, lines)];
        todo := todo - {name};
      }
      FileListsAll(listing, sections);
    }
  }

  /** All but the keys in `todo` are listed. */
  ghost predicate ListsBut(lines: seq<(Bytes, Bytes)>, m: Section, todo: set<Bytes>) {
    && NoKeyTwice(lines)
    && (forall j | 0 <= j < |lines| :: lines[j].0 !in todo)
    && (forall j | 0 <= j < |lines| :: lines[j].0 != [] && lines[j].0 in m && lines[j].1 == m[lines[j].0])
    && (forall k | k in m && k != [] :: k in todo || exists j | 0 <= j < |lines| :: lines[j].0 == k)
  }

  lemma ListsMore(lines: seq<(Bytes, Bytes)>, m: Section, todo: set<Bytes>, key: Bytes)
    requires ListsBut(lines, m, todo) && key in m && key in todo && key != []
    ensures ListsBut(lines + [(key, m[key])], m, todo - {key})
  {
    var more := lines + [(key, m[key])];
    forall k | k in m && k != [] ensures k in todo - {key} || exists j | 0 <= j < |more| :: more[j].0 == k {
      if k == key {
        assert more[|lines|].0 == k;
      } else if k !in todo {
        var j :| 0 <= j < |lines| && lines[j].0 == k;
        assert more[j].0 == k;
      }
    }
  }

  lemma ListsAll(lines: seq<(Bytes, Bytes)>, m: Section)
    requires ListsBut(lines, m, {})
    ensures ListsSection(lines, m)
  {
  }

  lemma ListsNone(m: Section)
    ensures ListsBut([], m, m.Keys - {[]}) && PrintedLines([]) == []
  {
  }

  method PrintSection(m: Section) returns (text: Bytes)
    ensures exists lines :: ListsSection(lines, m) && text == PrintedLines(lines)
  {
    hide ListsBut, ListsSection, PrintedLines, Setting;
    text := [];
    ghost var lines := [];
    var todo := m.Keys - {[]};
    ListsNone(m);
    while todo != {}
      invariant todo <= m.Keys && [] !in todo && text == PrintedLines(lines) && ListsBut(lines, m, todo)
      decreases |todo|
    {
      var key :| key in todo;
      LinesSnoc(lines, key, m[key]);
      ListsMore(lines, m, todo, key);
      text := text + (Setting(key, m[key]) + [NEWLINE]);
      lines := lines + [(key, m[key])];
      todo := todo - {key};
    }
    ListsAll(lines, m);
  }

  /** All but the sections in `todo` are listed. */
  ghost predicate FileListsBut(listing: seq<Printable>, f: File, todo: set<Bytes>) {
    && NoNameTwice(listing)
    && (forall i | 0 <= i < |listing| :: listing[i].name !in todo)
    && (forall i | 0 <= i < |listing| :: listing[i].name in f && ListsSection(listing[i].lines, f[listing[i].name]))
    && (forall n | n in f :: n in todo || exists i | 0 <= i < |listing| :: listing[i].name == n)
  }

  lemma FileListsMore(listing: seq<Printable>, f: File, todo: set<Bytes>, s: Printable)
    requires FileListsBut(listing, f, todo) && s.name in f && s.name in todo && ListsSection(s.lines, f[s.name])
    ensures FileListsBut(listing + [s], f, todo - {s.name})
  {
    hide ListsSection;
    var more := listing + [s];
    forall n | n in f ensures n in todo - {s.name} || exists i | 0 <= i < |more| :: more[i].name == n {
      if n == s.name {
        assert more[|listing|].name == n;
      } else if n !in todo {
        var i :| 0 <= i < |listing| && listing[i].name == n;
        assert more[i].name == n;
      }
    }
  }

  lemma FileListsAll(listing: seq<Printable>, f: File)
    requires FileListsBut(listing, f, {})
    ensures Lists(listing, f)
  {
  }

  lemma FileListsNone(f: File)
    ensures FileListsBut([], f, f.Keys) && Printed([]) == []
  {
  }

  lemma {:induction false} LinesSnoc(lines: seq<(Bytes, Bytes)>, key: Bytes, val: Bytes)
    ensures PrintedLines(lines + [(key, val)]) == PrintedLines(lines) + (Setting(key, val) + [NEWLINE])
    decreases |lines|
  {
    hide Setting;
    if lines == [] {
      assert (lines + [(key, val)])[1..] == [];
      assert Setting(key, val) + [NEWLINE] + [] == [] + (Setting(key, val) + [NEWLINE]);
    } else {
      LinesSnoc(lines[1..], key, val);
      assert (lines + [(key, val)])[1..] == lines[1..] + [(key, val)];
      var a, b, c := Setting(lines[0].0, lines[0].1) + [NEWLINE], PrintedLines(lines[1..]), Setting(key, val) + [NEWLINE];
      assert a + (b + c) == (a + b) + c;
    }
  }

  lemma {:induction false} PrintedSnoc(sections: seq<Printable>, s: Printable)
    ensures Printed(sections + [s]) == Printed(sections) + (Header(s.name) + [NEWLINE] + PrintedLines(s.lines))
    decreases |sections|
  {
    hide Header, PrintedLines;
    var c := Header(s.name) + [NEWLINE] + PrintedLines(s.lines);
    if sections == [] {
      assert (sections + [s])[1..] == [];
      assert c + [] == [] + c;
    } else {
      PrintedSnoc(sections[1..], s);
      assert (sections + [s])[1..] == sections[1..] + [s];
      var a := Header(sections[0].name) + [NEWLINE] + PrintedLines(sections[0].lines);
      assert a + (Printed(sections[1..]) + c) == (a + Printed(sections[1..])) + c;
    }
  }

  lemma NothingLogicalFrom(acc: Bytes)
    ensures Logical([], acc) == []
  {
  }

  /** One physical line of load_from_buffer. */
  lemma LogicalStep(buf: Bytes, b: nat, acc: Bytes)
    requires b <= |buf|
    ensures match NewlineAt(buf[b..])
            case None => Logical(buf[b..], acc) == []
            case Some(e) =>
              && b + e + 1 <= |buf|
              && var line, rest := buf[b..b + e], buf[b + e + 1..];
              Logical(buf[b..], acc)
              == if NUL in line || !Utf8.Checks(line, 0) then Logical(rest, [])
                 else if e >= 1 && line[e - 1] == BACKSLASH then Logical(rest, acc + line[..e - 1])
                 else [acc + line] + Logical(rest, [])
  {
    hide Utf8.Checks, NewlineAt, Logical;
    var t := buf[b..];
    FirstLine(t, acc);
    match NewlineAt(t)
    case None =>
    case Some(e) =>
      assert t[..e] == buf[b..b + e] && t[e + 1..] == buf[b + e + 1..];
  }

  lemma FirstLine(t: Bytes, acc: Bytes)
    ensures match NewlineAt(t)
            case None => Logical(t, acc) == []
            case Some(e) =>
              && e + 1 <= |t|
              && var line, rest := t[..e], t[e + 1..];
              Logical(t, acc)
              == if NUL in line || !Utf8.Checks(line, 0) then Logical(rest, [])
                 else if e >= 1 && line[e - 1] == BACKSLASH then Logical(rest, acc + line[..e - 1])
                 else [acc + line] + Logical(rest, [])
  {
    hide Utf8.Checks, NewlineAt;
  }
}
