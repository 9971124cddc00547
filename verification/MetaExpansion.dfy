/** md_config_t::expand_meta and expand_all_meta (common/config.cc): variable references in option
    values are replaced, recursively and in place. */
module MetaExpansion {
  import opened Basics
  import opened Graphs

  /** An option's value: a string that may hold references, or something else, given by the text
      _get_val makes of it. */
  datatype Setting = Str(s: string) | Other(text: string)

  const META_NAMES: set<string> := {"cluster", "type", "name", "host", "num", "id", "pid", "cctid"}

  // ------------------------------------------------------------------
  // References

  predicate ValidChar(c: char) {
    'a' <= c <= 'z' || c == '_'
  }

  /** find_first_not_of(valid_chars, s), or the end. */
  function NameEnd(val: string, s: nat): (e: nat)
    requires s <= |val|
    ensures s <= e <= |val|
    decreases |val| - s
  {
    if s == |val| || !ValidChar(val[s]) then s else NameEnd(val, s + 1)
  }

  /** The reference a '$' at s starts: its name ("" if it is none) and where it ends. */
  function Reference(val: string, s: nat): (r: (string, nat))
    requires s < |val|
    ensures r.0 != "" ==> s < r.1 <= |val|
  {
    if s + 1 < |val| && val[s + 1] == '{' then
      var e := NameEnd(val, s + 2);
      if e < |val| && val[e] == '}' then (val[s + 2..e], e + 1) else ("", e)
    else
      var e := NameEnd(val, s + 1);
      (val[s + 1..e], e)
  }

  /** What names are made of. */
  const NAME_CHARS: string := "abcdefghijklmnopqrstuvwxyz_"

  lemma ValidCharIs(c: char)
    ensures ValidChar(c) <==> c in NAME_CHARS
  {
    if ValidChar(c) {
      assert c in NAME_CHARS by {
        if c == '_' {
          assert NAME_CHARS[26] == c;
        } else {
          LetterAt(c);
        }
      }
    }
  }

  lemma LetterAt(c: char)
    requires 'a' <= c <= 'z'
    ensures var i := c as int - 'a' as int; 0 <= i < |NAME_CHARS| && NAME_CHARS[i] == c
  {
  }

  predicate InName(c: char) {
    c in NAME_CHARS
  }

  predicate IsName(s: string) {
    s != "" && forall i | 0 <= i < |s| :: InName(s[i])
  }

  lemma {:induction false} NameEndIs(val: string, s: nat)
    requires s <= |val|
    ensures var e := NameEnd(val, s);
            && (forall i | s <= i < e :: InName(val[i]))
            && (e < |val| ==> !InName(val[e]))
    decreases |val| - s
  {
    hide ValidChar;
    if s < |val| {
      ValidCharIs(val[s]);
      if ValidChar(val[s]) {
        NameEndIs(val, s + 1);
      }
    }
  }

  /** A reference is a '$' and the longest name behind it, or a '$' and a name in braces. */
  predicate Spells(val: string, s: nat, name: string, e: nat)
    requires s <= e <= |val|
  {
    && IsName(name)
    && ((val[s..e] == "$" + name && (e == |val| || !InName(val[e]))) || val[s..e] == "${" + name + "}")
  }

  lemma ReferenceExactly(val: string, s: nat, name: string, e: nat)
    requires s <= e <= |val| && s < |val| && val[s] == '$'
    ensures Reference(val, s) == (name, e) && name != "" <==> Spells(val, s, name, e)
  {
    hide NameEnd;
    assert !InName('{') && !InName('}') by {
      ValidCharIs('{');
      ValidCharIs('}');
    }
    NameEndIs(val, s + 1);
    if s + 1 < |val| && val[s + 1] == '{' {
      NameEndIs(val, s + 2);
      BracedExactly(val, s, NameEnd(val, s + 2), name, e);
    } else {
      PlainExactly(val, s, NameEnd(val, s + 1), name, e);
    }
  }

  lemma PlainExactly(val: string, s: nat, x: nat, name: string, e: nat)
    requires s + 1 <= x <= |val| && s <= e <= |val| && val[s] == '$' && (s + 1 < |val| ==> val[s + 1] != '{')
    requires (forall i | s + 1 <= i < x :: InName(val[i])) && (x < |val| ==> !InName(val[x]))
    ensures (val[s + 1..x], x) == (name, e) && name != "" <==> Spells(val, s, name, e)
  {
    hide InName;
    if val[s + 1..x] == name && x == e && name != "" {
      assert val[s..e] == "$" + name;
    }
    if Spells(val, s, name, e) {
      var part := val[s..e];
      assert part[1] == val[s + 1];
      assert part == "$" + name;
      assert name == part[1..] == val[s + 1..e];
      assert forall i | s + 1 <= i < e :: val[i] == name[i - s - 1];
    }
  }

  lemma BracedExactly(val: string, s: nat, x: nat, name: string, e: nat)
    requires s + 2 <= x <= |val| && s <= e <= |val| && val[s] == '$' && val[s + 1] == '{' && !InName('{') && !InName('}')
    requires (forall i | s + 2 <= i < x :: InName(val[i])) && (x < |val| ==> !InName(val[x]))
    ensures x < |val| && val[x] == '}' && (val[s + 2..x], x + 1) == (name, e) && name != "" <==> Spells(val, s, name, e)
  {
    hide InName;
    if x < |val| && val[x] == '}' && val[s + 2..x] == name && x + 1 == e && name != "" {
      assert val[s..e] == "${" + name + "}";
    }
    if Spells(val, s, name, e) {
      BracedEnds(val, s, x, name, e);
    }
  }

  lemma BracedEnds(val: string, s: nat, x: nat, name: string, e: nat)
    requires s + 2 <= x <= |val| && s <= e <= |val| && val[s] == '$' && val[s + 1] == '{' && !InName('{') && !InName('}')
    requires (forall i | s + 2 <= i < x :: InName(val[i])) && (x < |val| ==> !InName(val[x]))
    requires Spells(val, s, name, e)
    ensures x + 1 == e && val[x] == '}' && val[s + 2..x] == name
  {
    hide InName;
    var part := val[s..e];
    assert part[1] == '{' && ("$" + name)[1] == name[0] && InName(name[0]);
    assert part == "${" + name + "}";
    assert part[2..|part| - 1] == name && part[|part| - 1] == '}';
    assert forall i | s + 2 <= i < e - 1 :: val[i] == name[i - s - 2];
  }

  /** The first option of that name. */
  function Find(names: seq<string>, v: string): (r: Option<nat>)
    ensures match r
            case None => v !in names
            case Some(i) => i < |names| && names[i] == v
  {
    if names == [] then None
    else if names[0] == v then Some(0)
    else match Find(names[1..], v)
      case None => None
      case Some(i) => Some(i + 1)
  }

  predicate DollarFree(s: string) {
    '$' !in s
  }

  // ------------------------------------------------------------------
  // References between options

  /** Option names, metavariables (without "host", which is an option's value), and the values before
      any expansion. */
  datatype Table = Table(names: seq<string>, metas: map<string, string>, values: seq<Setting>)

  predicate Named(t: Table) {
    |t.names| == |t.values| && forall i, j | 0 <= i < j < |t.names| :: t.names[i] != t.names[j]
  }

  /** What a metavariable is replaced by; $host reads the option of that name as it stands. */
  function MetaText(t: Table, values: seq<Setting>, v: string): Option<string> {
    if v == "host" then
      match Find(t.names, "host")
      case None => None
      case Some(h) => if h < |values| && values[h].Str? then Some(values[h].s) else None
    else if v in t.metas then Some(t.metas[v])
    else None
  }

  /** There is a metavariable or an option of that name. */
  predicate Known(t: Table, v: string) {
    && v != ""
    && if v in META_NAMES then MetaText(t, t.values, v).Some? else Find(t.names, v).Some? && Find(t.names, v).value < |t.values|
  }

  /** The name is that of a string option. */
  predicate NamesString(t: Table, v: string) {
    Known(t, v) && v !in META_NAMES && t.values[Find(t.names, v).value].Str?
  }

  /** A known name that is not a string option's stands for a text without '$'. */
  predicate Good(t: Table, v: string)
    requires Known(t, v)
  {
    if v in META_NAMES then DollarFree(MetaText(t, t.values, v).value)
    else t.values[Find(t.names, v).value].Other? ==> DollarFree(t.values[Find(t.names, v).value].text)
  }

  /** Every '$' of the text starts a reference to something there is. */
  predicate TextGood(t: Table, val: string) {
    forall s | 0 <= s < |val| && val[s] == '$' :: Known(t, Reference(val, s).0) && Good(t, Reference(val, s).0)
  }

  /** The '$' at s of a text starts a reference to string option j. */
  ghost predicate RefersAt(t: Table, val: string, s: nat, j: nat) {
    && s < |val| && val[s] == '$'
    && NamesString(t, Reference(val, s).0) && Find(t.names, Reference(val, s).0) == Some(j)
  }

  ghost predicate Refers(t: Table, i: nat, j: nat) {
    && i < |t.values| && t.values[i].Str? && j < |t.values|
    && exists s: nat :: RefersAt(t, t.values[i].s, s, j)
  }

  /** From each string option to those its value refers to. */
  ghost function References(t: Table): Edges {
    set i: nat, j: nat | i < |t.values| && j < |t.values| && Refers(t, i, j) :: (i, j)
  }

  /** How many options one is made of, directly or not. */
  ghost function Rank(t: Table, i: nat): nat {
    |Reach(References(t), i)|
  }

  /** A string option with only good references, and on no cycle. */
  ghost predicate CleanHere(t: Table, i: nat) {
    i < |t.values| && t.values[i].Str? && TextGood(t, t.values[i].s) && !Path(References(t), i, i)
  }

  /** So is everything the option refers to, directly or not: it leads neither to a '$' that starts no
      reference to anything there is, nor to a cycle. */
  ghost predicate Clean(t: Table, i: nat) {
    CleanHere(t, i) && forall j | Path(References(t), i, j) :: CleanHere(t, j)
  }

  lemma ReferenceIs(t: Table, i: nat, j: nat)
    ensures (i, j) in References(t) <==> Refers(t, i, j)
  {
  }

  /** What a clean option refers to is clean and made of fewer options. */
  lemma CleanEdge(t: Table, i: nat, j: nat)
    requires Clean(t, i) && Refers(t, i, j)
    ensures Clean(t, j) && Rank(t, j) < Rank(t, i)
  {
    hide CleanHere, Refers, References;
    var f := References(t);
    ReferenceIs(t, i, j);
    EdgeIsPath(f, i, j);
    forall k | Path(f, j, k) ensures CleanHere(t, k) {
      PathTrans(f, i, j, k);
    }
    OnNoCycle(t, j);
    ReachShrinks(f, i, j);
  }

  lemma OnNoCycle(t: Table, i: nat)
    requires CleanHere(t, i)
    ensures i < |t.values| && t.values[i].Str? && TextGood(t, t.values[i].s) && !Path(References(t), i, i)
  {
  }

  /** More than any option's rank. */
  ghost function Top(t: Table): nat {
    |set e | e in References(t) :: e.1| + 1
  }

  lemma RankBelowTop(t: Table, i: nat)
    ensures Rank(t, i) < Top(t)
  {
    hide References, Path;
    var f := References(t);
    var ends := set e | e in f :: e.1;
    assert Reach(f, i) <= ends;
    NotMore(Reach(f, i), ends);
  }

  lemma NotMore(a: set<nat>, b: set<nat>)
    requires a <= b
    ensures |a| <= |b|
  {
    assert b == a + (b - a);
  }

  /** Every '$' starts a reference to something there is, in every value. */
  predicate WellFormed(t: Table) {
    Named(t) && forall i | 0 <= i < |t.values| && t.values[i].Str? :: TextGood(t, t.values[i].s)
  }

  /** In a well-formed table all options are clean if and only if none refers to itself, directly or not. */
  lemma AllCleanIffAcyclic(t: Table)
    requires WellFormed(t)
    ensures (forall i: nat | i < |t.values| && t.values[i].Str? :: Clean(t, i)) <==> Acyclic(References(t))
  {
    hide TextGood, References;
    if Acyclic(References(t)) {
      forall i: nat | i < |t.values| && t.values[i].Str? ensures Clean(t, i) {
        forall j | Path(References(t), i, j) ensures CleanHere(t, j) {
          PathEndsAtString(t, i, j);
        }
      }
    }
    if forall i: nat | i < |t.values| && t.values[i].Str? :: Clean(t, i) {
      forall a ensures !Path(References(t), a, a) {
        if Path(References(t), a, a) {
          PathEndsAtString(t, a, a);
        }
      }
    }
  }

  lemma PathEndsAtString(t: Table, i: nat, j: nat)
    requires Path(References(t), i, j)
    ensures j < |t.values| && t.values[j].Str?
  {
    hide References;
    var p :| Walks(References(t), p, i, j);
    assert (p[|p| - 2], p[|p| - 1]) in References(t);
    ReferenceIs(t, p[|p| - 2], j);
  }

  // ------------------------------------------------------------------
  // Full substitution

  /** A name in a text whose references rank below r: unknown, or of something that can be put in. */
  ghost predicate Resolves(t: Table, r: nat, v: string) {
    && (Known(t, v) ==> Good(t, v))
    && (NamesString(t, v) ==> Clean(t, Find(t.names, v).value) && Rank(t, Find(t.names, v).value) < r)
  }

  ghost predicate TextOk(t: Table, r: nat, val: string) {
    forall s | 0 <= s < |val| && val[s] == '$' :: Resolves(t, r, Reference(val, s).0)
  }

  /** From clean options references only lead down. */
  ghost predicate Expandable(t: Table) {
    Named(t) && forall i: nat | Clean(t, i) :: i < |t.values| && t.values[i].Str? && TextOk(t, Rank(t, i), t.values[i].s)
  }

  lemma AlwaysExpandable(t: Table)
    requires Named(t)
    ensures Expandable(t)
  {
    hide Clean, Rank, TextOk, Named;
    forall i: nat | Clean(t, i) ensures i < |t.values| && t.values[i].Str? && TextOk(t, Rank(t, i), t.values[i].s) {
      CleanText(t, i);
    }
  }

  lemma CleanText(t: Table, i: nat)
    requires Clean(t, i)
    ensures i < |t.values| && t.values[i].Str? && TextGood(t, t.values[i].s) && TextOk(t, Rank(t, i), t.values[i].s)
  {
    OnNoCycle(t, i);
    hide Clean, CleanHere, Rank, Known, Good;
    var val := t.values[i].s;
    forall s | 0 <= s < |val| && val[s] == '$' ensures Resolves(t, Rank(t, i), Reference(val, s).0) {
      var v := Reference(val, s).0;
      if NamesString(t, v) {
        var j := Find(t.names, v).value;
        NameIsOption(t, v);
        assert RefersAt(t, val, s, j);
        CleanEdge(t, i, j);
      }
    }
  }

  lemma NameIsOption(t: Table, v: string)
    requires NamesString(t, v)
    ensures Find(t.names, v).Some? && Find(t.names, v).value < |t.values|
  {
  }

  /** The text with every reference replaced by the full substitution of what it names; a '$' that starts
      no reference to anything there is stays. */
  ghost function FullText(t: Table, r: nat, val: string, s: nat): string
    requires Expandable(t) && TextOk(t, r, val) && s <= |val|
    decreases r, |val| - s
  {
    if s == |val| then ""
    else if val[s] != '$' || !Known(t, Reference(val, s).0) then [val[s]] + FullText(t, r, val, s + 1)
    else Replacement(t, r, Reference(val, s).0) + FullText(t, r, val, Reference(val, s).1)
  }

  ghost function Replacement(t: Table, r: nat, v: string): string
    requires Expandable(t) && Known(t, v) && Resolves(t, r, v)
    decreases r, 0
  {
    if v in META_NAMES then MetaText(t, t.values, v).value
    else
      var j := Find(t.names, v).value;
      if t.values[j].Str? then FullText(t, Rank(t, j), t.values[j].s, 0) else t.values[j].text
  }

  /** What expansion makes of an option that is clean, or not a string. */
  ghost predicate Settles(t: Table, i: nat) {
    i < |t.values| && (t.values[i].Str? ==> Clean(t, i))
  }

  ghost function Full(t: Table, i: nat): Setting
    requires Expandable(t) && Settles(t, i)
  {
    if t.values[i].Str? then Str(FullText(t, Rank(t, i), t.values[i].s, 0)) else t.values[i]
  }

  lemma {:induction false} FullTextIsFree(t: Table, r: nat, val: string, s: nat)
    requires Expandable(t) && TextOk(t, r, val) && TextGood(t, val) && s <= |val|
    ensures DollarFree(FullText(t, r, val, s))
    decreases r, |val| - s
  {
    hide Rank, Clean, Known;
    if s < |val| {
      var (v, e) := Reference(val, s);
      if val[s] != '$' {
        FullTextIsFree(t, r, val, s + 1);
      } else {
        ReferenceEnds(t, val, s);
        ReplacementIsFree(t, r, v);
        FullTextIsFree(t, r, val, e);
      }
    }
  }

  lemma ReferenceEnds(t: Table, val: string, s: nat)
    requires s < |val| && Known(t, Reference(val, s).0)
    ensures s < Reference(val, s).1 <= |val|
  {
  }

  lemma {:induction false} ReplacementIsFree(t: Table, r: nat, v: string)
    requires Expandable(t) && Known(t, v) && Resolves(t, r, v)
    ensures DollarFree(Replacement(t, r, v))
    decreases r, 0
  {
    if v !in META_NAMES {
      var j := Find(t.names, v).value;
      if t.values[j].Str? {
        CleanText(t, j);
        FullTextIsFree(t, Rank(t, j), t.values[j].s, 0);
      }
    }
  }

  lemma {:induction false} FreeTextIsFull(t: Table, r: nat, val: string, s: nat)
    requires Expandable(t) && TextOk(t, r, val) && DollarFree(val) && s <= |val|
    ensures FullText(t, r, val, s) == val[s..]
    decreases |val| - s
  {
    if s < |val| {
      assert val[s] in val;
      FreeTextIsFull(t, r, val, s + 1);
    }
  }

  // ------------------------------------------------------------------
  // Full substitution piece by piece

  lemma {:induction false} NameEndShifts(a: string, b: string, j: nat)
    requires j <= |b|
    ensures NameEnd(a + b, |a| + j) == |a| + NameEnd(b, j)
    decreases |b| - j
  {
    if j < |b| && ValidChar(b[j]) {
      NameEndShifts(a, b, j + 1);
    }
  }

  lemma ReferenceShifts(a: string, b: string, j: nat)
    requires j < |b|
    ensures Reference(a + b, |a| + j) == (Reference(b, j).0, |a| + Reference(b, j).1)
  {
    hide NameEnd, ValidChar;
    var val := a + b;
    NameEndShifts(a, b, j + 1);
    if j + 1 < |b| && b[j + 1] == '{' {
      NameEndShifts(a, b, j + 2);
      assert val[|a| + j + 2..|a| + NameEnd(b, j + 2)] == b[j + 2..NameEnd(b, j + 2)];
    } else {
      assert val[|a| + j + 1..|a| + NameEnd(b, j + 1)] == b[j + 1..NameEnd(b, j + 1)];
    }
  }

  lemma {:induction false} NameEndStops(a: string, b: string, s: nat)
    requires s <= |a| && b != "" && b[0] == '$'
    ensures NameEnd(a + b, s) == NameEnd(a, s)
    decreases |a| - s
  {
    if s < |a| && ValidChar(a[s]) {
      NameEndStops(a, b, s + 1);
    }
  }

  /** A reference does not reach across a '$'. */
  lemma ReferenceStops(a: string, b: string, s: nat)
    requires s < |a| && b != "" && b[0] == '$'
    ensures Reference(a + b, s) == Reference(a, s)
  {
    hide NameEnd, ValidChar;
    var val := a + b;
    NameEndStops(a, b, s + 1);
    if s + 1 < |a| && a[s + 1] == '{' {
      NameEndStops(a, b, s + 2);
      assert val[s + 2..NameEnd(a, s + 2)] == a[s + 2..NameEnd(a, s + 2)];
    } else {
      assert val[s + 1..NameEnd(a, s + 1)] == a[s + 1..NameEnd(a, s + 1)];
    }
  }

  lemma {:induction false} FullTextShifts(t: Table, r: nat, a: string, b: string, j: nat)
    requires Expandable(t) && TextOk(t, r, a + b) && TextOk(t, r, b) && j <= |b|
    ensures FullText(t, r, a + b, |a| + j) == FullText(t, r, b, j)
    decreases |b| - j
  {
    hide Expandable, Known, Resolves, Reference, Replacement;
    if j < |b| {
      ReferenceShifts(a, b, j);
      if b[j] == '$' && Known(t, Reference(b, j).0) {
        ReferenceEnds(t, b, j);
        FullTextShifts(t, r, a, b, Reference(b, j).1);
      } else {
        FullTextShifts(t, r, a, b, j + 1);
      }
    }
  }

  /** The pieces of a text that is cut before a '$' are substituted each for itself, and stay in order. */
  lemma {:induction false} PiecesInOrder(t: Table, r: nat, a: string, b: string, s: nat)
    requires Expandable(t) && TextOk(t, r, a + b) && b != "" && b[0] == '$' && s <= |a|
    ensures TextOk(t, r, a) && TextOk(t, r, b)
    ensures FullText(t, r, a + b, s) == FullText(t, r, a, s) + FullText(t, r, b, 0)
    decreases |a| - s
  {
    hide Expandable, Known, Resolves, Reference, Replacement;
    PiecesOk(t, r, a, b);
    if s == |a| {
      FullTextShifts(t, r, a, b, 0);
    } else {
      ReferenceStops(a, b, s);
      if a[s] == '$' && Known(t, Reference(a, s).0) {
        ReferenceEnds(t, a, s);
        PiecesInOrder(t, r, a, b, Reference(a, s).1);
        ConcatAssoc(Replacement(t, r, Reference(a, s).0), FullText(t, r, a, Reference(a, s).1), FullText(t, r, b, 0));
      } else {
        PiecesInOrder(t, r, a, b, s + 1);
        ConcatAssoc([a[s]], FullText(t, r, a, s + 1), FullText(t, r, b, 0));
      }
    }
  }

  lemma PiecesOk(t: Table, r: nat, a: string, b: string)
    requires TextOk(t, r, a + b) && b != "" && b[0] == '$'
    ensures TextOk(t, r, a) && TextOk(t, r, b)
  {
    hide Resolves, Reference;
    var val := a + b;
    forall s | 0 <= s < |a| && a[s] == '$' ensures Resolves(t, r, Reference(a, s).0) {
      ReferenceStops(a, b, s);
      assert val[s] == '$';
    }
    forall j | 0 <= j < |b| && b[j] == '$' ensures Resolves(t, r, Reference(b, j).0) {
      ReferenceShifts(a, b, j);
      assert val[|a| + j] == '$';
    }
  }

  /** One reference and plain text behind it: what it names, and then the text. */
  lemma OneReference(t: Table, r: nat, val: string, name: string, e: nat)
    requires Expandable(t) && TextOk(t, r, val) && val != "" && val[0] == '$' && e <= |val| && Spells(val, 0, name, e)
    requires Known(t, name) && DollarFree(val[e..])
    ensures Resolves(t, r, name) && FullText(t, r, val, 0) == Replacement(t, r, name) + val[e..]
  {
    hide Expandable, Known, Resolves, Reference, Replacement;
    ReferenceExactly(val, 0, name, e);
    PlainTail(t, r, val, e);
  }

  lemma {:induction false} PlainTail(t: Table, r: nat, val: string, s: nat)
    requires Expandable(t) && TextOk(t, r, val) && s <= |val| && DollarFree(val[s..])
    ensures FullText(t, r, val, s) == val[s..]
    decreases |val| - s
  {
    hide Expandable, Known, Resolves, Reference, Replacement, TextOk;
    if s < |val| {
      assert val[s..][0] in val[s..] && forall c | c in val[s + 1..] :: c in val[s..];
      PlainTail(t, r, val, s + 1);
    }
  }

  /** A value without '$' refers to nothing. */
  lemma FreeIsClean(t: Table, i: nat)
    requires i < |t.values| && t.values[i].Str? && DollarFree(t.values[i].s)
    ensures Clean(t, i)
  {
    hide References;
    var val := t.values[i].s;
    assert forall s | 0 <= s < |val| :: val[s] in val && val[s] != '$';
    forall k: nat ensures (i, k) !in References(t) {
      ReferenceIs(t, i, k);
    }
    forall j ensures !Path(References(t), i, j) {
      if Path(References(t), i, j) {
        var k := PathFirst(References(t), i, j);
      }
    }
  }

  lemma FullIsFree(t: Table, i: nat)
    requires Expandable(t) && Clean(t, i)
    ensures i < |t.values| && Full(t, i).Str? && DollarFree(Full(t, i).s)
    ensures DollarFree(t.values[i].s) ==> Full(t, i) == t.values[i]
  {
    CleanText(t, i);
    hide Clean, Rank, FullText;
    FullTextIsFree(t, Rank(t, i), t.values[i].s, 0);
    if DollarFree(t.values[i].s) {
      FreeTextIsFull(t, Rank(t, i), t.values[i].s, 0);
      assert t.values[i].s[0..] == t.values[i].s;
    }
  }

  // ------------------------------------------------------------------
  // Expansion in place

  /** A slot that settles holds its original value or its full substitution; any other string slot holds
      some string. */
  ghost predicate Between(t: Table, values: seq<Setting>)
    requires Expandable(t)
  {
    && |values| == |t.values|
    && (forall i: nat | i < |values| && Settles(t, i) :: values[i] == t.values[i] || values[i] == Full(t, i))
    && (forall i: nat | i < |values| && !Settles(t, i) :: values[i].Str?)
  }

  /** What has its full substitution keeps it. */
  ghost predicate Later(t: Table, values: seq<Setting>, values': seq<Setting>)
    requires Expandable(t)
  {
    && Between(t, values)
    && Between(t, values')
    && forall i: nat | i < |values| && Settles(t, i) && values[i] == Full(t, i) :: values'[i] == values[i]
  }

  lemma LaterTrans(t: Table, a: seq<Setting>, b: seq<Setting>, c: seq<Setting>)
    requires Expandable(t) && Later(t, a, b) && Later(t, b, c)
    ensures Later(t, a, c)
  {
    hide Settles, Full, Expandable;
  }

  /** Only string values with a '$' change, and they stay strings. */
  predicate SameKinds(a: seq<Setting>, b: seq<Setting>) {
    |a| == |b| && forall i | 0 <= i < |a| :: if a[i].Str? && !DollarFree(a[i].s) then b[i].Str? else b[i] == a[i]
  }

  /** The clean options whose expansion is going on rank no lower than r; for Top there is none. */
  ghost predicate Above(t: Table, stack: seq<string>, r: nat) {
    forall i: nat | Clean(t, i) :: i < |t.names| && t.names[i] in stack ==> Rank(t, i) >= r
  }

  ghost function OffStack(names: seq<string>, stack: seq<string>): set<string> {
    set n | n in names && n !in stack
  }

  lemma PushShrinks(names: seq<string>, stack: seq<string>, n: string)
    requires n in names && n !in stack
    ensures |OffStack(names, [n] + stack)| < |OffStack(names, stack)|
  {
    assert OffStack(names, [n] + stack) == OffStack(names, stack) - {n};
    assert n in OffStack(names, stack);
  }

  /** A metavariable's text does not depend on how far the expansion has got. */
  lemma HostIsFixed(t: Table, values: seq<Setting>, v: string)
    requires Expandable(t) && Between(t, values) && v in META_NAMES && Known(t, v) && Good(t, v)
    ensures MetaText(t, values, v) == MetaText(t, t.values, v)
  {
    hide Clean, Full, Expandable;
    if v == "host" {
      var h := Find(t.names, "host").value;
      FreeIsClean(t, h);
      FullIsFree(t, h);
      assert Settles(t, h);
    }
  }

  /** A clean slot without '$' is done, one with '$' has not been touched. */
  lemma SlotState(t: Table, values: seq<Setting>, i: nat)
    requires Expandable(t) && Between(t, values) && i < |values| && Clean(t, i)
    ensures i < |t.values| && values[i].Str?
    ensures DollarFree(values[i].s) ==> values[i] == Full(t, i)
    ensures !DollarFree(values[i].s) ==> values[i] == t.values[i]
  {
    hide Clean, Full, Expandable;
    CleanText(t, i);
    FullIsFree(t, i);
    assert Settles(t, i);
  }

  lemma PushAbove(t: Table, stack: seq<string>, r: nat, i: nat)
    requires Named(t) && Above(t, stack, r) && Clean(t, i) && i < |t.names| && Rank(t, i) < r
    ensures t.names[i] !in stack && Above(t, [t.names[i]] + stack, Rank(t, i))
  {
    hide Rank, Clean;
  }

  lemma PushUnclean(t: Table, stack: seq<string>, i: nat)
    requires Named(t) && Above(t, stack, Top(t)) && !Clean(t, i) && i < |t.names|
    ensures Above(t, [t.names[i]] + stack, Top(t))
  {
    hide Rank, Clean, Top;
  }

  lemma NothingAbove(t: Table, r: nat)
    ensures Above(t, [], r)
  {
    hide Rank, Clean;
  }

  /** One step of the scan, with what has been put out before it. */
  lemma FullStep(t: Table, r: nat, val: string, s: nat, out: string)
    requires Expandable(t) && TextOk(t, r, val) && s < |val|
    ensures val[s] != '$' || !Known(t, Reference(val, s).0) ==>
              out + FullText(t, r, val, s) == out + [val[s]] + FullText(t, r, val, s + 1)
    ensures val[s] == '$' ==> Resolves(t, r, Reference(val, s).0)
    ensures val[s] == '$' && Known(t, Reference(val, s).0) ==>
              var (v, e) := Reference(val, s);
              e <= |val| && out + FullText(t, r, val, s) == out + Replacement(t, r, v) + FullText(t, r, val, e)
  {
    hide Known, Expandable, Resolves;
    if val[s] == '$' && Known(t, Reference(val, s).0) {
      ReferenceEnds(t, val, s);
    }
  }

  lemma SameKindsTrans(a: seq<Setting>, b: seq<Setting>, c: seq<Setting>)
    requires SameKinds(a, b) && SameKinds(b, c)
    ensures SameKinds(a, c)
  {
  }

  lemma FullEnd(t: Table, r: nat, val: string)
    requires Expandable(t) && TextOk(t, r, val)
    ensures FullText(t, r, val, |val|) == ""
  {
  }

  lemma Unchanged(t: Table, values: seq<Setting>)
    requires Expandable(t) && Between(t, values)
    ensures Later(t, values, values)
  {
    hide Settles, Full, Expandable;
  }

  lemma StartBetween(t: Table)
    requires Expandable(t)
    ensures Between(t, t.values)
  {
    hide Clean, Full, Expandable;
  }

  lemma SlotText(t: Table, i: nat)
    requires Expandable(t) && Clean(t, i)
    ensures i < |t.values| && t.values[i].Str? && TextOk(t, Rank(t, i), t.values[i].s)
    ensures Full(t, i) == Str(FullText(t, Rank(t, i), t.values[i].s, 0))
  {
    hide Clean, FullText, Rank, TextOk;
  }

  lemma FillSlot(t: Table, a: seq<Setting>, b: seq<Setting>, i: nat, x: Setting)
    requires Expandable(t) && Later(t, a, b) && i < |b|
    requires if Settles(t, i) then x == Full(t, i) else x.Str?
    ensures Later(t, a, b[i := x])
  {
    hide Settles, Full, Expandable;
  }

  lemma MetaIsKnown(t: Table, values: seq<Setting>, v: string)
    requires Expandable(t) && Between(t, values) && v in META_NAMES && MetaText(t, values, v).Some?
    ensures Known(t, v)
  {
    hide Clean, Full, Expandable;
    if v == "host" {
      var h := Find(t.names, "host").value;
      assert !t.values[h].Str? ==> Settles(t, h) && Full(t, h) == t.values[h] by {
        OtherIsFull(t, h);
      }
    }
  }

  lemma OtherIsFull(t: Table, i: nat)
    requires Expandable(t) && i < |t.values|
    ensures t.values[i].Other? ==> Settles(t, i) && Full(t, i) == t.values[i]
  {
    hide Clean, Rank, FullText;
  }

  /** A '$' before position n starts a reference to something there is: then something is replaced. */
  ghost predicate HasKnown(t: Table, val: string, n: nat)
    requires n <= |val|
  {
    exists s | 0 <= s < n :: val[s] == '$' && Known(t, Reference(val, s).0)
  }

  lemma NoneKnownYet(t: Table, val: string)
    ensures !HasKnown(t, val, 0)
  {
  }

  lemma NoDollarNoneKnown(t: Table, val: string)
    ensures DollarFree(val) ==> !HasKnown(t, val, |val|)
  {
    hide Known, Reference;
    assert forall s | 0 <= s < |val| :: val[s] in val;
  }

  /** What the scan has come by, one character or one reference further. */
  lemma KnownSoFar(t: Table, val: string, s: nat)
    requires s < |val|
    ensures HasKnown(t, val, s + 1) <==> HasKnown(t, val, s) || (val[s] == '$' && Known(t, Reference(val, s).0))
    ensures val[s] == '$' && Known(t, Reference(val, s).0) ==>
              s < Reference(val, s).1 <= |val| && HasKnown(t, val, Reference(val, s).1)
  {
    hide Known;
    if val[s] == '$' && Known(t, Reference(val, s).0) {
      ReferenceEnds(t, val, s);
    }
  }

  class Config {
    const names: seq<string>
    const metas: map<string, string>
    var values: seq<Setting>

    /** The option table has no name twice, and there is a host option. */
    predicate Valid()
      reads this
    {
      && |names| == |values|
      && (forall i, j | 0 <= i < j < |names| :: names[i] != names[j])
      && (exists i | 0 <= i < |names| :: names[i] == "host" && values[i].Str?)
      && (forall v | v in META_NAMES && v != "host" :: v in metas)
    }

    /** The values are on their way from those of t to their full substitutions. */
    ghost predicate Follows(t: Table)
      reads this
    {
      Expandable(t) && t.names == names && t.metas == metas && Between(t, values)
    }

    constructor (names: seq<string>, metas: map<string, string>, values: seq<Setting>)
      ensures this.names == names && this.metas == metas && this.values == values
    {
      this.names, this.metas, this.values := names, metas, values;
    }

    /** The scanning loop of expand_meta. It ends for every table: each nested expansion puts one
        more option on the stack. Below a clean option everything is clean and ranks below it; r is
        Top while no clean option is being expanded. */
    method ExpandText(val: string, stack: seq<string>, ghost t: Table, ghost r: nat) returns (out: string, found: bool)
      requires Valid() && Follows(t) && Above(t, stack, r) && (TextOk(t, r, val) || r == Top(t))
      modifies this`values
      ensures Valid() && SameKinds(old(values), values) && Later(t, old(values), values)
      ensures TextOk(t, r, val) ==> out == FullText(t, r, val, 0)
      ensures found <==> HasKnown(t, val, |val|)
      decreases |OffStack(names, stack)|, 1
    {
      hide Between, Expandable, TextOk, Later, FullText, Above, Reference, Replacement, Resolves, Known, Top, HasKnown;
      NoneKnownYet(t, val);
      out, found := "", false;
      var s := 0;
      Unchanged(t, values);
      while s < |val|
        invariant 0 <= s <= |val| && Valid() && SameKinds(old(values), values)
        invariant Follows(t) && Later(t, old(values), values)
        invariant TextOk(t, r, val) ==> out + FullText(t, r, val, s) == FullText(t, r, val, 0)
        invariant found <==> HasKnown(t, val, s)
      {
        KnownSoFar(t, val, s);
        if TextOk(t, r, val) {
          FullStep(t, r, val, s, out);
        }
        if val[s] != '$' {
          out, s := out + [val[s]], s + 1;
        } else {
          var ref := Reference(val, s);
          ghost var before := values;
          var text := Value(ref.0, stack, t, r);
          LaterTrans(t, old(values), before, values);
          LaterBetween(t, old(values), values);
          SameKindsTrans(old(values), before, values);
          if text.Some? {
            found := true;
            ReferenceEnds(t, val, s);
            out, s := out + text.value, ref.1;
          } else {
            out, s := out + [val[s]], s + 1;
          }
        }
      }
      if TextOk(t, r, val) {
        FullEnd(t, r, val);
        assert out + "" == out;
      }
    }

    /** What a reference is replaced by, if there is something of that name; an option is expanded first. */
    method Value(v: string, stack: seq<string>, ghost t: Table, ghost r: nat) returns (text: Option<string>)
      requires Valid() && Follows(t) && Above(t, stack, r) && (Resolves(t, r, v) || r == Top(t))
      modifies this`values
      ensures Valid() && SameKinds(old(values), values) && Later(t, old(values), values)
      ensures text.Some? <==> Known(t, v)
      ensures Known(t, v) && Resolves(t, r, v) ==> text == Some(Replacement(t, r, v))
      decreases |OffStack(names, stack)|, 0, 1
    {
      hide Between, Expandable, Later, FullText, Above, Clean, Rank, Top, Full;
      Unchanged(t, values);
      if v == "" {
        return None;
      }
      if v in META_NAMES {
        text := Meta(v);
        MetaIsKnown(t, values, v);
        if Resolves(t, r, v) {
          HostIsFixed(t, values, v);
        }
        return;
      }
      match Find(names, v) {
        case None => return None;
        case Some(j) =>
          SameKind(t, values, j);
          if values[j].Str? {
            RankBelowTop(t, j);
            var found := ExpandSlot(j, stack, t, r);
            if Resolves(t, r, v) {
              SlotText(t, j);
            }
            return Some(values[j].s);
          }
          return Some(values[j].text);
      }
    }

    method Meta(v: string) returns (text: Option<string>)
      requires Valid() && v in META_NAMES
      ensures text == MetaText(Table(names, metas, values), values, v) && text.Some?
    {
      if v == "host" {
        var h := Find(names, "host");
        return Some(values[h.value].s);
      }
      return Some(metas[v]);
    }

    /** expand_meta on the value of option i, which is overwritten. */
    method ExpandSlot(i: nat, stack: seq<string>, ghost t: Table, ghost r: nat) returns (found: bool)
      requires Valid() && i < |values| && values[i].Str? && Follows(t) && Above(t, stack, r)
      requires if Clean(t, i) then Rank(t, i) < r else r == Top(t)
      modifies this`values
      ensures Valid() && SameKinds(old(values), values) && Later(t, old(values), values)
      ensures Clean(t, i) ==> values[i] == Full(t, i)
      ensures found <==> names[i] !in stack && HasKnown(t, old(values)[i].s, |old(values)[i].s|)
      decreases |OffStack(names, stack)|, 0, 0
    {
      hide Between, Expandable, TextOk, Full, Later, FullText, Above, Clean, Rank, Top;
      NoDollarNoneKnown(t, values[i].s);
      hide HasKnown;
      Unchanged(t, values);
      SameKind(t, values, i);
      if Clean(t, i) {
        SlotState(t, values, i);
      }
      if '$' !in values[i].s {
        return false;
      }
      ExpandableIsNamed(t);
      if Clean(t, i) {
        PushAbove(t, stack, r, i);
        SlotText(t, i);
      } else {
        PushUnclean(t, stack, i);
      }
      if names[i] in stack {
        return false;
      }
      PushShrinks(names, stack, names[i]);
      var out, any := ExpandText(values[i].s, [names[i]] + stack, t, if Clean(t, i) then Rank(t, i) else Top(t));
      FillSlot(t, old(values), values, i, Str(out));
      values := values[i := Str(out)];
      found := any;
    }

    /** expand_meta on a string that is not an option's value: its full substitution, whatever else
        the table holds, if the options it names are clean. */
    method ExpandString(val: string) returns (out: string, found: bool)
      requires Valid()
      modifies this`values
      ensures Valid() && SameKinds(old(values), values) && (DollarFree(val) ==> out == val && values == old(values))
      ensures var t := Table(names, metas, old(values));
              && Expandable(t) && Later(t, old(values), values)
              && (TextOk(t, Top(t), val) ==> out == FullText(t, Top(t), val, 0))
              && (found <==> HasKnown(t, val, |val|))
    {
      hide Expandable, TextOk, Between, Later, FullText, Above, Top;
      ghost var t := Table(names, metas, values);
      AlwaysExpandable(t);
      StartBetween(t);
      Unchanged(t, values);
      NothingAbove(t, Top(t));
      NoDollarNoneKnown(t, val);
      if '$' !in val {
        if TextOk(t, Top(t), val) {
          FreeTextIsFull(t, Top(t), val, 0);
          assert val[0..] == val;
        }
        return val, false;
      }
      out, found := ExpandText(val, [], t, Top(t));
    }

    /** expand_all_meta. It ends for every table, and every clean option ends up with its full
        substitution, although slots are overwritten while others still need them and although other
        options may have cycles or unknown references: a '$' is left only in an option that leads to one. */
    method ExpandAll()
      requires Valid()
      modifies this`values
      ensures Valid() && SameKinds(old(values), values)
      ensures var t := Table(names, metas, old(values));
              && Expandable(t)
              && (forall i: nat | i < |values| && Clean(t, i) :: values[i] == Full(t, i))
              && (forall i: nat | i < |values| && values[i].Str? && !DollarFree(values[i].s) :: !Clean(t, i))
    {
      hide Expandable, Rank, Clean, TextOk, Between, Later, Full, FullText, Above, Top;
      ghost var t := Table(names, metas, values);
      AlwaysExpandable(t);
      StartBetween(t);
      var i := 0;
      while i < |values|
        invariant 0 <= i <= |values| && Valid() && SameKinds(old(values), values)
        invariant Follows(t) && forall k: nat | k < i && Clean(t, k) :: values[k] == Full(t, k)
      {
        ghost var before := values;
        SameKind(t, values, i);
        if values[i].Str? {
          NothingAbove(t, Top(t));
          RankBelowTop(t, i);
          var found := ExpandSlot(i, [], t, Top(t));
          SameKindsTrans(old(values), before, values);
          LaterKeeps(t, before, values, i);
        }
        i := i + 1;
      }
      forall k: nat | k < |values| && values[k].Str? && !DollarFree(values[k].s) ensures !Clean(t, k) {
        if Clean(t, k) {
          FullIsFree(t, k);
        }
      }
    }
  }

  lemma SameKind(t: Table, values: seq<Setting>, i: nat)
    requires Expandable(t) && Between(t, values) && i < |values|
    ensures i < |t.values| && (values[i].Str? <==> t.values[i].Str?) && (values[i].Other? ==> values[i] == t.values[i])
    ensures Clean(t, i) ==> Settles(t, i) && t.values[i].Str?
    ensures Settles(t, i) && t.values[i].Str? ==> Clean(t, i)
  {
    hide Rank, FullText, References, TextGood;
  }

  lemma ExpandableIsNamed(t: Table)
    requires Expandable(t)
    ensures Named(t)
  {
  }

  lemma LaterBetween(t: Table, a: seq<Setting>, b: seq<Setting>)
    requires Expandable(t) && Later(t, a, b)
    ensures Between(t, b)
  {
  }

  lemma LaterKeeps(t: Table, a: seq<Setting>, b: seq<Setting>, n: nat)
    requires Expandable(t) && Later(t, a, b) && n <= |a| == |b| && forall k: nat | k < n && Clean(t, k) :: a[k] == Full(t, k)
    ensures Between(t, b) && forall k: nat | k < n && Clean(t, k) :: b[k] == Full(t, k)
  {
    hide Full, Clean, Expandable;
  }

  // ------------------------------------------------------------------
  // A '$' that is left may name anything

  lemma ExampleReferences()
    ensures Reference("$$a", 0).0 == "" && Reference("$$a", 1) == ("a", 3) && Reference("$b", 0) == ("b", 2)
  {
    assert NameEnd("$$a", 1) == 1;
    assert NameEnd("$$a", 3) == 3 && NameEnd("$$a", 2) == 3;
    assert NameEnd("$b", 2) == 2 && NameEnd("$b", 1) == 2;
    assert "$$a"[1..1] == "" && "$$a"[2..3] == "a" && "$b"[1..2] == "b";
  }

  /** A table of clean options, and a text with a '$' that starts no reference: what stands behind that
      '$' is replaced, and then it does start one, to a clean option. */
  lemma LeftDollarNamesCleanOption() returns (t: Table, r: nat)
    ensures Expandable(t) && forall i: nat | i < |t.values| :: Clean(t, i)
    ensures r == Top(t) && TextOk(t, r, "$$a") && FullText(t, r, "$$a", 0) == "$b"
    ensures Reference("$b", 0).0 == "b" && Find(t.names, "b") == Some(1)
  {
    hide Top, Clean, Rank, Expandable, Reference, FullText;
    t := Table(["a", "b", "host"], map[], [Str("b"), Str("x"), Str("h")]);
    assert t.names[0] != t.names[1] && t.names[0] != t.names[2] && t.names[1] != t.names[2];
    assert t.names[1..][0] == "b";
    r := Top(t);
    AlwaysExpandable(t);
    forall i: nat | i < |t.values| ensures Clean(t, i) {
      FreeIsClean(t, i);
    }
    RankBelowTop(t, 0);
    ExampleReferences();
    FullStep(t, r, "$$a", 0, "");
    FullStep(t, r, "$$a", 1, "$");
    FullEnd(t, r, "$$a");
    SlotText(t, 0);
    FreeTextIsFull(t, Rank(t, 0), "b", 0);
    assert "b"[0..] == "b" && "" + ['$'] == "$" && "$" + "b" + "" == "$b";
  }

  // ------------------------------------------------------------------
  // The order of the table does not matter

  /** The same options with the same values, listed in any order. */
  ghost predicate SameOptions(t: Table, u: Table) {
    Named(t) && Named(u) && t.metas == u.metas && forall v :: Same(t, u, v)
  }

  ghost predicate Same(t: Table, u: Table, v: string)
    requires Named(t) && Named(u)
  {
    match (Find(t.names, v), Find(u.names, v))
    case (Some(i), Some(j)) => t.values[i] == u.values[j]
    case (None, None) => true
    case _ => false
  }

  lemma SameNames(t: Table, u: Table, v: string)
    requires SameOptions(t, u)
    ensures Known(t, v) <==> Known(u, v)
    ensures Known(t, v) ==> (Good(t, v) <==> Good(u, v))
    ensures NamesString(t, v) <==> NamesString(u, v)
    ensures MetaText(t, t.values, v) == MetaText(u, u.values, v)
  {
    hide Find;
    assert Same(t, u, v) && Same(t, u, "host");
  }

  /** Option i of t and option j of u have the same name. */
  ghost predicate Twins(t: Table, u: Table, i: nat, j: nat) {
    i < |t.names| && j < |u.names| && t.names[i] == u.names[j]
  }

  lemma TwinsAgree(t: Table, u: Table, i: nat, j: nat)
    requires SameOptions(t, u) && Twins(t, u, i, j)
    ensures i < |t.values| && j < |u.values| && t.values[i] == u.values[j]
  {
    FindIs(t.names, i);
    FindIs(u.names, j);
    assert Same(t, u, t.names[i]);
  }

  lemma FindIs(names: seq<string>, i: nat)
    requires i < |names| && forall a, b | 0 <= a < b < |names| :: names[a] != names[b]
    ensures Find(names, names[i]) == Some(i)
  {
  }

  /** A reference in u is one between the twins in t. */
  lemma TwinEdge(t: Table, u: Table, i: nat, j: nat, j': nat) returns (i': nat)
    requires SameOptions(t, u) && Twins(t, u, i, j) && (j, j') in References(u)
    ensures Twins(t, u, i', j') && (i, i') in References(t)
  {
    hide References, Find, NamesString;
    ReferenceIs(u, j, j');
    TwinsAgree(t, u, i, j);
    var val := u.values[j].s;
    var s: nat :| RefersAt(u, val, s, j');
    var v := Reference(val, s).0;
    SameNames(t, u, v);
    NameIsOption(t, v);
    i' := Find(t.names, v).value;
    assert RefersAt(t, val, s, i');
    ReferenceIs(t, i, i');
  }

  lemma {:induction false} TwinWalk(t: Table, u: Table, p: seq<nat>, i: nat, j: nat, j': nat) returns (i': nat)
    requires SameOptions(t, u) && Twins(t, u, i, j) && Walks(References(u), p, j, j')
    ensures Twins(t, u, i', j') && Path(References(t), i, i')
    decreases |p|
  {
    hide References, SameOptions, Twins;
    assert (p[0], p[1]) in References(u);
    var k := TwinEdge(t, u, i, j, p[1]);
    EdgeIsPath(References(t), i, k);
    if |p| == 2 {
      i' := k;
    } else {
      assert Walks(References(u), p[1..], p[1], j');
      i' := TwinWalk(t, u, p[1..], k, p[1], j');
      PathTrans(References(t), i, k, i');
    }
  }

  lemma TwinUnique(t: Table, u: Table, i: nat, i': nat, j: nat)
    requires Named(t) && Twins(t, u, i, j) && Twins(t, u, i', j)
    ensures i == i'
  {
  }

  lemma TwinCleanHere(t: Table, u: Table, i: nat, j: nat)
    requires SameOptions(t, u) && Twins(t, u, i, j) && CleanHere(t, i)
    ensures CleanHere(u, j)
  {
    hide References, Find, Known, Good;
    TwinsAgree(t, u, i, j);
    var val := u.values[j].s;
    forall s | 0 <= s < |val| && val[s] == '$' ensures Known(u, Reference(val, s).0) && Good(u, Reference(val, s).0) {
      SameNames(t, u, Reference(val, s).0);
    }
    if Path(References(u), j, j) {
      var p :| Walks(References(u), p, j, j);
      var i' := TwinWalk(t, u, p, i, j, j);
      TwinUnique(t, u, i, i', j);
    }
  }

  /** Whether an option is clean does not depend on the order. */
  lemma TwinClean(t: Table, u: Table, i: nat, j: nat)
    requires SameOptions(t, u) && Twins(t, u, i, j) && Clean(t, i)
    ensures Clean(u, j)
  {
    hide References, CleanHere, SameOptions, Twins;
    TwinCleanHere(t, u, i, j);
    forall j' | Path(References(u), j, j') ensures CleanHere(u, j') {
      var p :| Walks(References(u), p, j, j');
      var i' := TwinWalk(t, u, p, i, j, j');
      TwinCleanHere(t, u, i', j');
    }
  }

  lemma {:induction false} SameFullText(t: Table, u: Table, r: nat, r': nat, val: string, s: nat)
    requires Expandable(t) && Expandable(u) && SameOptions(t, u)
    requires TextOk(t, r, val) && TextOk(u, r', val) && s <= |val|
    ensures FullText(t, r, val, s) == FullText(u, r', val, s)
    decreases r, |val| - s
  {
    hide Expandable, SameOptions, Known, Resolves;
    if s < |val| {
      var (v, e) := Reference(val, s);
      SameNames(t, u, v);
      if val[s] == '$' && Known(t, v) {
        ReferenceEnds(t, val, s);
        SameReplacement(t, u, r, r', v);
        SameFullText(t, u, r, r', val, e);
      } else {
        SameFullText(t, u, r, r', val, s + 1);
      }
    }
  }

  lemma {:induction false} SameReplacement(t: Table, u: Table, r: nat, r': nat, v: string)
    requires Expandable(t) && Expandable(u) && SameOptions(t, u)
    requires Known(t, v) && Known(u, v) && Resolves(t, r, v) && Resolves(u, r', v)
    ensures Replacement(t, r, v) == Replacement(u, r', v)
    decreases r, 0
  {
    hide Find, Clean, Rank, FullText;
    SameNames(t, u, v);
    if v !in META_NAMES {
      assert Same(t, u, v);
      var i, j := Find(t.names, v).value, Find(u.names, v).value;
      if t.values[i].Str? {
        SameFullText(t, u, Rank(t, i), Rank(u, j), t.values[i].s, 0);
      }
    }
  }

  /** Whatever the order, an option that settles in one table does in the other, with the same text. */
  lemma OrderIrrelevant(t: Table, u: Table, i: nat, j: nat)
    requires Expandable(t) && Expandable(u) && SameOptions(t, u) && Twins(t, u, i, j) && Settles(t, i)
    ensures Settles(u, j) && Full(t, i) == Full(u, j)
  {
    hide Expandable, SameOptions, Twins, Clean, Rank, FullText;
    TwinsAgree(t, u, i, j);
    if t.values[i].Str? {
      TwinClean(t, u, i, j);
      SlotText(t, i);
      SlotText(u, j);
      SameFullText(t, u, Rank(t, i), Rank(u, j), t.values[i].s, 0);
    }
  }
}
