/** The path matcher as functions of what is left of the pattern and of the path, and what its results mean. */
module PathSpec {

  /** PATHMATCH_NO_ANCHOR_START and PATHMATCH_NO_ANCHOR_END. */
  datatype Flags = Flags(noAnchorStart: bool, noAnchorEnd: bool)

  const MAX_RECURSION: nat := 100

  /** The character at `i`; every string ends with a NUL. */
  function At(s: string, i: nat): char {
    if i < |s| then s[i] else '\0'
  }

  // ---------- character classes ----------

  /** The position of the closing bracket, or of the end of the string; a backslash hides the next character. */
  function ClassEnd(p: string, i: nat): (r: nat)
    requires i <= |p|
    ensures i <= r <= |p| && (r < |p| ==> p[r] == ']')
    decreases |p| - i
  {
    if i == |p| || p[i] == ']' then i
    else if p[i] == '\\' && i + 1 < |p| then ClassEnd(p, i + 2)
    else ClassEnd(p, i + 1)
  }

  /** A class lists characters and ranges of characters. */
  datatype Item = Single(c: char) | Range(low: char, high: char)

  predicate Contains(item: Item, c: char) {
    match item
    case Single(d) => c == d
    case Range(low, high) => low <= c <= high
  }

  /** The items from `i` to `end`; `start` is the character a range could start with, or NUL. */
  function Items(p: string, i: nat, end: nat, start: char): seq<Item>
    decreases end - i
  {
    if i >= end then []
    else if At(p, i) == '-' then
      if start == '\0' || i + 1 == end then [Single('-')] + Items(p, i + 1, end, '\0')
      else if At(p, i + 1) == '\\' then [Range(start, At(p, i + 2))] + Items(p, i + 3, end, '\0')
      else [Range(start, At(p, i + 1))] + Items(p, i + 2, end, '\0')
    else if At(p, i) == '\\' then [Single(At(p, i + 1))] + Items(p, i + 2, end, At(p, i + 1))
    else [Single(At(p, i))] + Items(p, i + 1, end, At(p, i))
  }

  predicate Negated(p: string, i: nat, end: nat) {
    (At(p, i) == '!' || At(p, i) == '^') && i < end
  }

  /** The class between `i` and `end` matches `c`: some item contains it, unless the class is negated. */
  predicate InClass(p: string, i: nat, end: nat, c: char) {
    if Negated(p, i, end) then !AnyContains(Items(p, i + 1, end, '\0'), c) else AnyContains(Items(p, i, end, '\0'), c)
  }

  predicate AnyContains(items: seq<Item>, c: char) {
    exists k :: 0 <= k < |items| && Contains(items[k], c)
  }

  // ---------- the matcher ----------

  /** A slash, or a dot that is a component. */
  predicate Drops(s: string) {
    At(s, 0) == '/' || (At(s, 0) == '.' && (At(s, 1) == '/' || At(s, 1) == '\0'))
  }

  /** Drops slashes and components that are a single dot. */
  function SlashSkip(s: string): (r: string)
    ensures |r| <= |s|
  {
    if Drops(s) then SlashSkip(s[1..]) else s
  }

  /** A leading "./" is ignored, with what follows it. */
  function SkipDot(s: string): (r: string)
    ensures |r| <= |s|
  {
    if At(s, 0) == '.' && At(s, 1) == '/' then SlashSkip(s[1..]) else s
  }

  function AfterStars(p: string): (r: string)
    ensures |r| <= |p| && (p != [] && p[0] == '*' ==> |r| < |p|) && (r != [] ==> r[0] != '*')
  {
    if p != [] && p[0] == '*' then AfterStars(p[1..]) else p
  }

  predicate NoNul(s: string) {
    forall i :: 0 <= i < |s| ==> s[i] != '\0'
  }

  function Bool(b: bool): int {
    if b then 1 else 0
  }

  /** `pm`: 1 for a match, 0 for none, and -1 when stars nest too deep. */
  function Pm(p: string, s: string, flags: Flags, depth: nat): int
    decreases |p|, 1, 0
  {
    if depth > MAX_RECURSION then -1 else Loop(SkipDot(p), SkipDot(s), flags, depth)
  }

  /** The loop of `pm`, from any point on. */
  function Loop(p: string, s: string, flags: Flags, depth: nat): int
    decreases |p|, 0, 0
  {
    if p == [] then
      if At(s, 0) == '/' then
        if flags.noAnchorEnd then 1 else Bool(SlashSkip(s) == [])
      else Bool(s == [])
    else if p[0] == '?' then
      if s == [] then 0 else Loop(p[1..], s[1..], flags, depth)
    else if p[0] == '*' then
      var rest := AfterStars(p);
      if rest == [] then 1 else TryAll(rest, s, flags, depth)
    else if p[0] == '[' then
      var end := ClassEnd(p, 1);
      if end < |p| then
        if s == [] || !InClass(p, 1, end, s[0]) then 0 else Loop(p[end + 1..], s[1..], flags, depth)
      else Literal('[', p[1..], s, flags, depth)
    else if p[0] == '\\' then
      if |p| == 1 then Literal('\\', p[1..], s, flags, depth) else Literal(p[1], p[2..], s, flags, depth)
    else if p[0] == '/' then
      if s != [] && s[0] != '/' then 0
      else
        var p', s' := SlashSkip(p), SlashSkip(s);
        assert |p'| < |p| by {
          assert p' == SlashSkip(p[1..]);
        }
        if p' == [] && flags.noAnchorEnd then 1 else Loop(p', s', flags, depth)
    else if p[0] == '$' && |p| == 1 && flags.noAnchorEnd then Bool(SlashSkip(s) == [])
    else Literal(p[0], p[1..], s, flags, depth)
  }

  function Literal(c: char, p: string, s: string, flags: Flags, depth: nat): int
    decreases |p|, 1, 0
  {
    if s == [] || s[0] != c then 0 else Loop(p, s[1..], flags, depth)
  }

  /** After a star: the rest of the pattern is tried at every place, for a first answer other than 0. */
  function TryAll(p: string, s: string, flags: Flags, depth: nat): int
    decreases |p|, 2, |s|
  {
    if s == [] then 0
    else
      var r := Pm(p, s, flags, depth + 1);
      if r != 0 then r else TryAll(p, s[1..], flags, depth)
  }

  /** From every place after a slash, too. */
  function TryParts(p: string, s: string, flags: Flags): int
    decreases |s|
  {
    var t := if s != [] && s[0] == '/' then s[1..] else s;
    var r := Pm(p, t, flags, 0);
    if r != 0 then r
    else
      var k := FindSlash(t, 0);
      if k == |t| then 0 else TryParts(p, t[k..], flags)
  }

  function FindSlash(s: string, i: nat): (k: nat)
    requires i <= |s|
    ensures i <= k <= |s| && (k < |s| ==> s[k] == '/') && forall j :: i <= j < k ==> s[j] != '/'
    decreases |s| - i
  {
    if i == |s| || s[i] == '/' then i else FindSlash(s, i + 1)
  }

  /** The entry point, for a pattern and a path that are there. */
  function PathMatch(p: string, s: string, flags: Flags): int {
    if p == [] then Bool(s == [])
    else
      var anchored := flags.noAnchorStart && p[0] == '^';
      var p', flags' := if anchored then p[1..] else p, if anchored then flags.(noAnchorStart := false) else flags;
      if At(p', 0) == '/' && At(s, 0) != '/' then 0
      else if At(p', 0) == '*' || At(p', 0) == '/' then Pm(NoSlashes(p'), NoSlashes(s), flags', 0)
      else if flags'.noAnchorStart then TryParts(p', s, flags')
      else Pm(p', s, flags', 0)
  }

  function NoSlashes(s: string): string {
    if s != [] && s[0] == '/' then NoSlashes(s[1..]) else s
  }

  // ---------- what a literal path means ----------

  /** The parts between slashes. */
  function Split(s: string): seq<string>
    decreases |s|
  {
    var k := FindSlash(s, 0);
    if k == |s| then [s] else [s[..k]] + Split(s[k + 1..])
  }

  /** The parts that are neither empty nor a single dot. */
  function Real(parts: seq<string>): seq<string> {
    if parts == [] then []
    else (if parts[0] == "" || parts[0] == "." then [] else [parts[0]]) + Real(parts[1..])
  }

  function Components(s: string): seq<string> {
    Real(Split(s))
  }

  function Head(s: string): string {
    s[..FindSlash(s, 0)]
  }

  function Tail(s: string): string {
    s[FindSlash(s, 0)..]
  }

  /** A path that begins with a real component. */
  predicate Proper(s: string) {
    At(s, 0) != '\0' && At(s, 0) != '/' && !(At(s, 0) == '.' && (At(s, 1) == '/' || At(s, 1) == '\0'))
  }

  lemma FindFirst(s: string)
    requires s != [] && s[0] != '/'
    ensures FindSlash(s, 0) == 1 + FindSlash(s[1..], 0)
  {
    FindShift(s, 1);
  }

  lemma {:induction false} FindShift(s: string, i: nat)
    requires 1 <= i <= |s|
    ensures FindSlash(s, i) == 1 + FindSlash(s[1..], i - 1)
    decreases |s| - i
  {
    if i < |s| && s[i] != '/' {
      FindShift(s, i + 1);
    }
  }

  /** The components, one part at a time. */
  lemma ComponentsStep(s: string)
    ensures var k := FindSlash(s, 0);
            var first := if s[..k] == "" || s[..k] == "." then [] else [s[..k]];
            Components(s) == first + if k == |s| then [] else Components(s[k + 1..])
  {
    var k := FindSlash(s, 0);
    if k == |s| {
      assert s[..k] == s && Split(s) == [s];
      assert Real([s][1..]) == [];
      assert Real([s]) == if s == "" || s == "." then [] else [s];
    } else {
      assert Split(s) == [s[..k]] + Split(s[k + 1..]) && Split(s)[1..] == Split(s[k + 1..]);
    }
  }

  /** A slash at the front is an empty part. */
  lemma SlashFront(s: string)
    requires s != [] && s[0] == '/'
    ensures Components(s) == Components(s[1..])
  {
    hide Components;
    ComponentsStep(s);
  }

  /** So is a dot before a slash, or at the end. */
  lemma DotFront(s: string)
    requires s != [] && s[0] == '.' && (s == "." || At(s, 1) == '/')
    ensures Components(s) == Components(s[1..])
  {
    hide Components;
    ComponentsStep(s);
    FindFirst(s);
    if s == "." {
      ComponentsStep(s[1..]);
    } else {
      assert s[..1] == ".";
      SlashFront(s[1..]);
      assert s[1..][1..] == s[2..];
    }
  }

  lemma DropOne(s: string)
    requires NoNul(s)
    ensures Drops(s) ==> s != [] && Components(s) == Components(s[1..]) && NoNul(s[1..])
    ensures !Drops(s) ==> s == [] || Proper(s)
  {
    hide Components;
    if s != [] {
      EndsAt(s, 1);
      if s[0] == '/' {
        SlashFront(s);
      } else if Drops(s) {
        DotFront(s);
      }
    }
  }

  lemma DotAlone()
    ensures Components(".") == []
  {
    hide Components;
    DotFront(".");
    assert "."[1..] == [];
    NoComponents();
  }

  /** Skipping drops no real component, and stops at one. */
  lemma {:induction false} SkipComponents(s: string)
    requires NoNul(s)
    ensures Components(SlashSkip(s)) == Components(s) && NoNul(SlashSkip(s))
    ensures SlashSkip(s) == [] || Proper(SlashSkip(s))
    ensures SlashSkip(s) == s[|s| - |SlashSkip(s)|..]
  {
    hide Components;
    hide Drops;
    hide Proper;
    hide NoNul;
    DropOne(s);
    if Drops(s) {
      SkipComponents(s[1..]);
    }
  }

  lemma EndsAt(s: string, i: nat)
    requires NoNul(s) && i <= |s|
    ensures At(s, i) == '\0' <==> i == |s|
    ensures i == 1 && At(s, 0) == '.' && At(s, 1) == '\0' ==> s == "."
  {
  }

  /** A proper path is its first component and the rest. */
  lemma ProperHead(s: string)
    requires Proper(s) && NoNul(s)
    ensures Head(s) != "" && Components(s) == [Head(s)] + Components(Tail(s))
  {
    hide Components;
    ComponentsStep(s);
    FindFirst(s);
    var k := FindSlash(s, 0);
    assert Head(s)[0] == s[0] && |Head(s)| == k;
    if k < |s| {
      SlashFront(s[k..]);
      assert s[k..][1..] == s[k + 1..];
    } else {
      NoComponents();
      assert Tail(s) == [];
    }
  }

  /** No character of the pattern is special. */
  predicate Plain(p: string) {
    forall i :: 0 <= i < |p| ==>
      p[i] != '*' && p[i] != '?' && p[i] != '[' && p[i] != '\\' && p[i] != '$' && p[i] != '^' && p[i] != '\0'
  }

  /** What is left of the components fits: all of them, or, unanchored at the end, those of the pattern. */
  predicate Fits(a: seq<string>, b: seq<string>, flags: Flags) {
    if flags.noAnchorEnd then a <= b else a == b
  }

  lemma FitsCons(a: string, x: seq<string>, b: string, y: seq<string>, flags: Flags)
    ensures Fits([a] + x, [b] + y, flags) <==> a == b && Fits(x, y, flags)
  {
    assert ([a] + x)[0] == a && ([b] + y)[0] == b && ([a] + x)[1..] == x && ([b] + y)[1..] == y;
    if [a] + x <= [b] + y {
      assert x == ([b] + y)[..|x| + 1][1..];
      assert x <= y;
    }
  }

  /** Within a component: the rest of it must agree, and the components behind it must fit. */
  lemma {:induction false} LoopLiteral(p: string, s: string, flags: Flags, depth: nat)
    requires Plain(p) && NoNul(s)
    ensures Loop(p, s, flags, depth) == Bool(Head(p) == Head(s) && Fits(Components(Tail(p)), Components(Tail(s)), flags))
    decreases |p|
  {
    if p == [] {
      EndLiteral(s, flags, depth);
    } else if p[0] == '/' {
      assert Head(p) == "" && Tail(p) == p;
      if s != [] && s[0] != '/' {
        FindFirst(s);
      } else {
        assert Head(s) == "" && Tail(s) == s;
        SlashLiteral(p, s, flags, depth);
      }
    } else {
      FindFirst(p);
      assert Tail(p) == Tail(p[1..]) && Head(p) == [p[0]] + Head(p[1..]);
      if s != [] && s[0] == p[0] {
        FindFirst(s);
        assert Tail(s) == Tail(s[1..]) && Head(s) == [s[0]] + Head(s[1..]);
        LoopLiteral(p[1..], s[1..], flags, depth);
        assert Head(p) == Head(s) <==> Head(p[1..]) == Head(s[1..]) by {
          assert Head(p)[1..] == Head(p[1..]) && Head(s)[1..] == Head(s[1..]);
        }
      } else if s != [] && s[0] != '/' {
        FindFirst(s);
        assert Head(s)[0] == s[0] && Head(p)[0] == p[0];
      }
    }
  }

  lemma NoComponents()
    ensures Components([]) == [] && Head([]) == "" && Tail([]) == ""
  {
    assert Split([]) == [""];
  }

  lemma EndLiteral(s: string, flags: Flags, depth: nat)
    requires NoNul(s)
    ensures Loop([], s, flags, depth) == Bool(Head([]) == Head(s) && Fits(Components(Tail([])), Components(Tail(s)), flags))
  {
    NoComponents();
    if s != [] && s[0] == '/' {
      SkipComponents(s);
      if SlashSkip(s) != [] {
        ProperHead(SlashSkip(s));
      }
    } else if s != [] {
      FindFirst(s);
      assert Head(s)[0] == s[0];
    }
  }

  lemma FitsEnds(a: string, x: seq<string>, y: seq<string>, flags: Flags)
    ensures Fits([], y, flags) <==> y == [] || flags.noAnchorEnd
    ensures !Fits([a] + x, [], flags)
  {
  }

  lemma LoopSlash(p: string, s: string, flags: Flags, depth: nat)
    requires p != [] && p[0] == '/' && (s == [] || s[0] == '/')
    ensures |SlashSkip(p)| < |p|
    ensures Loop(p, s, flags, depth) ==
            if SlashSkip(p) == [] && flags.noAnchorEnd then 1 else Loop(SlashSkip(p), SlashSkip(s), flags, depth)
  {
    assert SlashSkip(p) == SlashSkip(p[1..]);
  }

  /** At a slash, or a slash and the end: both skip to the next real component. */
  lemma {:induction false} SlashLiteral(p: string, s: string, flags: Flags, depth: nat)
    requires Plain(p) && NoNul(s) && p != [] && p[0] == '/' && (s == [] || s[0] == '/')
    ensures Loop(p, s, flags, depth) == Bool(Fits(Components(p), Components(s), flags))
    decreases |p|, 0
  {
    hide Components;
    hide Proper;
    hide Loop;
    hide Fits;
    var p', s' := SlashSkip(p), SlashSkip(s);
    LoopSlash(p, s, flags, depth);
    PlainSkip(p);
    SkipComponents(p);
    SkipComponents(s);
    hide SlashSkip;
    NoComponents();
    FitsEnds(Head(p'), Components(Tail(p')), Components(s), flags);
    if p' == [] && flags.noAnchorEnd {
    } else {
      LoopLiteral(p', s', flags, depth);
      if p' != [] {
        ProperHead(p');
      }
      if s' != [] {
        ProperHead(s');
      }
      if p' != [] && s' != [] {
        FitsCons(Head(p'), Components(Tail(p')), Head(s'), Components(Tail(s')), flags);
      }
    }
  }

  /** After a leading "./", or at once, stands the first real component. */
  lemma DotSkipped(s: string)
    requires NoNul(s) && At(s, 0) != '/' && Components(s) != []
    ensures Proper(SkipDot(s)) && Components(SkipDot(s)) == Components(s) && NoNul(SkipDot(s))
  {
    hide Components;
    hide SlashSkip;
    hide NoNul;
    hide Proper;
    NoComponents();
    DropOne(s);
    if At(s, 0) == '.' && At(s, 1) == '/' {
      SkipComponents(s[1..]);
    } else {
      DotAlone();
      assert s != "." && s != [];
      EndsAt(s, 1);
    }
  }

  lemma {:induction false} PlainSkip(p: string)
    requires Plain(p)
    ensures Plain(SlashSkip(p))
  {
    if SlashSkip(p) != p {
      PlainSkip(p[1..]);
    }
  }

  /**
    For a relative pattern without special characters and a relative path, with a real component each: they match when
    their components are the same; unanchored at the end, when the pattern's are the first of the path's.
   */
  lemma LiteralLaw(p: string, s: string, flags: Flags)
    requires Plain(p) && NoNul(s) && !flags.noAnchorStart && At(p, 0) != '/' && At(s, 0) != '/'
    requires Components(p) != [] && Components(s) != []
    ensures PathMatch(p, s, flags) == Bool(Fits(Components(p), Components(s), flags))
  {
    NoComponents();
    DotSkipped(p);
    DotSkipped(s);
    PlainSkip(p[1..]);
    var p', s' := SkipDot(p), SkipDot(s);
    ProperHead(p');
    ProperHead(s');
    LoopLiteral(p', s', flags, 0);
    FitsCons(Head(p'), Components(Tail(p')), Head(s'), Components(Tail(s')), flags);
  }

  // ---------- what a glob means ----------

  /**
    `Star` is a run of stars with something behind it and `Rest` one at the end; `Slash` is a slash with the slashes and
    single dots behind it; `Last` is the dollar sign of a pattern that is not anchored at its end.
   */
  datatype Element = Rest | Star | AnyChar | Class(p: string, end: nat) | Char(c: char) | Slash | Last

  function Parse(p: string, open: bool): (es: seq<Element>)
    ensures es == [] <==> p == []
    decreases |p|
  {
    if p == [] then []
    else if p[0] == '?' then [AnyChar] + Parse(p[1..], open)
    else if p[0] == '*' then
      if AfterStars(p) == [] then [Rest] else [Star] + Parse(SkipDot(AfterStars(p)), open)
    else if p[0] == '[' && ClassEnd(p, 1) < |p| then [Class(p, ClassEnd(p, 1))] + Parse(p[ClassEnd(p, 1) + 1..], open)
    else if p[0] == '\\' && |p| > 1 then [Char(p[1])] + Parse(p[2..], open)
    else if p[0] == '/' then
      assert SlashSkip(p) == SlashSkip(p[1..]);
      [Slash] + Parse(SlashSkip(p), open)
    else if p == "$" && open then [Last]
    else [Char(p[0])] + Parse(p[1..], open)
  }

  predicate OneMatches(e: Element, c: char) {
    match e
    case AnyChar => true
    case Class(p, end) => InClass(p, 1, end, c)
    case Char(d) => c == d
    case _ => false
  }

  /**
    The subject splits into pieces. A star takes any string, slashes included, with something left behind it, and the
    rest goes on as at the start of a path; a slash takes all slashes and single dots, or nothing at the end; any other
    element takes one fitting character. At the end there may be slashes and single dots behind a slash, and, if the
    pattern is open there, anything behind one.
   */
  ghost predicate Matches(es: seq<Element>, s: string, open: bool)
    decreases |es|
  {
    if es == [] then s == [] || (s[0] == '/' && (open || Components(s) == []))
    else
      match es[0]
      case Rest => true
      case Last => Components(s) == []
      case Star => exists k :: 0 <= k < |s| && Matches(es[1..], SkipDot(s[k..]), open)
      case Slash => (s == [] || s[0] == '/') && ((open && |es| == 1) || Matches(es[1..], SlashSkip(s), open))
      case _ => s != [] && OneMatches(es[0], s[0]) && Matches(es[1..], s[1..], open)
  }

  /** A pattern matches a subject from its start on; a leading "./" counts for nothing in either. */
  ghost predicate Fully(p: string, s: string, open: bool) {
    Matches(Parse(SkipDot(p), open), SkipDot(s), open)
  }

  /** How deep stars nest. */
  function Stars(es: seq<Element>): nat {
    if es == [] then 0 else (if es[0].Star? then 1 else 0) + Stars(es[1..])
  }

  predicate Shallow(p: string, open: bool) {
    Stars(Parse(SkipDot(p), open)) <= MAX_RECURSION
  }

  lemma NothingLeft(s: string)
    requires NoNul(s)
    ensures SlashSkip(s) == [] <==> Components(s) == []
  {
    SkipComponents(s);
    NoComponents();
    if SlashSkip(s) != [] {
      ProperHead(SlashSkip(s));
    }
  }

  lemma SkipDotNoNul(s: string)
    requires NoNul(s)
    ensures NoNul(SkipDot(s))
  {
    if At(s, 0) == '.' && At(s, 1) == '/' {
      SkipComponents(s[1..]);
    }
  }

  /** The first element of a pattern, what is behind it, and, but for stars, what the loop does there. */
  lemma {:induction false} LoopGlob(p: string, s: string, flags: Flags, depth: nat)
    requires NoNul(s) && Stars(Parse(p, flags.noAnchorEnd)) + depth <= MAX_RECURSION
    ensures Loop(p, s, flags, depth) == Bool(Matches(Parse(p, flags.noAnchorEnd), s, flags.noAnchorEnd))
    decreases |p|, 0, 0
  {
    var open := flags.noAnchorEnd;
    if p == [] {
      NothingLeft(s);
    } else if p[0] == '*' {
      if AfterStars(p) != [] {
        assert Parse(p, open)[1..] == Parse(SkipDot(AfterStars(p)), open);
        TryAllGlob(AfterStars(p), s, flags, depth);
      }
    } else if p[0] == '/' {
      SlashGlob(p, s, flags, depth);
    } else if p == "$" && open {
      NothingLeft(s);
    } else {
      OneGlob(p, s, flags, depth);
    }
  }

  /** A star with something behind it. */
  lemma {:induction false} TryAllGlob(p: string, s: string, flags: Flags, depth: nat)
    requires NoNul(s) && Stars(Parse(SkipDot(p), flags.noAnchorEnd)) + depth + 1 <= MAX_RECURSION
    ensures TryAll(p, s, flags, depth) == Bool(exists k :: 0 <= k < |s| && Fully(p, s[k..], flags.noAnchorEnd))
    decreases |p|, 1, |s|
  {
    hide Matches;
    hide Parse;
    hide Stars;
    hide Loop;
    var open := flags.noAnchorEnd;
    if s != [] {
      SkipDotNoNul(s);
      LoopGlob(SkipDot(p), SkipDot(s), flags, depth + 1);
      TryAllGlob(p, s[1..], flags, depth);
      assert s[0..] == s;
      assert Pm(p, s, flags, depth + 1) == Bool(Fully(p, s, open));
      if k :| 0 <= k < |s| && Fully(p, s[k..], open) {
        assert k > 0 ==> s[1..][k - 1..] == s[k..];
      }
      if k :| 0 <= k < |s[1..]| && Fully(p, s[1..][k..], open) {
        assert s[1..][k..] == s[k + 1..];
      }
    }
  }

  lemma {:induction false} SlashGlob(p: string, s: string, flags: Flags, depth: nat)
    requires NoNul(s) && Stars(Parse(p, flags.noAnchorEnd)) + depth <= MAX_RECURSION && p != [] && p[0] == '/'
    ensures Loop(p, s, flags, depth) == Bool(Matches(Parse(p, flags.noAnchorEnd), s, flags.noAnchorEnd))
    decreases |p|, 0, 0, 0
  {
    var open := flags.noAnchorEnd;
    var es := Parse(p, open);
    assert |SlashSkip(p)| < |p| && es[1..] == Parse(SlashSkip(p), open) by {
      assert SlashSkip(p) == SlashSkip(p[1..]);
    }
    assert |es| == 1 <==> SlashSkip(p) == [];
    assert Stars(es) == Stars(es[1..]);
    if s == [] || s[0] == '/' {
      LoopSlash(p, s, flags, depth);
      SkipComponents(s);
      LoopGlob(SlashSkip(p), SlashSkip(s), flags, depth);
    }
  }

  /** The element a pattern begins with when it takes one character, and its width. */
  predicate TakesOne(p: string, open: bool) {
    p != [] && p[0] != '*' && p[0] != '/' && !(p == "$" && open)
  }

  function First(p: string): Element
    requires p != []
  {
    if p[0] == '?' then AnyChar
    else if p[0] == '[' && ClassEnd(p, 1) < |p| then Class(p, ClassEnd(p, 1))
    else if p[0] == '\\' && |p| > 1 then Char(p[1])
    else Char(p[0])
  }

  function Width(p: string): (n: nat)
    requires p != []
    ensures 1 <= n <= |p|
  {
    if p[0] == '[' && ClassEnd(p, 1) < |p| then ClassEnd(p, 1) + 1 else if p[0] == '\\' && |p| > 1 then 2 else 1
  }

  lemma ParseStep(p: string, open: bool)
    requires TakesOne(p, open)
    ensures Parse(p, open) == [First(p)] + Parse(p[Width(p)..], open)
  {
  }

  /** Such an element takes one character. */
  lemma LoopStep(p: string, s: string, flags: Flags, depth: nat)
    requires TakesOne(p, flags.noAnchorEnd)
    ensures Loop(p, s, flags, depth) ==
            if s == [] || !OneMatches(First(p), s[0]) then 0 else Loop(p[Width(p)..], s[1..], flags, depth)
  {
    hide InClass;
  }

  lemma {:induction false} OneGlob(p: string, s: string, flags: Flags, depth: nat)
    requires NoNul(s) && Stars(Parse(p, flags.noAnchorEnd)) + depth <= MAX_RECURSION && TakesOne(p, flags.noAnchorEnd)
    ensures Loop(p, s, flags, depth) == Bool(Matches(Parse(p, flags.noAnchorEnd), s, flags.noAnchorEnd))
    decreases |p|, 0, 0, 0
  {
    hide Loop;
    hide Parse;
    hide OneMatches;
    var open := flags.noAnchorEnd;
    ParseStep(p, open);
    LoopStep(p, s, flags, depth);
    assert Parse(p, open)[1..] == Parse(p[Width(p)..], open);
    if s != [] {
      LoopGlob(p[Width(p)..], s[1..], flags, depth);
    }
  }

  /**
    For every pattern whose stars nest no deeper than 100 and every subject, with all flags: 1 exactly when the subject
    splits into pieces that fit, otherwise 0, and never -1.
   */
  lemma GlobLaw(p: string, s: string, flags: Flags)
    requires NoNul(s) && Shallow(p, flags.noAnchorEnd)
    ensures Pm(p, s, flags, 0) == Bool(Fully(p, s, flags.noAnchorEnd))
  {
    SkipDotNoNul(s);
    LoopGlob(SkipDot(p), SkipDot(s), flags, 0);
  }

  // ---------- where a match may start ----------

  /** At the beginning, unless a slash is there, and behind every slash. */
  predicate StartsPart(s: string, k: nat) {
    k <= |s| && if k == 0 then At(s, 0) != '/' else s[k - 1] == '/'
  }

  /** Some part of the path is where the pattern matches. */
  ghost predicate FromSome(p: string, s: string, open: bool) {
    exists k: nat :: StartsPart(s, k) && Fully(p, s[k..], open)
  }

  lemma {:induction false} PartsGlob(p: string, s: string, flags: Flags)
    requires NoNul(s) && Shallow(p, flags.noAnchorEnd)
    ensures TryParts(p, s, flags) == Bool(FromSome(p, s, flags.noAnchorEnd))
    decreases |s|
  {
    hide Fully;
    hide Shallow;
    var open := flags.noAnchorEnd;
    var d := if s != [] && s[0] == '/' then 1 else 0;
    var t := s[d..];
    assert t == if s != [] && s[0] == '/' then s[1..] else s;
    GlobLaw(p, t, flags);
    hide Pm;
    assert StartsPart(s, d);
    var k := FindSlash(t, 0);
    if k < |t| {
      PartsGlob(p, t[k..], flags);
      FurtherParts(p, s, d, k, open);
    } else {
      NoFurtherPart(s, d);
    }
  }

  /** A part starts at the beginning, or where one starts from the next slash on. */
  lemma FurtherParts(p: string, s: string, d: nat, k: nat, open: bool)
    requires d <= |s| && StartsPart(s, d) && (d == 0 || d == 1) && k < |s| - d && s[d + k] == '/'
    requires forall j :: d <= j < d + k ==> s[j] != '/'
    ensures FromSome(p, s, open) <==> Fully(p, s[d..], open) || FromSome(p, s[d..][k..], open)
  {
    hide Fully;
    var u := s[d..][k..];
    assert u == s[d + k..];
    if i: nat :| StartsPart(s, i) && Fully(p, s[i..], open) {
      if i != d {
        assert d + k < i;
        assert StartsPart(u, i - d - k) && u[i - d - k..] == s[i..];
      }
    }
    if i: nat :| StartsPart(u, i) && Fully(p, u[i..], open) {
      assert StartsPart(s, i + d + k) && u[i..] == s[i + d + k..];
    }
  }

  lemma NoFurtherPart(s: string, d: nat)
    requires d <= |s| && StartsPart(s, d) && (d == 0 || d == 1) && forall j :: d <= j < |s| ==> s[j] != '/'
    ensures forall i: nat :: StartsPart(s, i) ==> i == d
  {
  }

  /** What the entry point asks: anchors taken off the pattern, and slashes at the front off both. */
  ghost predicate Means(p: string, s: string, flags: Flags) {
    if p == [] then s == []
    else
      var anchored := flags.noAnchorStart && p[0] == '^';
      var q := if anchored then p[1..] else p;
      if At(q, 0) == '/' then At(s, 0) == '/' && Fully(NoSlashes(q), NoSlashes(s), flags.noAnchorEnd)
      else if At(q, 0) == '*' then Fully(q, NoSlashes(s), flags.noAnchorEnd)
      else if flags.noAnchorStart && !anchored then FromSome(q, s, flags.noAnchorEnd)
      else Fully(q, s, flags.noAnchorEnd)
  }

  /** No part of the pattern has stars that nest too deep. */
  predicate AllShallow(p: string, open: bool) {
    p == [] || (Shallow(p, open) && Shallow(p[1..], open) && Shallow(NoSlashes(p), open)
                && Shallow(NoSlashes(p[1..]), open))
  }

  lemma NoSlashesNoNul(s: string)
    requires NoNul(s)
    ensures NoNul(NoSlashes(s))
  {
    if s != [] && s[0] == '/' {
      NoSlashesNoNul(s[1..]);
    }
  }

  /** The whole matcher: every pattern, path and combination of flags. */
  lemma PathLaw(p: string, s: string, flags: Flags)
    requires NoNul(s) && AllShallow(p, flags.noAnchorEnd)
    ensures PathMatch(p, s, flags) == Bool(Means(p, s, flags))
  {
    hide Fully;
    hide Shallow;
    hide Pm;
    if p != [] {
      var anchored := flags.noAnchorStart && p[0] == '^';
      var q, flags' := if anchored then p[1..] else p, if anchored then flags.(noAnchorStart := false) else flags;
      NoSlashesNoNul(s);
      GlobLaw(NoSlashes(q), NoSlashes(s), flags');
      GlobLaw(q, s, flags');
      PartsGlob(q, s, flags');
      assert At(q, 0) == '*' ==> NoSlashes(q) == q;
    }
  }
}
