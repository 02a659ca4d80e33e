/** The path matcher: loops that advance through pattern and path, and recursion at each star. */
module PathMatch {
  import opened PathSpec

  lemma AnyCons(x: Item, xs: seq<Item>, c: char)
    ensures AnyContains([x] + xs, c) <==> Contains(x, c) || AnyContains(xs, c)
  {
    if Contains(x, c) {
      assert Contains(([x] + xs)[0], c);
    }
    if k :| 0 <= k < |xs| && Contains(xs[k], c) {
      assert Contains(([x] + xs)[k + 1], c);
    }
  }

  /** One step through the items of a class. */
  lemma ItemsStep(p: string, i: nat, end: nat, start: char, c: char)
    requires i < end
    ensures var any := AnyContains(Items(p, i, end, start), c);
            if At(p, i) == '-' && (start == '\0' || i + 1 == end) then
              any <==> c == '-' || AnyContains(Items(p, i + 1, end, '\0'), c)
            else if At(p, i) == '-' then
              var k := if At(p, i + 1) == '\\' then i + 2 else i + 1;
              any <==> start <= c <= At(p, k) || AnyContains(Items(p, k + 1, end, '\0'), c)
            else
              var k := if At(p, i) == '\\' then i + 1 else i;
              any <==> c == At(p, k) || AnyContains(Items(p, k + 1, end, At(p, k)), c)
  {
    if At(p, i) == '-' && (start == '\0' || i + 1 == end) {
      AnyCons(Single('-'), Items(p, i + 1, end, '\0'), c);
    } else if At(p, i) == '-' {
      var k := if At(p, i + 1) == '\\' then i + 2 else i + 1;
      AnyCons(Range(start, At(p, k)), Items(p, k + 1, end, '\0'), c);
    } else {
      var k := if At(p, i) == '\\' then i + 1 else i;
      AnyCons(Single(At(p, k)), Items(p, k + 1, end, At(p, k)), c);
    }
  }

  /** `pm_list`: whether the class between `start` and `end` matches `c`. */
  method PmList(p: string, start: nat, end: nat, c: char) returns (r: bool)
    ensures r == InClass(p, start, end, c)
  {
    var i, rangeStart := start, '\0';
    var match', nomatch := true, false;
    hide Items;
    hide AnyContains;
    hide Contains;
    if (At(p, i) == '!' || At(p, i) == '^') && i < end {
      match', nomatch := false, true;
      i := i + 1;
    }
    ghost var items := Items(p, i, end, '\0');
    hide At;
    hide InClass;
    while i < end
      invariant AnyContains(items, c) == AnyContains(Items(p, i, end, rangeStart), c)
      decreases end - i
    {
      ItemsStep(p, i, end, rangeStart, c);
      var nextRangeStart := '\0';
      if At(p, i) == '-' {
        if rangeStart == '\0' || i == end - 1 {
          if At(p, i) == c {
            return match';
          }
        } else {
          i := i + 1;
          var rangeEnd := At(p, i);
          if rangeEnd == '\\' {
            i := i + 1;
            rangeEnd := At(p, i);
          }
          if rangeStart <= c && c <= rangeEnd {
            return match';
          }
        }
      } else {
        if At(p, i) == '\\' {
          i := i + 1;
        }
        if At(p, i) == c {
          return match';
        }
        nextRangeStart := At(p, i);
      }
      rangeStart := nextRangeStart;
      i := i + 1;
    }
    NoItems(p, i, end, rangeStart, c);
    r := nomatch;
  }

  lemma NoItems(p: string, i: nat, end: nat, start: char, c: char)
    requires i >= end
    ensures !AnyContains(Items(p, i, end, start), c)
  {
  }

  /** `pm_slashskip`. */
  method SkipFrom(s: string, i: nat) returns (j: nat)
    requires i <= |s| && NoNul(s)
    ensures i <= j <= |s| && s[j..] == SlashSkip(s[i..])
  {
    hide SlashSkip;
    hide NoNul;
    j := i;
    SkipHere(s, j);
    while At(s, j) == '/' || (At(s, j) == '.' && At(s, j + 1) == '/') || (At(s, j) == '.' && At(s, j + 1) == '\0')
      invariant i <= j <= |s| && SlashSkip(s[j..]) == SlashSkip(s[i..])
      decreases |s| - j
    {
      SkipHere(s, j);
      j := j + 1;
    }
    SkipHere(s, j);
  }

  lemma SkipHere(s: string, j: nat)
    requires j <= |s| && NoNul(s)
    ensures var drops := At(s, j) == '/' || (At(s, j) == '.' && (At(s, j + 1) == '/' || At(s, j + 1) == '\0'));
            (drops ==> j < |s|) && SlashSkip(s[j..]) == if drops then SlashSkip(s[j + 1..]) else s[j..]
  {
    AtShift(s, j, 0);
    AtShift(s, j, 1);
    if j < |s| {
      assert s[j..][1..] == s[j + 1..];
    }
  }

  lemma {:induction false} ClassEndShift(p: string, k: nat, i: nat)
    requires k + i <= |p|
    ensures ClassEnd(p[k..], i) + k == ClassEnd(p, k + i)
    decreases |p| - i
  {
    if k + i < |p| && p[k + i] != ']' {
      ClassEndShift(p, k, if p[k + i] == '\\' && k + i + 1 < |p| then i + 2 else i + 1);
    }
  }

  lemma ItemsIs(p: string, i: nat, end: nat, start: char)
    requires i < end
    ensures Items(p, i, end, start) ==
            if At(p, i) == '-' then
              if start == '\0' || i + 1 == end then [Single('-')] + Items(p, i + 1, end, '\0')
              else if At(p, i + 1) == '\\' then [Range(start, At(p, i + 2))] + Items(p, i + 3, end, '\0')
              else [Range(start, At(p, i + 1))] + Items(p, i + 2, end, '\0')
            else if At(p, i) == '\\' then [Single(At(p, i + 1))] + Items(p, i + 2, end, At(p, i + 1))
            else [Single(At(p, i))] + Items(p, i + 1, end, At(p, i))
  {
  }

  lemma ItemsEnd(p: string, i: nat, end: nat, start: char)
    requires end <= i
    ensures Items(p, i, end, start) == []
  {
  }

  lemma {:induction false} ItemsShift(p: string, k: nat, i: nat, end: nat, start: char)
    requires k <= |p|
    ensures Items(p[k..], i, end, start) == Items(p, k + i, k + end, start)
    decreases end - i
  {
    hide At;
    hide Items;
    if i < end {
      var c, d := At(p, k + i), At(p, k + i + 1);
      ItemsIs(p[k..], i, end, start);
      ItemsIs(p, k + i, k + end, start);
      AtShift(p, k, i);
      AtShift(p, k, i + 1);
      AtShift(p, k, i + 2);
      if c == '-' && (start == '\0' || i + 1 == end) {
        ItemsShift(p, k, i + 1, end, '\0');
      } else if c == '-' && d == '\\' {
        ItemsShift(p, k, i + 3, end, '\0');
      } else if c == '-' {
        ItemsShift(p, k, i + 2, end, '\0');
      } else if c == '\\' {
        ItemsShift(p, k, i + 2, end, d);
      } else {
        ItemsShift(p, k, i + 1, end, c);
      }
    } else {
      ItemsEnd(p[k..], i, end, start);
      ItemsEnd(p, k + i, k + end, start);
    }
  }

  lemma AtShift(p: string, k: nat, i: nat)
    requires k <= |p|
    ensures At(p[k..], i) == At(p, k + i)
  {
  }

  lemma InClassShift(p: string, k: nat, end: nat, c: char)
    requires k <= |p|
    ensures InClass(p[k..], 1, end, c) == InClass(p, k + 1, k + end, c)
  {
    AtShift(p, k, 1);
    ItemsShift(p, k, 1, end, '\0');
    ItemsShift(p, k, 2, end, '\0');
  }

  /** The end of the class that starts at `i`, or of the pattern. */
  method FindClassEnd(p: string, i: nat) returns (end: nat)
    requires i < |p| && NoNul(p)
    ensures i < end <= |p| && end == ClassEnd(p, i + 1) == i + ClassEnd(p[i..], 1)
  {
    end := i + 1;
    while At(p, end) != '\0' && At(p, end) != ']'
      invariant i < end <= |p| && ClassEnd(p, end) == ClassEnd(p, i + 1)
      decreases |p| - end
    {
      if At(p, end) == '\\' && At(p, end + 1) != '\0' {
        end := end + 1;
      }
      end := end + 1;
    }
    ClassEndShift(p, i, 1);
  }

  method SkipStars(p: string, i: nat) returns (j: nat)
    requires i <= |p|
    ensures i <= j <= |p| && p[j..] == AfterStars(p[i..])
  {
    j := i;
    while At(p, j) == '*'
      invariant i <= j <= |p| && AfterStars(p[j..]) == AfterStars(p[i..])
      decreases |p| - j
    {
      assert p[j..][1..] == p[j + 1..];
      j := j + 1;
    }
  }

  /** What is left after one more character. */
  lemma Rest(s: string, i: nat, n: nat)
    requires i + n <= |s|
    ensures s[i..][n..] == s[i + n..] && |s[i..]| == |s| - i && (i < |s| ==> s[i..][0] == s[i])
  {
  }

  /** A star that is not last: tries the rest of the pattern at every place. */
  method TryFrom(pattern: string, path: string, i: nat, j0: nat, flags: Flags, depth: nat) returns (r: int)
    requires i <= |pattern| && j0 <= |path| && NoNul(pattern) && NoNul(path)
    ensures r == TryAll(pattern[i..], path[j0..], flags, depth)
    decreases |pattern| - i, 2
  {
    var j := j0;
    while j < |path|
      invariant j0 <= j <= |path|
      invariant TryAll(pattern[i..], path[j..], flags, depth) == TryAll(pattern[i..], path[j0..], flags, depth)
    {
      r := Match(pattern, path, i, j, flags, depth + 1);
      Rest(path, j, 1);
      if r != 0 {
        return;
      }
      j := j + 1;
    }
    r := 0;
  }

  /** `[`: a class when it is closed, an ordinary character otherwise. */
  method StepClass(pattern: string, path: string, i: nat, j: nat, flags: Flags, depth: nat)
    returns (done: bool, r: int, i': nat, j': nat)
    requires i < |pattern| && pattern[i] == '[' && j <= |path| && NoNul(pattern) && NoNul(path)
    ensures Steps(pattern, path, i, j, flags, depth, done, r, i', j')
  {
    hide ClassEnd;
    hide InClass;
    done, r, i', j' := false, 0, i, j;
    var end := FindClassEnd(pattern, i);
    Rest(pattern, i, 1);
    Rest(pattern, i, end - i);
    if At(pattern, end) == ']' {
      if j == |path| {
        return true, 0, i, j;
      }
      Rest(path, j, 1);
      InClassShift(pattern, i, end - i, path[j]);
      var found := PmList(pattern, i + 1, end, path[j]);
      if !found {
        return true, 0, i, j;
      }
      Rest(pattern, i, end - i + 1);
      i', j' := end + 1, j + 1;
    } else {
      done, r, i', j' := StepChar(pattern, path, i, j, flags, depth, '[');
    }
  }

  /** A character that must be there. */
  method StepChar(pattern: string, path: string, i: nat, j: nat, flags: Flags, depth: nat, c: char)
    returns (done: bool, r: int, i': nat, j': nat)
    requires i < |pattern| && pattern[i] == c && j <= |path| && NoNul(pattern) && NoNul(path)
    ensures !done ==> i' == i + 1 && j' == j + 1 <= |path|
    ensures if done then r == 0 == Literal(c, pattern[i + 1..], path[j..], flags, depth)
            else Loop(pattern[i'..], path[j'..], flags, depth) == Literal(c, pattern[i + 1..], path[j..], flags, depth)
  {
    done, r, i', j' := false, 0, i, j;
    if At(path, j) != c {
      return true, 0, i, j;
    }
    Rest(path, j, 1);
    i', j' := i + 1, j + 1;
  }

  /** A turn of the loop of `pm` either answers, or goes on further in the pattern with the same answer. */
  ghost predicate Steps(
      pattern: string, path: string, i: nat, j: nat, flags: Flags, depth: nat, done: bool, r: int, i': nat, j': nat)
    requires i <= |pattern| && j <= |path|
  {
    if done then r == Loop(pattern[i..], path[j..], flags, depth)
    else
      && i < i' <= |pattern| && j' <= |path|
      && Loop(pattern[i'..], path[j'..], flags, depth) == Loop(pattern[i..], path[j..], flags, depth)
  }

  lemma SlashHere(p: string, s: string, flags: Flags, depth: nat)
    requires p != [] && p[0] == '/'
    ensures Loop(p, s, flags, depth) ==
            if s != [] && s[0] != '/' then 0
            else if SlashSkip(p) == [] && flags.noAnchorEnd then 1
            else Loop(SlashSkip(p), SlashSkip(s), flags, depth)
  {
  }

  /** `/` matches slashes, and the end, and drops what does not count. */
  method StepSlash(pattern: string, path: string, i: nat, j: nat, flags: Flags, depth: nat)
    returns (done: bool, r: int, i': nat, j': nat)
    requires i < |pattern| && pattern[i] == '/' && j <= |path| && NoNul(pattern) && NoNul(path)
    ensures Steps(pattern, path, i, j, flags, depth, done, r, i', j')
  {
    done, r, i', j' := false, 0, i, j;
    hide SlashSkip;
    SlashHere(pattern[i..], path[j..], flags, depth);
    SkipHere(pattern, i);
    EndsAt(path, j);
    if At(path, j) != '/' && At(path, j) != '\0' {
      return true, 0, i, j;
    }
    i' := SkipFrom(pattern, i);
    j' := SkipFrom(path, j);
    assert i' > i by {
      assert SlashSkip(pattern[i + 1..]) == pattern[i'..];
    }
    EndsAt(pattern, i');
    if At(pattern, i') == '\0' && flags.noAnchorEnd {
      return true, 1, i, j;
    }
  }

  /** One turn of the loop of `pm`. */
  method Step(pattern: string, path: string, i: nat, j: nat, flags: Flags, depth: nat)
    returns (done: bool, r: int, i': nat, j': nat)
    requires i <= |pattern| && j <= |path| && NoNul(pattern) && NoNul(path)
    ensures Steps(pattern, path, i, j, flags, depth, done, r, i', j')
    decreases |pattern| - i, 0
  {
    hide ClassEnd;
    hide InClass;
    done, r, i', j' := false, 0, i, j;
    Rest(path, j, 0);
    if i == |pattern| {
      if At(path, j) == '/' {
        if flags.noAnchorEnd {
          return true, 1, i, j;
        }
        var k := SkipFrom(path, j);
        return true, Bool(At(path, k) == '\0'), i, j;
      }
      return true, Bool(At(path, j) == '\0'), i, j;
    }
    Rest(pattern, i, 1);
    match pattern[i] {
      case '?' =>
        if At(path, j) == '\0' {
          return true, 0, i, j;
        }
        Rest(path, j, 1);
        i', j' := i + 1, j + 1;
      case '*' =>
        var k := SkipStars(pattern, i);
        if At(pattern, k) == '\0' {
          return true, 1, i, j;
        }
        r := TryFrom(pattern, path, k, j, flags, depth);
        done := true;
      case '[' =>
        done, r, i', j' := StepClass(pattern, path, i, j, flags, depth);
      case '\\' =>
        if At(pattern, i + 1) == '\0' {
          done, r, i', j' := StepChar(pattern, path, i, j, flags, depth, '\\');
        } else {
          Rest(pattern, i, 2);
          Rest(pattern, i + 1, 1);
          done, r, i', j' := StepChar(pattern, path, i + 1, j, flags, depth, pattern[i + 1]);
        }
      case '/' =>
        done, r, i', j' := StepSlash(pattern, path, i, j, flags, depth);
      case c =>
        if c == '$' && At(pattern, i + 1) == '\0' && flags.noAnchorEnd {
          var k := SkipFrom(path, j);
          return true, Bool(At(path, k) == '\0'), i, j;
        }
        done, r, i', j' := StepChar(pattern, path, i, j, flags, depth, c);
    }
  }

  lemma DotHere(s: string, j: nat)
    requires j <= |s| && NoNul(s)
    ensures SkipDot(s[j..]) == if At(s, j) == '.' && At(s, j + 1) == '/' then SlashSkip(s[j + 1..]) else s[j..]
    ensures At(s, j) == '.' ==> j < |s|
  {
    AtShift(s, j, 0);
    AtShift(s, j, 1);
    if j < |s| {
      assert s[j..][1..] == s[j + 1..];
    }
  }

  /** `pm` on what is left of the pattern from `i` and of the path from `j` on. */
  method Match(pattern: string, path: string, i0: nat, j0: nat, flags: Flags, depth: nat) returns (r: int)
    requires i0 <= |pattern| && j0 <= |path| && NoNul(pattern) && NoNul(path)
    ensures r == Pm(pattern[i0..], path[j0..], flags, depth)
    decreases |pattern| - i0, 1
  {
    if depth > MAX_RECURSION {
      return -1;
    }
    var i, j := i0, j0;
    DotHere(path, j);
    DotHere(pattern, i);
    if At(path, j) == '.' && At(path, j + 1) == '/' {
      j := SkipFrom(path, j + 1);
    }
    if At(pattern, i) == '.' && At(pattern, i + 1) == '/' {
      i := SkipFrom(pattern, i + 1);
    }
    ghost var answer := Pm(pattern[i0..], path[j0..], flags, depth);
    hide Loop;
    hide SkipDot;
    while true
      invariant i0 <= i <= |pattern| && 0 <= j <= |path| && Loop(pattern[i..], path[j..], flags, depth) == answer
      decreases |pattern| - i
    {
      var done;
      done, r, i, j := Step(pattern, path, i, j, flags, depth);
      if done {
        return;
      }
    }
  }

  /** `strchr` for a slash. */
  method NextSlash(s: string, i: nat) returns (k: nat)
    requires i <= |s|
    ensures i <= k <= |s| && k == i + FindSlash(s[i..], 0)
  {
    k := i;
    while k < |s| && s[k] != '/'
      invariant i <= k <= |s| && FindSlash(s[i..], k - i) == FindSlash(s[i..], 0)
    {
      Rest(s, i, k - i);
      k := k + 1;
    }
  }

  lemma PartHere(p: string, s: string, from: nat, j: nat, flags: Flags)
    requires from <= j <= |s| && j == if from < |s| && s[from] == '/' then from + 1 else from
    ensures var r := Pm(p, s[j..], flags, 0);
            var k := FindSlash(s[j..], 0);
            TryParts(p, s[from..], flags) ==
            if r != 0 then r else if k == |s| - j then 0 else TryParts(p, s[j + k..], flags)
  {
    hide Pm;
    hide FindSlash;
    Rest(s, from, 0);
    Rest(s, from, j - from);
    Rest(s, j, FindSlash(s[j..], 0));
  }

  /** Unanchored: tries the start of every part. */
  method TryEach(pattern: string, path: string, i: nat, flags: Flags) returns (r: int)
    requires i <= |pattern| && NoNul(pattern) && NoNul(path)
    ensures r == TryParts(pattern[i..], path, flags)
  {
    hide Pm;
    var j, more := 0, true;
    assert path[0..] == path;
    while more
      invariant j <= |path| && (j > 0 ==> path[j - 1..] != [])
      invariant TryParts(pattern[i..], path, flags) == if more then TryParts(pattern[i..], path[j..], flags) else 0
      invariant more && j > 0 ==> j < |path| && path[j] == '/'
      decreases more, |path| - j + if j == 0 then 1 else 0
    {
      ghost var from := j;
      if At(path, j) == '/' {
        j := j + 1;
      }
      r := Match(pattern, path, i, j, flags, 0);
      PartHere(pattern[i..], path, from, j, flags);
      if r != 0 {
        return;
      }
      var k := NextSlash(path, j);
      more := k < |path|;
      j := k;
    }
    r := 0;
  }

  /** `__archive_pathmatch`. */
  method ArchivePathmatch(pattern: string, path: string, flags: Flags) returns (r: int)
    requires NoNul(pattern) && NoNul(path)
    ensures r == PathMatch(pattern, path, flags)
  {
    if |pattern| == 0 {
      return Bool(|path| == 0);
    }
    var i, j, f := 0, 0, flags;
    assert pattern[0..] == pattern && path[0..] == path;
    if flags.noAnchorStart && pattern[0] == '^' {
      i := 1;
      f := flags.(noAnchorStart := false);
    }
    Rest(pattern, i, 0);
    if At(pattern, i) == '/' && At(path, 0) != '/' {
      return 0;
    }
    if At(pattern, i) == '*' || At(pattern, i) == '/' {
      i := SkipSlashes(pattern, i);
      j := SkipSlashes(path, 0);
      r := Match(pattern, path, i, j, f, 0);
      return;
    }
    if f.noAnchorStart {
      r := TryEach(pattern, path, i, f);
      return;
    }
    r := Match(pattern, path, i, 0, f, 0);
  }

  method SkipSlashes(s: string, i: nat) returns (j: nat)
    requires i <= |s|
    ensures i <= j <= |s| && s[j..] == NoSlashes(s[i..])
  {
    j := i;
    while At(s, j) == '/'
      invariant i <= j <= |s| && NoSlashes(s[j..]) == NoSlashes(s[i..])
      decreases |s| - j
    {
      Rest(s, j, 1);
      j := j + 1;
    }
  }
}
