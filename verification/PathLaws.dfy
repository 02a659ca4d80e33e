/** What character classes and stars mean when they are written down. */
module PathLaws {
  import opened PathSpec

  // ---------- every set of characters has a class ----------

  /** A character, or a range, with a backslash before each end. */
  function Written(item: Item): (r: string)
    ensures 2 <= |r| && r[0] == '\\'
  {
    match item
    case Single(c) => ['\\', c]
    case Range(low, high) => ['\\', low, '-', '\\', high]
  }

  function WrittenAll(items: seq<Item>): string {
    if items == [] then "" else Written(items[0]) + WrittenAll(items[1..])
  }

  /** Some item contains the character; a range contains its first character in any case. */
  predicate Listed(items: seq<Item>, c: char) {
    if items == [] then false
    else
      (match items[0]
       case Single(d) => c == d
       case Range(low, high) => c == low || low <= c <= high)
      || Listed(items[1..], c)
  }

  predicate NoNulRange(items: seq<Item>) {
    forall k :: 0 <= k < |items| && items[k].Range? ==> items[k].low != '\0'
  }

  lemma AnyCons(item: Item, rest: seq<Item>, c: char)
    ensures AnyContains([item] + rest, c) <==> Contains(item, c) || AnyContains(rest, c)
  {
    var all := [item] + rest;
    if k :| 0 <= k < |rest| && Contains(rest[k], c) {
      assert all[k + 1] == rest[k];
    }
    if Contains(item, c) {
      assert Contains(all[0], c);
    }
    if k :| 0 <= k < |all| && Contains(all[k], c) {
      assert k > 0 ==> all[k] == rest[k - 1];
    }
  }

  lemma Pieces(p: string, i: nat, end: nat, x: string, y: string)
    requires i <= end <= |p| && p[i..end] == x + y
    ensures p[i..i + |x|] == x && p[i + |x|..end] == y
  {
    assert p[i..end][..|x|] == x && p[i..end][|x|..] == y;
  }

  lemma CharAt(p: string, i: nat, x: string, k: nat)
    requires i + |x| <= |p| && p[i..i + |x|] == x && k < |x|
    ensures p[i + k] == x[k]
  {
    assert p[i..i + |x|][k] == p[i + k];
  }

  /** The written items are read back, each range with its first character before it. */
  lemma {:induction false} ItemsWritten(p: string, i: nat, end: nat, start: char, items: seq<Item>, c: char)
    requires i <= end <= |p| && p[i..end] == WrittenAll(items) && NoNulRange(items)
    ensures AnyContains(Items(p, i, end, start), c) <==> Listed(items, c)
    decreases |items|
  {
    if items != [] {
      var n := |Written(items[0])|;
      Pieces(p, i, end, Written(items[0]), WrittenAll(items[1..]));
      ReadOne(p, i, end, start, items[0], c);
      ItemsWritten(p, i + n, end, if items[0].Single? then items[0].c else '\0', items[1..], c);
    }
  }

  lemma ReadOne(p: string, i: nat, end: nat, start: char, item: Item, c: char)
    requires var n := |Written(item)|; i + n <= end <= |p| && p[i..i + n] == Written(item)
    requires item.Range? ==> item.low != '\0'
    ensures var n := |Written(item)|;
            AnyContains(Items(p, i, end, start), c) <==>
              || (match item case Single(d) => c == d case Range(low, high) => c == low || low <= c <= high)
              || AnyContains(Items(p, i + n, end, if item.Single? then item.c else '\0'), c)
  {
    match item
    case Single(d) =>
      CharAt(p, i, Written(item), 0);
      CharAt(p, i, Written(item), 1);
      AnyCons(item, Items(p, i + 2, end, d), c);
    case Range(low, high) =>
      CharAt(p, i, Written(item), 0);
      CharAt(p, i, Written(item), 1);
      CharAt(p, i, Written(item), 2);
      CharAt(p, i, Written(item), 3);
      CharAt(p, i, Written(item), 4);
      var rest := Items(p, i + 5, end, '\0');
      assert Items(p, i + 2, end, low) == [item] + rest;
      AnyCons(item, rest, c);
      AnyCons(Single(low), [item] + rest, c);
  }

  /** The search for the bracket passes a written item. */
  lemma EndPasses(p: string, i: nat, item: Item)
    requires i + |Written(item)| < |p| && p[i..i + |Written(item)|] == Written(item)
    ensures ClassEnd(p, i) == ClassEnd(p, i + |Written(item)|)
  {
    CharAt(p, i, Written(item), 0);
    assert ClassEnd(p, i) == ClassEnd(p, i + 2);
    if item.Range? {
      CharAt(p, i, Written(item), 2);
      CharAt(p, i, Written(item), 3);
      assert ClassEnd(p, i + 2) == ClassEnd(p, i + 3);
      assert ClassEnd(p, i + 3) == ClassEnd(p, i + 5);
    }
  }

  lemma {:induction false} EndWritten(p: string, i: nat, end: nat, items: seq<Item>)
    requires i <= end < |p| && p[i..end] == WrittenAll(items) && p[end] == ']'
    ensures ClassEnd(p, i) == end
    decreases |items|
  {
    hide Written;
    if items != [] {
      var n := |Written(items[0])|;
      Pieces(p, i, end, Written(items[0]), WrittenAll(items[1..]));
      EndPasses(p, i, items[0]);
      EndWritten(p, i + n, end, items[1..]);
    }
  }

  /** A class of any characters and ranges, written with backslashes, contains what they do; negated, all else. */
  lemma ClassLaw(items: seq<Item>, negated: bool, behind: string, c: char)
    requires NoNulRange(items)
    ensures var inside := (if negated then "!" else "") + WrittenAll(items);
            var p := "[" + inside + "]" + behind;
            && ClassEnd(p, 1) == 1 + |inside| < |p|
            && (InClass(p, 1, 1 + |inside|, c) <==> (Listed(items, c) != negated))
  {
    var mark := if negated then "!" else "";
    var inside := mark + WrittenAll(items);
    var p := "[" + inside + "]" + behind;
    var i, end := if negated then 2 else 1, 1 + |inside|;
    Wrapped(mark, WrittenAll(items), behind);
    EndWritten(p, i, end, items);
    ItemsWritten(p, i, end, '\0', items, c);
    if items != [] {
      assert WrittenAll(items)[0] == Written(items[0])[0] == '\\';
    }
    hide WrittenAll;
    hide Items;
    hide Listed;
  }

  lemma Wrapped(mark: string, text: string, behind: string)
    requires |mark| <= 1
    ensures var p := "[" + (mark + text) + "]" + behind;
            && p[1 + |mark|..1 + |mark + text|] == text && p[1 + |mark + text|] == ']'
            && p[1] == if mark != "" then mark[0] else if text != "" then text[0] else ']'
  {
    var p := "[" + (mark + text) + "]" + behind;
    forall k | 0 <= k < |mark + text| ensures p[1 + k] == (mark + text)[k] {
    }
    assert forall k :: 0 <= k < |text| ==> p[1 + |mark|..1 + |mark + text|][k] == text[k];
  }

  // ---------- a star takes anything ----------

  predicate EndsIn(s: string, c: char) {
    s != [] && s[|s| - 1] == c
  }

  lemma {:induction false} SkipsEndIn(s: string, c: char)
    requires EndsIn(s, c) && c != '/' && c != '.'
    ensures EndsIn(SlashSkip(s), c) && EndsIn(SkipDot(s), c) && EndsIn(NoSlashes(s), c)
    decreases |s|
  {
    if |s| > 1 {
      assert s[1..][|s| - 2] == c;
      SkipsEndIn(s[1..], c);
    }
  }

  /** No character with a meaning of its own. */
  predicate Ordinary(c: char) {
    c !in {'/', '.', '*', '?', '[', '\\', '\0'}
  }

  lemma ParseOne(c: char)
    requires Ordinary(c)
    ensures Parse([c], false) == [Char(c)] && SkipDot([c]) == [c] && AfterStars([c]) == [c]
  {
    assert [c][1..] == [];
    assert Parse([c], false) == [Char(c)] + Parse([c][1..], false);
  }

  lemma ParseStar(c: char)
    requires Ordinary(c)
    ensures Parse(['*', c], false) == [Star, Char(c)] && SkipDot(['*', c]) == ['*', c]
  {
    ParseOne(c);
    assert ['*', c][1..] == [c];
    assert AfterStars(['*', c]) == AfterStars([c]);
  }

  lemma StarsOf(c: char)
    ensures Stars([Star, Char(c)]) == 1
  {
    assert [Star, Char(c)][1..] == [Char(c)] && [Char(c)][1..] == [];
    assert Stars([]) == 0 && Stars([Char(c)]) == 0;
  }

  lemma LastMatches(t: string, c: char)
    requires EndsIn(t, c) && Ordinary(c)
    ensures Matches([Star, Char(c)], t, false)
  {
    ParseOne(c);
    var k := |t| - 1;
    assert t[k..] == [c];
    assert [Star, Char(c)][1..] == [Char(c)] && [Char(c)][1..] == [] && [c][1..] == [];
    assert Matches([], [], false);
    assert Matches([Char(c)], [c], false);
    assert Matches([Star, Char(c)][1..], SkipDot(t[k..]), false);
  }

  /** Slashes included: a star before an ordinary character matches every path that ends in it. */
  lemma StarTakesAll(s: string, c: char)
    requires NoNul(s) && EndsIn(s, c) && Ordinary(c)
    ensures PathMatch(['*', c], s, Flags(false, false)) == 1
  {
    hide Matches;
    hide Parse;
    hide Stars;
    hide SkipDot;
    hide Pm;
    SkipsEndIn(s, c);
    SkipsEndIn(NoSlashes(s), c);
    ParseStar(c);
    StarsOf(c);
    LastMatches(SkipDot(NoSlashes(s)), c);
    NoSlashesNoNul(s);
    GlobLaw(['*', c], NoSlashes(s), Flags(false, false));
  }
}
