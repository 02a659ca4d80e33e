/** Printing an access control list: a string appended to, entry by entry. */
module AclPrinter {
  import opened Options
  import opened AclSpec
  import opened AclText

  /** `append_id`. */
  method PutId(s: string, id: int) returns (r: string)
    ensures r == s + AppendId(id)
    decreases if id < 0 then 0 else id
  {
    r := s;
    var n := id;
    if n < 0 {
      n := 0;
    }
    if n > 9 {
      r := PutId(r, n / 10);
    }
    r := r + ["0123456789"[n % 10]];
  }

  lemma NoLetters(perm: Bits, compact: bool)
    ensures Letters([], perm, compact) == ""
  {
  }

  /** The letters from place `i` of the table on are one letter, if any, and those behind it. */
  lemma LettersFrom(r: string, table: seq<(Bits, char)>, i: nat, perm: Bits, compact: bool)
    requires i < |table|
    ensures (r + Letter(table[i], perm, compact)) + Letters(table[i + 1..], perm, compact)
         == r + Letters(table[i..], perm, compact)
  {
    hide Letter;
    assert table[i..][1..] == table[i + 1..];
  }

  method PutLetter(s: string, bit: (Bits, char), perm: Bits, compact: bool) returns (r: string)
    ensures r == s + Letter(bit, perm, compact)
  {
    r := s;
    if And(perm, bit.0) != 0 {
      r := r + [bit.1];
    } else if !compact {
      r := r + ['-'];
    }
  }

  method PutLetters(s: string, table: seq<(Bits, char)>, perm: Bits, compact: bool) returns (r: string)
    ensures r == s + Letters(table, perm, compact)
  {
    hide Letters;
    hide Letter;
    r := s;
    var i := 0;
    assert table[0..] == table;
    while i < |table|
      invariant i <= |table| && r + Letters(table[i..], perm, compact) == s + Letters(table, perm, compact)
    {
      LettersFrom(r, table, i, perm, compact);
      r := PutLetter(r, table[i], perm, compact);
      i := i + 1;
    }
    NoLetters(perm, compact);
    assert table[i..] == [] && r + [] == r;
  }

  /** The word for the tag; a tag that is no user or group takes no name and no id. */
  method PutTag(s: string, kind: Kind, tag: Tag, name: Option<string>, id: int)
    returns (r: string, name': Option<string>, id': int)
    ensures r == s + TagText(kind, tag)
    ensures var other := tag.UserObj? || tag.GroupObj? || tag.Mask? || tag.Other? || tag.Everyone?;
            name' == (if other then None else name) && id' == if other then -1 else id
  {
    r, name', id' := s, name, id;
    match tag {
      case UserObj =>
        name', id' := None, -1;
        if IsNfs4(kind) {
          r := r + "owner@";
        } else {
          r := r + "user";
        }
      case User => r := r + "user";
      case GroupObj =>
        name', id' := None, -1;
        if IsNfs4(kind) {
          r := r + "group@";
        } else {
          r := r + "group";
        }
      case Group => r := r + "group";
      case Mask => r, name', id' := r + "mask", None, -1;
      case Other => r, name', id' := r + "other", None, -1;
      case Everyone => r, name', id' := r + "everyone@", None, -1;
      case NoTag(_) =>
    }
  }

  function Perms(kind: Kind, style: Style, perm: Bits): string {
    if IsPosix(kind) then ModeLetters(perm)
    else Letters(PERM_MAP, perm, style.compact) + ":" + Letters(FLAG_MAP, perm, style.compact) + ":" + KindText(kind)
  }

  method PutKind(s: string, kind: Kind) returns (r: string)
    ensures r == s + KindText(kind)
  {
    r := s;
    match kind {
      case Allow => r := r + "allow";
      case Deny => r := r + "deny";
      case Audit => r := r + "audit";
      case Alarm => r := r + "alarm";
      case _ =>
    }
  }

  method PutModeLetters(s: string, perm: Bits) returns (r: string)
    ensures r == s + ModeLetters(perm)
  {
    r := s + [if perm & 0x124 != 0 then 'r' else '-'];
    r := r + [if perm & 0x92 != 0 then 'w' else '-'];
    r := r + [if perm & 0x49 != 0 then 'x' else '-'];
  }

  method PutPerms(s: string, kind: Kind, style: Style, perm: Bits) returns (r: string)
    ensures r == s + Perms(kind, style, perm)
  {
    hide Letters;
    hide ModeLetters;
    hide KindText;
    hide PERM_MAP;
    hide FLAG_MAP;
    if IsPosix(kind) {
      r := PutModeLetters(s, perm);
    } else {
      r := PutLetters(s, PERM_MAP, perm, style.compact);
      r := r + ":";
      r := PutLetters(r, FLAG_MAP, perm, style.compact);
      r := r + ":";
      r := PutKind(r, kind);
    }
  }

  /** The name, or for a user or group without one its id, which then is not repeated in a POSIX.1e entry. */
  method PutName(s: string, kind: Kind, tag: Tag, style: Style, name: Option<string>, id: int) returns (r: string, id': int)
    ensures r == s + (if name.Some? then name.value else if Named(tag) then AppendId(id) else "")
                 + if style.solaris && (tag.Other? || tag.Mask?) then "" else ":"
    ensures id' == if name.None? && Named(tag) && !IsNfs4(kind) then -1 else id
  {
    r, id' := s, id;
    if name.Some? {
      r := r + name.value;
    } else if tag.User? || tag.Group? {
      r := PutId(r, id);
      if !IsNfs4(kind) {
        id' := -1;
      }
    }
    if !style.solaris || (!tag.Other? && !tag.Mask?) {
      r := r + ":";
    }
  }

  lemma Regroup(s: string, a: string, b: string, m: string, p: string, q: string)
    ensures s + a + b + ":" + m + p + q == s + (a + b + ":" + m + p + q)
  {
    assert s + a + b == s + (a + b);
    assert s + (a + b) + ":" == s + (a + b + ":");
    assert s + (a + b + ":") + m == s + (a + b + ":" + m);
    assert s + (a + b + ":" + m) + p == s + (a + b + ":" + m + p);
  }

  /** The part between the colon behind the tag and the permissions, and the id left for the end. */
  function Middle(kind: Kind, tag: Tag, style: Style, name: Option<string>, id: int): (string, int) {
    if IsPosix(kind) || Named(tag) then
      ((if name.Some? then name.value else if Named(tag) then AppendId(id) else "")
       + (if style.solaris && (tag.Other? || tag.Mask?) then "" else ":"),
       if name.None? && Named(tag) && !IsNfs4(kind) then -1 else id)
    else ("", id)
  }

  function Tail(id: int): string {
    if id != -1 then ":" + AppendId(id) else ""
  }

  lemma EntryParts(prefix: string, kind: Kind, tag: Tag, style: Style, name: Option<string>, perm: Bits, id: int)
    ensures var other := tag.UserObj? || tag.GroupObj? || tag.Mask? || tag.Other? || tag.Everyone?;
            var (middle, id') := Middle(kind, tag, style, if other then None else name, if other then -1 else id);
            AppendEntry(prefix, kind, tag, style, name, perm, id)
            == prefix + TagText(kind, tag) + ":" + middle + Perms(kind, style, perm) + Tail(id')
  {
    hide AppendId;
    hide ModeLetters;
    hide Letters;
    hide PERM_MAP;
    hide FLAG_MAP;
    hide TagText;
    hide KindText;
  }

  /** The text so far, the prefix, the tag and a colon. */
  method PutHead(s: string, prefix: Option<string>, kind: Kind, tag: Tag, name: Option<string>, id: int)
    returns (r: string, name1: Option<string>, id1: int)
    ensures r == s + (if prefix.Some? then prefix.value else "") + TagText(kind, tag) + ":"
    ensures var other := tag.UserObj? || tag.GroupObj? || tag.Mask? || tag.Other? || tag.Everyone?;
            name1 == (if other then None else name) && id1 == if other then -1 else id
  {
    hide TagText;
    r := s;
    if prefix.Some? {
      r := r + prefix.value;
    }
    assert r == s + (if prefix.Some? then prefix.value else "");
    r, name1, id1 := PutTag(r, kind, tag, name, id);
    r := r + ":";
  }

  /** The permissions, and the id that is left to be printed. */
  method PutRest(s: string, kind: Kind, style: Style, perm: Bits, id: int) returns (r: string)
    ensures r == s + Perms(kind, style, perm) + Tail(id)
  {
    hide AppendId;
    hide Perms;
    r := PutPerms(s, kind, style, perm);
    if id != -1 {
      r := r + ":";
      r := PutId(r, id);
    }
  }

  /** `append_entry`. */
  method PutEntry(
      s: string, prefix: Option<string>, kind: Kind, tag: Tag, style: Style, name: Option<string>, perm: Bits, id: int)
    returns (r: string)
    ensures r == s + AppendEntry(if prefix.Some? then prefix.value else "", kind, tag, style, name, perm, id)
  {
    hide AppendId;
    hide TagText;
    hide AppendEntry;
    hide Perms;
    ghost var before := if prefix.Some? then prefix.value else "";
    var name1, id1;
    r, name1, id1 := PutHead(s, prefix, kind, tag, name, id);
    ghost var parts := Middle(kind, tag, style, name1, id1);
    if IsPosix(kind) || tag.User? || tag.Group? {
      r, id1 := PutName(r, kind, tag, style, name1, id1);
    }
    assert r == s + before + TagText(kind, tag) + ":" + parts.0 && id1 == parts.1;
    hide Middle;
    r := PutRest(r, kind, style, perm, id1);
    EntryParts(before, kind, tag, style, name, perm, id);
    Regroup(s, before, TagText(kind, tag), parts.0, Perms(kind, style, perm), Tail(parts.1));
  }

  /** `archive_acl_text_empty`: nothing would be printed. */
  method TextEmpty(es: seq<Entry>, want: set<Kind>) returns (empty: bool)
    ensures empty <==> Printed(es, want) == []
  {
    assert es[0..] == es;
    var i := 0;
    while i < |es|
      invariant i <= |es| && Printed(es, want) == Printed(es[i..], want)
    {
      assert es[i..][1..] == es[i + 1..];
      if es[i].kind in want && !InMode(es[i].kind, es[i].tag) {
        return false;
      }
      i := i + 1;
    }
    return true;
  }

  // ---------- lines one by one ----------

  lemma {:induction false} PrintedSnoc(es: seq<Entry>, want: set<Kind>, e: Entry)
    ensures Printed(es + [e], want) == Printed(es, want) + if e.kind in want && !InMode(e.kind, e.tag) then [e] else []
  {
    if es == [] {
      assert es + [e] == [e];
    } else {
      assert (es + [e])[1..] == es[1..] + [e];
      PrintedSnoc(es[1..], want, e);
      var first := if es[0].kind in want && !InMode(es[0].kind, es[0].tag) then [es[0]] else [];
      var last := if e.kind in want && !InMode(e.kind, e.tag) then [e] else [];
      assert Printed(es + [e], want) == first + Printed(es[1..] + [e], want);
      assert first + (Printed(es[1..], want) + last) == first + Printed(es[1..], want) + last;
    }
  }

  lemma {:induction false} LinesSnoc(es: seq<Entry>, style: Style, mark: bool, e: Entry)
    ensures Lines(es + [e], style, mark) == Lines(es, style, mark) + [Line(e, style, mark)]
  {
    hide Line;
    if es == [] {
      assert es + [e] == [e];
    } else {
      assert (es + [e])[1..] == es[1..] + [e];
      LinesSnoc(es[1..], style, mark, e);
    }
  }

  ghost predicate NoneEmpty(lines: seq<string>) {
    forall k :: 0 <= k < |lines| ==> lines[k] != ""
  }

  lemma {:induction false} JoinSnoc(lines: seq<string>, separator: char, line: string)
    requires NoneEmpty(lines)
    ensures Join(lines + [line], separator) == Join(lines, separator) + (if lines == [] then "" else [separator]) + line
    ensures Join(lines, separator) == "" <==> lines == []
  {
    if lines == [] {
    } else {
      assert (lines + [line])[1..] == lines[1..] + [line];
      JoinSnoc(lines[1..], separator, line);
    }
  }

  lemma LineNotEmpty(e: Entry, style: Style, mark: bool)
    ensures Line(e, style, mark) != ""
  {
    hide AppendId;
    hide ModeLetters;
    hide Letters;
    hide PERM_MAP;
    hide FLAG_MAP;
    hide TagText;
  }

  /** The three lines of the mode. */
  lemma ModeLinesAre(mode: Bits, style: Style)
    ensures var lines := ModeLines(mode, style);
            |lines| == 3 && lines == [lines[0], lines[1], lines[2]] && NoneEmpty(lines)
  {
    hide ModeLetters;
    hide TagText;
  }

  lemma JoinThree(a: string, b: string, c: string, separator: char)
    ensures Join([a, b, c], separator) == a + [separator] + b + [separator] + c
  {
    var bc := b + [separator] + c;
    assert [a, b, c][1..] == [b, c] && [b, c][1..] == [c];
    assert Join([b, c], separator) == bc;
    assert Join([a, b, c], separator) == a + [separator] + bc == a + [separator] + b + [separator] + c;
  }

  method PutMode(mode: Bits, style: Style, separator: char) returns (r: string)
    ensures r == Join(ModeLines(mode, style), separator) && NoneEmpty(ModeLines(mode, style))
  {
    hide ModeLetters;
    hide TagText;
    ghost var lines := ModeLines(mode, style);
    hide AppendEntry;
    ModeLinesAre(mode, style);
    r := PutEntry("", None, Access, UserObj, style, None, mode & 0x1C0, -1);
    assert r == "" + lines[0] == lines[0];
    r := r + [separator];
    r := PutEntry(r, None, Access, GroupObj, style, None, mode & 0x38, -1);
    assert r == lines[0] + [separator] + lines[1];
    r := r + [separator];
    r := PutEntry(r, None, Access, Other, style, None, mode & 0x7, -1);
    assert r == lines[0] + [separator] + lines[1] + [separator] + lines[2];
    JoinThree(lines[0], lines[1], lines[2], separator);
  }

  lemma NextLine(pre: seq<string>, es: seq<Entry>, i: nat, want: set<Kind>, style: Style, mark: bool, separator: char)
    requires i < |es| && NoneEmpty(pre + Lines(Printed(es[..i], want), style, mark))
    ensures var lines := pre + Lines(Printed(es[..i], want), style, mark);
            var lines' := pre + Lines(Printed(es[..i + 1], want), style, mark);
            NoneEmpty(lines') &&
            if es[i].kind in want && !InMode(es[i].kind, es[i].tag) then
              Join(lines', separator)
              == Join(lines, separator) + (if Join(lines, separator) == "" then "" else [separator]) + Line(es[i], style, mark)
            else lines' == lines
  {
    hide Line;
    hide Lines;
    hide Printed;
    hide Join;
    assert es[..i + 1] == es[..i] + [es[i]];
    PrintedSnoc(es[..i], want, es[i]);
    if es[i].kind in want && !InMode(es[i].kind, es[i].tag) {
      var before := Printed(es[..i], want);
      LinesSnoc(before, style, mark, es[i]);
      LineNotEmpty(es[i], style, mark);
      var lines := pre + Lines(before, style, mark);
      assert pre + (Lines(before, style, mark) + [Line(es[i], style, mark)]) == lines + [Line(es[i], style, mark)];
      JoinSnoc(lines, separator, Line(es[i], style, mark));
    } else {
      assert Printed(es[..i], want) + [] == Printed(es[..i], want);
    }
  }

  /** `archive_acl_to_text_l`: the string is appended to, a separator going before each line but the first. */
  method PutText(l: List, style: Style, asked: set<Kind>) returns (r: Option<string>)
    ensures r == ToText(l, style, asked)
  {
    hide Line;
    hide Lines;
    hide Printed;
    hide Join;
    hide AppendEntry;
    hide ModeLines;
    var want := WantType(l.types, asked);
    if want == {} {
      return None;
    }
    var mark := style.markDefault || want == POSIX1E;
    var empty := TextEmpty(l.entries, want);
    if empty {
      return None;
    }
    var separator := if style.comma then ',' else '\n';
    var s := "";
    if Access in want {
      s := PutMode(l.mode, style, separator);
    }
    ghost var pre := if Access in want then ModeLines(l.mode, style) else [];
    var es := l.entries;
    NoLinesYet(pre, es, want, style, mark, separator);
    var i := 0;
    while i < |es|
      invariant i <= |es| && NoneEmpty(pre + Lines(Printed(es[..i], want), style, mark))
      invariant s == Join(pre + Lines(Printed(es[..i], want), style, mark), separator)
    {
      NextLine(pre, es, i, want, style, mark, separator);
      var e := es[i];
      if e.kind in want && !InMode(e.kind, e.tag) {
        var prefix := if e.kind == Default && mark then Some("default:") else None;
        if |s| > 0 {
          s := s + [separator];
        }
        var id := if e.name.None? || style.extraId then e.id else -1;
        LineIs(e, style, mark);
        s := PutEntry(s, prefix, e.kind, e.tag, style, e.name, e.permset, id);
      }
      i := i + 1;
    }
    assert es[..i] == es;
    return Some(s);
  }

  lemma LineIs(e: Entry, style: Style, mark: bool)
    ensures Line(e, style, mark) ==
            AppendEntry(if e.kind == Default && mark then "default:" else "", e.kind, e.tag, style, e.name, e.permset,
                        if e.name.None? || style.extraId then e.id else -1)
  {
    hide AppendEntry;
  }

  lemma NoLinesYet(pre: seq<string>, es: seq<Entry>, want: set<Kind>, style: Style, mark: bool, separator: char)
    ensures pre + Lines(Printed(es[..0], want), style, mark) == pre && Join([], separator) == ""
  {
  }
}
