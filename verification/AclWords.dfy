/** The words and letters of access control lists: short forms, and the lines the formats are documented by. */
module AclWords {
  import opened Options
  import opened AclSpec
  import opened AclText

  /** The tags that have a word in a POSIX.1e list. */
  predicate HasWord(tag: Tag) {
    tag.UserObj? || tag.GroupObj? || tag.Other? || tag.Mask?
  }

  /** The first letter of the word of a tag. */
  function Initial(tag: Tag): string
    requires HasWord(tag)
  {
    TagText(Access, tag)[..1]
  }

  /** The first letter of a tag's word says the same as the word, with or without a mark for the default list. */
  lemma ShortTag(tag: Tag, rest: seq<string>, mark: string, want: Kind)
    requires HasWord(tag) && mark in {"d", "default"}
    ensures ParsePosix([Initial(tag)] + rest, want) == ParsePosix([TagText(Access, tag)] + rest, want)
    ensures ParsePosix([mark, Initial(tag)] + rest, want) == ParsePosix([mark, TagText(Access, tag)] + rest, want)
    ensures ParsePosix(["default" + Initial(tag)] + rest, want) == ParsePosix(["default" + TagText(Access, tag)] + rest, want)
  {
    SameRest([Initial(tag)], [TagText(Access, tag)], rest);
    SameRest([mark, Initial(tag)], [mark, TagText(Access, tag)], rest);
    SameRest(["default" + Initial(tag)], ["default" + TagText(Access, tag)], rest);
    ShortWord(tag);
    Unmarked(Initial(tag));
    Unmarked(TagText(Access, tag));
    Marked(mark, Initial(tag));
    Marked(mark, TagText(Access, tag));
  }

  lemma ShortWord(tag: Tag)
    requires HasWord(tag)
    ensures TagOf(Initial(tag)) == TagOf(TagText(Access, tag)) == Some(tag)
    ensures Initial(tag) != "" && Initial(tag)[0] != 'd' && TagText(Access, tag) != "" && TagText(Access, tag)[0] != 'd'
  {
    var word, short := TagText(Access, tag), Initial(tag);
    assert |short| == 1 && short[0] == word[0];
    match tag
    case UserObj =>
      assert short == "u";
    case GroupObj =>
      assert short == "g" && short[0] != 'u' && word[0] != 'u';
    case Other =>
      assert short == "o" && short[0] !in {'u', 'g'} && word[0] !in {'u', 'g'};
    case Mask =>
      assert short == "m" && short[0] !in {'u', 'g', 'o'} && word[0] !in {'u', 'g', 'o'};
  }

  lemma Unmarked(word: string)
    requires word != "" && word[0] != 'd'
    ensures !SaysDefault(word)
  {
  }

  /** The mark stands alone, or before the word without a colon. */
  lemma Marked(mark: string, word: string)
    requires mark in {"d", "default"} && word != ""
    ensures SaysDefault(mark) && |mark| <= 7
    ensures SaysDefault("default" + word) && 7 < |"default" + word| && ("default" + word)[7..] == word
  {
    var s := "default" + word;
    assert s[1..7] == "efault";
    assert "default"[1..7] == "efault";
  }

  lemma SameRest(a: seq<string>, b: seq<string>, rest: seq<string>)
    requires |a| == |b|
    ensures |a + rest| == |b + rest| && forall k :: |a| <= k < |a + rest| ==> (a + rest)[k] == (b + rest)[k]
    ensures forall k :: 0 <= k < |a| ==> (a + rest)[k] == a[k] && (b + rest)[k] == b[k]
  {
  }

  /** A first field marks the default list if and only if it is "d", or begins with "default". */
  lemma MarkIs(fs: seq<string>, want: Kind)
    requires fs != []
    ensures SaysDefault(fs[0]) <==> fs[0] == "d" || (7 <= |fs[0]| && fs[0][..7] == "default")
    ensures ParsePosix(fs, want).Some? ==> ParsePosix(fs, want).value.kind == if SaysDefault(fs[0]) then Default else want
  {
    var s := fs[0];
    if s != [] && s[0] == 'd' && 7 <= |s| {
      assert s[..7] == [s[0]] + s[1..7];
      assert "default" == ['d'] + "efault";
      assert "default"[1..] == "efault" && s[..7][1..] == s[1..7];
    }
    if 7 <= |s| && s[..7] == "default" {
      assert s[0] == s[..7][0] == 'd' && s[1..7] == s[..7][1..] == "default"[1..] == "efault";
    }
  }

  lemma ShortMark(rest: seq<string>, want: Kind)
    ensures ParsePosix(["d"] + rest, want) == ParsePosix(["default"] + rest, want)
  {
    SameRest(["d"], ["default"], rest);
    Marked("default", "user");
  }

  /** No word but these eight is a tag. */
  lemma OtherWord(word: string, rest: seq<string>, mark: string, want: Kind)
    requires word !in {"u", "user", "g", "group", "o", "other", "m", "mask"} && mark in {"d", "default"}
    ensures !SaysDefault(word) ==> ParsePosix([word] + rest, want) == None
    ensures ParsePosix([mark, word] + rest, want) == None
    ensures word != "" ==> ParsePosix(["default" + word] + rest, want) == None
  {
    assert TagOf(word) == None;
    SameRest([word], [word], rest);
    SameRest([mark, word], [mark, word], rest);
    SameRest(["default" + word], ["default" + word], rest);
    Marked(mark, if word == "" then "user" else word);
  }

  // ---------- capital letters ----------

  function Small(c: char): char {
    if c == 'R' then 'r' else if c == 'W' then 'w' else if c == 'X' then 'x' else c
  }

  function Smalls(s: string): (r: string)
    ensures |r| == |s|
  {
    if s == [] then [] else [Small(s[0])] + Smalls(s[1..])
  }

  lemma {:induction false} SmallMode(s: string, acc: Bits)
    ensures ReadMode(Smalls(s), acc) == ReadMode(s, acc)
  {
    if s != [] {
      assert Smalls(s)[1..] == Smalls(s[1..]);
      if ModeBit(s[0]).Some? {
        SmallMode(s[1..], Or(acc, ModeBit(s[0]).value));
      }
    }
  }

  lemma {:induction false} SmallDigits(s: string, n: int)
    ensures Digits(Smalls(s), n) == Digits(s, n)
  {
    if s != [] {
      assert Smalls(s)[1..] == Smalls(s[1..]);
      if '0' <= s[0] <= '9' {
        SmallDigits(s[1..], 10 * n + (s[0] as int - '0' as int));
      }
    }
  }

  lemma SmallInt(s: string)
    ensures IsInt(Smalls(s)) == IsInt(s) && (Smalls(s) == "" <==> s == "")
  {
    SmallDigits(s, 0);
  }

  /** Capital letters in a mode say the same as small ones. */
  lemma CapitalMode(kind: Kind, word: string, f1: string, f2: string, f3: string, count: int)
    ensures ParseBody(kind, word, f1, Smalls(f2), f3, count) == ParseBody(kind, word, f1, f2, f3, count)
  {
    hide ReadMode;
    hide IsInt;
    hide TagOf;
    SmallMode(f2, 0);
    SmallInt(f2);
    hide Smalls;
  }

  /** So do those in the lone mode of another or a mask. */
  lemma CapitalAlone(kind: Kind, word: string, f1: string, f2: string, f3: string, count: int)
    requires TagOf(word) in {Some(Other), Some(Mask)}
    ensures ParseBody(kind, word, Smalls(f1), f2, f3, count) == ParseBody(kind, word, f1, f2, f3, count)
  {
    SmallMode(f1, 0);
    SmallInt(f1);
    hide ReadMode;
    hide IsInt;
    hide TagOf;
    hide Smalls;
    var tag, id1 := TagOf(word).value, IsInt(f1);
    var id3 := if id1.NotInt? && count > 3 then IsInt(f3) else NotInt;
    var id := if id1.Int? then id1.value else if id3.Int? then id3.value else -1;
    SameAlone(kind, tag, id, f1, f2, count);
  }

  lemma SameAlone(kind: Kind, tag: Tag, id: int, f1: string, f2: string, count: int)
    requires tag.Other? || tag.Mask?
    ensures ParseRest(kind, tag, id, Smalls(f1), f2, count) == ParseRest(kind, tag, id, f1, f2, count)
  {
    SmallMode(f1, 0);
    SmallInt(f1);
    hide ReadMode;
    hide Smalls;
  }

  /** Capital letters in the field of the permissions, wherever the mark puts it. */
  lemma CapitalField(fs: seq<string>, want: Kind)
    requires fs != []
    ensures var k := if SaysDefault(fs[0]) && |fs[0]| <= 7 then 3 else 2;
            k < |fs| ==> ParsePosix(fs[k := Smalls(fs[k])], want) == ParsePosix(fs, want)
  {
    hide ParseBody;
    hide Smalls;
    var marked := SaysDefault(fs[0]);
    var n := if marked && |fs[0]| <= 7 then 1 else 0;
    var word := if marked && n == 0 then fs[0][7..] else FieldAt(fs, n, 5);
    CapitalMode(if marked then Default else want, word, FieldAt(fs, n + 1, 5), FieldAt(fs, n + 2, 5),
                FieldAt(fs, n + 3, 5), |fs| - n);
  }

  // ---------- letters and lines as documented ----------

  function OrDash(given: bool, letter: char): char {
    if given then letter else '-'
  }

  lemma {:induction false} LetterAt(table: seq<(Bits, char)>, perm: Bits, k: nat)
    requires k < |table|
    ensures |Letters(table, perm, false)| == |table|
    ensures Letters(table, perm, false)[k] == OrDash(And(perm, table[k].0) != 0, table[k].1)
  {
    if |table| == 1 {
      assert Letters(table[1..], perm, false) == "";
    } else {
      LetterAt(table[1..], perm, if k == 0 then 0 else k - 1);
    }
  }

  lemma AllLetters(table: seq<(Bits, char)>, perm: Bits)
    requires table != []
    ensures |Letters(table, perm, false)| == |table|
    ensures forall k :: 0 <= k < |table| ==> Letters(table, perm, false)[k] == OrDash(And(perm, table[k].0) != 0, table[k].1)
  {
    LetterAt(table, perm, 0);
    forall k | 0 <= k < |table|
      ensures Letters(table, perm, false)[k] == OrDash(And(perm, table[k].0) != 0, table[k].1)
    {
      LetterAt(table, perm, k);
    }
  }

  /** The fourteen permissions of NFSv4 in the order they are printed. */
  lemma PermLetters(perm: Bits)
    ensures var r := Letters(PERM_MAP, perm, false);
            && |r| == 14
            && r[0] == OrDash(And(perm, 0x8) != 0, 'r') && r[1] == OrDash(And(perm, 0x10) != 0, 'w')
            && r[2] == OrDash(And(perm, 0x1) != 0, 'x') && r[3] == OrDash(And(perm, 0x20) != 0, 'p')
            && r[4] == OrDash(And(perm, 0x800) != 0, 'd') && r[5] == OrDash(And(perm, 0x100) != 0, 'D')
            && r[6] == OrDash(And(perm, 0x200) != 0, 'a') && r[7] == OrDash(And(perm, 0x400) != 0, 'A')
            && r[8] == OrDash(And(perm, 0x40) != 0, 'R') && r[9] == OrDash(And(perm, 0x80) != 0, 'W')
            && r[10] == OrDash(And(perm, 0x1000) != 0, 'c') && r[11] == OrDash(And(perm, 0x2000) != 0, 'C')
            && r[12] == OrDash(And(perm, 0x4000) != 0, 'o') && r[13] == OrDash(And(perm, 0x8000) != 0, 's')
  {
    hide OrDash;
    hide And;
    AllLetters(PERM_MAP, perm);
    hide Letters;
  }

  /** And the seven flags. */
  lemma FlagLetters(perm: Bits)
    ensures var r := Letters(FLAG_MAP, perm, false);
            && |r| == 7
            && r[0] == OrDash(And(perm, 0x2000000) != 0, 'f') && r[1] == OrDash(And(perm, 0x4000000) != 0, 'd')
            && r[2] == OrDash(And(perm, 0x10000000) != 0, 'i') && r[3] == OrDash(And(perm, 0x8000000) != 0, 'n')
            && r[4] == OrDash(And(perm, 0x20000000) != 0, 'S') && r[5] == OrDash(And(perm, 0x40000000) != 0, 'F')
            && r[6] == OrDash(And(perm, 0x1000000) != 0, 'I')
  {
    hide OrDash;
    hide And;
    AllLetters(FLAG_MAP, perm);
    hide Letters;
  }

  /** Without the minus signs. */
  function NoDashes(s: string): string {
    if s == "" then "" else (if s[0] == '-' then "" else [s[0]]) + NoDashes(s[1..])
  }

  /** The compact style leaves the minus signs out, and nothing else. */
  lemma {:induction false} CompactLetters(table: seq<(Bits, char)>, perm: Bits)
    requires forall k :: 0 <= k < |table| ==> table[k].1 != '-'
    ensures Letters(table, perm, true) == NoDashes(Letters(table, perm, false))
  {
    if table != [] {
      CompactLetters(table[1..], perm);
      assert Letters(table, perm, false)[1..] == Letters(table[1..], perm, false);
    }
  }

  /** Read, write and execute of one class. */
  function Triad(read: bool, write: bool, execute: bool): string {
    [OrDash(read, 'r'), OrDash(write, 'w'), OrDash(execute, 'x')]
  }

  lemma PlainTriad(perm: Bits)
    requires Only(perm, 7)
    ensures ModeLetters(perm) == Triad(perm & 4 != 0, perm & 2 != 0, perm & 1 != 0)
  {
    assert perm & 0x124 == perm & 4 && perm & 0x92 == perm & 2 && perm & 0x49 == perm & 1;
  }

  lemma ClassTriads(mode: Bits)
    ensures ModeLetters(mode & 0x1C0) == Triad(mode & 0x100 != 0, mode & 0x80 != 0, mode & 0x40 != 0)
    ensures ModeLetters(mode & 0x38) == Triad(mode & 0x20 != 0, mode & 0x10 != 0, mode & 0x8 != 0)
    ensures ModeLetters(mode & 0x7) == Triad(mode & 0x4 != 0, mode & 0x2 != 0, mode & 0x1 != 0)
  {
    var u, g, o := mode & 0x1C0, mode & 0x38, mode & 0x7;
    assert u & 0x124 == mode & 0x100 && u & 0x92 == mode & 0x80 && u & 0x49 == mode & 0x40;
    assert g & 0x124 == mode & 0x20 && g & 0x92 == mode & 0x10 && g & 0x49 == mode & 0x8;
    assert o & 0x124 == mode & 0x4 && o & 0x92 == mode & 0x2 && o & 0x49 == mode & 0x1;
  }

  /** The nine bits of the mode, class by class. */
  lemma ModeText(mode: Bits, style: Style)
    requires !style.solaris
    ensures ModeLines(mode, style)
         == ["user::" + Triad(mode & 0x100 != 0, mode & 0x80 != 0, mode & 0x40 != 0),
             "group::" + Triad(mode & 0x20 != 0, mode & 0x10 != 0, mode & 0x8 != 0),
             "other::" + Triad(mode & 0x4 != 0, mode & 0x2 != 0, mode & 0x1 != 0)]
  {
    ClassTriads(mode);
    hide ModeLetters;
    hide Triad;
    hide Letters;
    assert "" + "user" + ":" + ("" + ":") == "user::";
    assert "" + "group" + ":" + ("" + ":") == "group::";
    assert "" + "other" + ":" + ("" + ":") == "other::";
    NoId("user::" + ModeLetters(mode & 0x1C0));
    NoId("group::" + ModeLetters(mode & 0x38));
    NoId("other::" + ModeLetters(mode & 0x7));
  }

  lemma NoId(s: string)
    ensures s + "" == s
  {
  }

  /** The word of a tag in a POSIX.1e list, spelt out. */
  predicate Spelt(tag: Tag, word: string) {
    || (word == "user" && (tag.User? || tag.UserObj?)) || (word == "group" && (tag.Group? || tag.GroupObj?))
    || (word == "mask" && tag.Mask?) || (word == "other" && tag.Other?)
  }

  /**
    A line of a POSIX.1e list without the extra id: the mark of the default list, the word, the name or in its place the
    number of a user or group, and three letters.
   */
  lemma PosixText(e: Entry, mark: bool, word: string)
    requires IsPosix(e.kind) && TagFits(e.kind, e.tag) && Only(e.permset, 7) && Spelt(e.tag, word)
    ensures var style := Style(false, mark, false, false, false);
            Line(e, style, mark)
            == (if e.kind == Default && mark then "default:" else "") + word + ":"
               + (if !Named(e.tag) then "" else if e.name.Some? then e.name.value else AppendId(e.id)) + ":"
               + Triad(e.permset & 4 != 0, e.permset & 2 != 0, e.permset & 1 != 0)
  {
    PlainTriad(e.permset);
    hide Triad;
    hide Only;
    PosixParts(e, mark);
    hide ModeLetters;
    hide AppendId;
    hide Line;
    var front := (if e.kind == Default && mark then "default:" else "") + word + ":";
    var name := if !Named(e.tag) then "" else if e.name.Some? then e.name.value else AppendId(e.id);
    assert front + (name + ":") == front + name + ":";
  }

  lemma PosixParts(e: Entry, mark: bool)
    requires IsPosix(e.kind) && TagFits(e.kind, e.tag)
    ensures var style := Style(false, mark, false, false, false);
            Line(e, style, mark)
            == (if e.kind == Default && mark then "default:" else "") + TagText(e.kind, e.tag) + ":"
               + ((if !Named(e.tag) then "" else if e.name.Some? then e.name.value else AppendId(e.id)) + ":")
               + ModeLetters(e.permset)
  {
    hide TagText;
    hide ModeLetters;
    hide Letters;
    hide AppendId;
  }

  /** The word of a tag, and of a type, in an NFSv4 list. */
  predicate SpeltNfs(tag: Tag, word: string) {
    || (word == "user" && tag.User?) || (word == "owner@" && tag.UserObj?) || (word == "group" && tag.Group?)
    || (word == "group@" && tag.GroupObj?) || (word == "everyone@" && tag.Everyone?)
  }

  predicate SpeltKind(kind: Kind, word: string) {
    || (word == "allow" && kind == Allow) || (word == "deny" && kind == Deny) || (word == "audit" && kind == Audit)
    || (word == "alarm" && kind == Alarm)
  }

  /** A line of an NFSv4 list with the extra id: word, name, permissions, flags, type, and the id of a user or group. */
  lemma NfsText(e: Entry, compact: bool, word: string, kind: string)
    requires SpeltNfs(e.tag, word) && SpeltKind(e.kind, kind) && e.name.Some? && e.id != -1
    ensures var style := Style(true, false, false, false, compact);
            Line(e, style, false)
            == word + ":" + (if Named(e.tag) then e.name.value + ":" else "")
               + Letters(PERM_MAP, e.permset, compact) + ":" + Letters(FLAG_MAP, e.permset, compact) + ":" + kind
               + (if Named(e.tag) then ":" + AppendId(e.id) else "")
  {
    hide Letters;
    hide AppendId;
    hide ModeLetters;
    var p, f := Letters(PERM_MAP, e.permset, compact), Letters(FLAG_MAP, e.permset, compact);
    var middle, tail := if Named(e.tag) then e.name.value + ":" else "", if Named(e.tag) then ":" + AppendId(e.id) else "";
    assert TagText(e.kind, e.tag) == word && KindText(e.kind) == kind;
    NfsParts(e, compact);
    hide Line;
    hide TagText;
    hide KindText;
    Regroup(word, middle, p, f, kind, tail);
  }

  lemma NfsParts(e: Entry, compact: bool)
    requires IsNfs4(e.kind) && e.name.Some? && e.id != -1 && !e.tag.NoTag? && TagFits(e.kind, e.tag)
    ensures var style := Style(true, false, false, false, compact);
            Line(e, style, false)
            == "" + TagText(e.kind, e.tag) + ":" + (if Named(e.tag) then e.name.value + ":" else "")
               + (Letters(PERM_MAP, e.permset, compact) + ":" + Letters(FLAG_MAP, e.permset, compact) + ":"
                  + KindText(e.kind))
               + (if Named(e.tag) then ":" + AppendId(e.id) else "")
  {
    hide Letters;
    hide AppendId;
    hide ModeLetters;
    hide TagText;
    hide KindText;
  }

  lemma Regroup(text: string, middle: string, p: string, f: string, kind: string, tail: string)
    ensures "" + text + ":" + middle + (p + ":" + f + ":" + kind) + tail
         == text + ":" + middle + p + ":" + f + ":" + kind + tail
  {
    var head := text + ":" + middle;
    assert head + (p + ":" + f + ":" + kind) == head + p + ":" + f + ":" + kind by {
      Associate(head, p + ":" + f, ":", kind);
      Associate(head, p, ":", f);
    }
  }

  lemma Associate(a: string, b: string, c: string, d: string)
    ensures a + (b + c + d) == a + b + c + d
  {
    assert a + (b + c + d) == (a + (b + c)) + d;
    assert a + (b + c) == (a + b) + c;
  }

  /** No other words are read in an NFSv4 list. */
  lemma OtherNfsWord(fs: seq<string>)
    requires fs != [] && ParseNfs4(fs).Some?
    ensures SpeltNfs(ParseNfs4(fs).value.tag, fs[0])
    ensures var k := if fs[0] in {"user", "group"} then 4 else 3; k < |fs| && SpeltKind(ParseNfs4(fs).value.kind, fs[k])
  {
    hide ReadLetters;
    hide IsInt;
  }
}
