/** The text form of access control lists: printing, and parsing entry by entry and field by field. */
module AclText {
  import opened Options
  import opened AclSpec

  // ---------- printing ----------

  datatype Style = Style(extraId: bool, markDefault: bool, solaris: bool, comma: bool, compact: bool)

  const PERM_MAP: seq<(Bits, char)> := [
    (0x8, 'r'), (0x10, 'w'), (0x1, 'x'), (0x20, 'p'), (0x800, 'd'), (0x100, 'D'), (0x200, 'a'), (0x400, 'A'),
    (0x40, 'R'), (0x80, 'W'), (0x1000, 'c'), (0x2000, 'C'), (0x4000, 'o'), (0x8000, 's')]

  const FLAG_MAP: seq<(Bits, char)> := [
    (0x200_0000, 'f'), (0x400_0000, 'd'), (0x1000_0000, 'i'), (0x800_0000, 'n'), (0x2000_0000, 'S'), (0x4000_0000, 'F'),
    (0x100_0000, 'I')]

  function Digit(d: nat): char
    requires d < 10
  {
    "0123456789"[d]
  }

  function AppendId(id: int): string
    decreases if id < 0 then 0 else id
  {
    if id < 0 then "0" else if id > 9 then AppendId(id / 10) + [Digit(id % 10)] else [Digit(id)]
  }

  function Letter(bit: (Bits, char), perm: Bits, compact: bool): string {
    if And(perm, bit.0) != 0 then [bit.1] else if compact then "" else "-"
  }

  /** One letter for each permission given; a minus sign for the others, unless the style is compact. */
  function Letters(table: seq<(Bits, char)>, perm: Bits, compact: bool): string {
    if table == [] then ""
    else Letter(table[0], perm, compact) + Letters(table[1..], perm, compact)
  }

  function ModeLetters(perm: Bits): string {
    [if perm & 0x124 != 0 then 'r' else '-', if perm & 0x92 != 0 then 'w' else '-', if perm & 0x49 != 0 then 'x' else '-']
  }

  predicate Named(tag: Tag) {
    tag.User? || tag.Group?
  }

  function TagText(kind: Kind, tag: Tag): string {
    match tag
    case User => "user"
    case UserObj => if IsNfs4(kind) then "owner@" else "user"
    case Group => "group"
    case GroupObj => if IsNfs4(kind) then "group@" else "group"
    case Mask => "mask"
    case Other => "other"
    case Everyone => "everyone@"
    case NoTag(_) => ""
  }

  function KindText(kind: Kind): string {
    match kind
    case Allow => "allow"
    case Deny => "deny"
    case Audit => "audit"
    case Alarm => "alarm"
    case _ => ""
  }

  /** `append_entry`: what is appended for one entry. */
  function AppendEntry(prefix: string, kind: Kind, tag: Tag, style: Style, name: Option<string>, perm: Bits, id: int): string {
    var other := tag.UserObj? || tag.GroupObj? || tag.Mask? || tag.Other? || tag.Everyone?;
    var name1, id1 := if other then None else name, if other then -1 else id;
    var second := IsPosix(kind) || Named(tag);
    var middle :=
      if !second then ""
      else
        (if name1.Some? then name1.value else if Named(tag) then AppendId(id1) else "")
        + if style.solaris && (tag.Other? || tag.Mask?) then "" else ":";
    var id2 := if second && name1.None? && Named(tag) && !IsNfs4(kind) then -1 else id1;
    var perms :=
      if IsPosix(kind) then ModeLetters(perm)
      else Letters(PERM_MAP, perm, style.compact) + ":" + Letters(FLAG_MAP, perm, style.compact) + ":" + KindText(kind);
    prefix + TagText(kind, tag) + ":" + middle + perms + if id2 != -1 then ":" + AppendId(id2) else ""
  }

  /** The types to print: all of an NFSv4 list; of a POSIX.1e one those asked for, or both; none when types are mixed. */
  function WantType(types: set<Kind>, asked: set<Kind>): set<Kind> {
    if types * NFS4 != {} then (if types * POSIX1E != {} then {} else NFS4)
    else if asked * POSIX1E == {} then POSIX1E
    else asked * POSIX1E
  }

  /** The entries of the list that are printed. */
  function Printed(es: seq<Entry>, want: set<Kind>): seq<Entry> {
    if es == [] then []
    else (if es[0].kind in want && !InMode(es[0].kind, es[0].tag) then [es[0]] else []) + Printed(es[1..], want)
  }

  function Line(e: Entry, style: Style, mark: bool): string {
    AppendEntry(if e.kind == Default && mark then "default:" else "", e.kind, e.tag, style, e.name, e.permset,
                if e.name.None? || style.extraId then e.id else -1)
  }

  function ModeLines(mode: Bits, style: Style): seq<string> {
    [AppendEntry("", Access, UserObj, style, None, mode & 0x1C0, -1),
     AppendEntry("", Access, GroupObj, style, None, mode & 0x38, -1),
     AppendEntry("", Access, Other, style, None, mode & 0x7, -1)]
  }

  function Lines(es: seq<Entry>, style: Style, mark: bool): seq<string> {
    if es == [] then [] else [Line(es[0], style, mark)] + Lines(es[1..], style, mark)
  }

  function Join(lines: seq<string>, separator: char): string {
    if lines == [] then "" else if |lines| == 1 then lines[0] else lines[0] + [separator] + Join(lines[1..], separator)
  }

  /** The text of a list; none when the types are mixed or there is nothing beyond the mode to print. */
  function ToText(l: List, style: Style, asked: set<Kind>): Option<string> {
    var want := WantType(l.types, asked);
    var mark := style.markDefault || want == POSIX1E;
    if want == {} || Printed(l.entries, want) == [] then None
    else
      Some(Join((if Access in want then ModeLines(l.mode, style) else []) + Lines(Printed(l.entries, want), style, mark),
                if style.comma then ',' else '\n'))
  }

  // ---------- fields ----------

  predicate Blank(c: char) {
    c == ' ' || c == '\t' || c == '\n'
  }

  predicate EndsEntry(c: char) {
    c == ',' || c == '\n'
  }

  predicate EndsField(c: char) {
    EndsEntry(c) || c == ':' || c == '#'
  }

  function SkipBlanks(t: string, i: nat): (j: nat)
    requires i <= |t|
    ensures i <= j <= |t|
    decreases |t| - i
  {
    if i < |t| && Blank(t[i]) then SkipBlanks(t, i + 1) else i
  }

  function WordEnd(t: string, i: nat): (j: nat)
    requires i <= |t|
    ensures i <= j <= |t|
    decreases |t| - i
  {
    if i < |t| && !Blank(t[i]) && !EndsField(t[i]) then WordEnd(t, i + 1) else i
  }

  function SeparatorAt(t: string, i: nat): (j: nat)
    requires i <= |t|
    ensures i <= j <= |t| && (j < |t| ==> EndsField(t[j]))
    decreases |t| - i
  {
    if i < |t| && !EndsField(t[i]) then SeparatorAt(t, i + 1) else i
  }

  function CommentEnd(t: string, i: nat): (j: nat)
    requires i <= |t|
    ensures i <= j <= |t| && (j < |t| ==> EndsEntry(t[j]))
    decreases |t| - i
  {
    if i < |t| && !EndsEntry(t[i]) then CommentEnd(t, i + 1) else i
  }

  /** Where a field lies, the separator behind it, or NUL, and where the next one starts. */
  datatype Field = Field(start: nat, end: nat, sep: char, next: nat)

  /** `next_field`. */
  function NextField(t: string, i: nat): (f: Field)
    requires i <= |t|
    ensures i <= f.start <= f.end <= |t| && f.end <= f.next <= |t|
    ensures i < |t| ==> i < f.next
    ensures f.sep == ':' ==> i < f.next
  {
    var start := SkipBlanks(t, i);
    var end := WordEnd(t, start);
    var at := SeparatorAt(t, end);
    var stop := if at < |t| && t[at] == '#' then CommentEnd(t, at) else at;
    Field(start, end, if stop < |t| then t[stop] else '\0', if stop < |t| then stop + 1 else stop)
  }

  /** The fields up to the next separator that is no colon, and where the next entry starts. */
  function EntryFields(t: string, i: nat): (r: (seq<string>, nat))
    requires i <= |t|
    ensures i <= r.1 <= |t| && r.0 != [] && (i < |t| ==> i < r.1)
    decreases |t| - i
  {
    var f := NextField(t, i);
    if f.sep == ':' then
      var (fs, next) := EntryFields(t, f.next);
      ([t[f.start..f.end]] + fs, next)
    else ([t[f.start..f.end]], f.next)
  }

  // ---------- parsing one entry ----------

  const INT_MAX: int := 0x7FFF_FFFF

  datatype Number = NotInt | TooBig | Int(value: int)

  /** `isint`, having read `n` so far. */
  function Digits(s: string, n: int): Number {
    if s == [] then Int(n)
    else if s[0] < '0' || s[0] > '9' then NotInt
    else
      var d := s[0] as int - '0' as int;
      if n > INT_MAX / 10 || (n == INT_MAX / 10 && d >= INT_MAX % 10) then TooBig else Digits(s[1..], 10 * n + d)
  }

  function IsInt(s: string): Number {
    if s == [] then NotInt else Digits(s, 0)
  }

  function ModeBit(c: char): Option<Bits> {
    if c == 'r' || c == 'R' then Some(READ)
    else if c == 'w' || c == 'W' then Some(WRITE)
    else if c == 'x' || c == 'X' then Some(EXECUTE)
    else if c == '-' then Some(0)
    else None
  }

  /** The letters up to the first wrong one, and whether there is none. */
  function ReadMode(s: string, acc: Bits): (bool, Bits) {
    if s == [] then (true, acc)
    else if ModeBit(s[0]).None? then (false, acc)
    else ReadMode(s[1..], Or(acc, ModeBit(s[0]).value))
  }

  function PermBit(c: char): Option<Bits> {
    match c
    case 'r' => Some(0x8)
    case 'w' => Some(0x10)
    case 'x' => Some(0x1)
    case 'p' => Some(0x20)
    case 'D' => Some(0x100)
    case 'd' => Some(0x800)
    case 'a' => Some(0x200)
    case 'A' => Some(0x400)
    case 'R' => Some(0x40)
    case 'W' => Some(0x80)
    case 'c' => Some(0x1000)
    case 'C' => Some(0x2000)
    case 'o' => Some(0x4000)
    case 's' => Some(0x8000)
    case '-' => Some(0)
    case _ => None
  }

  function FlagBit(c: char): Option<Bits> {
    match c
    case 'f' => Some(0x200_0000)
    case 'd' => Some(0x400_0000)
    case 'i' => Some(0x1000_0000)
    case 'n' => Some(0x800_0000)
    case 'S' => Some(0x2000_0000)
    case 'F' => Some(0x4000_0000)
    case 'I' => Some(0x100_0000)
    case '-' => Some(0)
    case _ => None
  }

  function ReadLetters(bit: char -> Option<Bits>, s: string, acc: Bits): Option<Bits> {
    if s == [] then Some(acc)
    else if bit(s[0]).None? then None
    else ReadLetters(bit, s[1..], Or(acc, bit(s[0]).value))
  }

  /** Field `k`, blank when there is none. */
  function FieldAt(fs: seq<string>, k: nat, limit: nat): string {
    if k < |fs| && k < limit then fs[k] else ""
  }

  predicate SaysDefault(s: string) {
    s != [] && s[0] == 'd' && (|s| == 1 || (|s| >= 7 && s[1..7] == "efault"))
  }

  function TagOf(s: string): Option<Tag> {
    if s == "u" || s == "user" then Some(UserObj)
    else if s == "g" || s == "group" then Some(GroupObj)
    else if s == "o" || s == "other" then Some(Other)
    else if s == "m" || s == "mask" then Some(Mask)
    else None
  }

  /** An entry of a POSIX.1e list, or none when the text is wrong: the word "default" first makes it a default entry. */
  function ParsePosix(fs: seq<string>, want: Kind): Option<Entry>
    requires fs != []
  {
    var marked := SaysDefault(fs[0]);
    var n := if marked && |fs[0]| <= 7 then 1 else 0;
    var word := if marked && n == 0 then fs[0][7..] else FieldAt(fs, n, 5);
    ParseBody(if marked then Default else want, word, FieldAt(fs, n + 1, 5), FieldAt(fs, n + 2, 5), FieldAt(fs, n + 3, 5), |fs| - n)
  }

  /** The tag word and the three fields behind it, `count` being the number of fields from the tag word on. */
  function ParseBody(kind: Kind, word: string, f1: string, f2: string, f3: string, count: int): Option<Entry> {
    var id1 := IsInt(f1);
    var id3 := if id1.NotInt? && count > 3 then IsInt(f3) else NotInt;
    if id1.TooBig? || id3.TooBig? || TagOf(word).None? then None
    else
      ParseRest(kind, TagOf(word).value, if id1.Int? then id1.value else if id3.Int? then id3.value else -1, f1, f2, count)
  }

  /** What is left of the entry, its tag and id being known: a name makes it a user or group, and a mode must be given. */
  function ParseRest(kind: Kind, tag: Tag, id: int, f1: string, f2: string, count: int): Option<Entry> {
    var alone := (tag.Other? || tag.Mask?) && count == 2 && f1 != "";
    var first := if alone then ReadMode(f1, 0) else (false, 0);
    if (tag.Other? || tag.Mask?) && count == 3 && f1 != "" then None
    else
      var named := (tag.UserObj? || tag.GroupObj?) && (id != -1 || f1 != "");
      var field := if first.0 then f1 else f2;
      var mode := if first.1 != 0 then (true, first.1) else if field == "" then (false, 0) else ReadMode(field, 0);
      if !mode.0 then None
      else if named then Some(Entry(kind, if tag.UserObj? then User else Group, mode.1, id, NameOf(f1)))
      else Some(Entry(kind, tag, mode.1, id, None))
  }

  function NfsTagOf(s: string): Option<Tag> {
    if s == "user" then Some(User)
    else if s == "group" then Some(Group)
    else if s == "owner@" then Some(UserObj)
    else if s == "group@" then Some(GroupObj)
    else if s == "everyone@" then Some(Everyone)
    else None
  }

  function NfsKindOf(s: string): Option<Kind> {
    if s == "deny" then Some(Deny)
    else if s == "allow" then Some(Allow)
    else if s == "audit" then Some(Audit)
    else if s == "alarm" then Some(Alarm)
    else None
  }

  /** An entry of an NFSv4 list, or none when the text is wrong. */
  function ParseNfs4(fs: seq<string>): Option<Entry>
    requires fs != []
  {
    var tag := NfsTagOf(fs[0]);
    if tag.None? then None
    else
      var n := if Named(tag.value) then 1 else 0;
      var name := if n == 1 then FieldAt(fs, 1, 6) else "";
      var id1 := if n == 1 then IsInt(name) else NotInt;
      if id1.TooBig? then None
      else
        var perms := ReadLetters(PermBit, FieldAt(fs, n + 1, 6), 0);
        if perms.None? then None
        else
          var flags := ReadLetters(FlagBit, FieldAt(fs, n + 2, 6), perms.value);
          var kind := NfsKindOf(FieldAt(fs, n + 3, 6));
          var id2 := IsInt(FieldAt(fs, n + 4, 6));
          if flags.None? || kind.None? || id2.TooBig? then None
          else
            var id := if id2.Int? then id2.value else if id1.Int? then id1.value else -1;
            Some(Entry(kind.value, tag.value, flags.value, id, NameOf(name)))
  }

  // ---------- parsing a text ----------

  datatype Want = WantPosix(kind: Kind) | WantNfs4

  datatype Status = Ok | Warn | Failed | Fatal

  datatype Result = Result(list: List, status: Status)

  function ParseEntry(fs: seq<string>, want: Want): Option<Entry>
    requires fs != []
  {
    if want.WantNfs4? then ParseNfs4(fs) else ParsePosix(fs, want.kind)
  }

  /** `archive_acl_from_text_nl` from `i` on: wrong entries are passed over, one that cannot be added ends it. */
  function FromText(l: List, t: string, i: nat, want: Want, status: Status): Result
    requires i <= |t|
    decreases |t| - i
  {
    if i == |t| || t[i] == '\0' then Result(l, status)
    else
      var (fs, next) := EntryFields(t, i);
      var start := SkipBlanks(t, i);
      if start == |t| then FromText(l, t, next, want, Warn)
      else if t[start] == '#' then FromText(l, t, next, want, status)
      else
        var e := ParseEntry(fs, want);
        if e.None? then FromText(l, t, next, want, Warn)
        else
          var r := Add(l, e.value);
          if r.None? then Result(l, Failed) else FromText(r.value, t, next, want, status)
  }

  /** The types of the entries that `FromText` adds, up to one that cannot be added. */
  function KindsRead(l: List, t: string, i: nat, want: Want): set<Kind>
    requires i <= |t|
    decreases |t| - i
  {
    if i == |t| || t[i] == '\0' then {}
    else
      var (fs, next) := EntryFields(t, i);
      var start := SkipBlanks(t, i);
      if start == |t| || t[start] == '#' then KindsRead(l, t, next, want)
      else
        var e := ParseEntry(fs, want);
        if e.None? then KindsRead(l, t, next, want)
        else
          var r := Add(l, e.value);
          if r.None? then {} else {e.value.kind} + KindsRead(r.value, t, next, want)
  }

  lemma AddTypes(l: List, e: Entry)
    requires Valid(l) && Add(l, e).Some?
    ensures var types := Add(l, e).value.types;
            l.types <= types <= l.types + {e.kind} && e.kind in types + {Access}
  {
    hide WithMode;
    hide Fits;
    if !(InMode(e.kind, e.tag) && Plain(e.permset)) {
      assert EntryOk(l, Find(l.entries, e.kind, e.tag, e.id));
    }
  }

  /** The types read are those the list gains or has already, and that of the entries kept in the mode. */
  lemma {:induction false} KindsReadAre(l: List, t: string, i: nat, want: Want, status: Status)
    requires i <= |t| && Valid(l)
    ensures var types, kinds := FromText(l, t, i, want, status).list.types, KindsRead(l, t, i, want);
            l.types <= types <= l.types + kinds && kinds <= types + {Access}
    decreases |t| - i
  {
    hide Valid;
    hide EntryFields;
    hide ParseEntry;
    hide Add;
    if i == |t| || t[i] == '\0' {
    } else {
      var (fs, next) := EntryFields(t, i);
      var start := SkipBlanks(t, i);
      if start == |t| {
        KindsReadAre(l, t, next, want, Warn);
      } else if t[start] == '#' {
        KindsReadAre(l, t, next, want, status);
      } else if ParseEntry(fs, want).None? {
        KindsReadAre(l, t, next, want, Warn);
      } else {
        var e := ParseEntry(fs, want).value;
        if Add(l, e).Some? {
          AddTypes(l, e);
          AddKeeps(l, e);
          KindsReadAre(Add(l, e).value, t, next, want, status);
        }
      }
    }
  }
}
