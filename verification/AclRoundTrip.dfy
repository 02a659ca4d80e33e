/** What is printed with numeric ids is read back as the same list. */
module AclRoundTrip {
  import opened Options
  import opened AclSpec
  import opened AclText

  // ---------- numbers ----------

  /** Reading the digits of a number, after those of `n`. */
  lemma {:induction false} DigitsSnoc(s: string, n: int, c: char)
    requires 0 <= n && Digits(s, n).Int? && '0' <= c <= '9'
    ensures var m := Digits(s, n).value;
            var d := c as int - '0' as int;
            Digits(s + [c], n) ==
            if m > INT_MAX / 10 || (m == INT_MAX / 10 && d >= INT_MAX % 10) then TooBig else Int(10 * m + d)
  {
    if s == [] {
      assert ([c])[1..] == [];
    } else {
      assert (s + [c])[1..] == s[1..] + [c];
      DigitsSnoc(s[1..], 10 * n + (s[0] as int - '0' as int), c);
    }
  }

  lemma DigitRange(d: nat)
    requires d < 10
    ensures '0' <= Digit(d) <= '9' && Digit(d) as int - '0' as int == d
  {
  }

  /** An id below INT_MAX is printed as digits that are read as that id; INT_MAX itself is not. */
  lemma {:induction false} IdRoundTrip(id: nat)
    ensures id < INT_MAX ==> IsInt(AppendId(id)) == Int(id)
    ensures id == INT_MAX ==> IsInt(AppendId(id)) == TooBig
    ensures AppendId(id) != "" && forall c :: c in AppendId(id) ==> '0' <= c <= '9'
  {
    if id > 9 {
      IdRoundTrip(id / 10);
      DigitRange(id % 10);
      if id <= INT_MAX {
        DigitsSnoc(AppendId(id / 10), 0, Digit(id % 10));
      }
    } else {
      DigitRange(id);
      assert AppendId(id) == [Digit(id)] && [Digit(id)][1..] == [];
      assert Digits([], 10 * 0 + id) == Int(id);
    }
  }

  // ---------- permissions ----------

  /** A single bit is there or not. */
  lemma BitOrNot(b: Bits, perm: Bits, acc: Bits)
    requires Single(b)
    ensures Or(acc, And(perm, b)) == if And(perm, b) != 0 then Or(acc, b) else acc
  {
    if And(perm, b) == 0 {
      OrZero(acc, perm);
    }
  }

  lemma OrShift(a: Bits, b: Bits, c: Bits, perm: Bits)
    ensures Or(Or(a, And(perm, b)), And(perm, c)) == Or(a, And(perm, Or(b, c)))
  {
  }

  lemma OrZero(a: Bits, perm: Bits)
    ensures Or(a, And(perm, 0)) == a && Or(a, 0) == a
  {
  }

  function AllBits(table: seq<(Bits, char)>): Bits {
    if table == [] then 0 else Or(table[0].0, AllBits(table[1..]))
  }

  /** The letters of a table are single bits, read as such. */
  ghost predicate Readable(table: seq<(Bits, char)>, bit: char -> Option<Bits>) {
    bit('-') == Some(0) && forall k :: 0 <= k < |table| ==> RowOk(table[k], bit)
  }

  /** All of `b` or nothing of it is in any set of bits. */
  ghost predicate Single(b: Bits) {
    forall perm :: And(perm, b) == 0 || And(perm, b) == b
  }

  ghost predicate RowOk(row: (Bits, char), bit: char -> Option<Bits>) {
    bit(row.1) == Some(row.0) && Single(row.0)
  }

  lemma {:induction false} LettersRoundTrip(
      table: seq<(Bits, char)>, bit: char -> Option<Bits>, perm: Bits, compact: bool, acc: Bits)
    requires Readable(table, bit)
    ensures ReadLetters(bit, Letters(table, perm, compact), acc) == Some(Or(acc, And(perm, AllBits(table))))
  {
    hide Or;
    hide And;
    if table == [] {
      OrZero(acc, perm);
    } else {
      hide ReadLetters;
      hide RowOk;
      var row := table[0];
      var rest := Letters(table[1..], perm, compact);
      assert RowOk(row, bit);
      assert Readable(table[1..], bit) by {
        forall k | 0 <= k < |table[1..]| ensures RowOk(table[1..][k], bit) {
          assert table[1..][k] == table[k + 1];
        }
      }
      OneLetter(row, bit, perm, compact, rest, acc);
      LettersRoundTrip(table[1..], bit, perm, compact, Or(acc, And(perm, row.0)));
      OrShift(acc, row.0, AllBits(table[1..]), perm);
    }
  }

  /** The letter of one row, or what stands for it, adds the row's bit when it is given. */
  lemma OneLetter(row: (Bits, char), bit: char -> Option<Bits>, perm: Bits, compact: bool, rest: string, acc: Bits)
    requires RowOk(row, bit) && bit('-') == Some(0)
    ensures var first := if And(perm, row.0) != 0 then [row.1] else if compact then "" else "-";
            ReadLetters(bit, first + rest, acc) == ReadLetters(bit, rest, Or(acc, And(perm, row.0)))
  {
    hide Or;
    hide And;
    hide Single;
    var first := if And(perm, row.0) != 0 then [row.1] else if compact then "" else "-";
    FirstLetter(bit, first, rest, acc);
    BitOrNot(row.0, perm, acc);
    OrZero(acc, perm);
  }

  lemma FirstLetter(bit: char -> Option<Bits>, first: string, rest: string, acc: Bits)
    requires |first| <= 1 && (first != "" ==> bit(first[0]).Some?)
    ensures ReadLetters(bit, first + rest, acc) == ReadLetters(bit, rest, if first == "" then acc else Or(acc, bit(first[0]).value))
  {
    hide Or;
    if first == "" {
      assert first + rest == rest;
    } else {
      assert (first + rest)[1..] == rest;
    }
  }

  lemma PermTable()
    ensures Readable(PERM_MAP, PermBit) && AllBits(PERM_MAP) == PERMS_NFS4
  {
    hide RowOk;
    hide AllBits;
    forall k | 0 <= k < |PERM_MAP| ensures RowOk(PERM_MAP[k], PermBit) {
      PermRow(k);
    }
    PermSum();
  }

  lemma PermSum()
    ensures AllBits(PERM_MAP) == PERMS_NFS4
  {
  }

  lemma PermRow(k: nat)
    requires k < |PERM_MAP|
    ensures RowOk(PERM_MAP[k], PermBit)
  {
    if k < 7 {
      assert k == 0 || k == 1 || k == 2 || k == 3 || k == 4 || k == 5 || k == 6;
    } else {
      assert k == 7 || k == 8 || k == 9 || k == 10 || k == 11 || k == 12 || k == 13;
    }
  }

  lemma FlagTable()
    ensures Readable(FLAG_MAP, FlagBit) && AllBits(FLAG_MAP) == INHERITANCE_NFS4
  {
    hide RowOk;
    forall k | 0 <= k < |FLAG_MAP| ensures RowOk(FLAG_MAP[k], FlagBit) {
      FlagRow(k);
    }
  }

  lemma FlagRow(k: nat)
    requires k < |FLAG_MAP|
    ensures RowOk(FLAG_MAP[k], FlagBit)
  {
    assert k == 0 || k == 1 || k == 2 || k == 3 || k == 4 || k == 5 || k == 6;
  }

  /** Both letter fields together give the permissions of an NFSv4 entry. */
  lemma NfsPerms(perm: Bits, compact: bool)
    requires perm & !(PERMS_NFS4 | INHERITANCE_NFS4) == 0
    ensures ReadLetters(PermBit, Letters(PERM_MAP, perm, compact), 0) == Some(perm & PERMS_NFS4)
    ensures ReadLetters(FlagBit, Letters(FLAG_MAP, perm, compact), perm & PERMS_NFS4) == Some(perm)
  {
    hide ReadLetters;
    hide Letters;
    hide Readable;
    hide AllBits;
    hide Or;
    hide And;
    PermTable();
    FlagTable();
    LettersRoundTrip(PERM_MAP, PermBit, perm, compact, 0);
    LettersRoundTrip(FLAG_MAP, FlagBit, perm, compact, perm & PERMS_NFS4);
    PermParts(perm);
  }

  lemma PermParts(perm: Bits)
    requires perm & !(0xFFF9 | 0x7F00_0000) == 0
    ensures Or(0, And(perm, 0xFFF9)) == perm & 0xFFF9
    ensures Or(perm & 0xFFF9, And(perm, 0x7F00_0000)) == perm
  {
  }

  /** The three letters of a mode are read as its bits. */
  lemma ModeRoundTrip(perm: Bits)
    ensures var m := (if perm & 0x124 != 0 then READ else 0) | (if perm & 0x92 != 0 then WRITE else 0)
                     | if perm & 0x49 != 0 then EXECUTE else 0;
            ReadMode(ModeLetters(perm), 0) == (true, m)
  {
    var s := ModeLetters(perm);
    assert s[1..][0] == s[1] && s[1..][1..][0] == s[2] && s[1..][1..][1..] == [];
    var r := if perm & 0x124 != 0 then READ else 0;
    var w := if perm & 0x92 != 0 then WRITE else 0;
    var x := if perm & 0x49 != 0 then EXECUTE else 0;
    assert ReadMode(s, 0) == ReadMode(s[1..], Or(0, r));
    assert ReadMode(s[1..], Or(0, r)) == ReadMode(s[1..][1..], Or(Or(0, r), w));
    assert ReadMode(s[1..][1..], Or(Or(0, r), w)) == ReadMode([], Or(Or(Or(0, r), w), x));
  }

  lemma PosixPerms(perm: Bits)
    requires perm & !PERMS_POSIX1E == 0
    ensures ReadMode(ModeLetters(perm), 0) == (true, perm)
  {
    ModeRoundTrip(perm);
    SmallPerms(perm);
  }

  lemma SmallPerms(perm: Bits)
    requires perm & !0x7 == 0
    ensures (if perm & 0x124 != 0 then 4 else 0) | (if perm & 0x92 != 0 then 2 else 0) | (if perm & 0x49 != 0 then 1 else 0)
            == perm
  {
  }

  // ---------- fields ----------

  /** Text that `next_field` takes for one field. */
  predicate Clean(s: string) {
    s == "" || (!Blank(s[0]) && !EndsField(s[0]) && Clean(s[1..]))
  }

  /** `t` goes on with `a` at `i`. */
  predicate Here(t: string, i: nat, a: string) {
    i + |a| <= |t| && t[i..i + |a|] == a
  }

  lemma HereSplit(t: string, i: nat, a: string, b: string)
    requires Here(t, i, a + b)
    ensures Here(t, i, a) && Here(t, i + |a|, b)
  {
    assert t[i..i + |a|] == t[i..i + |a + b|][..|a|];
    assert t[i + |a|..i + |a| + |b|] == t[i..i + |a + b|][|a|..];
  }

  lemma {:induction false} WordIs(t: string, i: nat, w: string)
    requires Here(t, i, w) && Clean(w) && (i + |w| == |t| || Blank(t[i + |w|]) || EndsField(t[i + |w|]))
    ensures WordEnd(t, i) == i + |w|
    decreases |w|
  {
    if w != [] {
      assert t[i] == t[i..i + |w|][0] == w[0];
      assert t[i + 1..i + 1 + |w[1..]|] == t[i..i + |w|][1..];
      WordIs(t, i + 1, w[1..]);
    }
  }

  /** A clean word before a separator is the next field. */
  lemma FieldIs(t: string, i: nat, w: string)
    requires Here(t, i, w) && Clean(w)
    requires i + |w| == |t| || t[i + |w|] == ':' || EndsEntry(t[i + |w|])
    requires w == "" ==> i < |t| && t[i] == ':'
    ensures var at := i + |w|;
            NextField(t, i) == Field(i, at, if at < |t| then t[at] else '\0', if at < |t| then at + 1 else at)
  {
    hide SkipBlanks;
    hide WordEnd;
    hide SeparatorAt;
    hide CommentEnd;
    hide Clean;
    hide Here;
    FieldEnds(t, i, w);
    NoBlank(t, i, w);
    WordIs(t, i, w);
    AtSeparator(t, i + |w|);
  }

  lemma NoBlank(t: string, i: nat, w: string)
    requires Here(t, i, w) && Clean(w) && (w == "" ==> i < |t| && t[i] == ':')
    ensures SkipBlanks(t, i) == i
  {
    if w != "" {
      assert t[i] == t[i..i + |w|][0] == w[0];
    }
  }

  lemma AtSeparator(t: string, j: nat)
    requires j <= |t| && (j == |t| || EndsField(t[j]))
    ensures SeparatorAt(t, j) == j
  {
  }

  function JoinFields(fs: seq<string>): string
    requires fs != []
  {
    if |fs| == 1 then fs[0] else fs[0] + ":" + JoinFields(fs[1..])
  }

  ghost predicate CleanFields(fs: seq<string>) {
    fs != [] && fs[|fs| - 1] != "" && forall k :: 0 <= k < |fs| ==> Clean(fs[k])
  }

  lemma LastField(t: string, i: nat)
    requires i <= |t| && NextField(t, i).sep != ':'
    ensures var f := NextField(t, i);
            EntryFields(t, i) == ([t[f.start..f.end]], f.next)
  {
    hide NextField;
  }

  lemma FirstField(t: string, i: nat)
    requires i <= |t| && NextField(t, i).sep == ':'
    ensures var f := NextField(t, i);
            var (fs, next) := EntryFields(t, f.next);
            EntryFields(t, i) == ([t[f.start..f.end]] + fs, next)
  {
    hide NextField;
  }

  lemma RestClean(fs: seq<string>)
    requires CleanFields(fs) && 1 < |fs|
    ensures CleanFields(fs[1..]) && Clean(fs[0])
  {
    hide Clean;
    assert fs[1..][|fs[1..]| - 1] == fs[|fs| - 1];
  }

  /** The fields of an entry are the ones that were joined. */
  lemma {:induction false} FieldsAre(t: string, i: nat, fs: seq<string>)
    requires CleanFields(fs) && Here(t, i, JoinFields(fs))
    requires var at := i + |JoinFields(fs)|; at == |t| || EndsEntry(t[at])
    ensures var at := i + |JoinFields(fs)|;
            EntryFields(t, i) == (fs, if at == |t| then at else at + 1)
    decreases |fs|
  {
    hide NextField;
    hide EntryFields;
    hide Clean;
    hide Here;
    var f := fs[0];
    if |fs| == 1 {
      FieldIs(t, i, f);
      FieldEnds(t, i, f);
      LastField(t, i);
      assert [f] == fs;
    } else {
      var rest := JoinFields(fs[1..]);
      assert f + (":" + rest) == JoinFields(fs);
      RestClean(fs);
      hide JoinFields;
      hide CleanFields;
      HereSplit(t, i, f, ":" + rest);
      HereSplit(t, i + |f|, ":", rest);
      HereColon(t, i + |f|);
      FieldIs(t, i, f);
      FieldEnds(t, i, f);
      FieldsAre(t, i + |f| + 1, fs[1..]);
      FirstField(t, i);
      assert [f] + fs[1..] == fs;
    }
  }

  lemma HereColon(t: string, i: nat)
    requires Here(t, i, ":")
    ensures i < |t| && t[i] == ':'
  {
    assert t[i] == t[i..i + 1][0];
  }

  lemma FieldEnds(t: string, i: nat, f: string)
    requires Here(t, i, f)
    ensures i + |f| <= |t| && t[i..i + |f|] == f
  {
  }

  lemma {:induction false} CleanConcat(a: string, b: string)
    requires Clean(a) && Clean(b)
    ensures Clean(a + b)
  {
    if a == "" {
      assert a + b == b;
    } else {
      assert (a + b)[1..] == a[1..] + b;
      CleanConcat(a[1..], b);
    }
  }

  lemma {:induction false} CleanDigits(s: string)
    requires forall c :: c in s ==> '0' <= c <= '9'
    ensures Clean(s)
  {
    if s != "" {
      assert s[0] in s && forall c :: c in s[1..] ==> c in s;
      CleanDigits(s[1..]);
    }
  }

  lemma CleanMode(perm: Bits)
    ensures Clean(ModeLetters(perm))
  {
    hide And;
    var a := if perm & 0x124 != 0 then 'r' else '-';
    var b := if perm & 0x92 != 0 then 'w' else '-';
    var c := if perm & 0x49 != 0 then 'x' else '-';
    CleanLetter(a);
    CleanLetter(b);
    CleanLetter(c);
    CleanConcat([a], [b]);
    CleanConcat([a] + [b], [c]);
    assert ModeLetters(perm) == [a] + [b] + [c];
  }

  lemma CleanLetter(c: char)
    requires c == 'r' || c == 'w' || c == 'x' || c == '-'
    ensures Clean([c])
  {
    assert [c][1..] == "";
  }

  lemma {:induction false} CleanLetters(table: seq<(Bits, char)>, perm: Bits, compact: bool)
    requires forall k :: 0 <= k < |table| ==> Clean([table[k].1])
    ensures Clean(Letters(table, perm, compact))
  {
    hide And;
    if table != [] {
      assert Clean([table[0].1]);
      forall k | 0 <= k < |table[1..]| ensures Clean([table[1..][k].1]) {
        assert table[1..][k] == table[k + 1];
      }
      CleanLetters(table[1..], perm, compact);
      var first := if And(perm, table[0].0) != 0 then [table[0].1] else if compact then "" else "-";
      assert Clean("-");
      CleanConcat(first, Letters(table[1..], perm, compact));
    }
  }

  lemma CleanTables(perm: Bits, compact: bool)
    ensures Clean(Letters(PERM_MAP, perm, compact)) && Clean(Letters(FLAG_MAP, perm, compact))
  {
    hide Letters;
    forall k | 0 <= k < |PERM_MAP| ensures Clean([PERM_MAP[k].1]) {
      CleanPermRow(k);
    }
    forall k | 0 <= k < |FLAG_MAP| ensures Clean([FLAG_MAP[k].1]) {
      assert k == 0 || k == 1 || k == 2 || k == 3 || k == 4 || k == 5 || k == 6;
    }
    CleanLetters(PERM_MAP, perm, compact);
    CleanLetters(FLAG_MAP, perm, compact);
  }

  lemma CleanPermRow(k: nat)
    requires k < |PERM_MAP|
    ensures Clean([PERM_MAP[k].1])
  {
    if k < 7 {
      assert k == 0 || k == 1 || k == 2 || k == 3 || k == 4 || k == 5 || k == 6;
    } else {
      assert k == 7 || k == 8 || k == 9 || k == 10 || k == 11 || k == 12 || k == 13;
    }
  }

  // ---------- one entry ----------

  /** What stands between the tag word and the permissions of a user or group: the name, or digits. */
  function NameField(tag: Tag, name: Option<string>, id: int): string {
    if !Named(tag) then "" else if name.Some? then name.value else AppendId(id)
  }

  /** The id behind the permissions, or -1 for none. */
  function IdBehind(kind: Kind, tag: Tag, name: Option<string>, id: int): int {
    if !Named(tag) || (name.None? && !IsNfs4(kind)) then -1 else id
  }

  /** The id behind an entry in a style. */
  function IdShown(e: Entry, style: Style): int {
    IdBehind(e.kind, e.tag, e.name, if e.name.None? || style.extraId then e.id else -1)
  }

  /**
    What the parser makes of the fields of an entry is the entry. A user or group must have a name. A name of digits is
    read as the id, so it must say the id, unless an NFSv4 entry has its id behind it; with any other name the id must
    stand behind the entry, or be -1. Numbers from INT_MAX on are refused. Other entries have neither name nor id.
   */
  predicate FieldsBack(e: Entry, style: Style) {
    if !Named(e.tag) then e.id == -1 && e.name == None
    else
      && e.name.Some? && e.name.value != "" && -1 <= e.id < INT_MAX
      && var number, shown := IsInt(e.name.value), style.extraId && e.id != -1;
         !number.TooBig?
         && if number.Int? && !(IsNfs4(e.kind) && shown) then number.value == e.id else shown || e.id == -1
  }

  /** The line of an entry is read as the entry: its name, moreover, has neither blanks nor separators. */
  predicate ComesBack(e: Entry, style: Style) {
    FieldsBack(e, style) && (Named(e.tag) ==> Clean(e.name.value))
  }

  function IdField(id: int): seq<string> {
    if id == -1 then [] else [AppendId(id)]
  }

  /** The fields of a POSIX.1e entry, as they are printed. */
  function PosixFields(mark: bool, tag: Tag, style: Style, name: string, perm: Bits, id: int): seq<string> {
    (if mark then ["default"] else []) + [TagText(Access, tag)]
    + (if style.solaris && (tag.Other? || tag.Mask?) then [] else [name]) + [ModeLetters(perm)] + IdField(id)
  }

  lemma JoinCons(f: string, fs: seq<string>)
    requires fs != []
    ensures JoinFields([f] + fs) == f + ":" + JoinFields(fs)
  {
    assert ([f] + fs)[1..] == fs;
  }

  lemma JoinId(f: string, id: int)
    ensures JoinFields([f] + IdField(id)) == f + if id != -1 then ":" + AppendId(id) else ""
  {
    if id != -1 {
      JoinCons(f, [AppendId(id)]);
    } else {
      assert [f] + IdField(id) == [f];
    }
  }

  lemma Regroup(p: string, a: string, b: string, c: string, d: string, e: string)
    ensures p + a + b + c + d + e == p + (a + b + c + d + e)
    ensures a + b + c + d + e == a + b + (c + d + e)
    ensures c + d + e == c + (d + e)
  {
  }

  /** The fields without the word "default", joined. */
  lemma JoinPosix(text: string, mid: string, solaris: bool, mode: string, id: int)
    ensures var rest := (if solaris then [] else [mid]) + [mode] + IdField(id);
            var idTail := if id != -1 then ":" + AppendId(id) else "";
            JoinFields([text] + rest) == text + ":" + (if solaris then "" else mid + ":") + mode + idTail
  {
    hide JoinFields;
    hide AppendId;
    var idTail := if id != -1 then ":" + AppendId(id) else "";
    var tail := [mode] + IdField(id);
    JoinId(mode, id);
    if solaris {
      assert [] + [mode] + IdField(id) == tail;
      JoinCons(text, tail);
      Regroup("", text, ":", "", mode, idTail);
      assert "" + (mode + idTail) == mode + idTail;
    } else {
      assert [mid] + [mode] + IdField(id) == [mid] + tail;
      JoinCons(mid, tail);
      JoinCons(text, [mid] + tail);
      Regroup("", text, ":", mid + ":", mode, idTail);
    }
  }

  /** The word "default" is one field more in front. */
  lemma Marked(mark: bool, text: string, rest: seq<string>, fs: seq<string>)
    requires fs == (if mark then ["default"] else []) + ([text] + rest)
    ensures (if mark then "default:" else "") + JoinFields([text] + rest) == JoinFields(fs)
  {
    hide JoinFields;
    if mark {
      JoinCons("default", [text] + rest);
      assert "default" + ":" == "default:";
    } else {
      assert fs == [text] + rest && "" + JoinFields(fs) == JoinFields(fs);
    }
  }

  lemma PosixFieldsAre(mark: bool, tag: Tag, style: Style, name: string, perm: Bits, id: int)
    ensures var rest := (if style.solaris && (tag.Other? || tag.Mask?) then [] else [name]) + [ModeLetters(perm)] + IdField(id);
            PosixFields(mark, tag, style, name, perm, id)
            == (if mark then ["default"] else []) + ([TagText(Access, tag)] + rest)
  {
    hide ModeLetters;
    hide TagText;
    hide IdField;
  }

  lemma PosixLine(mark: bool, kind: Kind, tag: Tag, style: Style, name: Option<string>, perm: Bits, id: int)
    requires IsPosix(kind) && TagFits(kind, tag)
    ensures AppendEntry(if mark then "default:" else "", kind, tag, style, name, perm, id) ==
            JoinFields(PosixFields(mark, tag, style, NameField(tag, name, id), perm, IdBehind(kind, tag, name, id)))
  {
    hide ModeLetters;
    hide JoinFields;
    hide AppendId;
    hide AppendEntry;
    hide TagText;
    hide IdField;
    hide PosixFields;
    hide NameField;
    hide IdBehind;
    var text, mode := TagText(Access, tag), ModeLetters(perm);
    var mid, behind := NameField(tag, name, id), IdBehind(kind, tag, name, id);
    var solaris := style.solaris && (tag.Other? || tag.Mask?);
    var rest := (if solaris then [] else [mid]) + [mode] + IdField(behind);
    PosixFieldsAre(mark, tag, style, mid, perm, behind);
    JoinPosix(text, mid, solaris, mode, behind);
    AppendPosix(if mark then "default:" else "", kind, tag, style, name, perm, id);
    Regroup(if mark then "default:" else "", text, ":", if solaris then "" else mid + ":", mode,
            if behind != -1 then ":" + AppendId(behind) else "");
    Marked(mark, text, rest, PosixFields(mark, tag, style, mid, perm, behind));
  }

  lemma AppendPosix(prefix: string, kind: Kind, tag: Tag, style: Style, name: Option<string>, perm: Bits, id: int)
    requires IsPosix(kind) && TagFits(kind, tag)
    ensures var behind := IdBehind(kind, tag, name, id);
            var middle := if style.solaris && (tag.Other? || tag.Mask?) then "" else NameField(tag, name, id) + ":";
            AppendEntry(prefix, kind, tag, style, name, perm, id) ==
            prefix + TagText(Access, tag) + ":" + middle + ModeLetters(perm)
            + if behind != -1 then ":" + AppendId(behind) else ""
  {
    hide ModeLetters;
    hide AppendId;
    assert TagText(kind, tag) == TagText(Access, tag);
    assert "" + ":" == ":";
  }

  /** The mode that three letters say. */
  function Reduced(perm: Bits): Bits {
    ReadMode(ModeLetters(perm), 0).1
  }

  lemma NotNumber()
    ensures IsInt("") == NotInt
  {
  }

  /** A number that is read is below INT_MAX. */
  lemma {:induction false} DigitsBelow(s: string, n: int)
    requires 0 <= n < INT_MAX
    ensures Digits(s, n).Int? ==> 0 <= Digits(s, n).value < INT_MAX
  {
    if s != [] && '0' <= s[0] <= '9' {
      var d := s[0] as int - '0' as int;
      if !(n > INT_MAX / 10 || (n == INT_MAX / 10 && d >= INT_MAX % 10)) {
        DigitsBelow(s[1..], 10 * n + d);
      }
    }
  }

  lemma IdFieldIs(id: int)
    ensures id == -1 ==> IdField(id) == []
    ensures id != -1 ==> IdField(id) == [AppendId(id)] && (IsInt(AppendId(id)) == Int(id) <==> 0 <= id < INT_MAX)
    ensures AppendId(id) != ""
  {
    if id >= 0 {
      IdRoundTrip(id);
    }
    DigitsBelow(AppendId(id), 0);
  }

  lemma ModeNotNumber(perm: Bits)
    ensures IsInt(ModeLetters(perm)) == NotInt && ModeLetters(perm) != "" && ReadMode(ModeLetters(perm), 0).0
  {
    ModeRoundTrip(perm);
    assert ModeLetters(perm)[0] == 'r' || ModeLetters(perm)[0] == '-';
  }

  lemma DefaultWord()
    ensures SaysDefault("default") && |"default"| == 7
    ensures !SaysDefault("user") && !SaysDefault("group") && !SaysDefault("mask") && !SaysDefault("other")
  {
    assert "default"[1..7] == "efault";
  }

  /** The fields behind the word "default", if any. */
  ghost predicate Layout(fs: seq<string>, mark: bool, tag: Tag, rest: seq<string>) {
    var n := if mark then 1 else 0;
    && |fs| == n + 1 + |rest| && (mark ==> fs[0] == "default") && fs[n] == TagText(Access, tag)
    && forall k :: 0 <= k < |rest| ==> fs[n + 1 + k] == rest[k]
  }

  lemma LayoutIs(mark: bool, tag: Tag, style: Style, name: string, perm: Bits, id: int)
    ensures var rest := (if style.solaris && (tag.Other? || tag.Mask?) then [] else [name]) + [ModeLetters(perm)] + IdField(id);
            Layout(PosixFields(mark, tag, style, name, perm, id), mark, tag, rest)
  {
    hide ModeLetters;
    hide TagText;
    hide IdField;
  }

  /** What the parser makes of a tag, a name field, and the number behind them, if any. */
  function PosixBack(kind: Kind, tag: Tag, name: string, perm: Bits, behind: Number): Option<Entry> {
    var first := IsInt(name);
    var number := if first.NotInt? then behind else first;
    var id := if number.Int? then number.value else -1;
    var user, group := tag.User? || tag.UserObj?, tag.Group? || tag.GroupObj?;
    if number.TooBig? then None
    else if (user || group) && (id != -1 || name != "") then
      Some(Entry(kind, if user then User else Group, perm, id, NameOf(name)))
    else Some(Entry(kind, if user then UserObj else if group then GroupObj else tag, perm, id, None))
  }

  /** The tag word and the fields behind it, read. */
  lemma ParseBodyReads(kind: Kind, tag: Tag, solaris: bool, name: string, perm: Bits, f3: string, count: int)
    requires TagFits(Access, tag) && (tag.Other? || tag.Mask? ==> name == "") && (solaris ==> tag.Other? || tag.Mask?)
    requires count == 2 <==> solaris
    requires count == 4 ==> !tag.Other? && !tag.Mask?
    requires 2 <= count <= 4
    ensures var mode := ModeLetters(perm);
            ParseBody(kind, TagText(Access, tag), if solaris then mode else name, if solaris then "" else mode, f3, count)
            == PosixBack(kind, tag, name, Reduced(perm), if count == 4 then IsInt(f3) else NotInt)
  {
    hide ModeLetters;
    hide ReadMode;
    hide IsInt;
    hide TagText;
    hide TagOf;
    TagWords(tag);
    NotNumber();
    ModeNotNumber(perm);
  }

  lemma PosixBackIs(e: Entry, style: Style, perm: Bits)
    requires IsPosix(e.kind) && TagFits(Access, e.tag)
    ensures var name, behind := NameField(e.tag, e.name, e.id), IdShown(e, style);
            (PosixBack(e.kind, e.tag, name, perm, if behind == -1 then NotInt else IsInt(AppendId(behind)))
             == Some(e.(permset := perm))) <==> FieldsBack(e, style)
  {
    hide IsInt;
    hide AppendId;
    NotNumber();
    IdFieldIs(e.id);
    IsIntBelow(NameField(e.tag, e.name, e.id));
    IsIntBelow(AppendId(e.id));
  }

  lemma IsIntBelow(s: string)
    ensures IsInt(s).Int? ==> 0 <= IsInt(s).value < INT_MAX
  {
    DigitsBelow(s, 0);
  }

  /** Reading the fields of a POSIX.1e entry gives the entry exactly when its name and id say so. */
  lemma ParsePosixFields(fs: seq<string>, want: Kind, mark: bool, e: Entry, style: Style)
    requires IsPosix(e.kind) && TagFits(e.kind, e.tag) && if mark then e.kind == Default else want == e.kind
    requires fs == PosixFields(mark, e.tag, style, NameField(e.tag, e.name, e.id), e.permset, IdShown(e, style))
    ensures var behind := IdShown(e, style);
            ParsePosix(fs, want) == PosixBack(e.kind, e.tag, NameField(e.tag, e.name, e.id), Reduced(e.permset),
                                              if behind == -1 then NotInt else IsInt(AppendId(behind)))
    ensures ParsePosix(fs, want) == Some(e.(permset := Reduced(e.permset))) <==> FieldsBack(e, style)
  {
    hide ModeLetters;
    hide IsInt;
    hide PosixFields;
    hide IdField;
    hide SaysDefault;
    hide ParseBody;
    hide PosixBack;
    hide Reduced;
    hide TagText;
    hide FieldsBack;
    var name, behind := NameField(e.tag, e.name, e.id), IdShown(e, style);
    var mode := ModeLetters(e.permset);
    var solaris := style.solaris && (e.tag.Other? || e.tag.Mask?);
    LayoutIs(mark, e.tag, style, name, e.permset, behind);
    IdFieldIs(behind);
    DefaultWord();
    TagWords(e.tag);
    var rest := (if solaris then [] else [name]) + [mode] + IdField(behind);
    LayoutFields(fs, mark, e.tag, rest);
    hide Layout;
    var n := if mark then 1 else 0;
    var f3 := FieldAt(fs, n + 3, 5);
    ParseBodyReads(e.kind, e.tag, solaris, name, e.permset, f3, |fs| - n);
    PosixBackIs(e, style, Reduced(e.permset));
    if solaris {
      assert rest == [mode];
      assert FieldAt(fs, n + 2, 5) == "";
    } else {
      assert rest == [name, mode] + IdField(behind);
      assert behind != -1 ==> rest == [name, mode, AppendId(behind)];
    }
  }

  lemma LayoutFields(fs: seq<string>, mark: bool, tag: Tag, rest: seq<string>)
    requires Layout(fs, mark, tag, rest)
    ensures var n := if mark then 1 else 0;
            && |fs| == n + 1 + |rest| && fs[0] == (if mark then "default" else TagText(Access, tag))
            && FieldAt(fs, n, 5) == TagText(Access, tag)
            && (|rest| > 0 ==> FieldAt(fs, n + 1, 5) == rest[0])
            && (|rest| > 1 ==> FieldAt(fs, n + 2, 5) == rest[1])
            && (|rest| > 2 ==> FieldAt(fs, n + 3, 5) == rest[2])
  {
  }

  /** Tag words are read without names first; a name makes an owner a user. */
  lemma TagWords(tag: Tag)
    requires TagFits(Access, tag)
    ensures TagOf(TagText(Access, tag)) ==
            Some(match tag case User => UserObj case UserObj => UserObj case Group => GroupObj case GroupObj => GroupObj
                 case Mask => Mask case _ => Other)
    ensures !SaysDefault(TagText(Access, tag))
  {
    DefaultWord();
  }

  /** The fields of an NFSv4 entry, as they are printed. */
  function NfsFields(kind: Kind, tag: Tag, style: Style, name: string, perm: Bits, id: int): seq<string> {
    [TagText(kind, tag)] + (if Named(tag) then [name] else [])
    + [Letters(PERM_MAP, perm, style.compact), Letters(FLAG_MAP, perm, style.compact), KindText(kind)] + IdField(id)
  }

  lemma JoinNfs(text: string, name: string, named: bool, p: string, f: string, k: string, id: int)
    ensures var rest := (if named then [name] else []) + [p, f, k] + IdField(id);
            var idTail := if id != -1 then ":" + AppendId(id) else "";
            JoinFields([text] + rest) == text + ":" + (if named then name + ":" else "") + (p + ":" + f + ":" + k) + idTail
  {
    hide JoinFields;
    hide AppendId;
    var idTail := if id != -1 then ":" + AppendId(id) else "";
    var three := [k] + IdField(id);
    JoinId(k, id);
    JoinCons(f, three);
    JoinCons(p, [f] + three);
    assert [p, f, k] + IdField(id) == [p] + ([f] + three);
    var perms := p + ":" + f + ":" + k;
    assert p + ":" + (f + ":" + (k + idTail)) == perms + idTail;
    if named {
      assert [name] + [p, f, k] + IdField(id) == [name] + ([p] + ([f] + three));
      JoinCons(name, [p] + ([f] + three));
      JoinCons(text, [name] + ([p] + ([f] + three)));
      Regroup("", text, ":", name + ":", perms, idTail);
    } else {
      assert [] + [p, f, k] + IdField(id) == [p] + ([f] + three);
      JoinCons(text, [p] + ([f] + three));
      Regroup("", text, ":", "", perms, idTail);
      assert "" + (perms + idTail) == perms + idTail;
    }
  }

  lemma AppendNfs(kind: Kind, tag: Tag, style: Style, name: Option<string>, perm: Bits, id: int)
    requires IsNfs4(kind) && TagFits(kind, tag)
    ensures var p, f := Letters(PERM_MAP, perm, style.compact), Letters(FLAG_MAP, perm, style.compact);
            var behind := IdBehind(kind, tag, name, id);
            AppendEntry("", kind, tag, style, name, perm, id) ==
            "" + TagText(kind, tag) + ":" + (if Named(tag) then NameField(tag, name, id) + ":" else "")
            + (p + ":" + f + ":" + KindText(kind)) + if behind != -1 then ":" + AppendId(behind) else ""
  {
    hide Letters;
    hide AppendId;
    hide KindText;
    hide TagText;
  }

  lemma NfsLine(kind: Kind, tag: Tag, style: Style, name: Option<string>, perm: Bits, id: int)
    requires IsNfs4(kind) && TagFits(kind, tag)
    ensures AppendEntry("", kind, tag, style, name, perm, id) ==
            JoinFields(NfsFields(kind, tag, style, NameField(tag, name, id), perm, IdBehind(kind, tag, name, id)))
  {
    hide Letters;
    hide JoinFields;
    hide AppendId;
    hide AppendEntry;
    hide TagText;
    hide KindText;
    hide IdField;
    hide NameField;
    hide IdBehind;
    var mid, behind := NameField(tag, name, id), IdBehind(kind, tag, name, id);
    var p, f, k := Letters(PERM_MAP, perm, style.compact), Letters(FLAG_MAP, perm, style.compact), KindText(kind);
    AppendNfs(kind, tag, style, name, perm, id);
    JoinNfs(TagText(kind, tag), mid, Named(tag), p, f, k, behind);
    assert NfsFields(kind, tag, style, mid, perm, behind) ==
           [TagText(kind, tag)] + ((if Named(tag) then [mid] else []) + [p, f, k] + IdField(behind));
    assert "" + TagText(kind, tag) == TagText(kind, tag);
  }

  /** What the parser makes of a tag, a name field, and the number behind them, if any. */
  function NfsBack(kind: Kind, tag: Tag, name: string, perm: Bits, behind: Number): Option<Entry> {
    var first := if Named(tag) then IsInt(name) else NotInt;
    if first.TooBig? || behind.TooBig? then None
    else
      var id := if behind.Int? then behind.value else if first.Int? then first.value else -1;
      Some(Entry(kind, tag, perm, id, NameOf(name)))
  }

  lemma NfsBackIs(e: Entry, style: Style)
    requires IsNfs4(e.kind) && TagFits(e.kind, e.tag)
    ensures var name, behind := NameField(e.tag, e.name, e.id), IdShown(e, style);
            (NfsBack(e.kind, e.tag, name, e.permset, if behind == -1 then NotInt else IsInt(AppendId(behind)))
             == Some(e)) <==> FieldsBack(e, style)
  {
    hide IsInt;
    hide AppendId;
    NotNumber();
    IdFieldIs(e.id);
    IsIntBelow(NameField(e.tag, e.name, e.id));
    IsIntBelow(AppendId(e.id));
  }

  /** Reading the fields of an NFSv4 entry gives the entry exactly when its name and id say so. */
  lemma ParseNfsFields(fs: seq<string>, e: Entry, style: Style)
    requires IsNfs4(e.kind) && TagFits(e.kind, e.tag) && PermsFit(e.kind, e.permset)
    requires fs == NfsFields(e.kind, e.tag, style, NameField(e.tag, e.name, e.id), e.permset, IdShown(e, style))
    ensures ParseNfs4(fs) == Some(e) <==> FieldsBack(e, style)
  {
    hide Letters;
    hide ReadLetters;
    hide IsInt;
    hide IdField;
    hide TagText;
    hide KindText;
    hide NfsTagOf;
    hide NfsKindOf;
    hide FieldsBack;
    var name, behind := NameField(e.tag, e.name, e.id), IdShown(e, style);
    var p, f := Letters(PERM_MAP, e.permset, style.compact), Letters(FLAG_MAP, e.permset, style.compact);
    NfsPerms(e.permset, style.compact);
    NfsWords(e.kind, e.tag);
    IdFieldIs(behind);
    NotNumber();
    NfsBackIs(e, style);
    hide NameField;
    hide IdShown;
    var n := if Named(e.tag) then 1 else 0;
    assert fs[0] == TagText(e.kind, e.tag) && (n == 1 ==> FieldAt(fs, 1, 6) == name);
    assert FieldAt(fs, n + 1, 6) == p && FieldAt(fs, n + 2, 6) == f && FieldAt(fs, n + 3, 6) == KindText(e.kind);
    assert FieldAt(fs, n + 4, 6) == if behind == -1 then "" else AppendId(behind);
    assert n == 0 ==> name == "" by {
      NoNameField(e);
    }
  }

  lemma NoNameField(e: Entry)
    ensures !Named(e.tag) ==> NameField(e.tag, e.name, e.id) == ""
  {
  }

  lemma NfsWords(kind: Kind, tag: Tag)
    requires IsNfs4(kind) && TagFits(kind, tag)
    ensures NfsTagOf(TagText(kind, tag)) == Some(tag) && NfsKindOf(KindText(kind)) == Some(kind)
  {
    assert "user" != "group" && "owner@" != "user" && "owner@" != "group" && "group@" != "group" && "group@" != "user";
    assert "owner@"[0] == 'o' && "group@"[0] == 'g' && "everyone@"[0] == 'e' && "user"[0] == 'u' && "group"[0] == 'g';
    assert |"group@"| == 6 && |"group"| == 5;
    assert "allow"[1] == 'l' && "audit"[1] == 'u' && "alarm"[2] == 'a' && "allow"[2] == 'l' && |"deny"| == 4;
  }

  // ---------- whole texts ----------

  /** A line made of fields that are cut apart again. */
  ghost predicate LineOf(line: string, fs: seq<string>) {
    CleanFields(fs) && fs[0] != "" && fs[0][0] != '\0' && line == JoinFields(fs)
  }

  ghost predicate LinesOf(lines: seq<string>, fss: seq<seq<string>>) {
    |lines| == |fss| && forall k :: 0 <= k < |lines| ==> LineOf(lines[k], fss[k])
  }

  lemma LineStarts(fs: seq<string>)
    requires CleanFields(fs) && fs[0] != "" && fs[0][0] != '\0'
    ensures var line := JoinFields(fs);
            line != "" && !Blank(line[0]) && line[0] != '#' && line[0] != '\0'
  {
    assert Clean(fs[0]);
    assert JoinFields(fs)[0] == fs[0][0];
  }

  lemma JoinStep(lines: seq<string>, sep: char)
    requires lines != []
    ensures Join(lines, sep) == lines[0] + if |lines| == 1 then "" else [sep] + Join(lines[1..], sep)
  {
    assert lines[0] + "" == lines[0];
    assert |lines| > 1 ==> lines[0] + [sep] + Join(lines[1..], sep) == lines[0] + ([sep] + Join(lines[1..], sep));
  }

  lemma HereFirst(t: string, i: nat, a: string)
    requires Here(t, i, a) && a != ""
    ensures i < |t| && t[i] == a[0]
  {
    assert t[i] == t[i..i + |a|][0];
  }

  /** The first line of a text is cut into its fields; what follows starts behind the separator. */
  lemma FirstLine(t: string, i: nat, line: string, fs: seq<string>, sep: char, rest: string)
    requires LineOf(line, fs) && EndsEntry(sep)
    requires Here(t, i, line + rest) && i + |line + rest| == |t| && (rest == "" || rest[0] == sep)
    ensures i < |t| && t[i] != '\0' && t[i] != '#' && SkipBlanks(t, i) == i
    ensures EntryFields(t, i) == (fs, i + |line| + if rest == "" then 0 else 1)
  {
    hide EntryFields;
    hide Here;
    hide Clean;
    hide CleanFields;
    hide JoinFields;
    HereSplit(t, i, line, rest);
    LineStarts(fs);
    HereFirst(t, i, line);
    if rest != "" {
      HereFirst(t, i + |line|, rest);
    }
    FieldsAre(t, i, fs);
  }

  /** The entries of lines, parsed and added one after the other: a wrong line is passed over, a refused entry ends it. */
  function Taken(l: List, fss: seq<seq<string>>, want: Want, status: Status): Result
    decreases |fss|
  {
    if fss == [] then Result(l, status)
    else if fss[0] == [] || ParseEntry(fss[0], want).None? then Taken(l, fss[1..], want, Warn)
    else
      var r := Add(l, ParseEntry(fss[0], want).value);
      if r.None? then Result(l, Failed) else Taken(r.value, fss[1..], want, status)
  }

  /** A text of lines is taken line by line. */
  lemma {:induction false} TextReads(
      t: string, i: nat, lines: seq<string>, fss: seq<seq<string>>, want: Want, sep: char, l: List, status: Status)
    requires LinesOf(lines, fss) && EndsEntry(sep)
    requires Here(t, i, Join(lines, sep)) && i + |Join(lines, sep)| == |t|
    ensures FromText(l, t, i, want, status) == Taken(l, fss, want, status)
    decreases |lines|
  {
    hide EntryFields;
    hide ParseEntry;
    hide LineOf;
    hide Add;
    hide Here;
    hide FromText;
    hide Taken;
    hide Join;
    hide SkipBlanks;
    if lines == [] {
      NoLines(lines, sep);
      NoText(l, t, i, fss, want, status);
    } else {
      FirstOf(lines, fss);
      JoinStep(lines, sep);
      var tail := Join(lines[1..], sep);
      var rest := if |lines| == 1 then "" else [sep] + tail;
      FirstLine(t, i, lines[0], fss[0], sep, rest);
      HereSplit(t, i, lines[0], rest);
      var next := i + |lines[0]| + if rest == "" then 0 else 1;
      if |lines| > 1 {
        HereSplit(t, i + |lines[0]|, [sep], tail);
      } else {
        NoLines(lines[1..], sep);
      }
      FromTextStep(l, t, i, want, fss[0], next, status);
      TakenStep(l, fss, want, status);
      hide LinesOf;
      var e := ParseEntry(fss[0], want);
      var r := if e.Some? then Add(l, e.value) else Some(l);
      if r.Some? {
        TextReads(t, next, lines[1..], fss[1..], want, sep, r.value, if e.Some? then status else Warn);
      }
    }
  }

  lemma TakenStep(l: List, fss: seq<seq<string>>, want: Want, status: Status)
    requires fss != [] && fss[0] != []
    ensures Taken(l, fss, want, status) ==
            var e := ParseEntry(fss[0], want);
            if e.None? then Taken(l, fss[1..], want, Warn)
            else if Add(l, e.value).None? then Result(l, Failed)
            else Taken(Add(l, e.value).value, fss[1..], want, status)
  {
    hide ParseEntry;
    hide Add;
  }

  lemma NoLines(lines: seq<string>, sep: char)
    ensures lines == [] ==> Join(lines, sep) == ""
  {
  }

  lemma NoText(l: List, t: string, i: nat, fss: seq<seq<string>>, want: Want, status: Status)
    requires i == |t| && fss == []
    ensures FromText(l, t, i, want, status) == Taken(l, fss, want, status)
  {
  }

  lemma FirstOf(lines: seq<string>, fss: seq<seq<string>>)
    requires LinesOf(lines, fss) && lines != []
    ensures LineOf(lines[0], fss[0]) && LinesOf(lines[1..], fss[1..]) && fss[0] != []
  {
    hide LineOf;
    LineFields(lines[0], fss[0]);
  }

  lemma LineFields(line: string, fs: seq<string>)
    requires LineOf(line, fs)
    ensures fs != []
  {
  }

  lemma FromTextStep(l: List, t: string, i: nat, want: Want, fs: seq<string>, next: nat, status: Status)
    requires i < |t| && t[i] != '\0' && t[i] != '#' && SkipBlanks(t, i) == i
    requires EntryFields(t, i) == (fs, next) && fs != []
    ensures next <= |t|
    ensures FromText(l, t, i, want, status) ==
            var e := ParseEntry(fs, want);
            if e.None? then FromText(l, t, next, want, Warn)
            else if Add(l, e.value).None? then Result(l, Failed)
            else FromText(Add(l, e.value).value, t, next, want, status)
  {
    hide EntryFields;
    hide ParseEntry;
    hide Add;
  }

  ghost predicate ParsedAs(fss: seq<seq<string>>, want: Want, es: seq<Entry>) {
    |fss| == |es| && forall k :: 0 <= k < |fss| ==> fss[k] != [] && ParseEntry(fss[k], want) == Some(es[k])
  }

  /** Lines that are read as entries which can be added add them. */
  lemma {:induction false} TakenAdds(
      l: List, fss: seq<seq<string>>, more: seq<seq<string>>, want: Want, es: seq<Entry>, status: Status)
    requires ParsedAs(fss, want, es) && AddsAll(l, es)
    ensures Taken(l, fss + more, want, status) == Taken(AddAll(l, es), more, want, status)
    decreases |fss|
  {
    hide ParseEntry;
    hide Add;
    if fss == [] {
      assert fss + more == more;
    } else {
      assert (fss + more)[1..] == fss[1..] + more;
      TakenAdds(Add(l, es[0]).value, fss[1..], more, want, es[1..], status);
    }
  }

  lemma AddLonger(l: List, e: Entry)
    requires Add(l, e).Some?
    ensures var r := Add(l, e).value;
            |r.entries| <= |l.entries| || r.entries == l.entries + [e]
  {
    hide WithMode;
  }

  /** No line gives more than one entry, and a line passed over is remembered. */
  lemma {:induction false} TakenGrows(l: List, fss: seq<seq<string>>, want: Want, status: Status)
    ensures |Taken(l, fss, want, status).list.entries| <= |l.entries| + |fss|
    ensures status != Ok ==> Taken(l, fss, want, status).status != Ok
    decreases |fss|
  {
    hide ParseEntry;
    hide Add;
    if fss == [] {
    } else if fss[0] == [] || ParseEntry(fss[0], want).None? {
      TakenGrows(l, fss[1..], want, Warn);
    } else {
      var e := ParseEntry(fss[0], want).value;
      if Add(l, e).Some? {
        AddLonger(l, e);
        TakenGrows(Add(l, e).value, fss[1..], want, status);
      }
    }
  }

  /** If no line is passed over and each gives an entry more, each is read as its entry. */
  lemma {:induction false} TakenAll(l: List, fss: seq<seq<string>>, want: Want, r: List)
    requires Taken(l, fss, want, Ok) == Result(r, Ok) && |r.entries| == |l.entries| + |fss|
    ensures r.entries[..|l.entries|] == l.entries && ParsedAs(fss, want, r.entries[|l.entries|..])
    decreases |fss|
  {
    hide ParseEntry;
    hide Add;
    if fss == [] {
    } else if fss[0] == [] || ParseEntry(fss[0], want).None? {
      TakenGrows(l, fss[1..], want, Warn);
    } else {
      var e := ParseEntry(fss[0], want).value;
      assert Add(l, e).Some?;
      var m := Add(l, e).value;
      AddLonger(l, e);
      TakenGrows(m, fss[1..], want, Ok);
      assert m.entries == l.entries + [e];
      TakenAll(m, fss[1..], want, r);
      ParsedFirst(l.entries, e, fss, want, r.entries);
    }
  }

  lemma ParsedFirst(es: seq<Entry>, e: Entry, fss: seq<seq<string>>, want: Want, all: seq<Entry>)
    requires fss != [] && fss[0] != [] && ParseEntry(fss[0], want) == Some(e) && |all| == |es| + |fss|
    requires all[..|es| + 1] == es + [e] && ParsedAs(fss[1..], want, all[|es| + 1..])
    ensures all[..|es|] == es && ParsedAs(fss, want, all[|es|..])
  {
    hide ParseEntry;
    assert all[..|es|] == all[..|es| + 1][..|es|];
    assert all[|es|] == all[..|es| + 1][|es|] == e;
    forall k | 0 <= k < |fss| ensures fss[k] != [] && ParseEntry(fss[k], want) == Some(all[|es|..][k]) {
      if k > 0 {
        assert fss[k] == fss[1..][k - 1] && all[|es|..][k] == all[|es| + 1..][k - 1];
      }
    }
  }

  // ---------- names in a text ----------

  lemma {:induction false} WordClean(t: string, i: nat)
    requires i <= |t|
    ensures Clean(t[i..WordEnd(t, i)])
    decreases |t| - i
  {
    if i < |t| && !Blank(t[i]) && !EndsField(t[i]) {
      WordClean(t, i + 1);
      var w := t[i..WordEnd(t, i)];
      assert w[0] == t[i] && w[1..] == t[i + 1..WordEnd(t, i + 1)];
    }
  }

  lemma FieldClean(t: string, i: nat)
    requires i <= |t|
    ensures var f := NextField(t, i);
            Clean(t[f.start..f.end])
  {
    hide Clean;
    WordClean(t, SkipBlanks(t, i));
  }

  /** No field that is cut out of a text has a blank or a separator. */
  lemma {:induction false} CutClean(t: string, i: nat)
    requires i <= |t|
    ensures AllClean(EntryFields(t, i).0)
    decreases |t| - i
  {
    hide NextField;
    hide Clean;
    FieldClean(t, i);
    if NextField(t, i).sep == ':' {
      CutClean(t, NextField(t, i).next);
    }
  }

  ghost predicate NameClean(e: Entry) {
    e.name.Some? ==> Clean(e.name.value)
  }

  lemma ParsedClean(fs: seq<string>, want: Want)
    requires fs != [] && AllClean(fs)
    ensures ParseEntry(fs, want).Some? ==> NameClean(ParseEntry(fs, want).value)
  {
    hide Clean;
    hide IsInt;
    hide ReadMode;
    hide ReadLetters;
    hide TagOf;
    hide NfsTagOf;
    hide NfsKindOf;
    hide SaysDefault;
    AtClean(fs, 1, 5);
    AtClean(fs, 2, 5);
    AtClean(fs, 1, 6);
    AtClean(fs, 7, 6);
  }

  lemma AtClean(fs: seq<string>, k: nat, limit: nat)
    requires AllClean(fs)
    ensures Clean(FieldAt(fs, k, limit))
  {
  }

  lemma AddedClean(l: List, e: Entry)
    requires Add(l, e).Some? && NameClean(e) && forall d :: d in l.entries ==> NameClean(d)
    ensures forall d :: d in Add(l, e).value.entries ==> NameClean(d)
  {
    hide NameClean;
    hide WithMode;
    forall d | d in Add(l, e).value.entries ensures d == e || d in l.entries {
    }
  }

  /** A name that is read from a text has neither blanks nor separators. */
  lemma {:induction false} NamesRead(l: List, t: string, i: nat, want: Want, status: Status)
    requires i <= |t| && forall e :: e in l.entries ==> NameClean(e)
    ensures forall e :: e in FromText(l, t, i, want, status).list.entries ==> NameClean(e)
    decreases |t| - i
  {
    hide NameClean;
    hide EntryFields;
    hide ParseEntry;
    hide Add;
    if i == |t| || t[i] == '\0' {
    } else {
      var (fs, next) := EntryFields(t, i);
      var start := SkipBlanks(t, i);
      CutClean(t, i);
      ParsedClean(fs, want);
      if start == |t| {
        NamesRead(l, t, next, want, Warn);
      } else if t[start] == '#' {
        NamesRead(l, t, next, want, status);
      } else if ParseEntry(fs, want).None? {
        NamesRead(l, t, next, want, Warn);
      } else {
        var e := ParseEntry(fs, want).value;
        if Add(l, e).Some? {
          AddedClean(l, e);
          NamesRead(Add(l, e).value, t, next, want, status);
        }
      }
    }
  }

  // ---------- the lines of a list ----------

  lemma CleanWords(kind: Kind, tag: Tag)
    requires TagFits(kind, tag) && (IsPosix(kind) || IsNfs4(kind))
    ensures Clean(TagText(kind, tag)) && TagText(kind, tag) != "" && Clean("default") && Clean("")
    ensures TagText(kind, tag)[0] != '\0' && "default"[0] != '\0'
    ensures IsNfs4(kind) ==> Clean(KindText(kind)) && KindText(kind) != ""
  {
    hide Clean;
    PosixWordsClean();
    NfsWordsClean();
    KindWordsClean();
  }

  lemma {:induction false} CleanWord(s: string)
    requires forall k :: 0 <= k < |s| ==> !Blank(s[k]) && !EndsField(s[k])
    ensures Clean(s)
  {
    if s == "" {
    } else {
      CleanWord(s[1..]);
    }
  }

  lemma PosixWordsClean()
    ensures Clean("user") && Clean("group") && Clean("mask") && Clean("other") && Clean("default") && Clean("")
  {
    hide Clean;
    CleanWord("user");
    CleanWord("group");
    CleanWord("mask");
    CleanWord("other");
    CleanWord("default");
    CleanWord("");
  }

  lemma NfsWordsClean()
    ensures Clean("owner@") && Clean("group@") && Clean("everyone@")
  {
    hide Clean;
    CleanWord("owner@");
    CleanWord("group@");
    CleanWord("everyone@");
  }

  lemma KindWordsClean()
    ensures Clean("allow") && Clean("deny") && Clean("audit") && Clean("alarm")
  {
    hide Clean;
    CleanWord("allow");
    CleanWord("deny");
    CleanWord("audit");
    CleanWord("alarm");
  }

  lemma CleanId(id: int)
    ensures Clean(AppendId(id))
    ensures AllClean(IdField(id)) && forall k :: 0 <= k < |IdField(id)| ==> IdField(id)[k] != ""
  {
    if id >= 0 {
      IdRoundTrip(id);
      CleanDigits(AppendId(id));
    } else {
      assert AppendId(id) == "0" && Clean("0");
    }
  }

  ghost predicate AllClean(fs: seq<string>) {
    forall k :: 0 <= k < |fs| ==> Clean(fs[k])
  }

  lemma AllCleanConcat(a: seq<string>, b: seq<string>)
    requires AllClean(a) && AllClean(b)
    ensures AllClean(a + b)
  {
  }

  lemma PosixJoined(head: seq<string>, mid: seq<string>, mode: string, tail: seq<string>)
    requires AllClean(head) && AllClean(mid) && Clean(mode) && AllClean(tail)
    ensures AllClean(head + mid + [mode] + tail)
  {
    hide Clean;
    AllCleanConcat(head, mid);
    AllCleanConcat(head + mid, [mode]);
    AllCleanConcat(head + mid + [mode], tail);
  }

  lemma PosixClean(mark: bool, tag: Tag, style: Style, name: string, perm: Bits, id: int, kind: Kind)
    requires IsPosix(kind) && TagFits(kind, tag) && Clean(name)
    ensures var fs := PosixFields(mark, tag, style, name, perm, id);
            CleanFields(fs) && fs[0] != "" && fs[0][0] != '\0'
  {
    hide ModeLetters;
    hide TagText;
    hide IdField;
    hide Clean;
    CleanWords(Access, tag);
    CleanMode(perm);
    CleanId(id);
    ModeNotNumber(perm);
    hide PosixFields;
    var head := (if mark then ["default"] else []) + [TagText(Access, tag)];
    var mid := if style.solaris && (tag.Other? || tag.Mask?) then [] else [name];
    PosixParts(mark, tag, style, name, perm, id);
    OneClean(TagText(Access, tag));
    OneClean("default");
    OneClean(name);
    AllCleanConcat(if mark then ["default"] else [], [TagText(Access, tag)]);
    hide AllClean;
    PosixJoined(head, mid, ModeLetters(perm), IdField(id));
    PosixAll(head + mid + [ModeLetters(perm)] + IdField(id));
    IdLast(head + mid, ModeLetters(perm), id);
  }

  lemma PosixAll(fs: seq<string>)
    requires AllClean(fs)
    ensures fs != [] && fs[|fs| - 1] != "" ==> CleanFields(fs)
  {
    hide Clean;
  }

  lemma PosixParts(mark: bool, tag: Tag, style: Style, name: string, perm: Bits, id: int)
    ensures var fs := PosixFields(mark, tag, style, name, perm, id);
            var mid := if style.solaris && (tag.Other? || tag.Mask?) then [] else [name];
            && fs == (if mark then ["default"] else []) + [TagText(Access, tag)] + mid + [ModeLetters(perm)] + IdField(id)
            && fs[0] == if mark then "default" else TagText(Access, tag)
  {
    hide ModeLetters;
    hide TagText;
    hide IdField;
  }

  lemma IdLast(a: seq<string>, f: string, id: int)
    requires f != ""
    ensures var fs := a + [f] + IdField(id);
            fs[|fs| - 1] != ""
  {
    CleanId(id);
  }

  lemma NfsJoined(text: seq<string>, mid: seq<string>, p: string, f: string, k: string, tail: seq<string>)
    requires AllClean(text) && AllClean(mid) && Clean(p) && Clean(f) && Clean(k) && AllClean(tail)
    ensures AllClean(text + mid + [p, f] + [k] + tail)
  {
    hide Clean;
    AllCleanConcat(text, mid);
    AllCleanConcat(text + mid, [p, f]);
    AllCleanConcat(text + mid + [p, f], [k]);
    AllCleanConcat(text + mid + [p, f] + [k], tail);
  }

  lemma NfsClean(kind: Kind, tag: Tag, style: Style, name: string, perm: Bits, id: int)
    requires IsNfs4(kind) && TagFits(kind, tag) && Clean(name)
    ensures var fs := NfsFields(kind, tag, style, name, perm, id);
            CleanFields(fs) && fs[0] != "" && fs[0][0] != '\0'
  {
    hide Letters;
    hide TagText;
    hide KindText;
    hide IdField;
    hide Clean;
    CleanWords(kind, tag);
    CleanTables(perm, style.compact);
    CleanId(id);
    var p, f := Letters(PERM_MAP, perm, style.compact), Letters(FLAG_MAP, perm, style.compact);
    var text, mid := [TagText(kind, tag)], if Named(tag) then [name] else [];
    var fs := NfsFields(kind, tag, style, name, perm, id);
    NfsFieldsAre(kind, tag, style, name, perm, id);
    hide NfsFields;
    OneClean(TagText(kind, tag));
    OneClean(name);
    OneClean(KindText(kind));
    NfsJoined(text, mid, p, f, KindText(kind), IdField(id));
    IdLast(text + mid + [p, f], KindText(kind), id);
  }

  lemma NfsFieldsAre(kind: Kind, tag: Tag, style: Style, name: string, perm: Bits, id: int)
    ensures var p, f := Letters(PERM_MAP, perm, style.compact), Letters(FLAG_MAP, perm, style.compact);
            var fs := NfsFields(kind, tag, style, name, perm, id);
            && fs == [TagText(kind, tag)] + (if Named(tag) then [name] else []) + [p, f] + [KindText(kind)] + IdField(id)
            && fs[0] == TagText(kind, tag)
  {
    hide Letters;
    hide TagText;
    hide KindText;
    hide IdField;
  }

  lemma OneClean(s: string)
    requires Clean(s)
    ensures AllClean([s]) && AllClean([])
  {
  }

  /** How the lines of a list are to be read. */
  function ReadAs(want: set<Kind>, mark: bool): Want {
    if want == NFS4 then WantNfs4 else if want == {Default} && !mark then WantPosix(Default) else WantPosix(Access)
  }

  /** The fields of the line of an entry. */
  function FieldsOf(e: Entry, style: Style, mark: bool): seq<string> {
    var name, behind := NameField(e.tag, e.name, e.id), IdShown(e, style);
    if IsNfs4(e.kind) then NfsFields(e.kind, e.tag, style, name, e.permset, behind)
    else PosixFields(e.kind == Default && mark, e.tag, style, name, e.permset, behind)
  }

  ghost predicate Asked(e: Entry, want: set<Kind>, mark: bool) {
    Fits(e.kind, e.permset, e.tag) && e.kind in want && (want == NFS4 || want <= POSIX1E) && (want == POSIX1E ==> mark)
  }

  /** The line of an entry is read as the entry exactly when its name and id say so. */
  lemma LineParses(e: Entry, style: Style, want: set<Kind>, mark: bool)
    requires Asked(e, want, mark)
    ensures var fs := FieldsOf(e, style, mark);
            fs != [] && (ParseEntry(fs, ReadAs(want, mark)) == Some(e) <==> FieldsBack(e, style))
  {
    hide ParsePosix;
    hide ParseNfs4;
    hide ModeLetters;
    hide Letters;
    hide Reduced;
    hide FieldsBack;
    hide NameField;
    hide IdShown;
    hide TagText;
    hide KindText;
    hide IdField;
    var fs := FieldsOf(e, style, mark);
    if IsNfs4(e.kind) {
      ParseNfsFields(fs, e, style);
    } else {
      ReducedSame(e.permset);
      ParsePosixFields(fs, if want == {Default} && !mark then Default else Access, e.kind == Default && mark, e, style);
    }
  }

  lemma NameFieldClean(e: Entry)
    requires NameClean(e)
    ensures Clean(NameField(e.tag, e.name, e.id))
  {
    hide Clean;
    CleanId(e.id);
    CleanWords(Access, User);
  }

  /** A clean name is kept together in the line. */
  lemma LineCut(e: Entry, style: Style, want: set<Kind>, mark: bool)
    requires Asked(e, want, mark) && NameClean(e)
    ensures LineOf(Line(e, style, mark), FieldsOf(e, style, mark))
  {
    hide PosixFields;
    hide NfsFields;
    hide AppendEntry;
    hide CleanFields;
    hide Clean;
    hide NameField;
    hide IdBehind;
    var name, behind := NameField(e.tag, e.name, e.id), IdShown(e, style);
    var id := if e.name.None? || style.extraId then e.id else -1;
    NameFieldClean(e);
    NameFieldSame(e, id);
    if IsNfs4(e.kind) {
      NfsLine(e.kind, e.tag, style, e.name, e.permset, id);
      NfsClean(e.kind, e.tag, style, name, e.permset, behind);
    } else {
      var marked := e.kind == Default && mark;
      PosixLine(marked, e.kind, e.tag, style, e.name, e.permset, id);
      PosixClean(marked, e.tag, style, name, e.permset, behind, e.kind);
    }
  }

  lemma NameFieldSame(e: Entry, id: int)
    requires e.name.None? ==> id == e.id
    ensures NameField(e.tag, e.name, id) == NameField(e.tag, e.name, e.id)
  {
  }

  lemma ReducedSame(perm: Bits)
    requires perm & !PERMS_POSIX1E == 0
    ensures Reduced(perm) == perm
  {
    PosixPerms(perm);
  }

  // ---------- the round trip ----------

  /** What is printed keeps its order. */
  lemma {:induction false} PrintedOrder(es: seq<Entry>, want: set<Kind>, i: nat, j: nat)
    requires i < j < |Printed(es, want)|
    ensures exists a: nat, b: nat :: a < b < |es| && es[a] == Printed(es, want)[i] && es[b] == Printed(es, want)[j]
  {
    var here := es[0].kind in want && !InMode(es[0].kind, es[0].tag);
    var rest := Printed(es[1..], want);
    if here && i == 0 {
      assert Printed(es, want)[j] == rest[j - 1];
      PrintedFrom(es[1..], want, j - 1);
      var b: nat :| b < |es[1..]| && es[1..][b] == rest[j - 1];
      assert es[0] == Printed(es, want)[0] && es[b + 1] == Printed(es, want)[j];
    } else {
      var d := if here then 1 else 0;
      PrintedOrder(es[1..], want, i - d, j - d);
      var a: nat, b: nat :| a < b < |es[1..]| && es[1..][a] == rest[i - d] && es[1..][b] == rest[j - d];
      assert es[a + 1] == Printed(es, want)[i] && es[b + 1] == Printed(es, want)[j];
    }
  }

  lemma {:induction false} PrintedFrom(es: seq<Entry>, want: set<Kind>, i: nat)
    requires i < |Printed(es, want)|
    ensures exists a: nat :: a < |es| && es[a] == Printed(es, want)[i]
    ensures var e := Printed(es, want)[i];
            e.kind in want && !InMode(e.kind, e.tag)
  {
    var d := if es[0].kind in want && !InMode(es[0].kind, es[0].tag) then 1 else 0;
    if d == 1 && i == 0 {
      assert es[0] == Printed(es, want)[0];
    } else {
      PrintedFrom(es[1..], want, i - d);
      var a: nat :| a < |es[1..]| && es[1..][a] == Printed(es[1..], want)[i - d];
      assert es[a + 1] == Printed(es, want)[i];
    }
  }

  /** What is printed of a valid list is a valid list. */
  lemma PrintedValid(l: List, want: set<Kind>, mode: Bits)
    requires Valid(l)
    ensures var p := Printed(l.entries, want);
            Valid(List(mode, p, TypesOf(p)))
  {
    var p := Printed(l.entries, want);
    var r := List(mode, p, TypesOf(p));
    forall k | k in r.types ensures k in l.types {
      var e :| e in p && e.kind == k;
      var i: nat :| i < |p| && p[i] == e;
      PrintedFrom(l.entries, want, i);
      assert e in l.entries;
    }
    forall i: nat ensures EntryOk(r, i) {
      if i < |p| {
        PrintedFrom(l.entries, want, i);
        var a: nat :| a < |l.entries| && l.entries[a] == p[i];
        assert EntryOk(l, a);
      }
    }
    forall i: nat, j: nat ensures UniqueOk(r, i, j) {
      if i < j < |p| {
        PrintedOrder(l.entries, want, i, j);
        var a: nat, b: nat :| a < b < |l.entries| && l.entries[a] == p[i] && l.entries[b] == p[j];
        assert UniqueOk(l, a, b);
      }
    }
  }

  function ModeEntries(mode: Bits): seq<Entry> {
    [Entry(Access, UserObj, Reduced(mode & 0x1C0), -1, None), Entry(Access, GroupObj, Reduced(mode & 0x38), -1, None),
     Entry(Access, Other, Reduced(mode & 0x7), -1, None)]
  }

  /** The nine mode bits replaced by those of another mode. */
  function Nine(old': Bits, mode: Bits): Bits {
    (old' & !0x1FF) | (mode & 0x1FF)
  }

  lemma ReducedFits(perm: Bits)
    ensures Reduced(perm) == (if perm & 0x124 != 0 then 4 else 0) | (if perm & 0x92 != 0 then 2 else 0)
                             | if perm & 0x49 != 0 then 1 else 0
    ensures Reduced(perm) & !7 == 0
  {
    ModeRoundTrip(perm);
    SmallBits(perm & 0x124 != 0, perm & 0x92 != 0, perm & 0x49 != 0);
  }

  lemma SmallBits(r: bool, w: bool, x: bool)
    ensures var m: Bits := (if r then 4 else 0) | (if w then 2 else 0) | if x then 1 else 0;
            m & !7 == 0
  {
    NoHighBit(if r then 4 else 0, if w then 2 else 0);
    NoHighBit((if r then 4 else 0) | (if w then 2 else 0), if x then 1 else 0);
  }

  lemma NoHighBit(a: Bits, b: Bits)
    requires a & !7 == 0 && (b == 0 || b == 1 || b == 2 || b == 4)
    ensures (a | b) & !7 == 0
  {
    }

  lemma UserBits(mode: Bits, perm: Bits)
    requires perm == (if mode & 0x1C0 & 0x124 != 0 then 4 else 0) | (if mode & 0x1C0 & 0x92 != 0 then 2 else 0)
                     | if mode & 0x1C0 & 0x49 != 0 then 1 else 0
    ensures (perm & 7) << 6 == mode & 0x1C0
  {
  }

  lemma GroupBits(mode: Bits, perm: Bits)
    requires perm == (if mode & 0x38 & 0x124 != 0 then 4 else 0) | (if mode & 0x38 & 0x92 != 0 then 2 else 0)
                     | if mode & 0x38 & 0x49 != 0 then 1 else 0
    ensures (perm & 7) << 3 == mode & 0x38
  {
  }

  lemma OtherBits(mode: Bits, perm: Bits)
    requires perm == (if mode & 7 & 0x124 != 0 then 4 else 0) | (if mode & 7 & 0x92 != 0 then 2 else 0)
                     | if mode & 7 & 0x49 != 0 then 1 else 0
    ensures perm & 7 == mode & 7
  {
  }

  lemma ThreeParts(m: Bits, mode: Bits)
    ensures ((((((m & !0x1C0) | (mode & 0x1C0)) & !0x38) | (mode & 0x38)) & !0x7) | (mode & 0x7)) ==
            (m & !0x1FF) | (mode & 0x1FF)
  {
  }

  lemma NineBits(m: Bits, mode: Bits, u: Bits, g: Bits, o: Bits)
    requires u == Reduced(mode & 0x1C0) && g == Reduced(mode & 0x38) && o == Reduced(mode & 0x7)
    ensures WithMode(WithMode(WithMode(m, u, UserObj), g, GroupObj), o, Other) == Nine(m, mode)
    ensures u & !7 == 0 && g & !7 == 0 && o & !7 == 0
  {
    hide Reduced;
    ReducedFits(mode & 0x1C0);
    ReducedFits(mode & 0x38);
    ReducedFits(mode & 0x7);
    UserBits(mode, u);
    GroupBits(mode, g);
    OtherBits(mode, o);
    ThreeParts(m, mode);
  }

  lemma AddMode(l: List, e: Entry)
    requires InMode(e.kind, e.tag) && e.permset & !7 == 0
    ensures Add(l, e) == Some(l.(mode := WithMode(l.mode, e.permset, e.tag)))
  {
    hide WithMode;
  }

  /** Adding the three mode entries sets the nine mode bits. */
  lemma ModeAdds(l: List, mode: Bits)
    ensures AddsAll(l, ModeEntries(mode)) && AddAll(l, ModeEntries(mode)) == l.(mode := Nine(l.mode, mode))
  {
    hide Reduced;
    hide WithMode;
    hide Nine;
    hide Add;
    var u, g, o := Reduced(mode & 0x1C0), Reduced(mode & 0x38), Reduced(mode & 0x7);
    NineBits(l.mode, mode, u, g, o);
    var es := ModeEntries(mode);
    var l1 := l.(mode := WithMode(l.mode, u, UserObj));
    var l2 := l.(mode := WithMode(l1.mode, g, GroupObj));
    AddMode(l, es[0]);
    AddMode(l1, es[1]);
    AddMode(l2, es[2]);
    AddsCons(l, es[0], [es[1], es[2]]);
    AddsCons(l1, es[1], [es[2]]);
    AddsCons(l2, es[2], []);
    assert es == [es[0]] + [es[1], es[2]] && [es[1], es[2]] == [es[1]] + [es[2]] && [es[2]] == [es[2]] + [];
  }

  lemma AddsCons(l: List, e: Entry, rest: seq<Entry>)
    requires Add(l, e).Some?
    ensures AddsAll(l, [e] + rest) <==> AddsAll(Add(l, e).value, rest)
    ensures AddAll(l, [e] + rest) == AddAll(Add(l, e).value, rest)
  {
    hide Add;
    assert ([e] + rest)[1..] == rest;
  }

  lemma {:induction false} AddsConcat(l: List, a: seq<Entry>, b: seq<Entry>)
    requires AddsAll(l, a) && AddsAll(AddAll(l, a), b)
    ensures AddsAll(l, a + b) && AddAll(l, a + b) == AddAll(AddAll(l, a), b)
    decreases |a|
  {
    hide Add;
    if a == [] {
      assert a + b == b;
    } else {
      assert (a + b)[1..] == a[1..] + b;
      AddsConcat(Add(l, a[0]).value, a[1..], b);
    }
  }

  function AllFields(es: seq<Entry>, style: Style, mark: bool): seq<seq<string>> {
    if es == [] then [] else [FieldsOf(es[0], style, mark)] + AllFields(es[1..], style, mark)
  }

  /** The lines of entries with clean names. */
  lemma {:induction false} LinesCut(es: seq<Entry>, style: Style, want: set<Kind>, mark: bool)
    requires forall e :: e in es ==> Asked(e, want, mark) && NameClean(e)
    ensures LinesOf(Lines(es, style, mark), AllFields(es, style, mark))
  {
    hide LineOf;
    hide Line;
    hide FieldsOf;
    hide Asked;
    hide NameClean;
    if es != [] {
      assert es[0] in es && forall e :: e in es[1..] ==> e in es;
      LineCut(es[0], style, want, mark);
      LinesCut(es[1..], style, want, mark);
      LinesConcat([Line(es[0], style, mark)], Lines(es[1..], style, mark),
                  [FieldsOf(es[0], style, mark)], AllFields(es[1..], style, mark));
    }
  }

  lemma LinesConcat(a: seq<string>, b: seq<string>, fa: seq<seq<string>>, fb: seq<seq<string>>)
    requires LinesOf(a, fa) && LinesOf(b, fb)
    ensures LinesOf(a + b, fa + fb)
  {
    hide LineOf;
  }

  /** Lines that are read as their entries. */
  lemma {:induction false} LinesParse(es: seq<Entry>, style: Style, want: set<Kind>, mark: bool)
    requires forall e :: e in es ==> Asked(e, want, mark)
    ensures |AllFields(es, style, mark)| == |es|
    ensures ParsedAs(AllFields(es, style, mark), ReadAs(want, mark), es) <==> forall e :: e in es ==> FieldsBack(e, style)
  {
    hide ParseEntry;
    hide FieldsOf;
    hide Asked;
    hide FieldsBack;
    hide ReadAs;
    if es != [] {
      assert es[0] in es && forall e :: e in es[1..] ==> e in es;
      LineParses(es[0], style, want, mark);
      LinesParse(es[1..], style, want, mark);
      ParsedCons(FieldsOf(es[0], style, mark), AllFields(es[1..], style, mark), ReadAs(want, mark), es);
      assert forall e :: e in es ==> e == es[0] || e in es[1..];
    }
  }

  lemma ParsedCons(fs: seq<string>, fss: seq<seq<string>>, want: Want, es: seq<Entry>)
    requires es != [] && fs != [] && |fss| == |es| - 1
    ensures ParsedAs([fs] + fss, want, es) <==> ParseEntry(fs, want) == Some(es[0]) && ParsedAs(fss, want, es[1..])
  {
    hide ParseEntry;
    var all := [fs] + fss;
    if ParsedAs(all, want, es) {
      forall k | 0 <= k < |fss| ensures fss[k] != [] && ParseEntry(fss[k], want) == Some(es[1..][k]) {
        assert all[k + 1] == fss[k] && es[k + 1] == es[1..][k];
      }
      assert all[0] == fs;
    }
    if ParseEntry(fs, want) == Some(es[0]) && ParsedAs(fss, want, es[1..]) {
      forall k | 0 <= k < |all| ensures all[k] != [] && ParseEntry(all[k], want) == Some(es[k]) {
        if k > 0 {
          assert all[k] == fss[k - 1] && es[k] == es[1..][k - 1];
        }
      }
    }
  }

  function ModeFields(mode: Bits, style: Style): seq<seq<string>> {
    [PosixFields(false, UserObj, style, "", mode & 0x1C0, -1), PosixFields(false, GroupObj, style, "", mode & 0x38, -1),
     PosixFields(false, Other, style, "", mode & 0x7, -1)]
  }

  lemma ModeLineReads(tag: Tag, style: Style, perm: Bits)
    requires tag.UserObj? || tag.GroupObj? || tag.Other?
    ensures var fs := PosixFields(false, tag, style, "", perm, -1);
            && LineOf(AppendEntry("", Access, tag, style, None, perm, -1), fs)
            && fs != [] && ParseEntry(fs, WantPosix(Access)) == Some(Entry(Access, tag, Reduced(perm), -1, None))
  {
    hide AppendEntry;
    hide PosixFields;
    hide Reduced;
    hide ParsePosix;
    hide CleanFields;
    var e := Entry(Access, tag, perm, -1, None);
    PosixLine(false, Access, tag, style, None, perm, -1);
    ParsePosixFields(PosixFields(false, tag, style, "", perm, -1), Access, false, e, style);
    PosixWordsClean();
    PosixClean(false, tag, style, "", perm, -1, Access);
    LineFields(AppendEntry("", Access, tag, style, None, perm, -1), PosixFields(false, tag, style, "", perm, -1));
  }

  lemma ModeLinesRead(mode: Bits, style: Style)
    ensures LinesOf(ModeLines(mode, style), ModeFields(mode, style))
    ensures ParsedAs(ModeFields(mode, style), WantPosix(Access), ModeEntries(mode))
  {
    hide LineOf;
    hide AppendEntry;
    hide PosixFields;
    hide Reduced;
    hide ParseEntry;
    ModeLineReads(UserObj, style, mode & 0x1C0);
    ModeLineReads(GroupObj, style, mode & 0x38);
    ModeLineReads(Other, style, mode & 0x7);
  }

  lemma WantIs(types: set<Kind>, asked: set<Kind>)
    requires WantType(types, asked) != {}
    ensures WantType(types, asked) == NFS4 || WantType(types, asked) <= POSIX1E
  {
  }

  lemma ReadAsAccess(want: set<Kind>, mark: bool)
    requires Access in want && (want == NFS4 || want <= POSIX1E)
    ensures ReadAs(want, mark) == WantPosix(Access)
  {
  }

  /** The list that should come back: what was printed, in order, and, with access entries, the nine mode bits. */
  function Restored(l: List, want: set<Kind>, m: Bits): List {
    var p := Printed(l.entries, want);
    List(if Access in want then Nine(m, l.mode) else m, p, TypesOf(p))
  }

  /** The fields of a text. */
  function TextFields(l: List, style: Style, want: set<Kind>, mark: bool): seq<seq<string>> {
    (if Access in want then ModeFields(l.mode, style) else []) + AllFields(Printed(l.entries, want), style, mark)
  }

  /** The lines of the mode, if any, set the mode. */
  lemma ModeTaken(l: List, style: Style, want: set<Kind>, mark: bool, m: Bits)
    requires want == NFS4 || want <= POSIX1E
    ensures Taken(List(m, [], {}), TextFields(l, style, want, mark), ReadAs(want, mark), Ok) ==
            Taken(List(if Access in want then Nine(m, l.mode) else m, [], {}),
                  AllFields(Printed(l.entries, want), style, mark), ReadAs(want, mark), Ok)
  {
    hide Nine;
    hide ModeEntries;
    hide ModeFields;
    hide AllFields;
    hide Printed;
    hide Taken;
    hide Add;
    hide AddAll;
    hide AddsAll;
    hide ParsedAs;
    var fss := AllFields(Printed(l.entries, want), style, mark);
    if Access in want {
      ReadAsAccess(want, mark);
      ModeLinesRead(l.mode, style);
      ModeAdds(List(m, [], {}), l.mode);
      TakenAdds(List(m, [], {}), ModeFields(l.mode, style), fss, WantPosix(Access), ModeEntries(l.mode), Ok);
    } else {
      assert [] + fss == fss;
    }
  }

  /** Lines give back the list they were printed from exactly when each is read as its entry. */
  lemma EntriesTaken(l: List, style: Style, want: set<Kind>, mark: bool, m: Bits)
    requires Valid(l) && forall e :: e in Printed(l.entries, want) ==> Asked(e, want, mark)
    ensures var p := Printed(l.entries, want);
            Taken(List(m, [], {}), AllFields(p, style, mark), ReadAs(want, mark), Ok) == Result(List(m, p, TypesOf(p)), Ok)
            <==> forall e :: e in p ==> FieldsBack(e, style)
  {
    hide Asked;
    hide FieldsBack;
    hide Taken;
    hide Add;
    hide ParsedAs;
    hide AddAll;
    hide AddsAll;
    hide TypesOf;
    hide ReadAs;
    hide AllFields;
    var p, empty := Printed(l.entries, want), List(m, [], {});
    hide Printed;
    var fss, as', r := AllFields(p, style, mark), ReadAs(want, mark), List(m, p, TypesOf(p));
    LinesParse(p, style, want, mark);
    PrintedValid(l, want, m);
    hide Valid;
    if ParsedAs(fss, as', p) {
      ReAdd(r, m, 0);
      assert p[..0] == [] && p[0..] == p;
      NoTypes();
      TakenAdds(empty, fss, [], as', p, Ok);
      assert fss + [] == fss;
      NoneTaken(r, as');
    }
    if Taken(empty, fss, as', Ok) == Result(r, Ok) {
      TakenAll(empty, fss, as', r);
      assert p[0..] == p;
    }
  }

  lemma NoTypes()
    ensures TypesOf([]) == {}
  {
  }

  lemma NoneTaken(l: List, want: Want)
    ensures Taken(l, [], want, Ok) == Result(l, Ok)
  {
  }

  lemma AskedAll(l: List, want: set<Kind>, mark: bool)
    requires Valid(l) && (want == NFS4 || want <= POSIX1E) && (want == POSIX1E ==> mark)
    ensures forall e :: e in Printed(l.entries, want) ==> Asked(e, want, mark)
  {
    hide Fits;
    hide Printed;
    PrintedFit(l, want);
  }

  /** With clean names a text is taken line by line. */
  lemma TextTaken(l: List, style: Style, want: set<Kind>, mark: bool, m: Bits)
    requires want == NFS4 || want <= POSIX1E
    requires forall e :: e in Printed(l.entries, want) ==> Asked(e, want, mark) && NameClean(e)
    ensures var t := Join((if Access in want then ModeLines(l.mode, style) else []) + Lines(Printed(l.entries, want), style, mark),
                          if style.comma then ',' else '\n');
            FromText(List(m, [], {}), t, 0, ReadAs(want, mark), Ok)
            == Taken(List(m, [], {}), TextFields(l, style, want, mark), ReadAs(want, mark), Ok)
  {
    hide LineOf;
    hide ModeLines;
    hide ModeFields;
    hide FromText;
    hide Taken;
    hide Join;
    hide Lines;
    hide AllFields;
    hide Asked;
    hide NameClean;
    hide LinesOf;
    hide ParsedAs;
    var p := Printed(l.entries, want);
    hide Printed;
    var sep := if style.comma then ',' else '\n';
    var lines := (if Access in want then ModeLines(l.mode, style) else []) + Lines(p, style, mark);
    LinesCut(p, style, want, mark);
    if Access in want {
      ModeLinesRead(l.mode, style);
      LinesConcat(ModeLines(l.mode, style), Lines(p, style, mark), ModeFields(l.mode, style), AllFields(p, style, mark));
    } else {
      assert lines == Lines(p, style, mark) && TextFields(l, style, want, mark) == AllFields(p, style, mark);
    }
    var t := Join(lines, sep);
    assert t[0..0 + |t|] == t;
    TextReads(t, 0, lines, TextFields(l, style, want, mark), ReadAs(want, mark), sep, List(m, [], {}), Ok);
  }

  /**
    What is printed, in any style and for any types asked for, is read back into an empty list as what was printed, with
    no complaint, exactly when every entry printed comes back.
   */
  lemma RoundTrip(l: List, style: Style, asked: set<Kind>, m: Bits)
    requires Valid(l) && ToText(l, style, asked).Some?
    ensures var want := WantType(l.types, asked);
            FromText(List(m, [], {}), ToText(l, style, asked).value, 0, ReadAs(want, style.markDefault || want == POSIX1E), Ok)
            == Result(Restored(l, want, m), Ok)
            <==> forall e :: e in Printed(l.entries, want) ==> ComesBack(e, style)
  {
    hide Nine;
    hide ModeLines;
    hide FromText;
    hide Join;
    hide Lines;
    hide Asked;
    hide ReadAs;
    hide FieldsBack;
    hide NameClean;
    hide Taken;
    hide TypesOf;
    var want := WantType(l.types, asked);
    var mark := style.markDefault || want == POSIX1E;
    WantIs(l.types, asked);
    AskedAll(l, want, mark);
    hide WantType;
    hide Valid;
    var p := Printed(l.entries, want);
    hide Printed;
    NamesBack(p, style);
    NamesRead(List(m, [], {}), ToText(l, style, asked).value, 0, ReadAs(want, mark), Ok);
    if forall e :: e in p ==> NameClean(e) {
      TextTaken(l, style, want, mark, m);
      ModeTaken(l, style, want, mark, m);
      EntriesTaken(l, style, want, mark, if Access in want then Nine(m, l.mode) else m);
    }
  }

  lemma NamesBack(p: seq<Entry>, style: Style)
    ensures (forall e :: e in p ==> ComesBack(e, style)) <==> (forall e :: e in p ==> NameClean(e) && FieldsBack(e, style))
  {
    hide Clean;
    hide IsInt;
    forall e ensures ComesBack(e, style) <==> NameClean(e) && FieldsBack(e, style) {
    }
  }

  lemma PrintedFit(l: List, want: set<Kind>)
    requires Valid(l)
    ensures forall e :: e in Printed(l.entries, want) ==>
              e in l.entries && e.kind in want && Fits(e.kind, e.permset, e.tag)
  {
    var p := Printed(l.entries, want);
    forall e | e in p ensures e in l.entries && e.kind in want && Fits(e.kind, e.permset, e.tag) {
      var i: nat :| i < |p| && p[i] == e;
      PrintedFrom(l.entries, want, i);
      var a: nat :| a < |l.entries| && l.entries[a] == e;
      assert EntryOk(l, a);
    }
  }

  lemma {:induction false} AllPrinted(es: seq<Entry>, want: set<Kind>)
    requires forall e :: e in es ==> e.kind in want && !InMode(e.kind, e.tag)
    ensures Printed(es, want) == es
  {
    if es != [] {
      assert es[0] in es && forall e :: e in es[1..] ==> e in es;
      AllPrinted(es[1..], want);
    }
  }

  /** Asking for no type in particular, a whole list is printed. */
  lemma WholeWant(l: List)
    requires Valid(l) && l.entries != []
    ensures WantType(l.types, {}) == if l.types <= NFS4 then NFS4 else POSIX1E
    ensures Printed(l.entries, WantType(l.types, {})) == l.entries
  {
    hide Fits;
    hide Printed;
    forall e | e in l.entries ensures !InMode(e.kind, e.tag) && e.kind in l.types {
      var i: nat :| i < |l.entries| && l.entries[i] == e;
      assert EntryOk(l, i);
    }
    assert l.entries[0] in l.entries && l.entries[0].kind in l.types;
    AllPrinted(l.entries, WantType(l.types, {}));
  }

  lemma TextThere(l: List, style: Style, asked: set<Kind>)
    ensures ToText(l, style, asked).Some? <==> WantType(l.types, asked) != {} && Printed(l.entries, WantType(l.types, asked)) != []
  {
    hide Join;
    hide Lines;
    hide ModeLines;
    hide Printed;
    hide WantType;
  }

  /**
    Asking for no type in particular, the whole list comes back exactly when all its entries do; there is a text exactly
    when the list has entries.
   */
  lemma WholeRoundTrip(l: List, style: Style, m: Bits)
    requires Valid(l)
    ensures ToText(l, style, {}).Some? <==> l.entries != []
    ensures l.entries != [] ==>
              var nfs4 := l.types <= NFS4;
              FromText(List(m, [], {}), ToText(l, style, {}).value, 0, if nfs4 then WantNfs4 else WantPosix(Access), Ok)
              == Result(l.(mode := if nfs4 then m else Nine(m, l.mode)), Ok)
              <==> forall e :: e in l.entries ==> ComesBack(e, style)
  {
    hide FromText;
    hide ToText;
    hide Nine;
    hide ComesBack;
    TextThere(l, style, {});
    if l.entries != [] {
      WholeWant(l);
      RoundTrip(l, style, {}, m);
      assert l.types == TypesOf(l.entries);
    }
  }

  // ---------- which entries come back ----------

  /** The entry alone in a list. */
  function Alone(e: Entry): List {
    List(0, [e], {e.kind})
  }

  /** The text of a list with this entry alone, read into an empty list. */
  function Again(e: Entry, style: Style): Option<Result> {
    var text := ToText(Alone(e), style, {});
    if text.None? then None
    else Some(FromText(EMPTY, text.value, 0, if IsNfs4(e.kind) then WantNfs4 else WantPosix(Access), Ok))
  }

  lemma AloneAgain(e: Entry, style: Style)
    requires Fits(e.kind, e.permset, e.tag) && !InMode(e.kind, e.tag)
    ensures Again(e, style) == Some(Result(Alone(e), Ok)) <==> ComesBack(e, style)
  {
    hide FromText;
    hide ToText;
    hide ComesBack;
    hide Fits;
    hide InMode;
    AloneValid(e);
    WholeRoundTrip(Alone(e), style, 0);
    NoMode();
  }

  lemma AloneValid(e: Entry)
    requires Fits(e.kind, e.permset, e.tag) && !InMode(e.kind, e.tag)
    ensures Valid(Alone(e)) && (Alone(e).types <= NFS4 <==> IsNfs4(e.kind))
  {
    hide PermsFit;
    assert TypesOf([e]) == {e.kind};
    forall i: nat ensures EntryOk(Alone(e), i) {
    }
  }

  lemma NoMode()
    ensures Nine(0, 0) == 0
  {
  }

  /**
    A POSIX.1e user or group whose name is a number is read as that number whatever its id, without complaint.
   */
  lemma OtherId(e: Entry, style: Style, n: int)
    requires Fits(e.kind, e.permset, e.tag) && IsPosix(e.kind) && Named(e.tag)
    requires e.name.Some? && Clean(e.name.value) && IsInt(e.name.value) == Int(n)
    ensures Again(e, style) == Some(Result(Alone(e.(id := n)), Ok))
  {
    hide FromText;
    hide Taken;
    hide Clean;
    hide IsInt;
    hide AppendId;
    hide TextFields;
    hide FieldsOf;
    hide Join;
    hide Add;
    hide AddAll;
    hide AddsAll;
    hide Nine;
    hide Lines;
    hide ModeLines;
    hide Reduced;
    hide ParsePosix;
    var l, d := Alone(e), Alone(e.(id := n));
    AloneValid(e);
    AloneValid(e.(id := n));
    WholeWant(l);
    TextThere(l, style, {});
    AskedAll(l, POSIX1E, true);
    TextTaken(l, style, POSIX1E, true, 0);
    ModeTaken(l, style, POSIX1E, true, 0);
    NoMode();
    NumberLine(e, style, n);
    var fs := FieldsOf(e, style, true);
    assert AllFields([e], style, true) == [fs];
    ReAdd(d, 0, 0);
    NoTypes();
    assert d.entries[..0] == [] && d.entries[0..] == d.entries;
    TakenAdds(EMPTY, [fs], [], WantPosix(Access), [e.(id := n)], Ok);
    assert [fs] + [] == [fs];
    NoneTaken(d, WantPosix(Access));
  }

  lemma NumberLine(e: Entry, style: Style, n: int)
    requires Fits(e.kind, e.permset, e.tag) && IsPosix(e.kind) && Named(e.tag)
    requires e.name.Some? && IsInt(e.name.value) == Int(n)
    ensures var fs := FieldsOf(e, style, true);
            fs != [] && ParsePosix(fs, Access) == Some(e.(id := n))
  {
    hide ParsePosix;
    hide PosixFields;
    hide IsInt;
    hide AppendId;
    hide Reduced;
    hide FieldsBack;
    NotNumber();
    ReducedSame(e.permset);
    LineParses(e, style, POSIX1E, true);
    ParsePosixFields(FieldsOf(e, style, true), Access, e.kind == Default, e, style);
    IsIntBelow(e.name.value);
  }

  function UserEntry(kind: Kind, name: Option<string>, id: int): Entry {
    Entry(kind, User, 0, id, name)
  }

  predicate Kept(kind: Kind, name: string, id: int, style: Style) {
    Again(UserEntry(kind, Some(name), id), style) == Some(Result(Alone(UserEntry(kind, Some(name), id)), Ok))
  }

  lemma Number123()
    ensures IsInt("123") == Int(123) && Clean("123")
  {
    hide Digits;
    var s := "123";
    assert s[1..] == ['2', '3'] && s[1..][1..] == ['3'] && s[1..][1..][1..] == [];
    DigitStep(s, 0);
    DigitStep(s[1..], 1);
    DigitStep(s[1..][1..], 12);
    DigitStep([], 123);
    CleanDigits(s);
  }

  lemma NoNumber()
    ensures IsInt("1abc") == NotInt && Clean("1abc")
  {
    hide Digits;
    hide Clean;
    var s := "1abc";
    DigitStep(s, 0);
    DigitStep(s[1..], 1);
    CleanWord(s);
  }

  lemma NoDigits()
    ensures IsInt("ab") == NotInt && Clean("ab")
  {
    hide Clean;
    CleanWord("ab");
  }

  lemma DigitStep(s: string, n: int)
    requires 0 <= n < 1000
    ensures Digits(s, n) == if s == [] then Int(n) else if s[0] < '0' || s[0] > '9' then NotInt
                            else Digits(s[1..], 10 * n + (s[0] as int - '0' as int))
  {
  }

  lemma Unclean(a: char, c: char)
    requires Blank(c) || EndsField(c)
    ensures !Clean([a, c, a])
  {
    assert [a, c, a][1..] == [c, a];
  }

  lemma KeptIs(kind: Kind, name: string, id: int, style: Style)
    requires IsPosix(kind) || IsNfs4(kind)
    ensures Kept(kind, name, id, style) <==> ComesBack(UserEntry(kind, Some(name), id), style)
  {
    hide Again;
    hide ComesBack;
    NoPerms(kind);
    AloneAgain(UserEntry(kind, Some(name), id), style);
  }

  lemma NoPerms(kind: Kind)
    ensures PermsFit(kind, 0)
  {
  }

  /** A user of each kind that does not come back, in both dialects: a blank or separator, a number too large, no id. */
  lemma NotKept(kind: Kind, style: Style, c: char)
    requires (IsPosix(kind) || IsNfs4(kind)) && (Blank(c) || EndsField(c))
    ensures !Kept(kind, ['a', c, 'a'], 5, style) && !Kept(kind, AppendId(INT_MAX), 5, style) && !Kept(kind, "", 5, style)
    ensures !Kept(kind, "ab", INT_MAX, style) && !Kept(kind, "123", -1, style)
    ensures Kept(kind, "ab", 5, style) <==> style.extraId
  {
    hide Kept;
    hide Clean;
    hide IsInt;
    Number123();
    NoDigits();
    IdRoundTrip(INT_MAX);
    Unclean('a', c);
    KeptIs(kind, ['a', c, 'a'], 5, style);
    KeptIs(kind, AppendId(INT_MAX), 5, style);
    KeptIs(kind, "", 5, style);
    KeptIs(kind, "ab", INT_MAX, style);
    KeptIs(kind, "123", -1, style);
    KeptIs(kind, "ab", 5, style);
  }

  /** A leading digit does no harm; a name that is a number needs its id, except in an NFSv4 entry. */
  lemma DigitsKept(kind: Kind, style: Style)
    requires (IsPosix(kind) || IsNfs4(kind)) && style.extraId
    ensures Kept(kind, "1abc", 5, style) && Kept(kind, "123", 123, style)
    ensures Kept(kind, "123", 5, style) <==> IsNfs4(kind)
  {
    hide Kept;
    hide Clean;
    hide IsInt;
    Number123();
    NoNumber();
    KeptIs(kind, "1abc", 5, style);
    KeptIs(kind, "123", 123, style);
    KeptIs(kind, "123", 5, style);
  }

  /** Printed with its number for a name, a user without a name comes back with that name. */
  lemma NamelessNotKept(kind: Kind, id: int, style: Style)
    requires IsPosix(kind) || IsNfs4(kind)
    ensures var e := UserEntry(kind, None, id);
            Again(e, style) != Some(Result(Alone(e), Ok))
  {
    hide Again;
    NoPerms(kind);
    AloneAgain(UserEntry(kind, None, id), style);
  }
}
