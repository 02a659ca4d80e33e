/** Parsing the text of an access control list: a cursor moved over the text, and fields kept in a small array. */
module AclParser {
  import opened Options
  import opened AclSpec
  import opened AclText
  import W = Words

  // ---------- fields ----------

  /** `next_field`. */
  method TakeField(t: string, i: nat) returns (f: Field)
    requires i <= |t|
    ensures f == NextField(t, i)
  {
    var p := i;
    while p < |t| && Blank(t[p])
      invariant i <= p <= |t| && SkipBlanks(t, p) == SkipBlanks(t, i)
    {
      p := p + 1;
    }
    var start := p;
    while p < |t| && !Blank(t[p]) && t[p] != ',' && t[p] != ':' && t[p] != '#'
      invariant start <= p <= |t| && WordEnd(t, p) == WordEnd(t, start)
    {
      p := p + 1;
    }
    var end := p;
    while p < |t| && t[p] != ',' && t[p] != ':' && t[p] != '\n' && t[p] != '#'
      invariant end <= p <= |t| && SeparatorAt(t, p) == SeparatorAt(t, end)
    {
      p := p + 1;
    }
    var sep := if p < |t| then t[p] else '\0';
    if sep == '#' {
      ghost var at := p;
      while p < |t| && t[p] != ',' && t[p] != '\n'
        invariant at <= p <= |t| && CommentEnd(t, p) == CommentEnd(t, at)
      {
        p := p + 1;
      }
      sep := if p < |t| then t[p] else '\0';
    }
    if p < |t| {
      p := p + 1;
    }
    f := Field(start, end, sep, p);
  }

  /** The field array: where each field starts and ends; a field that is not there starts and ends at nothing. */
  ghost predicate Within(t: string, field: array<(nat, nat)>)
    reads field
  {
    forall k :: 0 <= k < field.Length ==> field[k].0 <= field[k].1 <= |t|
  }

  ghost predicate Holds(t: string, field: array<(nat, nat)>, fs: seq<string>)
    requires Within(t, field)
    reads field
  {
    forall k :: 0 <= k < field.Length ==> t[field[k].0..field[k].1] == FieldAt(fs, k, field.Length)
  }

  lemma FieldsStep(t: string, i: nat, pre: seq<string>)
    requires i <= |t|
    ensures var f := NextField(t, i);
            var (fs, next) := EntryFields(t, i);
            if f.sep == ':' then
              pre + fs == (pre + [t[f.start..f.end]]) + EntryFields(t, f.next).0 && next == EntryFields(t, f.next).1
            else pre + fs == pre + [t[f.start..f.end]] && next == f.next
  {
    hide NextField;
  }

  /** The array holds the fields read so far, as many as there is room for. */
  ghost predicate Filled(t: string, field: array<(nat, nat)>, pre: seq<string>)
    reads field
  {
    forall k :: 0 <= k < |pre| && k < field.Length ==> field[k].0 <= field[k].1 <= |t| && t[field[k].0..field[k].1] == pre[k]
  }

  method PutField(t: string, field: array<(nat, nat)>, fields: nat, f: Field, ghost pre: seq<string>)
    requires |pre| == fields && Filled(t, field, pre) && f.start <= f.end <= |t|
    modifies field
    ensures Filled(t, field, pre + [t[f.start..f.end]])
    ensures field.Length > 0 ==> field[0].0 == if fields == 0 then f.start else old(field[0].0)
  {
    if fields < field.Length {
      field[fields] := (f.start, f.end);
    }
  }

  method BlankFields(t: string, field: array<(nat, nat)>, fields: nat, ghost pre: seq<string>)
    requires |pre| == fields && Filled(t, field, pre)
    modifies field
    ensures Within(t, field) && Holds(t, field, pre)
    ensures fields > 0 && field.Length > 0 ==> field[0].0 == old(field[0].0)
  {
    var n := fields;
    while n < field.Length
      invariant fields <= n && (fields <= field.Length ==> n <= field.Length) && Filled(t, field, pre)
      invariant forall k :: fields <= k < n && k < field.Length ==> field[k] == (0, 0)
      invariant fields > 0 && field.Length > 0 ==> field[0].0 == old(field[0].0)
    {
      field[n] := (0, 0);
      n := n + 1;
    }
  }

  /** The fields of one entry, as many as there is room for, blanks for the rest, and how many there were. */
  method TakeFields(t: string, i: nat, field: array<(nat, nat)>) returns (fields: nat, next: nat)
    requires i <= |t|
    modifies field
    ensures Within(t, field) && Holds(t, field, EntryFields(t, i).0)
    ensures fields == |EntryFields(t, i).0| && next == EntryFields(t, i).1
    ensures field.Length > 0 ==> field[0].0 == SkipBlanks(t, i)
  {
    hide NextField;
    hide EntryFields;
    hide SkipBlanks;
    hide Filled;
    hide Holds;
    fields, next := 0, i;
    ghost var pre: seq<string> := [];
    NothingFilled(t, field);
    var more := true;
    while more
      invariant i <= next <= |t| && |pre| == fields && Filled(t, field, pre)
      invariant more ==> pre + EntryFields(t, next).0 == EntryFields(t, i).0 && EntryFields(t, next).1 == EntryFields(t, i).1
      invariant !more ==> pre == EntryFields(t, i).0 && next == EntryFields(t, i).1 && fields > 0
      invariant if fields == 0 then next == i else field.Length > 0 ==> field[0].0 == SkipBlanks(t, i)
      decreases more, |t| - next
    {
      var f := TakeField(t, next);
      FieldsStep(t, next, pre);
      StartsAt(t, next);
      PutField(t, field, fields, f, pre);
      pre := pre + [t[f.start..f.end]];
      fields := fields + 1;
      next := f.next;
      more := f.sep == ':';
    }
    BlankFields(t, field, fields, pre);
  }

  lemma NothingFilled(t: string, field: array<(nat, nat)>)
    ensures Filled(t, field, [])
  {
  }

  lemma StartsAt(t: string, i: nat)
    requires i <= |t|
    ensures NextField(t, i).start == SkipBlanks(t, i)
  {
  }

  // ---------- numbers, modes and permissions ----------

  /** `isint`. */
  method ReadInt(t: string, start: nat, end: nat) returns (r: Number)
    requires start <= end <= |t|
    ensures r == IsInt(t[start..end])
  {
    if start >= end {
      return NotInt;
    }
    var n := 0;
    var p := start;
    while p < end
      invariant start <= p <= end && 0 <= n <= INT_MAX && Digits(t[p..end], n) == Digits(t[start..end], 0)
    {
      assert t[p..end][1..] == t[p + 1..end];
      if t[p] < '0' || t[p] > '9' {
        return NotInt;
      }
      var d := t[p] as int - '0' as int;
      if n > INT_MAX / 10 || (n == INT_MAX / 10 && d >= INT_MAX % 10) {
        return TooBig;
      }
      n := 10 * n + d;
      p := p + 1;
    }
    return Int(n);
  }

  /** `ismode`: what was read so far is left behind even when it fails. */
  method TakeMode(t: string, start: nat, end: nat, permset: Bits) returns (ok: bool, permset': Bits)
    requires start <= end <= |t|
    ensures (ok, permset') == if start == end then (false, permset) else ReadMode(t[start..end], 0)
  {
    if start >= end {
      return false, permset;
    }
    permset' := 0;
    var p := start;
    while p < end
      invariant start <= p <= end && ReadMode(t[p..end], permset') == ReadMode(t[start..end], 0)
    {
      assert t[p..end][1..] == t[p + 1..end];
      match t[p] {
        case 'r' => permset' := Or(permset', READ);
        case 'R' => permset' := Or(permset', READ);
        case 'w' => permset' := Or(permset', WRITE);
        case 'W' => permset' := Or(permset', WRITE);
        case 'x' => permset' := Or(permset', EXECUTE);
        case 'X' => permset' := Or(permset', EXECUTE);
        case '-' => permset' := Or(permset', 0);
        case _ => return false, permset';
      }
      p := p + 1;
    }
    return true, permset';
  }

  /** `is_nfs4_perms` and `is_nfs4_flags`. */
  method TakeLetters(bit: char -> Option<Bits>, t: string, start: nat, end: nat, permset: Bits) returns (r: Option<Bits>)
    requires start <= end <= |t|
    ensures r == ReadLetters(bit, t[start..end], permset)
  {
    var acc := permset;
    var p := start;
    while p < end
      invariant start <= p <= end && ReadLetters(bit, t[p..end], acc) == ReadLetters(bit, t[start..end], permset)
    {
      assert t[p..end][1..] == t[p + 1..end];
      if bit(t[p]).None? {
        return None;
      }
      acc := Or(acc, bit(t[p]).value);
      p := p + 1;
    }
    return Some(acc);
  }

  // ---------- one entry ----------

  lemma Word1(t: string, a: nat, b: nat, w: string)
    requires a < b <= |t| && |w| > 0
    ensures t[a..b] == w <==> t[a] == w[0] && b - a == |w| && t[a + 1..b] == w[1..]
  {
    assert t[a..b] == [t[a]] + t[a + 1..b];
    assert w == [w[0]] + w[1..];
  }

  lemma Words(t: string, a: nat, b: nat)
    requires a < b <= |t|
    ensures t[a..b] == "u" <==> t[a] == 'u' && b - a == 1
    ensures t[a..b] == "g" <==> t[a] == 'g' && b - a == 1
    ensures t[a..b] == "o" <==> t[a] == 'o' && b - a == 1
    ensures t[a..b] == "m" <==> t[a] == 'm' && b - a == 1
    ensures t[a..b] == "user" <==> t[a] == 'u' && b - a == 4 && t[a + 1..b] == "ser"
    ensures t[a..b] == "group" <==> t[a] == 'g' && b - a == 5 && t[a + 1..b] == "roup"
    ensures t[a..b] == "other" <==> t[a] == 'o' && b - a == 5 && t[a + 1..b] == "ther"
    ensures t[a..b] == "mask" <==> t[a] == 'm' && b - a == 4 && t[a + 1..b] == "ask"
  {
    Word1(t, a, b, "u");
    Word1(t, a, b, "g");
    Word1(t, a, b, "o");
    Word1(t, a, b, "m");
    Word1(t, a, b, "user");
    Word1(t, a, b, "group");
    Word1(t, a, b, "other");
    Word1(t, a, b, "mask");
    assert "user"[1..] == "ser" && "group"[1..] == "roup" && "other"[1..] == "ther" && "mask"[1..] == "ask";
  }

  /** The tag of a POSIX.1e entry, from the first letter and what follows it. */
  method TakeTag(t: string, start: nat, end: nat) returns (tag: Option<Tag>)
    requires start <= end <= |t|
    ensures tag == TagOf(t[start..end])
    ensures tag.Some? ==> tag.value.Other? || tag.value.Mask? || tag.value.UserObj? || tag.value.GroupObj?
  {
    tag := None;
    var len := end - start;
    if len == 0 {
      return;
    }
    Words(t, start, end);
    match t[start] {
      case 'u' =>
        if len == 1 || (len == 4 && t[start + 1..end] == "ser") {
          tag := Some(UserObj);
        }
      case 'g' =>
        if len == 1 || (len == 5 && t[start + 1..end] == "roup") {
          tag := Some(GroupObj);
        }
      case 'o' =>
        if len == 1 || (len == 5 && t[start + 1..end] == "ther") {
          tag := Some(Other);
        }
      case 'm' =>
        if len == 1 || (len == 4 && t[start + 1..end] == "ask") {
          tag := Some(Mask);
        }
      case _ =>
    }
  }

  /** The number in field n+1, or else, if the entry is that long, in field n+3; none when one is too big. */
  method TakeId(t: string, field: array<(nat, nat)>, fields: nat, n: nat) returns (id: Option<int>)
    requires Within(t, field) && n + 3 < field.Length
    ensures var id1 := IsInt(t[field[n + 1].0..field[n + 1].1]);
            var id3 := if id1.NotInt? && fields > n + 3 then IsInt(t[field[n + 3].0..field[n + 3].1]) else NotInt;
            id == if id1.TooBig? || id3.TooBig? then None
                  else Some(if id1.Int? then id1.value else if id3.Int? then id3.value else -1)
  {
    var r := ReadInt(t, field[n + 1].0, field[n + 1].1);
    var value := -1;
    if r.TooBig? {
      return None;
    }
    if r.Int? {
      IntNotNegative(t[field[n + 1].0..field[n + 1].1]);
      value := r.value;
    }
    if value == -1 && fields > n + 3 {
      r := ReadInt(t, field[n + 3].0, field[n + 3].1);
      if r.TooBig? {
        return None;
      }
      if r.Int? {
        value := r.value;
      }
    }
    return Some(value);
  }

  lemma {:induction false} DigitsNotNegative(s: string, n: int)
    requires n >= 0 && Digits(s, n).Int?
    ensures Digits(s, n).value >= 0
  {
    if s != [] {
      DigitsNotNegative(s[1..], 10 * n + (s[0] as int - '0' as int));
    }
  }

  lemma IntNotNegative(s: string)
    requires IsInt(s).Int?
    ensures IsInt(s).value >= 0
  {
    DigitsNotNegative(s, 0);
  }

  lemma NoName()
    ensures NameOf("") == None
  {
  }

  /** A mode in the place of the name, when it is the last field. */
  method TakeAlone(t: string, start: nat, end: nat, last: bool) returns (ok: bool, permset: Bits)
    requires start <= end <= |t|
    ensures (ok, permset) == if last && start < end then ReadMode(t[start..end], 0) else (false, 0)
  {
    ok, permset := false, 0;
    if last && start < end {
      ok, permset := TakeMode(t, start, end, permset);
    }
  }

  /** The mode, unless one was read before that is not empty; with it the entry is complete. */
  method TakeEnd(t: string, at: (nat, nat), kind: Kind, tag: Tag, permset: Bits, id: int, name: (nat, nat))
    returns (e: Option<Entry>)
    requires at.0 <= at.1 <= |t| && name.0 <= name.1 <= |t|
    ensures var field := t[at.0..at.1];
            var mode := if permset != 0 then (true, permset) else if field == "" then (false, 0) else ReadMode(field, 0);
            e == if mode.0 then Some(Entry(kind, tag, mode.1, id, NameOf(t[name.0..name.1]))) else None
  {
    hide ReadMode;
    hide NameOf;
    var ok, permset' := true, permset;
    if permset == 0 {
      ok, permset' := TakeMode(t, at.0, at.1, permset);
    }
    return if ok then Some(Entry(kind, tag, permset', id, NameOf(t[name.0..name.1]))) else None;
  }

  /**
    The rest of a POSIX.1e entry. A lone field behind "other" or "mask" may be the mode; permissions read from it before
    a wrong letter are kept, and if there are any no other field is looked at.
   */
  method TakeRest(t: string, field: array<(nat, nat)>, fields: nat, n: nat, kind: Kind, id: int, tag: Tag)
    returns (e: Option<Entry>)
    requires Within(t, field) && n + 2 < field.Length && (tag.Other? || tag.Mask? || tag.UserObj? || tag.GroupObj?)
    ensures e == ParseRest(kind, tag, id, t[field[n + 1].0..field[n + 1].1], t[field[n + 2].0..field[n + 2].1], fields - n)
  {
    hide ReadMode;
    hide NameOf;
    var tag', sol, permset, name := tag, 0, 0 as Bits, (0, 0);
    NoName();
    assert t[0..0] == "";
    var start, end := field[n + 1].0, field[n + 1].1;
    if tag.Other? || tag.Mask? {
      var ok;
      ok, permset := TakeAlone(t, start, end, fields == n + 2);
      if ok {
        sol := 1;
      } else if fields == n + 3 && start < end {
        return None;
      }
    } else if id != -1 || start < end {
      name := (start, end);
      tag' := if tag.UserObj? then User else Group;
    }
    e := TakeEnd(t, field[n + 2 - sol], kind, tag', permset, id, name);
  }

  /** A POSIX.1e entry from its tag word, in field n, on. */
  method TakeBody(t: string, field: array<(nat, nat)>, fields: nat, n: nat, kind: Kind) returns (e: Option<Entry>)
    requires Within(t, field) && n + 3 < field.Length
    ensures e == ParseBody(kind, t[field[n].0..field[n].1], t[field[n + 1].0..field[n + 1].1],
                           t[field[n + 2].0..field[n + 2].1], t[field[n + 3].0..field[n + 3].1], fields - n)
  {
    hide IsInt;
    hide TagOf;
    hide ParseRest;
    var id := TakeId(t, field, fields, n);
    if id.None? {
      return None;
    }
    var tag := TakeTag(t, field[n].0, field[n].1);
    if tag.None? {
      return None;
    }
    e := TakeRest(t, field, fields, n, kind, id.value, tag.value);
  }

  lemma DefaultAt(t: string, start: nat, end: nat)
    requires start <= end <= |t|
    ensures SaysDefault(t[start..end]) ==
            (start < end && t[start] == 'd' && (end - start == 1 || (end - start >= 7 && t[start + 1..start + 7] == "efault")))
  {
    if end - start >= 7 {
      W.SliceOfSlice(t, start, end, 1, 7);
      assert SaysDefault(t[start..end]) == (t[start] == 'd' && t[start..end][1..7] == "efault");
    } else if start < end {
      assert SaysDefault(t[start..end]) == (t[start] == 'd' && end - start == 1);
    }
  }

  /** The word "default" as a field of its own, or before the tag word in the same field. */
  method TakePosix(t: string, field: array<(nat, nat)>, fields: nat, want: Kind, ghost fs: seq<string>)
    returns (e: Option<Entry>)
    requires field.Length == 5 && Within(t, field) && Holds(t, field, fs) && fields == |fs| && fs != []
    modifies field
    ensures e == ParsePosix(fs, want)
  {
    hide ParseBody;
    hide FieldAt;
    hide Holds;
    hide SaysDefault;
    OneField(fs);
    forall k | 0 <= k < 5 ensures t[field[k].0..field[k].1] == FieldAt(fs, k, 5) {
      FieldHeld(t, field, fs, k);
    }
    var start, end := field[0].0, field[0].1;
    var len := end - start;
    assert t[start..end] == fs[0];
    var n, kind := 0, want;
    DefaultAt(t, start, end);
    if len > 0 && t[start] == 'd' && (len == 1 || (len >= 7 && t[start + 1..start + 7] == "efault")) {
      kind := Default;
      if len > 7 {
        assert t[start + 7..end] == fs[0][7..];
        field[0] := (start + 7, end);
      } else {
        n := 1;
      }
    }
    e := TakeBody(t, field, fields, n, kind);
  }

  method TakeNfsTag(t: string, start: nat, end: nat) returns (tag: Option<Tag>)
    requires start <= end <= |t|
    ensures tag == NfsTagOf(t[start..end])
  {
    var s := t[start..end];
    match |s| {
      case 4 => tag := if s == "user" then Some(User) else None;
      case 5 => tag := if s == "group" then Some(Group) else None;
      case 6 => tag := if s == "owner@" then Some(UserObj) else if s == "group@" then Some(GroupObj) else None;
      case 9 => tag := if s == "everyone@" then Some(Everyone) else None;
      case _ => tag := None;
    }
  }

  method TakeNfsKind(t: string, start: nat, end: nat) returns (kind: Option<Kind>)
    requires start <= end <= |t|
    ensures kind == NfsKindOf(t[start..end])
  {
    var s := t[start..end];
    if |s| == 4 {
      kind := if s == "deny" then Some(Deny) else None;
    } else if |s| == 5 {
      kind := if s == "allow" then Some(Allow) else if s == "audit" then Some(Audit) else if s == "alarm" then Some(Alarm) else None;
    } else {
      kind := None;
    }
  }

  lemma FieldHeld(t: string, field: array<(nat, nat)>, fs: seq<string>, k: nat)
    requires k < field.Length && Within(t, field) && Holds(t, field, fs)
    ensures t[field[k].0..field[k].1] == FieldAt(fs, k, field.Length)
  {
  }

  lemma OneField(fs: seq<string>)
    requires fs != []
    ensures FieldAt(fs, 0, 6) == FieldAt(fs, 0, 5) == fs[0]
  {
  }

  /** What stands behind the tag and the name: permissions, flags, the kind, and a number, which wins over one before. */
  function NfsRest(fs: seq<string>, n: nat, tag: Tag, id: int, name: string): Option<Entry> {
    var perms := ReadLetters(PermBit, FieldAt(fs, n + 1, 6), 0);
    if perms.None? then None
    else
      var flags := ReadLetters(FlagBit, FieldAt(fs, n + 2, 6), perms.value);
      var kind := NfsKindOf(FieldAt(fs, n + 3, 6));
      var id2 := IsInt(FieldAt(fs, n + 4, 6));
      if flags.None? || kind.None? || id2.TooBig? then None
      else Some(Entry(kind.value, tag, flags.value, if id2.Int? then id2.value else id, NameOf(name)))
  }

  lemma NfsRestIs(fs: seq<string>)
    requires fs != [] && NfsTagOf(fs[0]).Some?
    ensures var tag := NfsTagOf(fs[0]).value;
            var name := if Named(tag) then FieldAt(fs, 1, 6) else "";
            var first := if Named(tag) then IsInt(name) else NotInt;
            ParseNfs4(fs) ==
            if first.TooBig? then None
            else NfsRest(fs, if Named(tag) then 1 else 0, tag, if first.Int? then first.value else -1, name)
  {
    hide IsInt;
    hide NfsTagOf;
    hide NfsKindOf;
    hide ReadLetters;
    hide FieldAt;
  }

  method TakeNfsRest(
      t: string, field: array<(nat, nat)>, ghost fs: seq<string>, n: nat, tag: Tag, id: int, name: string)
    returns (e: Option<Entry>)
    requires field.Length == 6 && Within(t, field) && n <= 1
    requires forall k :: 0 <= k < 6 ==> t[field[k].0..field[k].1] == FieldAt(fs, k, 6)
    ensures e == NfsRest(fs, n, tag, id, name)
  {
    hide IsInt;
    hide NfsKindOf;
    hide ReadLetters;
    hide NameOf;
    hide FieldAt;
    var permset := TakeLetters(PermBit, t, field[1 + n].0, field[1 + n].1, 0);
    if permset.None? {
      return None;
    }
    permset := TakeLetters(FlagBit, t, field[2 + n].0, field[2 + n].1, permset.value);
    if permset.None? {
      return None;
    }
    var kind := TakeNfsKind(t, field[3 + n].0, field[3 + n].1);
    if kind.None? {
      return None;
    }
    var r := ReadInt(t, field[4 + n].0, field[4 + n].1);
    if r.TooBig? {
      return None;
    }
    return Some(Entry(kind.value, tag, permset.value, if r.Int? then r.value else id, NameOf(name)));
  }

  /** An NFSv4 entry: one field more when the tag takes a name; the id at the end, if any, wins over a numeric name. */
  method TakeNfs4(t: string, field: array<(nat, nat)>, ghost fs: seq<string>) returns (e: Option<Entry>)
    requires field.Length == 6 && Within(t, field) && Holds(t, field, fs) && fs != []
    ensures e == ParseNfs4(fs)
  {
    hide IsInt;
    hide NfsTagOf;
    hide NfsRest;
    hide NameOf;
    hide FieldAt;
    hide Holds;
    OneField(fs);
    forall k | 0 <= k < 6 ensures t[field[k].0..field[k].1] == FieldAt(fs, k, 6) {
      FieldHeld(t, field, fs, k);
    }
    var tag := TakeNfsTag(t, field[0].0, field[0].1);
    if tag.None? {
      return None;
    }
    NfsRestIs(fs);
    hide ParseNfs4;
    var n, id, name := 0, -1, "";
    if tag.value.User? || tag.value.Group? {
      n := 1;
      name := t[field[1].0..field[1].1];
      var r := ReadInt(t, field[1].0, field[1].1);
      if r.TooBig? {
        return None;
      }
      if r.Int? {
        id := r.value;
      }
    }
    e := TakeNfsRest(t, field, fs, n, tag.value, id, name);
  }

  /** Whether the text goes on at `i`, and the entry read there: none when it is wrong. */
  method TakeEntry(t: string, i: nat, want: Want) returns (e: Option<Entry>, start: nat, next: nat)
    requires i <= |t|
    ensures start == SkipBlanks(t, i) && next == EntryFields(t, i).1
    ensures start < |t| && t[start] != '#' ==> e == ParseEntry(EntryFields(t, i).0, want)
  {
    hide SkipBlanks;
    hide EntryFields;
    hide ParsePosix;
    hide ParseNfs4;
    var field := new (nat, nat)[if want.WantNfs4? then 6 else 5];
    var fields;
    fields, next := TakeFields(t, i, field);
    ghost var fs := EntryFields(t, i).0;
    start := field[0].0;
    if start == |t| || t[start] == '#' {
      return None, start, next;
    }
    if want.WantNfs4? {
      e := TakeNfs4(t, field, fs);
    } else {
      e := TakePosix(t, field, fields, want.kind, fs);
    }
  }
}
