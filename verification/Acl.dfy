/** An access control list updated in place, with a cursor for reading it back entry by entry. */
module Acl {
  import opened Options
  import opened AclSpec
  import opened AclText
  import AclParser
  import AclPrinter
  import AclRoundTrip

  /** Not reading, about to give an entry of the mode, or reading from the list. */
  datatype State = Idle | UserNext | GroupNext | OtherNext | InList

  datatype Reading = Got(entry: Entry) | EndOfEntries | NotReading

  function ModeEntry(mode: Bits, tag: Tag): Entry {
    Entry(Access, tag,
          if tag.UserObj? then And(mode >> 6, 7) else if tag.GroupObj? then And(mode >> 3, 7) else And(mode, 7), -1, None)
  }

  /** The entries of the types asked for. */
  function Matching(es: seq<Entry>, want: set<Kind>): seq<Entry> {
    if es == [] then [] else (if es[0].kind in want then [es[0]] else []) + Matching(es[1..], want)
  }

  lemma {:induction false} MatchingSnoc(es: seq<Entry>, want: set<Kind>, e: Entry)
    ensures Matching(es + [e], want) == Matching(es, want) + if e.kind in want then [e] else []
  {
    if es == [] {
      assert es + [e] == [e];
    } else {
      assert (es + [e])[1..] == es[1..] + [e] && (es + [e])[0] == es[0];
      MatchingSnoc(es[1..], want, e);
      var first, last := if es[0].kind in want then [es[0]] else [], if e.kind in want then [e] else [];
      assert Matching(es + [e], want) == first + Matching(es[1..] + [e], want);
      assert first + (Matching(es[1..], want) + last) == first + Matching(es[1..], want) + last;
    }
  }

  /** What a whole reading gives: the three entries of the mode go before access entries, if there are any at all. */
  function Listing(l: List, want: set<Kind>): seq<Entry> {
    var found := Matching(l.entries, want);
    if found == [] then []
    else if Access in want then
      [ModeEntry(l.mode, UserObj), ModeEntry(l.mode, GroupObj), ModeEntry(l.mode, Other)] + found
    else found
  }

  /** In a valid list a whole reading is the mode and exactly the entries a text would show. */
  lemma {:induction false} MatchingIsPrinted(es: seq<Entry>, want: set<Kind>)
    requires forall e :: e in es ==> !InMode(e.kind, e.tag)
    ensures Matching(es, want) == Printed(es, want)
  {
    if es != [] {
      assert es[0] in es && forall e :: e in es[1..] ==> e in es;
      MatchingIsPrinted(es[1..], want);
    }
  }

  /** The three entries of the mode are those its text gives. */
  lemma ModeRead(mode: Bits)
    ensures [ModeEntry(mode, UserObj), ModeEntry(mode, GroupObj), ModeEntry(mode, Other)] == AclRoundTrip.ModeEntries(mode)
  {
    hide AclRoundTrip.Reduced;
    AclRoundTrip.ReducedFits(mode & 0x1C0);
    AclRoundTrip.ReducedFits(mode & 0x38);
    AclRoundTrip.ReducedFits(mode & 0x7);
    OwnBits(mode);
  }

  lemma OwnBits(mode: Bits)
    ensures var m := mode & 0x1C0;
            (mode >> 6) & 7 == (if m & 0x124 != 0 then 4 else 0) | (if m & 0x92 != 0 then 2 else 0) | (if m & 0x49 != 0 then 1 else 0)
    ensures var m := mode & 0x38;
            (mode >> 3) & 7 == (if m & 0x124 != 0 then 4 else 0) | (if m & 0x92 != 0 then 2 else 0) | (if m & 0x49 != 0 then 1 else 0)
    ensures var m := mode & 0x7;
            mode & 7 == (if m & 0x124 != 0 then 4 else 0) | (if m & 0x92 != 0 then 2 else 0) | (if m & 0x49 != 0 then 1 else 0)
  {
  }

  lemma {:induction false} MatchingAll(es: seq<Entry>, want: set<Kind>)
    requires TypesOf(es) <= want
    ensures Matching(es, want) == es
  {
    if es != [] {
      MatchingAll(es[1..], want);
    }
  }

  /** A whole reading, added entry by entry to an empty list, gives the list and the nine mode bits back. */
  lemma ReadBack(l: List, mode: Bits)
    requires Valid(l) && l.entries != []
    ensures l.types <= NFS4 ==> Listing(l, NFS4) == l.entries && AddAll(List(mode, [], {}), Listing(l, NFS4)) == l.(mode := mode)
    ensures l.types <= POSIX1E ==>
              AddAll(List(mode, [], {}), Listing(l, POSIX1E)) == l.(mode := AclRoundTrip.Nine(mode, l.mode))
  {
    hide Add;
    hide AclRoundTrip.Nine;
    var empty := List(mode, [], {});
    assert l.entries[..0] == [] && l.entries[0..] == l.entries && TypesOf([]) == {};
    if l.types <= NFS4 {
      MatchingAll(l.entries, NFS4);
      ReAdd(l, mode, 0);
    }
    if l.types <= POSIX1E {
      MatchingAll(l.entries, POSIX1E);
      ModeRead(l.mode);
      AclRoundTrip.ModeAdds(empty, l.mode);
      ReAdd(l, AclRoundTrip.Nine(mode, l.mode), 0);
      AclRoundTrip.AddsConcat(empty, AclRoundTrip.ModeEntries(l.mode), l.entries);
    }
  }

  method SetClass(mode: Bits, permset: Bits, tag: Tag) returns (m: Bits)
    requires tag.UserObj? || tag.GroupObj? || tag.Other?
    ensures m == WithMode(mode, permset, tag)
  {
    match tag {
      case UserObj =>
        m := mode & !0x1C0;
        m := m | ((permset & 7) << 6);
      case GroupObj =>
        m := mode & !0x38;
        m := m | ((permset & 7) << 3);
      case Other =>
        m := mode & !0x7;
        m := m | (permset & 7);
    }
  }

  lemma ParsedName(fs: seq<string>, want: Want)
    requires fs != [] && ParseEntry(fs, want).Some?
    ensures var name := ParseEntry(fs, want).value.name;
            name == NameOf(if name.Some? then name.value else "")
  {
    hide ReadMode;
    hide ReadLetters;
    hide IsInt;
  }

  /** One turn of the loop over a text. */
  lemma OneEntry(l: List, t: string, i: nat, want: Want, status: Status)
    requires i < |t| && t[i] != '\0'
    ensures var fs, after := EntryFields(t, i).0, EntryFields(t, i).1;
            var start := SkipBlanks(t, i);
            var e := ParseEntry(fs, want);
            var entry := start < |t| && t[start] != '#';
            AclText.FromText(l, t, i, want, status) ==
            (if !entry || e.None? then
               AclText.FromText(l, t, after, want, if start < |t| && t[start] == '#' then status else Warn)
             else if Add(l, e.value).None? then Result(l, Failed)
             else AclText.FromText(Add(l, e.value).value, t, after, want, status))
            && KindsRead(l, t, i, want) ==
               if !entry || e.None? then KindsRead(l, t, after, want)
               else if Add(l, e.value).None? then {}
               else {e.value.kind} + KindsRead(Add(l, e.value).value, t, after, want)
  {
    hide EntryFields;
    hide ParseEntry;
    hide Add;
  }

  lemma NoEntry(l: List, t: string, i: nat, want: Want, status: Status)
    requires i == |t| || (i < |t| && t[i] == '\0')
    ensures AclText.FromText(l, t, i, want, status) == Result(l, status) && KindsRead(l, t, i, want) == {}
  {
  }

  lemma NoMatch(want: set<Kind>)
    ensures Matching([], want) == []
  {
  }

  lemma CopyEnds(l: List)
    ensures TypesOf(l.entries[..0]) == {} && l.entries[..|l.entries|] == l.entries
    ensures Valid(l) ==> TypesOf(l.entries) == l.types
    ensures l.entries == [] ==> TypesOf(l.entries) == {}
  {
  }

  /** The next entry of a valid list goes behind the ones before it. */
  lemma CopyStep(l: List, i: nat)
    requires Valid(l) && i < |l.entries|
    ensures var part, e := l.entries[..i], l.entries[i];
            && Fits(e.kind, e.permset, e.tag) && Agrees(TypesOf(part), e.kind) && Find(part, e.kind, e.tag, e.id) == i
            && l.entries[..i + 1] == part + [e] && TypesOf(part + [e]) == TypesOf(part) + {e.kind}
            && e == Entry(e.kind, e.tag, e.permset, e.id, None).(name := e.name)
  {
    hide Fits;
    hide Find;
    NextFits(l, i);
  }

  lemma SameEntryFields(es: seq<Entry>, kind: Kind, tag: Tag, id: int)
    ensures Find(es, kind, tag, id) < |es| ==>
              var e := es[Find(es, kind, tag, id)];
              e.kind == kind && e.tag == tag && e.id == id
  {
  }

  class Acl {
    var mode: Bits
    var entries: seq<Entry>
    var types: set<Kind>
    /** The entry to be read next; none behind the last. */
    var next: Option<nat>
    var state: State

    function Abs(): List
      reads `mode, `entries, `types
    {
      List(mode, entries, types)
    }

    ghost predicate Well()
      reads `next, `entries
    {
      next.Some? ==> next.value < |entries|
    }

    constructor ()
      ensures Abs() == List(0, [], {}) && Well() && state == Idle
    {
      mode, entries, types, next, state := 0, [], {}, None, Idle;
    }

    // ---------- adding ----------

    method Clear()
      modifies this
      ensures Abs() == List(old(mode), [], {}) && Well() && state == Idle
    {
      while entries != []
        invariant mode == old(mode)
        decreases |entries|
      {
        entries := entries[1..];
      }
      next, types, state := None, {}, Idle;
    }

    /** `acl_special`. */
    method Special(kind: Kind, permset: Bits, tag: Tag) returns (done: bool)
      modifies `mode
      ensures done <==> InMode(kind, tag) && Plain(permset)
      ensures mode == if done then WithMode(old(mode), permset, tag) else old(mode)
    {
      hide WithMode;
      hide Plain;
      done := false;
      if kind == Access && Plain(permset) {
        if tag.UserObj? || tag.GroupObj? || tag.Other? {
          mode := SetClass(mode, permset, tag);
          done := true;
        }
      }
    }

    /** The place of the entry with the same key, or the end of the list. */
    method FindSame(kind: Kind, tag: Tag, id: int) returns (i: nat)
      ensures i == Find(entries, kind, tag, id)
    {
      hide Find;
      i := 0;
      while i < |entries| && !SameEntry(entries[i], kind, tag, id)
        invariant i <= |entries|
        invariant forall j :: 0 <= j < i ==> !SameEntry(entries[j], kind, tag, id)
      {
        i := i + 1;
      }
      assert Find(entries, kind, tag, id) == i;
    }

    /** `acl_new_entry`: the place of the entry, its name being left as it was; none, and no change, if it does not fit. */
    method NewEntry(kind: Kind, permset: Bits, tag: Tag, id: int) returns (at: Option<nat>)
      requires Well()
      modifies `entries, `types
      ensures Well()
      ensures at.None? <==> !Fits(kind, permset, tag) || !Agrees(old(types), kind)
      ensures at.None? ==> entries == old(entries) && types == old(types)
      ensures at.Some? ==>
                at.value == Find(old(entries), kind, tag, id) &&
                if at.value < |old(entries)| then
                  types == old(types) && entries == old(entries)[at.value := old(entries)[at.value].(permset := permset)]
                else types == old(types) + {kind} && entries == old(entries) + [Entry(kind, tag, permset, id, None)]
    {
      hide Only;
      hide Or;
      hide Find;
      if !IsNfs4(kind) && !IsPosix(kind) {
        return None;
      }
      if IsNfs4(kind) {
        if !(types <= NFS4) || !Only(permset, Or(PERMS_NFS4, INHERITANCE_NFS4)) {
          return None;
        }
      } else if !(types <= POSIX1E) || !Only(permset, PERMS_POSIX1E) {
        return None;
      }
      match tag {
        case User =>
        case UserObj =>
        case Group =>
        case GroupObj =>
        case Mask =>
          if !IsPosix(kind) {
            return None;
          }
        case Other =>
          if !IsPosix(kind) {
            return None;
          }
        case Everyone =>
          if !IsNfs4(kind) {
            return None;
          }
        case NoTag(_) => return None;
      }
      var i := FindSame(kind, tag, id);
      if i < |entries| {
        entries := entries[i := entries[i].(permset := permset)];
        return Some(i);
      }
      entries := entries + [Entry(kind, tag, permset, id, None)];
      types := types + {kind};
      return Some(i);
    }

    /** `archive_acl_add_entry`. */
    method AddEntry(kind: Kind, permset: Bits, tag: Tag, id: int, name: string) returns (status: Status)
      requires Well()
      modifies `mode, `entries, `types
      ensures Well()
      ensures var r := Add(old(Abs()), Entry(kind, tag, permset, id, NameOf(name)));
              status == (if r.Some? then Ok else Failed) && Abs() == if r.Some? then r.value else old(Abs())
    {
      hide WithMode;
      hide Plain;
      hide Fits;
      hide Agrees;
      hide Find;
      var done := Special(kind, permset, tag);
      if done {
        return Ok;
      }
      var at := NewEntry(kind, permset, tag, id);
      if at.None? {
        return Failed;
      }
      entries := entries[at.value := entries[at.value].(name := if name != "" then Some(name) else None)];
      SameEntryFields(old(entries), kind, tag, id);
      return Ok;
    }

    /**
      `archive_acl_copy`: the list, the mode and the types come out exactly as in the source, in order. A list copied
      onto itself is emptied, as it is cleared before it is read; the mode stays.
     */
    method Copy(src: Acl)
      requires Valid(src.Abs())
      modifies this
      ensures Abs() == (if src == this then List(old(mode), [], {}) else old(src.Abs())) && Well() && state == Idle
    {
      hide Valid;
      hide Fits;
      hide Agrees;
      hide Find;
      hide TypesOf;
      Clear();
      mode := src.mode;
      var i := 0;
      CopyEnds(src.Abs());
      while i < |src.entries|
        invariant i <= |src.entries| && Well() && state == Idle && (src == this ==> entries == [] && mode == old(mode))
        invariant Abs() == List(src.mode, src.entries[..i], TypesOf(src.entries[..i]))
      {
        var e := src.entries[i];
        CopyStep(src.Abs(), i);
        var at := NewEntry(e.kind, e.permset, e.tag, e.id);
        if at.Some? {
          entries := entries[at.value := entries[at.value].(name := e.name)];
        }
        i := i + 1;
      }
    }

    // ---------- reading ----------

    method Count(want: set<Kind>) returns (count: nat)
      ensures count == |Listing(Abs(), want)|
      ensures count > (if Access in want then 3 else 0) <==> Matching(entries, want) != []
    {
      count := 0;
      var i := 0;
      while i < |entries|
        invariant i <= |entries| && count == |Matching(entries[..i], want)|
      {
        assert entries[..i + 1] == entries[..i] + [entries[i]];
        MatchingSnoc(entries[..i], want, entries[i]);
        if entries[i].kind in want {
          count := count + 1;
        }
        i := i + 1;
      }
      assert entries[..i] == entries;
      if count > 0 && Access in want {
        count := count + 3;
      }
    }

    /** The entries still to be read from the list. */
    function Left(want: set<Kind>): seq<Entry>
      requires Well()
      reads `next, `entries
    {
      if next.None? then [] else Matching(entries[next.value..], want)
    }

    /** The entries still to be read, those of the mode included. */
    function Ahead(want: set<Kind>): seq<Entry>
      requires Well()
      reads `mode, `next, `entries, `state
    {
      if Access in want && state == UserNext then
        [ModeEntry(mode, UserObj), ModeEntry(mode, GroupObj), ModeEntry(mode, Other)] + Matching(entries, want)
      else if Access in want && state == GroupNext then
        [ModeEntry(mode, GroupObj), ModeEntry(mode, Other)] + Matching(entries, want)
      else if Access in want && state == OtherNext then [ModeEntry(mode, Other)] + Matching(entries, want)
      else Left(want)
    }

    /** `archive_acl_reset`: exactly as many entries lie ahead as it says. */
    method Reset(want: set<Kind>) returns (count: nat)
      modifies `next, `state
      ensures Well() && count == |Listing(Abs(), want)|
      ensures state != Idle <==> count > 0
      ensures state != Idle ==> Ahead(want) == Listing(Abs(), want)
    {
      count := Count(want);
      var cutoff := if Access in want then 3 else 0;
      state := if count > cutoff then UserNext else Idle;
      next := if entries == [] then None else Some(0);
      assert entries[0..] == entries;
    }

    /** To the next entry of the list. */
    method Advance(ghost want: set<Kind>)
      requires Well() && next.Some?
      modifies `next
      ensures Well() && (next.Some? ==> next.value == old(next.value) + 1)
      ensures old(Left(want)) == (if entries[old(next.value)].kind in want then [entries[old(next.value)]] else []) + Left(want)
    {
      ghost var rest := entries[next.value..];
      assert rest[1..] == entries[next.value + 1..];
      assert Left(want) == Matching(rest, want)
                        == (if rest[0].kind in want then [rest[0]] else []) + Matching(rest[1..], want);
      next := if next.value + 1 < |entries| then Some(next.value + 1) else None;
      if next.None? {
        assert rest[1..] == [];
      }
    }

    /** One of the three entries kept in the mode. */
    method NextOfMode(ghost want: set<Kind>) returns (r: Reading)
      requires Well() && Access in want && state != Idle && state != InList
      modifies `next, `state
      ensures Well() && old(Ahead(want)) != [] && r == Got(old(Ahead(want))[0]) && state != Idle
      ensures Ahead(want) == old(Ahead(want))[1..]
    {
      hide ModeEntry;
      hide Matching;
      NoMatch(want);
      match state {
        case UserNext =>
          state := GroupNext;
          r := Got(ModeEntry(mode, UserObj));
        case GroupNext =>
          state := OtherNext;
          r := Got(ModeEntry(mode, GroupObj));
        case OtherNext =>
          state := InList;
          next := if entries == [] then None else Some(0);
          assert entries[0..] == entries;
          r := Got(ModeEntry(mode, Other));
      }
    }

    /** `archive_acl_next`: the first of the entries ahead, or the end of them. */
    method Next(want: set<Kind>) returns (r: Reading)
      requires Well()
      modifies `next, `state
      ensures Well()
      ensures old(state) == Idle ==> r == NotReading && state == Idle && next == old(next)
      ensures old(state) != Idle ==>
                if old(Ahead(want)) == [] then r == EndOfEntries && state == Idle
                else r == Got(old(Ahead(want))[0]) && state != Idle && Ahead(want) == old(Ahead(want))[1..]
    {
      hide ModeEntry;
      if state == Idle {
        return NotReading;
      }
      if Access in want && state != InList {
        r := NextOfMode(want);
      } else {
        r := NextInList(want);
      }
    }

    /** The next entry of the list of the types asked for. */
    method NextInList(want: set<Kind>) returns (r: Reading)
      requires Well() && state != Idle
      modifies `next, `state
      ensures Well()
      ensures if old(Left(want)) == [] then r == EndOfEntries && state == Idle
              else r == Got(old(Left(want))[0]) && state == old(state) && Left(want) == old(Left(want))[1..]
    {
      ghost var left := Left(want);
      while next.Some? && entries[next.value].kind !in want
        invariant Well() && Left(want) == left && state == old(state)
        decreases if next.Some? then |entries| - next.value else 0
      {
        Advance(want);
      }
      if next.None? {
        state := Idle;
        return EndOfEntries;
      }
      r := Got(entries[next.value]);
      Advance(want);
    }

    /** After a reset, as many readings succeed as it said, giving the mode and the entries asked for in order. */
    method ReadAll(want: set<Kind>) returns (count: nat, es: seq<Entry>, last: Reading)
      modifies `next, `state
      ensures Well() && state == Idle && count == |es| && es == Listing(Abs(), want)
      ensures last == if es == [] then NotReading else EndOfEntries
    {
      hide Listing;
      hide Matching;
      hide Ahead;
      count := Reset(want);
      es := [];
      last := Next(want);
      while last.Got?
        invariant Well() && (last.Got? ==> state != Idle && es + [last.entry] + Ahead(want) == Listing(Abs(), want))
        invariant !last.Got? ==> state == Idle && es == Listing(Abs(), want)
        invariant last == NotReading <==> Listing(Abs(), want) == []
        invariant last == EndOfEntries ==> es != []
        decreases if last.Got? then 1 + |Ahead(want)| else 0
      {
        es := es + [last.entry];
        last := Next(want);
      }
    }

    // ---------- text ----------

    /** `archive_acl_to_text_l`. */
    method ToText(style: Style, asked: set<Kind>) returns (r: Option<string>)
      ensures r == AclText.ToText(Abs(), style, asked)
    {
      r := AclPrinter.PutText(Abs(), style, asked);
    }

    /** `archive_acl_from_text_nl`: entry by entry, ending with a reset for the types that were read. */
    method FromText(text: string, want: Want) returns (status: Status)
      requires Well()
      modifies this
      ensures Well() && Result(Abs(), status) == AclText.FromText(old(Abs()), text, 0, want, Ok)
      ensures status == Failed ==> state == old(state) && next == old(next)
      ensures status != Failed ==>
                var kinds := KindsRead(old(Abs()), text, 0, want);
                (state != Idle <==> Listing(Abs(), kinds) != []) && (state != Idle ==> Ahead(kinds) == Listing(Abs(), kinds))
    {
      hide AclText.FromText;
      hide KindsRead;
      hide EntryFields;
      hide ParseEntry;
      hide Add;
      status := Ok;
      var i := 0;
      var kinds: set<Kind> := {};
      while i < |text| && text[i] != '\0'
        invariant i <= |text| && Well()
        invariant status != Failed && state == old(state) && next == old(next)
        invariant AclText.FromText(Abs(), text, i, want, status) == AclText.FromText(old(Abs()), text, 0, want, Ok)
        invariant kinds + KindsRead(Abs(), text, i, want) == KindsRead(old(Abs()), text, 0, want)
        decreases |text| - i
      {
        ghost var before, was := i, Abs();
        OneEntry(was, text, i, want, status);
        var e, start, after := AclParser.TakeEntry(text, i, want);
        i := after;
        if start == |text| {
          status := Warn;
        } else if text[start] == '#' {
        } else if e.None? {
          status := Warn;
        } else {
          var name := if e.value.name.Some? then e.value.name.value else "";
          ParsedName(EntryFields(text, before).0, want);
          var r := AddEntry(e.value.kind, e.value.permset, e.value.tag, e.value.id, name);
          if r == Failed {
            return Failed;
          }
          kinds := kinds + {e.value.kind};
        }
      }
      NoEntry(Abs(), text, i, want, status);
      var _ := Reset(kinds);
    }

    /** Printed and parsed into an empty list, a valid list is the same again exactly when all its entries come back. */
    method PrintAndParse(style: Style, into: Acl) returns (status: Option<Status>)
      requires Valid(Abs())
      requires into != this && into.entries == [] && into.types == {} && into.Well()
      modifies into
      ensures status.Some? <==> entries != []
      ensures status.Some? ==>
                (status == Some(Ok)
                 && into.Abs() == Abs().(mode := if types <= NFS4 then old(into.mode) else AclRoundTrip.Nine(old(into.mode), mode))
                 <==> forall e :: e in entries ==> AclRoundTrip.ComesBack(e, style))
    {
      hide AclText.FromText;
      hide AclText.ToText;
      hide AclRoundTrip.Nine;
      hide AclRoundTrip.ComesBack;
      AclRoundTrip.WholeRoundTrip(Abs(), style, into.mode);
      var text := ToText(style, {});
      if text.None? {
        return None;
      }
      var nfs4 := types <= NFS4;
      var r := into.FromText(text.value, if nfs4 then WantNfs4 else WantPosix(Access));
      return Some(r);
    }
  }
}
