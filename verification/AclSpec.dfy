/** Access control lists: what may be in one, what adding an entry does, and what every sequence of adds keeps. */
module AclSpec {
  import opened Options

  type Bits = bv32

  function Or(a: Bits, b: Bits): Bits {
    a | b
  }

  function And(a: Bits, b: Bits): Bits {
    a & b
  }

  const EXECUTE: Bits := 0x1
  const WRITE: Bits := 0x2
  const READ: Bits := 0x4
  const PERMS_POSIX1E: Bits := 0x7
  const PERMS_NFS4: Bits := 0xFFF9
  const INHERITANCE_NFS4: Bits := 0x7F00_0000

  /** The six types; each is a bit of its own, and a set of types a mask. */
  datatype Kind = Access | Default | Allow | Deny | Audit | Alarm | NoKind(bits: Bits)

  datatype Tag = User | UserObj | Group | GroupObj | Mask | Other | Everyone | NoTag(code: int)

  const POSIX1E: set<Kind> := {Access, Default}
  const NFS4: set<Kind> := {Allow, Deny, Audit, Alarm}

  datatype Entry = Entry(kind: Kind, tag: Tag, permset: Bits, id: int, name: Option<string>)

  /** The mode bits, the list, and the types of the entries added. */
  datatype List = List(mode: Bits, entries: seq<Entry>, types: set<Kind>)

  predicate IsNfs4(kind: Kind) {
    kind in NFS4
  }

  predicate IsPosix(kind: Kind) {
    kind in POSIX1E
  }

  /** A tag for both kinds, for POSIX.1e only, or for NFSv4 only. */
  predicate TagFits(kind: Kind, tag: Tag) {
    tag.User? || tag.UserObj? || tag.Group? || tag.GroupObj?
    || ((tag.Mask? || tag.Other?) && IsPosix(kind)) || (tag.Everyone? && IsNfs4(kind))
  }

  /** No bits but those allowed. */
  predicate Only(permset: Bits, allowed: Bits) {
    permset & !allowed == 0
  }

  predicate PermsFit(kind: Kind, permset: Bits) {
    if IsNfs4(kind) then Only(permset, Or(PERMS_NFS4, INHERITANCE_NFS4)) else Only(permset, PERMS_POSIX1E)
  }

  /** The entry could be in some list. */
  predicate Fits(kind: Kind, permset: Bits, tag: Tag) {
    (IsNfs4(kind) || IsPosix(kind)) && PermsFit(kind, permset) && TagFits(kind, tag)
  }

  predicate Agrees(types: set<Kind>, kind: Kind) {
    types <= if IsNfs4(kind) then NFS4 else POSIX1E
  }

  /** Entries kept in the mode bits only. */
  predicate InMode(kind: Kind, tag: Tag) {
    kind == Access && (tag.UserObj? || tag.GroupObj? || tag.Other?)
  }

  /** Only the three permissions of the mode. */
  predicate Plain(permset: Bits) {
    Only(permset, 7)
  }

  /** A new entry would overwrite `e`. */
  predicate SameEntry(e: Entry, kind: Kind, tag: Tag, id: int) {
    !IsNfs4(kind) && e.kind == kind && e.tag == tag && e.id == id && (id != -1 || (!tag.User? && !tag.Group?))
  }

  function Find(es: seq<Entry>, kind: Kind, tag: Tag, id: int): (i: nat)
    ensures i <= |es| && (i < |es| ==> SameEntry(es[i], kind, tag, id))
    ensures forall j :: 0 <= j < i ==> !SameEntry(es[j], kind, tag, id)
  {
    if es == [] then 0 else if SameEntry(es[0], kind, tag, id) then 0 else 1 + Find(es[1..], kind, tag, id)
  }

  function NameOf(name: string): Option<string> {
    if name == "" then None else Some(name)
  }

  /** The mode with the permissions of one class set. */
  function WithMode(mode: Bits, permset: Bits, tag: Tag): Bits {
    if tag.UserObj? then (mode & !0x1C0) | ((permset & 7) << 6)
    else if tag.GroupObj? then (mode & !0x38) | ((permset & 7) << 3)
    else (mode & !0x7) | (permset & 7)
  }

  /** Adding an entry: into the mode, over an entry like it, at the end, or, if it does not fit, not at all. */
  function Add(l: List, e: Entry): Option<List> {
    if InMode(e.kind, e.tag) && Plain(e.permset) then Some(l.(mode := WithMode(l.mode, e.permset, e.tag)))
    else if !Fits(e.kind, e.permset, e.tag) || !Agrees(l.types, e.kind) then None
    else
      var i := Find(l.entries, e.kind, e.tag, e.id);
      if i < |l.entries| then Some(l.(entries := l.entries[i := e])) else
        Some(l.(entries := l.entries + [e], types := l.types + {e.kind}))
  }

  // ---------- what every sequence of adds keeps ----------

  ghost predicate EntryOk(l: List, i: nat) {
    i < |l.entries| ==>
      var e := l.entries[i];
      Fits(e.kind, e.permset, e.tag) && !InMode(e.kind, e.tag) && e.kind in l.types && Agrees(l.types, e.kind)
  }

  /** POSIX.1e entries are unique per type, tag and id, except users and groups without an id. */
  ghost predicate UniqueOk(l: List, i: nat, j: nat) {
    i < j < |l.entries| ==>
      var d, e := l.entries[i], l.entries[j];
      !SameEntry(d, e.kind, e.tag, e.id)
  }

  ghost predicate Valid(l: List) {
    && (l.types <= NFS4 || l.types <= POSIX1E) && l.types == TypesOf(l.entries)
    && (forall i :: EntryOk(l, i)) && (forall i, j :: UniqueOk(l, i, j))
  }

  /** A list that agrees with one type before it has entries takes any; POSIX.1e access objects never enter it. */
  lemma AddKeeps(l: List, e: Entry)
    requires Valid(l) && Add(l, e).Some?
    ensures Valid(Add(l, e).value)
  {
    var r := Add(l, e).value;
    if InMode(e.kind, e.tag) && Plain(e.permset) {
      forall i: nat ensures EntryOk(r, i) {
        assert EntryOk(l, i);
      }
      forall i: nat, j: nat ensures UniqueOk(r, i, j) {
        assert UniqueOk(l, i, j);
      }
    } else {
      var k := Find(l.entries, e.kind, e.tag, e.id);
      NotInMode(e);
      if k < |l.entries| {
        OverwriteKeeps(l, e, k);
      } else {
        AppendKeeps(l, e);
      }
    }
  }

  lemma NotInMode(e: Entry)
    requires Fits(e.kind, e.permset, e.tag) && !(InMode(e.kind, e.tag) && Plain(e.permset))
    ensures !InMode(e.kind, e.tag)
  {
  }

  lemma OverwriteKeeps(l: List, e: Entry, k: nat)
    requires Valid(l) && k < |l.entries| && SameEntry(l.entries[k], e.kind, e.tag, e.id)
    requires Fits(e.kind, e.permset, e.tag)
    ensures Valid(l.(entries := l.entries[k := e]))
  {
    var r := l.(entries := l.entries[k := e]);
    forall i: nat ensures EntryOk(r, i) {
      assert EntryOk(l, i) && EntryOk(l, k);
    }
    forall i: nat, j: nat ensures UniqueOk(r, i, j) {
      assert UniqueOk(l, i, j);
    }
    forall d: Kind ensures d in l.types <==> d in TypesOf(r.entries) {
      assert l.entries[k] in l.entries && r.entries[k] == e && e in r.entries;
      if x :| x in l.entries && x.kind == d {
        var j :| 0 <= j < |l.entries| && l.entries[j] == x;
        assert r.entries[j] in r.entries;
      }
    }
  }

  lemma AppendKeeps(l: List, e: Entry)
    requires Valid(l) && Fits(e.kind, e.permset, e.tag) && Agrees(l.types, e.kind) && !InMode(e.kind, e.tag)
    requires Find(l.entries, e.kind, e.tag, e.id) == |l.entries|
    ensures Valid(l.(entries := l.entries + [e], types := l.types + {e.kind}))
  {
    var r := l.(entries := l.entries + [e], types := l.types + {e.kind});
    assert TypesOf(r.entries) == TypesOf(l.entries) + {e.kind};
    forall i: nat ensures EntryOk(r, i) {
      assert EntryOk(l, i);
    }
    forall i: nat, j: nat ensures UniqueOk(r, i, j) {
      assert UniqueOk(l, i, j);
    }
  }

  /** The types are never mixed. */
  lemma Unmixed(l: List)
    requires Valid(l)
    ensures (forall e :: e in l.entries ==> IsNfs4(e.kind)) || (forall e :: e in l.entries ==> IsPosix(e.kind))
  {
    forall e | e in l.entries ensures if l.types <= NFS4 then IsNfs4(e.kind) else IsPosix(e.kind) {
      var i: nat :| i < |l.entries| && l.entries[i] == e;
      assert EntryOk(l, i);
    }
  }

  /** Entries that do not fit leave the list as it is. */
  function AddAll(l: List, es: seq<Entry>): List
    decreases |es|
  {
    if es == [] then l else AddAll(match Add(l, es[0]) { case Some(r) => r case None => l }, es[1..])
  }

  const EMPTY: List := List(0, [], {})

  /** Every list reached from an empty one by adds is as it should be. */
  lemma {:induction false} AddAllKeeps(l: List, es: seq<Entry>)
    requires Valid(l)
    ensures Valid(AddAll(l, es))
    decreases |es|
  {
    if es != [] {
      if Add(l, es[0]).Some? {
        AddKeeps(l, es[0]);
      }
      AddAllKeeps(match Add(l, es[0]) { case Some(r) => r case None => l }, es[1..]);
    }
  }

  // ---------- adding a valid list again ----------

  /** The types of the entries together. */
  function TypesOf(es: seq<Entry>): set<Kind> {
    set e | e in es :: e.kind
  }

  /** Every entry can be added in turn. */
  predicate AddsAll(l: List, es: seq<Entry>)
    decreases |es|
  {
    es == [] || (Add(l, es[0]).Some? && AddsAll(Add(l, es[0]).value, es[1..]))
  }

  /** The entry after a part of a valid list fits behind that part. */
  lemma NextFits(l: List, i: nat)
    requires Valid(l) && i < |l.entries|
    ensures var e := l.entries[i];
            && Fits(e.kind, e.permset, e.tag) && !InMode(e.kind, e.tag)
            && Agrees(TypesOf(l.entries[..i]), e.kind) && Find(l.entries[..i], e.kind, e.tag, e.id) == i
  {
    assert EntryOk(l, i);
    var e := l.entries[i];
    forall d | d in l.entries[..i] ensures d.kind in l.types {
      var j: nat :| j < i && l.entries[j] == d;
      assert EntryOk(l, j);
    }
    forall j: nat | j < i ensures !SameEntry(l.entries[..i][j], e.kind, e.tag, e.id) {
      assert UniqueOk(l, j, i);
    }
  }

  /** Adding the entries of a valid list, one after the other, to an empty one gives the same list. */
  lemma {:induction false} ReAdd(l: List, mode: Bits, i: nat)
    requires Valid(l) && i <= |l.entries|
    ensures AddsAll(List(mode, l.entries[..i], TypesOf(l.entries[..i])), l.entries[i..])
    ensures AddAll(List(mode, l.entries[..i], TypesOf(l.entries[..i])), l.entries[i..]) ==
            l.(mode := mode)
    decreases |l.entries| - i
  {
    var part := List(mode, l.entries[..i], TypesOf(l.entries[..i]));
    if i == |l.entries| {
      assert l.entries[..i] == l.entries;
    } else {
      NextFits(l, i);
      var e := l.entries[i];
      assert l.entries[..i + 1] == l.entries[..i] + [e];
      assert l.entries[i..][1..] == l.entries[i + 1..];
      assert TypesOf(l.entries[..i] + [e]) == TypesOf(l.entries[..i]) + {e.kind};
      assert Add(part, e) == Some(List(mode, l.entries[..i + 1], TypesOf(l.entries[..i + 1])));
      ReAdd(l, mode, i + 1);
    }
  }

  // ---------- what one add does ----------

  /** The permissions a type may have: three, or the fourteen and the seven flags of NFSv4. */
  predicate Allowed(kind: Kind, permset: Bits) {
    And(permset, if kind in {Allow, Deny, Audit, Alarm} then 0x80FF_0006 else 0xFFFF_FFF8) == 0
  }

  predicate OwnTag(kind: Kind, tag: Tag) {
    || tag in {User, UserObj, Group, GroupObj}
    || (kind in {Access, Default} && tag in {Mask, Other}) || (kind in {Allow, Deny, Audit, Alarm} && tag == Everyone)
  }

  /** A list of the other dialect. */
  predicate Clashes(types: set<Kind>, kind: Kind) {
    exists k :: k in types && (kind in {Allow, Deny, Audit, Alarm} <==> k !in {Allow, Deny, Audit, Alarm})
  }

  lemma Masks()
    ensures !Or(PERMS_NFS4, INHERITANCE_NFS4) == 0x80FF_0006 && !PERMS_POSIX1E == 0xFFFF_FFF8 && !(7 as Bits) == 0xFFFF_FFF8
  {
  }

  lemma AllowedIs(kind: Kind, permset: Bits)
    ensures PermsFit(kind, permset) <==> Allowed(kind, permset)
    ensures Plain(permset) <==> And(permset, 0xFFFF_FFF8) == 0
  {
    Masks();
    hide Or;
    OnlyIs(permset, Or(PERMS_NFS4, INHERITANCE_NFS4));
    OnlyIs(permset, PERMS_POSIX1E);
    OnlyIs(permset, 7);
    hide Only;
    hide And;
  }

  lemma OnlyIs(permset: Bits, allowed: Bits)
    ensures Only(permset, allowed) <==> And(permset, !allowed) == 0
  {
  }

  /**
    An entry is refused if and only if its type is none of the six, it has a permission or a tag its type does not have,
    or the list is one of the other dialect; the owner, the group and the others go to the mode in any case.
   */
  lemma AddRefuses(l: List, e: Entry)
    requires Valid(l)
    ensures Add(l, e) == None <==>
              && !(e.kind == Access && e.tag in {UserObj, GroupObj, Other} && And(e.permset, 0xFFFF_FFF8) == 0)
              && (|| e.kind !in {Access, Default, Allow, Deny, Audit, Alarm} || !Allowed(e.kind, e.permset)
                  || !OwnTag(e.kind, e.tag) || Clashes(l.types, e.kind))
  {
    AllowedIs(e.kind, e.permset);
    hide PermsFit;
    hide Plain;
    hide And;
    hide WithMode;
    hide Find;
    TypesClash(l.types, e.kind);
    hide Agrees;
    hide Clashes;
  }

  lemma TypesClash(types: set<Kind>, kind: Kind)
    requires types <= NFS4 || types <= POSIX1E
    ensures Agrees(types, kind) <==> !Clashes(types, kind)
  {
  }

  /** Both entries are for the same one: type, tag and id agree, where users and groups need an id for that. */
  predicate SameOne(x: Entry, e: Entry) {
    && e.kind in {Access, Default} && x.kind == e.kind && x.tag == e.tag && x.id == e.id
    && (e.id != -1 || e.tag !in {User, Group})
  }

  /** An entry for the list takes the place of the one for the same one, or stands at the end when there is none. */
  lemma AddPlaces(l: List, e: Entry)
    requires Valid(l) && Add(l, e).Some? && !(InMode(e.kind, e.tag) && Plain(e.permset))
    ensures var r := Add(l, e).value;
            && r.mode == l.mode && e in r.entries
            && ((r.entries == l.entries + [e] && forall x :: x in l.entries ==> !SameOne(x, e))
                || exists i :: 0 <= i < |l.entries| && SameOne(l.entries[i], e) && r.entries == l.entries[i := e])
  {
    hide PermsFit;
    hide Valid;
    hide Plain;
    var i := Find(l.entries, e.kind, e.tag, e.id);
    var r := Add(l, e).value;
    if i < |l.entries| {
      assert SameOne(l.entries[i], e) && r.entries[i] == e;
    } else {
      assert r.entries[|l.entries|] == e;
      forall x | x in l.entries ensures !SameOne(x, e) {
        var j :| 0 <= j < |l.entries| && l.entries[j] == x;
      }
    }
  }
}
