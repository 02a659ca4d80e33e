/** What `ismode` leaves behind when it fails, and which lone mode fields get through because of it. */
module AclLoneMode {
  import opened Options
  import opened AclSpec
  import opened AclText

  /** Nothing but mode characters. */
  predicate IsMode(s: string) {
    forall k :: 0 <= k < |s| ==> ModeBit(s[k]).Some?
  }

  /** A letter for a permission at `k`, and mode characters before it. */
  predicate LetterAt(s: string, k: nat) {
    k < |s| && ModeBit(s[k]).Some? && s[k] != '-' && IsMode(s[..k])
  }

  predicate StartsWithLetter(s: string) {
    exists k :: 0 <= k < |s| && LetterAt(s, k)
  }

  lemma OrNotZero(a: Bits, b: Bits)
    ensures Or(a, b) == 0 <==> a == 0 && b == 0
  {
  }

  lemma LetterBit(c: char)
    requires ModeBit(c).Some?
    ensures ModeBit(c).value == 0 <==> c == '-'
  {
  }

  lemma LetterLater(s: string, k: nat)
    requires 0 < k < |s| && ModeBit(s[0]).Some?
    ensures LetterAt(s, k) <==> LetterAt(s[1..], k - 1)
  {
    var before, rest := s[..k], s[1..][..k - 1];
    assert |rest| == k - 1 && forall j :: 0 <= j < k - 1 ==> rest[j] == before[j + 1];
    assert before[0] == s[0];
    assert forall j :: 0 < j < k ==> before[j] == rest[j - 1];
  }

  lemma {:induction false} ReadModeIs(s: string, acc: Bits)
    ensures ReadMode(s, acc).0 <==> IsMode(s)
    ensures ReadMode(s, acc).1 != 0 <==> acc != 0 || StartsWithLetter(s)
  {
    hide Or;
    if s == [] {
    } else if ModeBit(s[0]).None? {
      forall k: nat ensures !LetterAt(s, k) {
        if 0 < k < |s| {
          assert s[..k][0] == s[0];
        }
      }
    } else {
      var bit := ModeBit(s[0]).value;
      ReadModeIs(s[1..], Or(acc, bit));
      OrNotZero(acc, bit);
      LetterBit(s[0]);
      if StartsWithLetter(s[1..]) {
        var k: nat :| k < |s[1..]| && LetterAt(s[1..], k);
        LetterLater(s, k + 1);
      }
      if bit != 0 {
        assert LetterAt(s, 0);
      }
      if StartsWithLetter(s) {
        var k: nat :| k < |s| && LetterAt(s, k);
        if k > 0 {
          LetterLater(s, k);
        }
      }
    }
  }

  /** What `ParseRest` makes of a lone field: it is enough that a permission comes before the first wrong letter. */
  lemma LoneRest(kind: Kind, tag: Tag, id: int, field: string)
    requires tag.Other? || tag.Mask?
    ensures ParseRest(kind, tag, id, field, "", 2) ==
            if Passes(field) then Some(Entry(kind, tag, ReadMode(field, 0).1, id, None)) else None
  {
    hide ReadMode;
    ReadModeIs(field, 0);
  }

  /** A mode, or text with a letter for a permission before its first wrong letter. */
  predicate Passes(field: string) {
    field != "" && (IsMode(field) || StartsWithLetter(field))
  }

  /** An entry of a tag word and one field more: as it is, behind a mark for default entries, or with the mark in the word. */
  predicate LoneField(fs: seq<string>, want: Kind, kind: Kind, tag: Tag) {
    || (|fs| == 2 && TagOf(fs[0]) == Some(tag) && kind == want)
    || (|fs| == 3 && SaysDefault(fs[0]) && |fs[0]| <= 7 && TagOf(fs[1]) == Some(tag) && kind == Default)
    || (|fs| == 2 && SaysDefault(fs[0]) && |fs[0]| > 7 && TagOf(fs[0][7..]) == Some(tag) && kind == Default)
  }

  lemma PassesNoNumber(field: string)
    requires Passes(field)
    ensures IsInt(field) == NotInt
  {
    assert ModeBit(field[0]).Some? by {
      if !IsMode(field) {
        var k: nat :| k < |field| && LetterAt(field, k);
        assert k > 0 ==> field[..k][0] == field[0];
      }
    }
  }

  lemma LoneBody(kind: Kind, word: string, tag: Tag, field: string)
    requires TagOf(word) == Some(tag) && (tag.Other? || tag.Mask?)
    ensures ParseBody(kind, word, field, "", "", 2) ==
            if Passes(field) then Some(Entry(kind, tag, ReadMode(field, 0).1, -1, None)) else None
  {
    hide TagOf;
    hide IsInt;
    hide ReadMode;
    hide ParseRest;
    hide Passes;
    if Passes(field) {
      PassesNoNumber(field);
    }
    LoneRest(kind, tag, if IsInt(field).Int? then IsInt(field).value else -1, field);
  }

  lemma NotDefault(word: string)
    requires TagOf(word).Some?
    ensures !SaysDefault(word)
  {
  }

  /**
    A lone field behind "other" or "mask" is taken for the mode exactly when it is one or gives a permission before its
    first wrong letter; the permissions before that letter are the ones set.
   */
  lemma LoneMode(fs: seq<string>, want: Kind, kind: Kind, tag: Tag)
    requires (tag.Other? || tag.Mask?) && LoneField(fs, want, kind, tag)
    ensures var field := fs[|fs| - 1];
            ParsePosix(fs, want) == if Passes(field) then Some(Entry(kind, tag, ReadMode(field, 0).1, -1, None)) else None
  {
    hide TagOf;
    hide SaysDefault;
    hide ParseBody;
    hide Passes;
    hide ReadMode;
    var field := fs[|fs| - 1];
    if TagOf(fs[0]).Some? {
      NotDefault(fs[0]);
    }
    var word := if |fs| == 3 then fs[1] else if SaysDefault(fs[0]) then fs[0][7..] else fs[0];
    LoneBody(kind, word, tag, field);
  }

  /** So text that is no mode can pass for one. */
  lemma NoModeTaken()
    ensures !IsMode("rq") && ParsePosix(["other", "rq"], Access) == Some(Entry(Access, Other, READ, -1, None))
  {
    assert ModeBit("rq"[1]).None?;
    var s := "rq";
    assert s[1..] == "q" && s[0] == 'r';
    assert ReadMode(s, 0) == ReadMode("q", Or(0, READ)) == (false, Or(0, READ));
    assert IsInt(s) == NotInt && Or(0, READ) == READ;
  }
}
