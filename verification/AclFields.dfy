/**
  The form an entry of an access control list text may have: blanks around its fields, anything behind a blank in a
  field, and a comment, none of which counts.
 */
module AclFields {
  import opened AclText

  predicate Space(c: char) {
    c in [' ', '\t', '\n']
  }

  predicate Special(c: char) {
    c in [',', '\n', ':', '#']
  }

  predicate Ending(c: char) {
    c in [',', '\n']
  }

  /** A field as it is written: blanks, the word, and whatever follows a blank behind it. */
  datatype Written = Written(before: string, word: string, after: string)

  ghost predicate WrittenOk(w: Written) {
    && (forall k :: 0 <= k < |w.before| ==> Space(w.before[k]))
    && (forall k :: 0 <= k < |w.word| ==> !Space(w.word[k]) && !Special(w.word[k]))
    && (forall k :: 0 <= k < |w.after| ==> !Special(w.after[k]))
    && (w.after != [] ==> w.word != [] && Space(w.after[0]))
  }

  function Letters(w: Written): string {
    w.before + w.word + w.after
  }

  /** Fields with a colon between each two. */
  function Colons(ws: seq<Written>): string
    requires ws != []
  {
    if |ws| == 1 then Letters(ws[0]) else Letters(ws[0]) + ":" + Colons(ws[1..])
  }

  function Words(ws: seq<Written>): seq<string> {
    if ws == [] then [] else [ws[0].word] + Words(ws[1..])
  }

  /** A comment goes up to the end of the entry. */
  ghost predicate CommentOk(comment: string) {
    comment != [] ==> comment[0] == '#' && forall k :: 0 <= k < |comment| ==> !Ending(comment[k])
  }

  // ---------- the scans ----------

  lemma {:induction false} BlanksEnd(t: string, i: nat, n: nat)
    requires i + n <= |t| && (forall k :: i <= k < i + n ==> Space(t[k])) && (i + n < |t| ==> !Space(t[i + n]))
    ensures SkipBlanks(t, i) == i + n
    decreases n
  {
    if n > 0 {
      BlanksEnd(t, i + 1, n - 1);
    }
  }

  lemma {:induction false} WordEnds(t: string, i: nat, n: nat)
    requires i + n <= |t| && (forall k :: i <= k < i + n ==> !Space(t[k]) && !Special(t[k]))
    requires i + n < |t| ==> Space(t[i + n]) || Special(t[i + n])
    ensures WordEnd(t, i) == i + n
    decreases n
  {
    if n > 0 {
      WordEnds(t, i + 1, n - 1);
    }
  }

  lemma {:induction false} RestEnds(t: string, i: nat, n: nat)
    requires i + n <= |t| && (forall k :: i <= k < i + n ==> !Special(t[k])) && (i + n < |t| ==> Special(t[i + n]))
    ensures SeparatorAt(t, i) == i + n
    decreases n
  {
    if n > 0 {
      RestEnds(t, i + 1, n - 1);
    }
  }

  lemma {:induction false} CommentEnds(t: string, i: nat, n: nat)
    requires i + n <= |t| && (forall k :: i <= k < i + n ==> !Ending(t[k])) && (i + n < |t| ==> Ending(t[i + n]))
    ensures CommentEnd(t, i) == i + n
    decreases n
  {
    if n > 0 {
      CommentEnds(t, i + 1, n - 1);
    }
  }

  // ---------- one field, and all of an entry ----------

  /** Where the parts of a field lie in a text. */
  ghost predicate Lies(t: string, i: nat, a: nat, b: nat, c: nat) {
    && i <= a <= b <= c <= |t|
    && (forall k :: i <= k < a ==> Space(t[k])) && (a < |t| ==> !Space(t[a]))
    && (forall k :: a <= k < b ==> !Space(t[k]) && !Special(t[k])) && (b < |t| ==> Space(t[b]) || Special(t[b]))
    && (forall k :: b <= k < c ==> !Special(t[k])) && (c < |t| ==> Special(t[c]))
  }

  lemma ScansEnd(t: string, i: nat, a: nat, b: nat, c: nat)
    requires Lies(t, i, a, b, c)
    ensures SkipBlanks(t, i) == a && WordEnd(t, a) == b && SeparatorAt(t, b) == c
  {
    BlanksEnd(t, i, a - i);
    WordEnds(t, a, b - a);
    RestEnds(t, b, c - b);
  }

  ghost predicate Copied(t: string, i: nat, part: string) {
    i + |part| <= |t| && forall k :: i <= k < i + |part| ==> t[k] == part[k - i]
  }

  /** The letters of a text in three parts. */
  lemma Between(t: string, front: string, mid: string, back: string)
    requires t == front + mid + back
    ensures |t| == |front| + |mid| + |back|
    ensures Copied(t, |front|, mid)
    ensures t[|front|..|front| + |mid|] == mid
    ensures back != [] ==> t[|front| + |mid|] == back[0]
  {
  }

  lemma CopiedLies(t: string, i: nat, w: Written)
    requires WrittenOk(w) && Copied(t, i, w.before) && Copied(t, i + |w.before|, w.word)
    requires Copied(t, i + |w.before| + |w.word|, w.after)
    requires var c := i + |w.before| + |w.word| + |w.after|;
             c < |t| ==> Special(t[c]) && (t[c] == '\n' ==> w.word != [])
    ensures Lies(t, i, i + |w.before|, i + |w.before| + |w.word|, i + |w.before| + |w.word| + |w.after|)
  {
    var a, b := i + |w.before|, i + |w.before| + |w.word|;
    assert w.word != [] ==> t[a] == w.word[0];
    assert w.after != [] ==> t[b] == w.after[0];
  }

  lemma InLetters(w: Written)
    ensures var l := Letters(w);
            && |l| == |w.before| + |w.word| + |w.after| && Copied(l, 0, w.before)
            && Copied(l, |w.before|, w.word) && Copied(l, |w.before| + |w.word|, w.after)
  {
  }

  lemma CopiedPart(t: string, i: nat, l: string, j: nat, part: string)
    requires Copied(t, i, l) && Copied(l, j, part)
    ensures Copied(t, i + j, part)
  {
    forall k | i + j <= k < i + j + |part| ensures t[k] == part[k - (i + j)] {
      assert t[k] == l[k - i];
    }
  }

  lemma CopiedSlice(t: string, i: nat, part: string)
    requires Copied(t, i, part)
    ensures t[i..i + |part|] == part
  {
  }

  lemma PartsLie(head: string, w: Written, tail: string)
    requires WrittenOk(w) && (tail != [] ==> Special(tail[0])) && (tail != [] && tail[0] == '\n' ==> w.word != [])
    ensures var t, i := head + Letters(w) + tail, |head|;
            var a, b := i + |w.before|, i + |w.before| + |w.word|;
            Lies(t, i, a, b, i + |Letters(w)|) && t[a..b] == w.word
  {
    hide WrittenOk;
    hide Special;
    hide Lies;
    var t, i := head + Letters(w) + tail, |head|;
    hide Copied;
    hide Letters;
    Between(t, head, Letters(w), tail);
    InLetters(w);
    CopiedPart(t, i, Letters(w), 0, w.before);
    CopiedPart(t, i, Letters(w), |w.before|, w.word);
    CopiedPart(t, i, Letters(w), |w.before| + |w.word|, w.after);
    CopiedSlice(t, i + |w.before|, w.word);
    CopiedLies(t, i, w);
  }

  /** A field is its word; what follows is a separator, the end, or a comment before one of them. */
  lemma FieldIs(head: string, w: Written, tail: string)
    requires WrittenOk(w) && (tail != [] ==> Special(tail[0])) && (tail != [] && tail[0] == '\n' ==> w.word != [])
    ensures var t, i := head + Letters(w) + tail, |head|;
            var f, at := NextField(t, i), i + |Letters(w)|;
            && t[f.start..f.end] == w.word
            && var stop := if tail != [] && tail[0] == '#' then CommentEnd(t, at) else at;
               f.sep == (if stop < |t| then t[stop] else '\0') && f.next == if stop < |t| then stop + 1 else stop
  {
    hide Lies;
    hide WrittenOk;
    hide Letters;
    var t, i := head + Letters(w) + tail, |head|;
    PartsLie(head, w, tail);
    ScansEnd(t, i, i + |w.before|, i + |w.before| + |w.word|, i + |Letters(w)|);
    Follows(head + Letters(w), tail);
  }

  lemma Follows(front: string, tail: string)
    ensures tail != [] ==> (front + tail)[|front|] == tail[0]
  {
  }

  /** The fields of an entry are the words; an empty last one must not be followed by the end of the line at once. */
  lemma {:induction false} EntryIs(head: string, ws: seq<Written>, comment: string, end: string)
    requires ws != [] && (forall k :: 0 <= k < |ws| ==> WrittenOk(ws[k])) && CommentOk(comment)
    requires (end != [] ==> Ending(end[0])) && (comment == [] && end != [] && end[0] == '\n' ==> ws[|ws| - 1].word != [])
    ensures var t := head + Colons(ws) + comment + end;
            EntryFields(t, |head|) == (Words(ws), |t| - |end| + if end == [] then 0 else 1)
    decreases |ws|
  {
    hide Letters;
    hide WrittenOk;
    hide CommentOk;
    hide EntryFields;
    hide Ending;
    if |ws| == 1 {
      LastField(head, ws[0], comment, end);
      assert Words(ws) == [ws[0].word] && Colons(ws) == Letters(ws[0]);
    } else {
      var first, rest, next := Letters(ws[0]), Colons(ws[1..]), head + Letters(ws[0]) + ":";
      EntryIs(next, ws[1..], comment, end);
      FirstField(head, ws[0], rest + comment + end);
      Rejoined(head, first, rest, comment, end);
      assert Colons(ws) == first + ":" + rest && Words(ws) == [ws[0].word] + Words(ws[1..]);
    }
  }

  lemma Rejoined(head: string, first: string, rest: string, comment: string, end: string)
    ensures head + (first + ":" + rest) + comment + end == head + first + ":" + (rest + comment + end)
    ensures head + (first + ":" + rest) + comment + end == head + first + ":" + rest + comment + end
  {
  }

  lemma FirstField(head: string, w: Written, tail: string)
    requires WrittenOk(w)
    ensures var t, next := head + Letters(w) + ":" + tail, |head + Letters(w)| + 1;
            EntryFields(t, |head|) == ([w.word] + EntryFields(t, next).0, EntryFields(t, next).1)
  {
    hide Letters;
    hide WrittenOk;
    hide CommentEnd;
    FieldIs(head, w, ":" + tail);
    assert head + Letters(w) + (":" + tail) == head + Letters(w) + ":" + tail;
    Follows(head + Letters(w), ":" + tail);
  }

  lemma LastField(head: string, w: Written, comment: string, end: string)
    requires WrittenOk(w) && CommentOk(comment)
    requires (end != [] ==> Ending(end[0])) && (comment == [] && end != [] && end[0] == '\n' ==> w.word != [])
    ensures var t := head + Letters(w) + comment + end;
            EntryFields(t, |head|) == ([w.word], |t| - |end| + if end == [] then 0 else 1)
  {
    hide WrittenOk;
    hide Letters;
    hide CommentEnd;
    hide NextField;
    var front := head + Letters(w);
    CommentFirst(front, comment, end);
    FieldIs(head, w, comment + end);
    CommentLies(front, comment, end);
  }

  lemma CommentFirst(front: string, comment: string, end: string)
    requires CommentOk(comment)
    ensures front + (comment + end) == front + comment + end
    ensures comment != [] ==> (comment + end)[0] == '#'
    ensures comment == [] ==> comment + end == end
  {
  }

  lemma CommentLies(front: string, comment: string, end: string)
    requires CommentOk(comment) && (end != [] ==> Ending(end[0]))
    ensures var t, at := front + comment + end, |front| + |comment|;
            && (comment != [] ==> CommentEnd(t, |front|) == at) && (end != [] ==> t[at] == end[0])
  {
    hide CommentEnd;
    hide Ending;
    var t := front + comment + end;
    Between(t, front, comment, end);
    if comment != [] {
      CommentEnds(t, |front|, |comment|);
    }
  }
}
