/** Mention extraction and insertion (src/core/file_search.rs). Offsets are in octets, as in the
    source; characters are found through them. */
module Mentions {
  import opened Utf8

  datatype MentionQuery = MentionQuery(inMentionMode: bool, query: string, atIndex: int)

  function Inactive(): MentionQuery { MentionQuery(false, "", -1) }

  /** The number of characters before octet offset `k`, if `k` is a character boundary. */
  function CharIndex(text: string, k: nat): Option<nat> {
    if k == 0 then Some(0)
    else if text == [] || CharLen(text[0]) > k then None
    else match CharIndex(text[1..], k - CharLen(text[0]))
         case Some(i) => Some(i + 1)
         case None => None
  }

  lemma {:induction false} CharIndexCorrect(text: string, k: nat, i: nat)
    ensures CharIndex(text, k) == Some(i) <==> i <= |text| && ByteLen(text[..i]) == k
  {
    if k == 0 {
      if 0 < i <= |text| { assert ByteLen(text[..i]) >= 1; }
    } else if i > 0 && text != [] {
      if i <= |text| { assert text[..i][1..] == text[1..][..i - 1]; }
      if CharLen(text[0]) <= k { CharIndexCorrect(text[1..], k - CharLen(text[0]), i - 1); }
    }
  }

  /** `rfind('@')` */
  function LastAt(s: string): (r: Option<nat>)
    ensures r.Some? ==> r.value < |s| && s[r.value] == '@' && forall k | r.value < k < |s| :: s[k] != '@'
    ensures r.None? ==> forall k | 0 <= k < |s| :: s[k] != '@'
  {
    if s == [] then None
    else if s[|s| - 1] == '@' then Some(|s| - 1)
    else LastAt(s[..|s| - 1])
  }

  predicate HasWhitespace(s: string) { s != [] && (IsWhitespace(s[0]) || HasWhitespace(s[1..])) }

  lemma {:induction false} WhitespaceConcat(a: string, b: string)
    ensures HasWhitespace(a + b) <==> HasWhitespace(a) || HasWhitespace(b)
  {
    if a == [] {
      assert a + b == b;
    } else {
      assert (a + b)[1..] == a[1..] + b;
      WhitespaceConcat(a[1..], b);
    }
  }

  /** The mention in progress when the cursor is after `n` characters. */
  function ExtractAt(text: string, n: nat): MentionQuery
    requires n <= |text|
  {
    match LastAt(text[..n])
    case None => Inactive()
    case Some(a) =>
      if a > 0 && !IsWhitespace(text[a - 1]) then Inactive()
      else if HasWhitespace(text[a + 1..n]) then Inactive()
      else MentionQuery(true, text[a + 1..n], ByteLen(text[..a]))
  }

  /** The number of characters that end at or before the octet offset. */
  function CharsBefore(text: string, cursor: nat): (n: nat)
    ensures n <= |text|
  {
    if text == [] || CharLen(text[0]) > cursor then 0 else 1 + CharsBefore(text[1..], cursor - CharLen(text[0]))
  }

  lemma {:induction false} CharsBeforeIs(text: string, cursor: nat, n: nat)
    requires n <= |text| && ByteLen(text[..n]) <= cursor
    requires n < |text| ==> ByteLen(text[..n + 1]) > cursor
    ensures CharsBefore(text, cursor) == n
  {
    if n < |text| { assert text[..n + 1][1..] == text[1..][..n]; }
    if n > 0 {
      assert text[..n][1..] == text[1..][..n - 1];
      CharsBeforeIs(text[1..], cursor - CharLen(text[0]), n - 1);
    }
  }

  lemma CharsBeforeBoundary(text: string, n: nat)
    requires n <= |text|
    ensures CharsBefore(text, ByteLen(text[..n])) == n
  {
    if n < |text| { PrefixGrows(text, n, n + 1); }
    CharsBeforeIs(text, ByteLen(text[..n]), n);
  }

  /** The mention in progress at an octet offset; a cursor inside a character counts as before it. */
  function ExtractAtOffset(text: string, cursor: nat): MentionQuery {
    ExtractAt(text, CharsBefore(text, cursor))
  }

  /** An at sign at the start or after whitespace, with neither whitespace nor another one between it
      and the cursor. */
  predicate IsMentionAt(text: string, a: nat, n: nat) {
    && a < n <= |text| && text[a] == '@' && (a > 0 ==> IsWhitespace(text[a - 1]))
    && forall i | a < i < n :: text[i] != '@' && !IsWhitespace(text[i])
  }

  lemma {:induction false} HasWhitespaceIff(s: string)
    ensures HasWhitespace(s) <==> exists i :: 0 <= i < |s| && IsWhitespace(s[i])
  {
    if s != [] {
      HasWhitespaceIff(s[1..]);
      if HasWhitespace(s[1..]) {
        var i :| 0 <= i < |s[1..]| && IsWhitespace(s[1..][i]);
        assert IsWhitespace(s[i + 1]);
      }
      if exists i :: 0 < i < |s| && IsWhitespace(s[i]) {
        var i :| 0 < i < |s| && IsWhitespace(s[i]);
        assert IsWhitespace(s[1..][i - 1]);
      }
    }
  }

  /** A mention is in progress exactly if there is such an at sign, and then the query is the text
      after it and the index its octet offset. */
  lemma InProgressIff(text: string, cursor: nat, n: nat)
    requires n == CharsBefore(text, cursor)
    ensures var r := ExtractAtOffset(text, cursor);
            && (r.inMentionMode <==> exists a: nat :: IsMentionAt(text, a, n))
            && (!r.inMentionMode ==> r == Inactive())
            && forall a: nat | IsMentionAt(text, a, n) :: r == MentionQuery(true, text[a + 1..n], ByteLen(text[..a]))
  {
    var at := LastAt(text[..n]);
    assert forall i | 0 <= i < n :: text[..n][i] == text[i];
    if at.Some? {
      assert forall a: nat | IsMentionAt(text, a, n) :: a == at.value;
      LastAtDecides(text, n, at.value);
    }
  }

  lemma LastAtDecides(text: string, n: nat, a: nat)
    requires a < n <= |text| && LastAt(text[..n]) == Some(a)
    ensures ExtractAt(text, n) == if IsMentionAt(text, a, n) then MentionQuery(true, text[a + 1..n], ByteLen(text[..a])) else Inactive()
  {
    var query := text[a + 1..n];
    HasWhitespaceIff(query);
    assert forall i | 0 <= i < n :: text[..n][i] == text[i];
    assert forall i | 0 <= i < |query| :: query[i] == text[a + 1 + i];
    assert forall i | a < i < n :: text[i] == query[i - a - 1];
  }

  method ExtractMentionQueryAtCursor(text: string, cursorByteOffset: nat) returns (r: MentionQuery)
    ensures r == ExtractAtOffset(text, cursorByteOffset)
  {
    var cursor: nat := if cursorByteOffset < ByteLen(text) then cursorByteOffset else ByteLen(text);
    PrefixesShorter(text);
    while cursor > 0 && CharIndex(text, cursor).None?
      invariant cursor <= cursorByteOffset
      invariant NoneBetween(text, cursor, cursorByteOffset)
    {
      NoPrefixAt(text, cursor);
      cursor := cursor - 1;
    }
    var n := CharIndex(text, cursor).value;
    StopsAtCharsBefore(text, cursor, cursorByteOffset, n);
    var at := LastAt(text[..n]);
    if at.None? {
      return Inactive();
    }
    if at.value > 0 && !IsWhitespace(text[at.value - 1]) {
      return Inactive();
    }
    var query := text[at.value + 1..n];
    if HasWhitespace(query) {
      return Inactive();
    }
    r := MentionQuery(true, query, ByteLen(text[..at.value]));
  }

  /** No character ends after `cursor` and at or before `offset`. */
  ghost predicate NoneBetween(text: string, cursor: nat, offset: nat) {
    forall i | 0 <= i <= |text| && ByteLen(text[..i]) <= offset :: ByteLen(text[..i]) <= cursor
  }

  lemma StopsAtCharsBefore(text: string, cursor: nat, offset: nat, n: nat)
    requires CharIndex(text, cursor) == Some(n) && cursor <= offset && NoneBetween(text, cursor, offset)
    ensures n == CharsBefore(text, offset)
  {
    CharIndexCorrect(text, cursor, n);
    if n < |text| { PrefixGrows(text, n, n + 1); }
    CharsBeforeIs(text, offset, n);
  }

  lemma PrefixesShorter(text: string)
    ensures forall i | 0 <= i <= |text| :: ByteLen(text[..i]) <= ByteLen(text)
  {
    forall i | 0 <= i <= |text| ensures ByteLen(text[..i]) <= ByteLen(text) { ByteLenSplit(text, i); }
  }

  lemma NoPrefixAt(text: string, k: nat)
    requires CharIndex(text, k).None?
    ensures forall i | 0 <= i <= |text| :: ByteLen(text[..i]) != k
  {
    forall i | 0 <= i <= |text| ensures ByteLen(text[..i]) != k { CharIndexCorrect(text, k, i); }
  }

  lemma PrefixGrows(text: string, i: nat, j: nat)
    requires i < j <= |text|
    ensures ByteLen(text[..i]) < ByteLen(text[..j])
  {
    ByteLenSplit(text[..j], i);
    assert text[..j][..i] == text[..i];
    assert |text[..j][i..]| > 0;
  }

  // ---- insertion

  function WordEnd(text: string, i: nat): (e: nat)
    requires i <= |text|
    ensures i <= e <= |text| && !HasWhitespace(text[i..e])
    ensures e < |text| ==> IsWhitespace(text[e])
    decreases |text| - i
  {
    if i == |text| || IsWhitespace(text[i]) then i
    else
      var e := WordEnd(text, i + 1);
      assert text[i..e][1..] == text[i + 1..e];
      e
  }

  function Normalised(path: string, isFolder: bool): string {
    var p := if path != [] && path[0] == '/' then path else "/" + path;
    if isFolder && p[|p| - 1] != '/' then p + "/" else p
  }

  function Mention(path: string, isFolder: bool): string {
    var n := Normalised(path, isFolder);
    if ' ' in n then "@\"" + n + "\"" else "@" + n
  }

  /** `insert_mention` at the character `i`: the new text and the new cursor, in octets. */
  function InsertMention(text: string, i: nat, path: string, isFolder: bool): (string, nat)
    requires i <= |text|
  {
    Replace(text, i, Mention(path, isFolder))
  }

  /** The word at `i` gives way to the mention and a space. */
  function Replace(text: string, i: nat, mention: string): (string, nat)
    requires i <= |text|
  {
    (text[..i] + mention + " " + TrimStart(text[WordEnd(text, i)..]),
     ByteLen(text[..i]) + ByteLen(mention) + 1)
  }

  /** Everything up to the insertion point is untouched, the cursor is on a character boundary right
      after the mention and its space, and what follows is the old text from the end of the word
      that was replaced. */
  lemma InsertKeepsPrefix(text: string, i: nat, path: string, isFolder: bool)
    requires i <= |text|
    ensures var (t, cursor) := InsertMention(text, i, path, isFolder);
            var n := i + |Mention(path, isFolder)| + 1;
            && n <= |t| && t[..i] == text[..i] && t[i..n - 1] == Mention(path, isFolder) && t[n - 1] == ' '
            && cursor == ByteLen(t[..n]) && cursor - 1 == ByteLen(t[..n - 1])
            && t[n..] == TrimStart(text[WordEnd(text, i)..])
  {
    ReplaceKeepsPrefix(text, i, Mention(path, isFolder));
  }

  lemma ReplaceKeepsPrefix(text: string, i: nat, m: string)
    requires i <= |text|
    ensures var (t, cursor) := Replace(text, i, m);
            var n := i + |m| + 1;
            && n <= |t| && t[..i] == text[..i] && t[i..n - 1] == m && t[n - 1] == ' '
            && cursor == ByteLen(t[..n]) && cursor - 1 == ByteLen(t[..n - 1])
            && t[n..] == TrimStart(text[WordEnd(text, i)..])
  {
    PrefixOf(text[..i], m, TrimStart(text[WordEnd(text, i)..]));
  }

  lemma PrefixOf(before: string, m: string, after: string)
    ensures var t := before + m + " " + after;
            var n := |before| + |m| + 1;
            && t[..|before|] == before && t[|before|..n - 1] == m && t[n - 1] == ' '
            && ByteLen(t[..n]) == ByteLen(before) + ByteLen(m) + 1
            && ByteLen(t[..n - 1]) == ByteLen(before) + ByteLen(m)
            && t[n..] == after
  {
    var t := before + m + " " + after;
    var n := |before| + |m| + 1;
    assert t[..n - 1] == before + m;
    assert t[..n] == (before + m) + " ";
    ByteLenConcat(before, m);
    ByteLenConcat(before + m, " ");
    assert ByteLen(" ") == 1 by { assert " "[1..] == []; }
  }

  /** The path as it is written: with a slash in front unless it has one, and for a folder, and for
      nothing else, with one at its end unless it has one. */
  lemma NormalisedIs(path: string, isFolder: bool) returns (front: string, back: string)
    ensures Normalised(path, isFolder) == front + path + back
    ensures front == if path != [] && path[0] == '/' then "" else "/"
    ensures back == if isFolder && path != [] && path[|path| - 1] != '/' then "/" else ""
  {
    front := if path != [] && path[0] == '/' then "" else "/";
    back := if isFolder && path != [] && path[|path| - 1] != '/' then "/" else "";
    var p := if path != [] && path[0] == '/' then path else "/" + path;
    assert p == front + path;
    assert path != [] ==> p[|p| - 1] == path[|path| - 1];
    assert p + "" == p;
  }

  /** So it starts with a slash, and that of a folder ends with one. */
  lemma NormalisedSlashes(path: string, isFolder: bool)
    ensures var p := Normalised(path, isFolder); p != [] && p[0] == '/' && (isFolder ==> p[|p| - 1] == '/')
  {
  }

  /** The mention: an at sign and that path, which is in quotes exactly if it holds a space. */
  lemma MentionIs(path: string, isFolder: bool)
    ensures var m, p := Mention(path, isFolder), Normalised(path, isFolder);
            && m[0] == '@'
            && (if exists i :: 0 <= i < |p| && p[i] == ' '
                then m[1..] == ['"'] + p + ['"']
                else m[1..] == p)
  {
    var p := Normalised(path, isFolder);
    assert Mention(path, isFolder) == if ' ' in p then ['@'] + (['"'] + p + ['"']) else ['@'] + p;
  }

  /** At the returned cursor no mention is in progress, whatever was inserted where. */
  lemma InactiveAtCursor(text: string, i: nat, path: string, isFolder: bool)
    requires i <= |text|
    ensures var (t, cursor) := InsertMention(text, i, path, isFolder);
            var n := i + |Mention(path, isFolder)| + 1;
            n <= |t| && cursor == ByteLen(t[..n]) && ExtractAtOffset(t, cursor) == Inactive()
  {
    InsertKeepsPrefix(text, i, path, isFolder);
    InactiveAfterSpace(InsertMention(text, i, path, isFolder).0, i + |Mention(path, isFolder)| + 1);
  }

  /** No mention reaches over a space before the cursor. */
  lemma InactiveAfterSpace(t: string, n: nat)
    requires 0 < n <= |t| && t[n - 1] == ' '
    ensures ExtractAtOffset(t, ByteLen(t[..n])) == Inactive()
  {
    CharsBeforeBoundary(t, n);
    var at := LastAt(t[..n]);
    assert t[..n][n - 1] == ' ';
    if at.Some? {
      var query := t[at.value + 1..n];
      assert query[|query| - 1] == ' ' && ' ' in query;
      SpaceIsWhitespace(query);
    }
  }

  /** The mention starts with an '@' and holds the path, quoted or not. */
  ghost predicate Carries(m: string, p: string) {
    && m != [] && m[0] == '@'
    && (HasWhitespace(m[1..]) <==> HasWhitespace(p))
    && ('@' in m[1..] <==> '@' in p)
    && (!HasWhitespace(p) ==> m[1..] == p)
  }

  lemma {:induction false} SpaceIsWhitespace(s: string)
    requires ' ' in s
    ensures HasWhitespace(s)
  {
    assert IsWhitespace(' ');
    if s[0] != ' ' {
      assert s == [s[0]] + s[1..];
      SpaceIsWhitespace(s[1..]);
    }
  }

  lemma NormalisedInMention(path: string, isFolder: bool)
    ensures Carries(Mention(path, isFolder), Normalised(path, isFolder))
  {
    var p := Normalised(path, isFolder);
    var q := Mention(path, isFolder)[1..];
    if ' ' in p {
      assert q == ['"'] + p + ['"'];
      WhitespaceConcat(['"'] + p, ['"']);
      WhitespaceConcat(['"'], p);
      assert ['"'][1..] == [];
      SpaceIsWhitespace(p);
    } else {
      assert q == p;
    }
  }

  /** One position before the cursor, the inserted mention reads back with the index of its '@' if
      and only if its path has neither whitespace nor an '@'. */
  ghost predicate ReadsBackIff(inserted: (string, nat), path: string, index: nat) {
    && inserted.1 >= 1
    && (ExtractAtOffset(inserted.0, inserted.1 - 1) == MentionQuery(true, path, index) <==> !HasWhitespace(path) && '@' !in path)
  }

  /** That holds of every mention that is inserted at the start or after whitespace. */
  lemma MentionRoundTrip(text: string, i: nat, path: string, isFolder: bool)
    requires i <= |text| && (i > 0 ==> IsWhitespace(text[i - 1]))
    ensures ReadsBackIff(InsertMention(text, i, path, isFolder), Normalised(path, isFolder), ByteLen(text[..i]))
  {
    NormalisedInMention(path, isFolder);
    ReplacedReadsBack(text, i, Mention(path, isFolder), Normalised(path, isFolder));
  }

  lemma ReplacedReadsBack(text: string, i: nat, m: string, p: string)
    requires i <= |text| && (i > 0 ==> IsWhitespace(text[i - 1])) && Carries(m, p)
    ensures ReadsBackIff(Replace(text, i, m), p, ByteLen(text[..i]))
  {
    ReplaceKeepsMention(text, i, m);
    ReadsBackBefore(text, Replace(text, i, m).0, i, m, p, Replace(text, i, m).1 - 1);
  }

  lemma ReplaceKeepsMention(text: string, i: nat, m: string)
    requires i <= |text|
    ensures var (t, cursor) := Replace(text, i, m);
            i + |m| <= |t| && t[..i] == text[..i] && t[i..i + |m|] == m && cursor == ByteLen(t[..i + |m|]) + 1
  {
    ReplaceKeepsPrefix(text, i, m);
    var n := i + |m| + 1;
    assert n - 1 == i + |m|;
  }

  lemma ReadsBackBefore(text: string, t: string, i: nat, m: string, p: string, offset: nat)
    requires i <= |text| && (i > 0 ==> IsWhitespace(text[i - 1])) && i + |m| <= |t|
    requires t[..i] == text[..i] && t[i..i + |m|] == m && Carries(m, p)
    requires offset == ByteLen(t[..i + |m|])
    ensures ExtractAtOffset(t, offset) == MentionQuery(true, p, ByteLen(text[..i])) <==> !HasWhitespace(p) && '@' !in p
  {
    CharsBeforeBoundary(t, i + |m|);
    RoundTripOf(text, t, i, m, p);
  }

  lemma RoundTripOf(text: string, t: string, i: nat, m: string, p: string)
    requires i <= |text| && (i > 0 ==> IsWhitespace(text[i - 1])) && i + |m| <= |t|
    requires t[..i] == text[..i] && t[i..i + |m|] == m && Carries(m, p)
    ensures ExtractAt(t, i + |m|) == MentionQuery(true, p, ByteLen(text[..i])) <==> !HasWhitespace(p) && '@' !in p
  {
    assert t[i] == t[i..i + |m|][0] && t[i + 1..i + |m|] == t[i..i + |m|][1..];
    if i > 0 { assert t[i - 1] == t[..i][i - 1] == text[i - 1]; }
    RoundTripAt(t, i, i + |m|, p, m[1..]);
  }

  /** The part of the round trip that does not depend on how the mention was written. */
  lemma RoundTripAt(t: string, i: nat, n: nat, p: string, q: string)
    requires i < n <= |t| && t[i] == '@' && q == t[i + 1..n]
    requires i > 0 ==> IsWhitespace(t[i - 1])
    requires HasWhitespace(q) <==> HasWhitespace(p)
    requires '@' in q <==> '@' in p
    requires !HasWhitespace(p) ==> q == p
    ensures ExtractAt(t, n) == MentionQuery(true, p, ByteLen(t[..i])) <==> !HasWhitespace(p) && '@' !in p
  {
    var at := LastAt(t[..n]);
    assert t[..n][i] == '@';
    assert at.Some? && at.value >= i;
    assert '@' in q <==> at.value > i by {
      if '@' in q {
        var k :| 0 <= k < |q| && q[k] == '@';
        assert t[..n][i + 1 + k] == '@';
      }
      if at.value > i { assert q[at.value - i - 1] == '@'; }
    }
    if at.value > i { PrefixGrows(t, i, at.value); }
  }
}
