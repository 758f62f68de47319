/** Where a wrapped line breaks (src/cli/text_utils.rs, lines 197-240), said by the text and its
    widths, without the scan. */
module WrapBreaks {
  import opened Utf8
  import opened TextWrap

  /** A line may break after a space, a slash, a question mark or a hash. */
  predicate MayBreakAfter(s: string, j: nat) {
    j < |s| && (s[j] == ' ' || s[j] == '/' || s[j] == '?' || s[j] == '#')
  }

  /** The segment from `start` is wider than the room with glyph `j`. */
  predicate TooWideWith(w: WidthTable, s: string, room: nat, start: nat, j: nat) {
    start <= j < |s| && Width(w, s[start..j + 1]) > room
  }

  /** Of the segment from `start`, glyph `i` is the first one at or after `from` with which it is
      wider than the room. */
  ghost predicate OverflowsAt(w: WidthTable, s: string, room: nat, start: nat, from: nat, i: nat) {
    && start <= from <= i < |s|
    && TooWideWith(w, s, room, start, i)
    && forall j | from <= j < i :: !TooWideWith(w, s, room, start, j)
  }

  /** Where the segment ends: right after the last glyph up to `i` after which it may break; if there
      is none, before `i`, so that `i` starts the next segment, unless `i` is all there is. */
  ghost predicate EndsAt(s: string, start: nat, from: nat, i: nat, end: nat) {
    || (&& from < end <= i + 1 && MayBreakAfter(s, end - 1)
        && forall j | end <= j <= i :: !MayBreakAfter(s, j))
    || (&& (forall j | from <= j <= i :: !MayBreakAfter(s, j))
        && end == if i > start then i else i + 1)
  }

  /** The segments of the text from `start`, if breaks count from `from` on: what an earlier segment
      has already looked at, up to the glyph it overflowed with, gives no break to this one. */
  ghost predicate BreaksWell(w: WidthTable, s: string, room: nat, start: nat, from: nat, segments: seq<string>)
    decreases |segments|, 1
  {
    && start <= from <= |s|
    && if Overflows(w, s, room, start, from) then StartsWell(w, s, room, start, from, segments)
       else segments == if start == |s| then [] else [s[start..]]
  }

  ghost predicate StartsWell(w: WidthTable, s: string, room: nat, start: nat, from: nat, segments: seq<string>)
    decreases |segments|, 0
  {
    segments != [] && exists i: nat, end: nat ::
      IsSegment(w, s, room, start, from, i, end, segments[0]) && BreaksWell(w, s, room, end, i + 1, segments[1..])
  }

  ghost predicate Overflows(w: WidthTable, s: string, room: nat, start: nat, from: nat) {
    exists i: nat :: OverflowsAt(w, s, room, start, from, i)
  }

  ghost predicate IsSegment(w: WidthTable, s: string, room: nat, start: nat, from: nat, i: nat, end: nat, segment: string) {
    OverflowsAt(w, s, room, start, from, i) && EndsAt(s, start, from, i, end) && end <= i + 1 && segment == s[start..end]
  }

  /** The scan stands before glyph `i`, and its segment, in which breaks count from `from` on, has not
      overflowed since. */
  ghost predicate Tracks(w: WidthTable, s: string, room: nat, from: nat, i: nat, st: Scan) {
    && IsScan(s, i, st) && st.start <= from <= i
    && st.width == Width(w, s[st.start..i])
    && (forall j | from <= j < i :: !TooWideWith(w, s, room, st.start, j))
    && match st.last
       case NoBreak => forall j | from <= j < i :: !MayBreakAfter(s, j)
       case At(pos, width) =>
         && from < pos <= i && MayBreakAfter(s, pos - 1) && width == Width(w, s[st.start..pos])
         && forall j | pos <= j < i :: !MayBreakAfter(s, j)
  }

  lemma TracksOn(w: WidthTable, s: string, room: nat, from: nat, i: nat, st: Scan)
    requires i < |s| && Tracks(w, s, room, from, i, st) && Cut(w, s, room, i, st).None?
    ensures Tracks(w, s, room, from, i + 1, Advance(w, s, room, i, st))
  {
    WidthSplit(w, s, st.start, i, i + 1);
  }

  lemma CutIsSegment(w: WidthTable, s: string, room: nat, from: nat, i: nat, st: Scan)
    requires i < |s| && Tracks(w, s, room, from, i, st) && Cut(w, s, room, i, st).Some?
    ensures var end := Cut(w, s, room, i, st).value;
            end <= |s| && IsSegment(w, s, room, st.start, from, i, end, s[st.start..end])
  {
    WidthSplit(w, s, st.start, i, i + 1);
  }

  lemma CutRestarts(w: WidthTable, s: string, room: nat, from: nat, i: nat, st: Scan)
    requires i < |s| && Tracks(w, s, room, from, i, st) && Cut(w, s, room, i, st).Some?
    ensures Tracks(w, s, room, i + 1, i + 1, Advance(w, s, room, i, st))
  {
    WidthSplit(w, s, st.start, i, i + 1);
    var last := BreakAfter(w, s, i, st);
    if last.At? {
      WidthSplit(w, s, st.start, last.pos, i + 1);
    } else if i > st.start {
      assert s[i..i] == [];
      WidthSplit(w, s, i, i, i + 1);
    } else {
      assert s[i + 1..i + 1] == [];
    }
  }

  /** The segments from any point of the scan break as they should. */
  lemma {:induction false} SegmentsBreakWell(w: WidthTable, s: string, room: nat, from: nat, i: nat, st: Scan)
    requires Tracks(w, s, room, from, i, st)
    ensures BreaksWell(w, s, room, st.start, from, Segments(w, s, room, i, st))
    decreases |s| - i
  {
    if i == |s| {
      LastSegment(w, s, room, from, st);
    } else if Cut(w, s, room, i, st).None? {
      TracksOn(w, s, room, from, i, st);
      SegmentsBreakWell(w, s, room, from, i + 1, Advance(w, s, room, i, st));
    } else {
      CutRestarts(w, s, room, from, i, st);
      SegmentsBreakWell(w, s, room, i + 1, i + 1, Advance(w, s, room, i, st));
      CutBreaksWell(w, s, room, from, i, st);
    }
  }

  lemma CutBreaksWell(w: WidthTable, s: string, room: nat, from: nat, i: nat, st: Scan)
    requires i < |s| && Tracks(w, s, room, from, i, st) && Cut(w, s, room, i, st).Some?
    requires var st' := Advance(w, s, room, i, st);
             BreaksWell(w, s, room, st'.start, i + 1, Segments(w, s, room, i + 1, st'))
    ensures BreaksWell(w, s, room, st.start, from, Segments(w, s, room, i, st))
  {
    CutIsSegment(w, s, room, from, i, st);
    var st' := Advance(w, s, room, i, st);
    FirstSegment(w, s, room, st.start, from, i, st'.start, Segments(w, s, room, i + 1, st'));
  }

  lemma LastSegment(w: WidthTable, s: string, room: nat, from: nat, st: Scan)
    requires Tracks(w, s, room, from, |s|, st)
    ensures BreaksWell(w, s, room, st.start, from, Segments(w, s, room, |s|, st))
  {
  }

  lemma FirstSegment(w: WidthTable, s: string, room: nat, start: nat, from: nat, i: nat, end: nat, rest: seq<string>)
    requires start <= end <= |s| && start <= from <= |s|
    requires IsSegment(w, s, room, start, from, i, end, s[start..end]) && BreaksWell(w, s, room, end, i + 1, rest)
    ensures BreaksWell(w, s, room, start, from, [s[start..end]] + rest)
  {
    var segments := [s[start..end]] + rest;
    assert segments[0] == s[start..end] && segments[1..] == rest;
    assert Overflows(w, s, room, start, from);
  }

  /** The segments of a right-trimmed line: one if it fits or has no room at all. */
  ghost predicate IsCutWell(w: WidthTable, text: string, room: nat, segments: seq<string>) {
    if text == [] || room == 0 || Width(w, text) <= room then segments == [text] else BreaksWell(w, text, room, 0, 0, segments)
  }

  /** Every line is cut into segments that break as they should: each ends right after the last break
      at or before the glyph it overflows with. A line that fits, or has no room, is not cut. */
  lemma LineBreaksWell(w: WidthTable, line: string, room: nat)
    ensures IsCutWell(w, TrimEnd(line), room, LineSegments(w, TrimEnd(line), room))
  {
    var text := TrimEnd(line);
    assert text[0..0] == [];
    if text != [] && room > 0 && Width(w, text) > room {
      SegmentsBreakWell(w, text, room, 0, 0, Scan(0, 0, NoBreak));
    }
  }

  lemma OverflowUnique(w: WidthTable, s: string, room: nat, start: nat, from: nat, i: nat, i': nat)
    requires OverflowsAt(w, s, room, start, from, i) && OverflowsAt(w, s, room, start, from, i')
    ensures i == i'
  {
  }

  lemma EndUnique(s: string, start: nat, from: nat, i: nat, end: nat, end': nat)
    requires start <= from <= i < |s| && EndsAt(s, start, from, i, end) && EndsAt(s, start, from, i, end')
    ensures end == end'
  {
  }

  lemma SegmentUnique(w: WidthTable, s: string, room: nat, start: nat, from: nat, i: nat, end: nat, a: string, i': nat, end': nat, b: string)
    requires IsSegment(w, s, room, start, from, i, end, a) && IsSegment(w, s, room, start, from, i', end', b)
    ensures i == i' && end == end' && a == b
  {
    OverflowUnique(w, s, room, start, from, i, i');
    EndUnique(s, start, from, i, end, end');
  }

  lemma StartsWith(w: WidthTable, s: string, room: nat, start: nat, from: nat, i: nat, end: nat, first: string, b: seq<string>)
    returns (rest: seq<string>)
    requires IsSegment(w, s, room, start, from, i, end, first) && BreaksWell(w, s, room, start, from, b)
    ensures b == [first] + rest && BreaksWell(w, s, room, end, i + 1, rest)
  {
    assert Overflows(w, s, room, start, from);
    var i', end', first', rest' := Destruct(w, s, room, start, from, b);
    SegmentUnique(w, s, room, start, from, i, end, first, i', end', first');
    rest := rest';
  }

  /** A text has one such cutting. */
  lemma {:induction false} BreaksWellUnique(w: WidthTable, s: string, room: nat, start: nat, from: nat, a: seq<string>, b: seq<string>)
    requires BreaksWell(w, s, room, start, from, a) && BreaksWell(w, s, room, start, from, b)
    ensures a == b
    decreases |a|
  {
    if Overflows(w, s, room, start, from) {
      var i, end, first, restA := Destruct(w, s, room, start, from, a);
      var restB := StartsWith(w, s, room, start, from, i, end, first, b);
      BreaksWellUnique(w, s, room, end, i + 1, restA, restB);
    } else {
      UncutIs(w, s, room, start, from, a);
      UncutIs(w, s, room, start, from, b);
    }
  }

  lemma UncutIs(w: WidthTable, s: string, room: nat, start: nat, from: nat, a: seq<string>)
    requires BreaksWell(w, s, room, start, from, a) && !Overflows(w, s, room, start, from)
    ensures a == if start == |s| then [] else [s[start..]]
  {
  }

  lemma Destruct(w: WidthTable, s: string, room: nat, start: nat, from: nat, a: seq<string>)
    returns (i: nat, end: nat, first: string, rest: seq<string>)
    requires BreaksWell(w, s, room, start, from, a) && Overflows(w, s, room, start, from)
    ensures a == [first] + rest && IsSegment(w, s, room, start, from, i, end, first) && BreaksWell(w, s, room, end, i + 1, rest)
  {
    i, end :| IsSegment(w, s, room, start, from, i, end, a[0]) && BreaksWell(w, s, room, end, i + 1, a[1..]);
    first, rest := a[0], a[1..];
  }

  /** In words for the first segment: it is the text up to the last break among the glyphs up to the
      one that no longer fits. */
  lemma FirstRowIsFull(w: WidthTable, line: string, room: nat, i: nat, b: nat)
    requires room > 0 && OverflowsAt(w, TrimEnd(line), room, 0, 0, i)
    requires b <= i && MayBreakAfter(TrimEnd(line), b) && forall j | b < j <= i :: !MayBreakAfter(TrimEnd(line), j)
    ensures var segments := LineSegments(w, TrimEnd(line), room);
            segments != [] && segments[0] == TrimEnd(line)[..b + 1]
  {
    var text := TrimEnd(line);
    WidthSplit(w, text, 0, i + 1, |text|);
    assert text[0..|text|] == text;
    LineBreaksWell(w, line, room);
    var segments := LineSegments(w, text, room);
    var i', end, first, rest := Destruct(w, text, room, 0, 0, segments);
    OverflowUnique(w, text, room, 0, 0, i, i');
    EndUnique(text, 0, 0, i, end, b + 1);
  }

  /** The row shows the segment: indented, without the whitespace at its end, and blank if that is all
      there is. */
  ghost predicate Shows(row: string, indent: string, segment: string) {
    exists text: string, blank: string ::
      && segment == text + blank && (forall c | c in blank :: IsWhitespace(c))
      && (text != [] ==> !IsWhitespace(text[|text| - 1]))
      && row == if text == [] then [] else indent + text
  }

  lemma RowShows(indent: string, segment: string)
    ensures Shows(Row(indent, segment), indent, segment)
  {
    var text := TrimEnd(segment);
    var blank := segment[|text|..];
    assert segment == text + blank;
    forall c | c in blank ensures IsWhitespace(c) {
      var i :| 0 <= i < |blank| && blank[i] == c;
      assert segment[|text| + i] == c;
    }
  }

  /** What `wrap_line` prints: one row for each segment of the right-trimmed line, cut as above in the
      room that the indent leaves. */
  lemma PrintedRows(w: WidthTable, line: string, width: nat, indent: string) returns (segments: seq<string>)
    ensures var text := TrimEnd(line);
            IsCutWell(w, text, if ByteLen(indent) < width then width - ByteLen(indent) else 0, segments)
    ensures var rows := LineRows(w, line, width, indent);
            |rows| == |segments| && forall i | 0 <= i < |rows| :: Shows(rows[i], indent, segments[i])
  {
    var room := if ByteLen(indent) < width then width - ByteLen(indent) else 0;
    segments := LineSegments(w, TrimEnd(line), room);
    LineBreaksWell(w, line, room);
    LineRowsShow(w, line, width, indent);
  }

  lemma LineRowsShow(w: WidthTable, line: string, width: nat, indent: string)
    ensures var rows, segments := LineRows(w, line, width, indent), LineSegments(w, TrimEnd(line), Available(width, indent));
            |rows| == |segments| && forall i | 0 <= i < |rows| :: Shows(rows[i], indent, segments[i])
  {
    RowsShow(indent, LineSegments(w, TrimEnd(line), Available(width, indent)));
  }

  lemma RowsShow(indent: string, segments: seq<string>)
    ensures forall i | 0 <= i < |segments| :: Shows(Rows(indent, segments)[i], indent, segments[i])
  {
    forall i | 0 <= i < |segments| ensures Shows(Rows(indent, segments)[i], indent, segments[i]) {
      RowShows(indent, segments[i]);
    }
  }
}
