/** Word wrapping (src/cli/text_utils.rs). The display width of a glyph comes from a Unicode table
    that is a parameter here; the width of a text is the sum over its glyphs. */
module TextWrap {
  import opened Utf8

  type WidthTable = char -> nat

  predicate IsSeparator(c: char) { c == ' ' || IsHardSeparator(c) }

  /** The separators that trimming does not remove at the end of a row. */
  predicate IsHardSeparator(c: char) { c == '/' || c == '?' || c == '#' }

  /** Glyphs are at most `k` columns wide and the separators exactly one. */
  ghost predicate GlyphsUpTo(w: WidthTable, k: nat) {
    (forall c :: w(c) <= k) && (forall c | IsSeparator(c) :: w(c) == 1)
  }

  function Width(w: WidthTable, s: string): nat {
    if s == [] then 0 else Width(w, s[..|s| - 1]) + w(s[|s| - 1])
  }

  lemma {:induction false} WidthConcat(w: WidthTable, a: string, b: string)
    ensures Width(w, a + b) == Width(w, a) + Width(w, b)
  {
    if b == [] {
      assert a + b == a;
    } else {
      assert (a + b)[..|a + b| - 1] == a + b[..|b| - 1];
      WidthConcat(w, a, b[..|b| - 1]);
    }
  }

  lemma WidthTrimEnd(w: WidthTable, s: string)
    ensures Width(w, TrimEnd(s)) <= Width(w, s)
    ensures s != [] && IsWhitespace(s[|s| - 1]) ==> Width(w, TrimEnd(s)) <= Width(w, s[..|s| - 1])
  {
    assert s == TrimEnd(s) + s[|TrimEnd(s)|..];
    WidthConcat(w, TrimEnd(s), s[|TrimEnd(s)|..]);
    if s != [] && IsWhitespace(s[|s| - 1]) {
      var s' := s[..|s| - 1];
      assert TrimEnd(s) == TrimEnd(s');
      assert s' == TrimEnd(s') + s'[|TrimEnd(s')|..];
      WidthConcat(w, TrimEnd(s'), s'[|TrimEnd(s')|..]);
    }
  }

  // ---- where a line is broken

  /** The last break point since the segment started, with the width up to it. */
  datatype Break = NoBreak | At(pos: nat, width: nat)

  /** The scan's state: where the segment starts, how wide it is so far, where it could be broken. */
  datatype Scan = Scan(start: nat, width: nat, last: Break)

  predicate IsScan(s: string, i: nat, st: Scan) {
    st.start <= i <= |s| && (st.last.At? ==> st.start < st.last.pos <= i && st.last.width <= st.width)
  }

  function BreakAfter(w: WidthTable, s: string, i: nat, st: Scan): Break
    requires i < |s|
  {
    if IsSeparator(s[i]) then At(i + 1, st.width + w(s[i])) else st.last
  }

  /** Where glyph `i` makes the segment end, if it overflows: at the last break point, else before
      the glyph, else, for a glyph that is too wide by itself, after it. */
  function Cut(w: WidthTable, s: string, available: nat, i: nat, st: Scan): Option<nat>
    requires i < |s| && IsScan(s, i, st)
  {
    if st.width + w(s[i]) <= available then None
    else if BreakAfter(w, s, i, st).At? then Some(BreakAfter(w, s, i, st).pos)
    else if i > st.start then Some(i)
    else Some(i + 1)
  }

  function Advance(w: WidthTable, s: string, available: nat, i: nat, st: Scan): (st': Scan)
    requires i < |s| && IsScan(s, i, st)
    ensures IsScan(s, i + 1, st')
    ensures var cut := Cut(w, s, available, i, st);
            if cut.None? then st'.start == st.start else st'.start == cut.value > st.start
  {
    var last := BreakAfter(w, s, i, st);
    var width := st.width + w(s[i]);
    if width <= available then Scan(st.start, width, last)
    else if last.At? then Scan(last.pos, width - last.width, NoBreak)
    else if i > st.start then Scan(i, w(s[i]), NoBreak)
    else Scan(i + 1, 0, NoBreak)
  }

  /** The segments from the scan's start on, when it stands before glyph `i`. */
  function Segments(w: WidthTable, s: string, available: nat, i: nat, st: Scan): seq<string>
    requires IsScan(s, i, st)
    decreases |s| - i
  {
    if i == |s| then
      if st.start < |s| then [s[st.start..]] else []
    else
      var cut := Cut(w, s, available, i, st);
      var rest := Segments(w, s, available, i + 1, Advance(w, s, available, i, st));
      if cut.None? then rest else [s[st.start..cut.value]] + rest
  }

  function Flatten(segments: seq<string>): string {
    if segments == [] then [] else segments[0] + Flatten(segments[1..])
  }

  /** What the scan knows about the segment it is in. */
  ghost predicate ScanInv(w: WidthTable, k: nat, s: string, available: nat, i: nat, st: Scan) {
    && 1 <= available && 1 <= k && IsScan(s, i, st)
    && st.width == Width(w, s[st.start..i])
    && (st.last.At? ==> 1 <= st.last.width <= available && st.last.width == Width(w, s[st.start..st.last.pos]))
    && (st.width <= available || (st.last.NoBreak? && st.width <= available + k - 1))
  }

  /** A row overflows by at most `k - 1` columns, and by one more if it ends in a separator that
      trimming keeps. */
  ghost predicate RowFits(w: WidthTable, k: nat, available: nat, segment: string) {
    && segment != []
    && Width(w, TrimEnd(segment)) <= available + k - 1 + if IsHardSeparator(segment[|segment| - 1]) then 1 else 0
  }

  lemma RowAtCurrentSeparator(w: WidthTable, k: nat, s: string, available: nat, i: nat, start: nat)
    requires 1 <= k && start <= i < |s| && IsSeparator(s[i]) && w(s[i]) == 1
    requires Width(w, s[start..i]) <= available + k - 1
    ensures RowFits(w, k, available, s[start..i + 1])
  {
    var row := s[start..i + 1];
    assert row[..|row| - 1] == s[start..i] && row[|row| - 1] == s[i];
    WidthTrimEnd(w, row);
  }

  lemma RowBefore(w: WidthTable, k: nat, s: string, available: nat, start: nat, end: nat)
    requires 1 <= k && start < end <= |s| && Width(w, s[start..end]) <= available + k - 1
    ensures RowFits(w, k, available, s[start..end])
  {
    WidthTrimEnd(w, s[start..end]);
  }

  lemma WidthSplit(w: WidthTable, s: string, a: nat, b: nat, c: nat)
    requires a <= b <= c <= |s|
    ensures Width(w, s[a..c]) == Width(w, s[a..b]) + Width(w, s[b..c])
    ensures b < c ==> Width(w, s[a..b]) + w(s[b]) == Width(w, s[a..b + 1])
  {
    assert s[a..c] == s[a..b] + s[b..c];
    WidthConcat(w, s[a..b], s[b..c]);
    if b < c { assert s[a..b + 1][..b - a] == s[a..b]; }
  }

  lemma AdvanceKeepsInv(w: WidthTable, k: nat, s: string, available: nat, i: nat, st: Scan)
    requires 1 <= k <= 2 && GlyphsUpTo(w, k) && i < |s| && ScanInv(w, k, s, available, i, st)
    ensures ScanInv(w, k, s, available, i + 1, Advance(w, s, available, i, st))
  {
    WidthSplit(w, s, st.start, i, i + 1);
    if st.width + w(s[i]) > available {
      CutKeepsInv(w, k, s, available, i, st);
    }
  }

  lemma CutKeepsInv(w: WidthTable, k: nat, s: string, available: nat, i: nat, st: Scan)
    requires 1 <= k <= 2 && GlyphsUpTo(w, k) && i < |s| && ScanInv(w, k, s, available, i, st)
    requires st.width + w(s[i]) > available && st.width + w(s[i]) == Width(w, s[st.start..i + 1])
    ensures ScanInv(w, k, s, available, i + 1, Advance(w, s, available, i, st))
  {
    if IsSeparator(s[i]) {
      assert s[i + 1..i + 1] == [];
    } else if st.last.At? {
      WidthSplit(w, s, st.start, st.last.pos, i + 1);
    } else if i > st.start {
      assert s[i..i] == [];
      WidthSplit(w, s, i, i, i + 1);
    } else {
      assert s[i + 1..i + 1] == [];
    }
  }

  lemma CutFits(w: WidthTable, k: nat, s: string, available: nat, i: nat, st: Scan)
    requires 1 <= k <= 2 && GlyphsUpTo(w, k) && i < |s| && ScanInv(w, k, s, available, i, st)
    requires Cut(w, s, available, i, st).Some?
    ensures RowFits(w, k, available, s[st.start..Cut(w, s, available, i, st).value])
  {
    WidthSplit(w, s, st.start, i, i + 1);
    if IsSeparator(s[i]) {
      RowAtCurrentSeparator(w, k, s, available, i, st.start);
    } else if st.last.At? {
      RowBefore(w, k, s, available, st.start, st.last.pos);
    } else if i > st.start {
      RowBefore(w, k, s, available, st.start, i);
    } else {
      assert s[i..i] == [];
      RowBefore(w, k, s, available, i, i + 1);
    }
  }

  /** Every row fits within its bound and no row is empty, from any point of the scan. */
  lemma {:induction false} RowsFit(w: WidthTable, k: nat, s: string, available: nat, i: nat, st: Scan)
    requires 1 <= k <= 2 && GlyphsUpTo(w, k) && ScanInv(w, k, s, available, i, st)
    ensures forall r | r in Segments(w, s, available, i, st) :: RowFits(w, k, available, r)
    decreases |s| - i
  {
    if i == |s| {
      if st.start < |s| { assert s[st.start..] == s[st.start..|s|]; RowBefore(w, k, s, available, st.start, |s|); }
    } else {
      AdvanceKeepsInv(w, k, s, available, i, st);
      RowsFit(w, k, s, available, i + 1, Advance(w, s, available, i, st));
      if Cut(w, s, available, i, st).Some? { CutFits(w, k, s, available, i, st); }
    }
  }

  /** Wrapping loses nothing: the segments are the rest of the line. */
  lemma {:induction false} SegmentsAreLossless(w: WidthTable, s: string, available: nat, i: nat, st: Scan)
    requires IsScan(s, i, st)
    ensures Flatten(Segments(w, s, available, i, st)) == s[st.start..]
    decreases |s| - i
  {
    if i == |s| {
      if st.start < |s| { assert Flatten([s[st.start..]]) == s[st.start..] + Flatten([]) == s[st.start..]; }
    } else {
      SegmentsAreLossless(w, s, available, i + 1, Advance(w, s, available, i, st));
      var cut := Cut(w, s, available, i, st);
      if cut.Some? { assert s[st.start..] == s[st.start..cut.value] + s[cut.value..]; }
    }
  }

  /** The scan comes to a hard separator when its segment is exactly full. */
  predicate MeetsFullRow(w: WidthTable, s: string, available: nat, i: nat, st: Scan)
    requires IsScan(s, i, st)
    decreases |s| - i
  {
    i < |s| && (|| (st.width == available && IsHardSeparator(s[i]))
                || MeetsFullRow(w, s, available, i + 1, Advance(w, s, available, i, st)))
  }

  ghost predicate RowsWithin(w: WidthTable, rows: seq<string>, available: nat) {
    forall r | r in rows :: Width(w, TrimEnd(r)) <= available
  }

  lemma CutWithinIff(w: WidthTable, s: string, available: nat, i: nat, st: Scan)
    requires GlyphsUpTo(w, 1) && i < |s| && ScanInv(w, 1, s, available, i, st)
    ensures var cut := Cut(w, s, available, i, st);
            if cut.None? then !(st.width == available && IsHardSeparator(s[i]))
            else Width(w, TrimEnd(s[st.start..cut.value])) <= available <==> !IsHardSeparator(s[i])
    ensures Cut(w, s, available, i, st).Some? && IsHardSeparator(s[i]) ==> st.width == available
  {
    WidthSplit(w, s, st.start, i, i + 1);
    if Cut(w, s, available, i, st).Some? {
      CutFits(w, 1, s, available, i, st);
      if IsHardSeparator(s[i]) {
        var row := s[st.start..i + 1];
        assert row[|row| - 1] == s[i] && TrimEnd(row) == row;
      } else if !IsSeparator(s[i]) {
        var e := Cut(w, s, available, i, st).value;
        WidthTrimEnd(w, s[st.start..e]);
      }
    }
  }

  /** With narrow glyphs, every row fits its room if and only if the scan never meets a hard
      separator at the end of a full row, which is the one branch that lets a row overflow. */
  lemma {:induction false} NarrowRowsFitIff(w: WidthTable, s: string, available: nat, i: nat, st: Scan)
    requires GlyphsUpTo(w, 1) && ScanInv(w, 1, s, available, i, st)
    ensures RowsWithin(w, Segments(w, s, available, i, st), available) <==> !MeetsFullRow(w, s, available, i, st)
    decreases |s| - i
  {
    if i == |s| {
      if st.start < |s| { assert s[st.start..] == s[st.start..|s|]; WidthTrimEnd(w, s[st.start..]); }
    } else {
      var st' := Advance(w, s, available, i, st);
      var rest := Segments(w, s, available, i + 1, st');
      AdvanceKeepsInv(w, 1, s, available, i, st);
      NarrowRowsFitIff(w, s, available, i + 1, st');
      CutWithinIff(w, s, available, i, st);
      var cut := Cut(w, s, available, i, st);
      if cut.Some? { ConsWithin(w, s[st.start..cut.value], rest, available); }
    }
  }

  lemma ConsWithin(w: WidthTable, row: string, rows: seq<string>, available: nat)
    ensures RowsWithin(w, [row] + rows, available) <==> Width(w, TrimEnd(row)) <= available && RowsWithin(w, rows, available)
  {
    if RowsWithin(w, [row] + rows, available) { assert row in [row] + rows && forall r | r in rows :: r in [row] + rows; }
  }

  /** A row is over its limit although the scan has not seen it overflow: what a cut left over, or a
      glyph wider than the room. It stays over the limit unless its last glyph is trimmed away. */
  predicate IsOverfull(s: string, available: nat, i: nat, st: Scan)
    requires IsScan(s, i, st)
  {
    st.width > available && i > st.start && !IsWhitespace(s[i - 1])
  }

  /** Glyph `i` ends a row that is too wide: a hard separator taken along, or a glyph wider than the
      room by itself. */
  predicate EndsTooWide(w: WidthTable, s: string, available: nat, i: nat, st: Scan)
    requires i < |s| && IsScan(s, i, st)
  {
    || (st.width + w(s[i]) > available && IsHardSeparator(s[i]))
    || (i == st.start && w(s[i]) > available && !IsWhitespace(s[i]))
  }

  /** The three ways in which the scan lets a row overflow. */
  predicate ScanOverflows(w: WidthTable, s: string, available: nat, i: nat, st: Scan)
    requires IsScan(s, i, st)
    decreases |s| - i
  {
    || IsOverfull(s, available, i, st)
    || (i < |s| && (|| EndsTooWide(w, s, available, i, st)
                    || ScanOverflows(w, s, available, i + 1, Advance(w, s, available, i, st))))
  }

  /** An over-full segment is so by its last glyph. */
  ghost predicate OverfullByOne(w: WidthTable, s: string, available: nat, i: nat, st: Scan) {
    && IsScan(s, i, st)
    && (st.width > available ==> i > st.start && Width(w, s[st.start..i - 1]) <= available)
  }

  lemma AdvanceKeepsOverfull(w: WidthTable, s: string, available: nat, i: nat, st: Scan)
    requires GlyphsUpTo(w, 2) && i < |s| && ScanInv(w, 2, s, available, i, st)
    ensures OverfullByOne(w, s, available, i + 1, Advance(w, s, available, i, st))
  {
    var last := BreakAfter(w, s, i, st);
    if st.width + w(s[i]) > available {
      if last.At? {
        if last == st.last { WidthSplit(w, s, st.start, last.pos, i); }
      } else if i > st.start {
        assert s[i..i] == [];
      }
    }
  }

  lemma OverfullRow(w: WidthTable, s: string, available: nat, i: nat, st: Scan, end: nat)
    requires ScanInv(w, 2, s, available, i, st) && OverfullByOne(w, s, available, i, st) && st.width > available
    requires end == i || (end == i + 1 && i < |s| && s[i] == ' ')
    ensures Width(w, TrimEnd(s[st.start..end])) <= available <==> !IsOverfull(s, available, i, st)
  {
    var row := s[st.start..i];
    if end == i + 1 {
      assert s[st.start..end][..i - st.start] == row && s[st.start..end][i - st.start] == ' ' && IsWhitespace(' ');
    }
    assert TrimEnd(s[st.start..end]) == TrimEnd(row);
    assert row[|row| - 1] == s[i - 1] && row[..|row| - 1] == s[st.start..i - 1];
    WidthTrimEnd(w, row);
  }

  lemma HardSeparatorRow(w: WidthTable, s: string, available: nat, i: nat, st: Scan)
    requires i < |s| && ScanInv(w, 2, s, available, i, st) && IsHardSeparator(s[i])
    requires st.width + w(s[i]) > available
    ensures Width(w, TrimEnd(s[st.start..i + 1])) > available
  {
    var row := s[st.start..i + 1];
    WidthSplit(w, s, st.start, i, i + 1);
    assert row[|row| - 1] == s[i] && TrimEnd(row) == row;
  }

  lemma SpaceRow(w: WidthTable, s: string, available: nat, i: nat, st: Scan)
    requires i < |s| && ScanInv(w, 2, s, available, i, st) && s[i] == ' ' && st.width <= available
    ensures Width(w, TrimEnd(s[st.start..i + 1])) <= available
  {
    var row := s[st.start..i + 1];
    assert row[|row| - 1] == ' ' && row[..|row| - 1] == s[st.start..i] && IsWhitespace(' ');
    WidthTrimEnd(w, row);
  }

  lemma CutRowIff(w: WidthTable, s: string, available: nat, i: nat, st: Scan)
    requires GlyphsUpTo(w, 2) && i < |s| && ScanInv(w, 2, s, available, i, st) && OverfullByOne(w, s, available, i, st)
    requires Cut(w, s, available, i, st).Some?
    ensures Width(w, TrimEnd(s[st.start..Cut(w, s, available, i, st).value])) <= available <==>
            !IsOverfull(s, available, i, st) && !EndsTooWide(w, s, available, i, st)
  {
    if IsHardSeparator(s[i]) {
      HardSeparatorRow(w, s, available, i, st);
    } else if st.width > available {
      OverfullRow(w, s, available, i, st, Cut(w, s, available, i, st).value);
    } else if s[i] == ' ' {
      SpaceRow(w, s, available, i, st);
    } else if st.last.At? {
      WidthTrimEnd(w, s[st.start..st.last.pos]);
    } else if i > st.start {
      WidthTrimEnd(w, s[st.start..i]);
    } else {
      assert s[i..i] == [];
    }
  }

  /** From any point of the scan and for all glyphs: every row fits its room if and only if the scan
      never overflows in one of the three ways. */
  lemma {:induction false} RowsWithinIff(w: WidthTable, s: string, available: nat, i: nat, st: Scan)
    requires GlyphsUpTo(w, 2) && ScanInv(w, 2, s, available, i, st) && OverfullByOne(w, s, available, i, st)
    ensures RowsWithin(w, Segments(w, s, available, i, st), available) <==> !ScanOverflows(w, s, available, i, st)
    decreases |s| - i
  {
    if i == |s| {
      LastRowIff(w, s, available, st);
    } else {
      var st' := Advance(w, s, available, i, st);
      AdvanceKeepsInv(w, 2, s, available, i, st);
      AdvanceKeepsOverfull(w, s, available, i, st);
      RowsWithinIff(w, s, available, i + 1, st');
      var cut := Cut(w, s, available, i, st);
      if cut.Some? {
        CutRowIff(w, s, available, i, st);
        ConsWithin(w, s[st.start..cut.value], Segments(w, s, available, i + 1, st'), available);
      }
    }
  }

  lemma LastRowIff(w: WidthTable, s: string, available: nat, st: Scan)
    requires ScanInv(w, 2, s, available, |s|, st) && OverfullByOne(w, s, available, |s|, st)
    ensures RowsWithin(w, Segments(w, s, available, |s|, st), available) <==> !IsOverfull(s, available, |s|, st)
  {
    if st.start < |s| {
      var row := s[st.start..];
      assert row == s[st.start..|s|] && row in [row];
      if st.width > available { OverfullRow(w, s, available, |s|, st, |s|); } else { WidthTrimEnd(w, row); }
    }
  }

  // ---- one line

  function Available(width: nat, indent: string): nat {
    if width > ByteLen(indent) then width - ByteLen(indent) else 0
  }

  /** The segments of a right-trimmed line; a line that fits, or that has no room at all, is one. */
  function LineSegments(w: WidthTable, trimmed: string, available: nat): seq<string> {
    if trimmed == [] || available == 0 || Width(w, trimmed) <= available then [trimmed]
    else Segments(w, trimmed, available, 0, Scan(0, 0, NoBreak))
  }

  function Row(indent: string, segment: string): string {
    if TrimEnd(segment) == [] then [] else indent + TrimEnd(segment)
  }

  function Rows(indent: string, segments: seq<string>): (r: seq<string>)
    ensures |r| == |segments| && forall i | 0 <= i < |r| :: r[i] == Row(indent, segments[i])
  {
    if segments == [] then [] else [Row(indent, segments[0])] + Rows(indent, segments[1..])
  }

  /** Rows as text, each with its newline. */
  function Unlines(rows: seq<string>): string {
    if rows == [] then [] else Unlines(rows[..|rows| - 1]) + rows[|rows| - 1] + "\n"
  }

  lemma {:induction false} UnlinesConcat(a: seq<string>, b: seq<string>)
    ensures Unlines(a + b) == Unlines(a) + Unlines(b)
  {
    if b == [] {
      assert a + b == a && Unlines(a) + [] == Unlines(a);
    } else {
      assert (a + b)[..|a + b| - 1] == a + b[..|b| - 1];
      UnlinesConcat(a, b[..|b| - 1]);
      assert Unlines(a) + (Unlines(b[..|b| - 1]) + b[|b| - 1] + "\n") == Unlines(a) + Unlines(b[..|b| - 1]) + b[|b| - 1] + "\n";
    }
  }

  function LineRows(w: WidthTable, line: string, width: nat, indent: string): seq<string> {
    Rows(indent, LineSegments(w, TrimEnd(line), Available(width, indent)))
  }

  lemma {:induction false} TrimEndIdempotent(s: string)
    ensures TrimEnd(TrimEnd(s)) == TrimEnd(s)
  {
  }

  /** `wrap_line` neither loses a character of the right-trimmed line nor makes an empty segment,
      and where there is room each row's text exceeds it by at most two columns for glyphs up to two
      wide, at most one for glyphs up to one wide, and not at all if also no '/', '?', '#' occurs. */
  lemma WrapLineBounds(w: WidthTable, line: string, width: nat, indent: string)
    requires GlyphsUpTo(w, 2)
    ensures var trimmed := TrimEnd(line);
            var available := Available(width, indent);
            var segments := LineSegments(w, trimmed, available);
            && Flatten(segments) == trimmed
            && (available > 0 ==> forall r | r in segments :: Width(w, TrimEnd(r)) <= available + 2)
            && (available > 0 && GlyphsUpTo(w, 1) ==> forall r | r in segments :: Width(w, TrimEnd(r)) <= available + 1)
            && (available > 0 && GlyphsUpTo(w, 1) && (forall c | c in trimmed :: !IsHardSeparator(c)) ==>
                  forall r | r in segments :: Width(w, TrimEnd(r)) <= available)
            && (trimmed != [] ==> forall r | r in segments :: r != [])
  {
    var trimmed := TrimEnd(line);
    var available := Available(width, indent);
    if trimmed == [] || available == 0 || Width(w, trimmed) <= available {
      assert Flatten([trimmed]) == trimmed + Flatten([]) == trimmed;
      WidthTrimEnd(w, trimmed);
    } else {
      ScannedBounds(w, trimmed, available);
    }
  }

  lemma ScannedBounds(w: WidthTable, s: string, available: nat)
    requires GlyphsUpTo(w, 2) && available > 0
    ensures var segments := Segments(w, s, available, 0, Scan(0, 0, NoBreak));
            && Flatten(segments) == s && (forall r | r in segments :: r != [] && Width(w, TrimEnd(r)) <= available + 2)
            && (GlyphsUpTo(w, 1) ==> forall r | r in segments :: Width(w, TrimEnd(r)) <= available + 1)
            && (GlyphsUpTo(w, 1) && (forall c | c in s :: !IsHardSeparator(c)) ==>
                  forall r | r in segments :: Width(w, TrimEnd(r)) <= available)
  {
    var segments := Segments(w, s, available, 0, Scan(0, 0, NoBreak));
    assert s[0..] == s;
    SegmentsAreLossless(w, s, available, 0, Scan(0, 0, NoBreak));
    RowsFitFromStart(w, 2, s, available);
    if GlyphsUpTo(w, 1) {
      RowsFitFromStart(w, 1, s, available);
      SegmentCharacters(segments);
    }
  }

  lemma RowsFitFromStart(w: WidthTable, k: nat, s: string, available: nat)
    requires 1 <= k <= 2 && GlyphsUpTo(w, k) && available > 0
    ensures forall r | r in Segments(w, s, available, 0, Scan(0, 0, NoBreak)) :: RowFits(w, k, available, r)
  {
    assert s[0..0] == [];
    RowsFit(w, k, s, available, 0, Scan(0, 0, NoBreak));
  }

  /** A line that does not fit its room, and whose scan overflows. */
  predicate LineOverflows(w: WidthTable, line: string, available: nat) {
    Width(w, TrimEnd(line)) > available && ScanOverflows(w, TrimEnd(line), available, 0, Scan(0, 0, NoBreak))
  }

  lemma LineFitsIff(w: WidthTable, line: string, available: nat)
    requires GlyphsUpTo(w, 2) && available > 0
    ensures RowsWithin(w, LineSegments(w, TrimEnd(line), available), available) <==> !LineOverflows(w, line, available)
  {
    var trimmed := TrimEnd(line);
    if Width(w, trimmed) <= available {
      WidthTrimEnd(w, trimmed);
    } else {
      assert trimmed[0..0] == [];
      RowsWithinIff(w, trimmed, available, 0, Scan(0, 0, NoBreak));
    }
  }

  /** For narrow glyphs the three ways are one: a hard separator at the end of a full row. */
  lemma NarrowOverflowIff(w: WidthTable, s: string, available: nat)
    requires GlyphsUpTo(w, 1) && available > 0
    ensures ScanOverflows(w, s, available, 0, Scan(0, 0, NoBreak)) <==> MeetsFullRow(w, s, available, 0, Scan(0, 0, NoBreak))
  {
    assert s[0..0] == [];
    NarrowRowsFitIff(w, s, available, 0, Scan(0, 0, NoBreak));
    RowsWithinIff(w, s, available, 0, Scan(0, 0, NoBreak));
  }

  /** Without a hard separator no full row meets one. */
  lemma {:induction false} NoHardSeparatorNoOverflow(w: WidthTable, s: string, available: nat, i: nat, st: Scan)
    requires IsScan(s, i, st) && forall c | c in s :: !IsHardSeparator(c)
    ensures !MeetsFullRow(w, s, available, i, st)
    decreases |s| - i
  {
    if i < |s| {
      assert s[i] in s;
      NoHardSeparatorNoOverflow(w, s, available, i + 1, Advance(w, s, available, i, st));
    }
  }

  lemma {:induction false} SegmentCharacters(segments: seq<string>)
    ensures forall r, c | r in segments && c in r :: c in Flatten(segments)
  {
    if segments != [] { SegmentCharacters(segments[1..]); }
  }

  /** The bounds are reached: a full row takes a separator with it, and a wide glyph that follows a
      break leaves a row over its limit for the separator after it. */
  lemma BoundsAreReached(w: WidthTable)
    requires GlyphsUpTo(w, 2) && w('a') == 1 && w('b') == 1 && w('W') == 2
    ensures LineSegments(w, "ab/", 2) == ["ab/"] && Width(w, "ab/") == 3
    ensures LineSegments(w, "aW/", 1) == ["a", "W/"] && Width(w, "W/") == 3
  {
    var s, t := "ab/", "aW/";
    assert s[..2][..1] == "a" && s[..2] == "ab" && "a"[..0] == "" && s[0..3] == s;
    assert Width(w, s) == 3;
    assert Segments(w, s, 2, 3, Scan(3, 0, NoBreak)) == [];
    assert t[..2][..1] == "a" && t[..2] == "aW";
    assert Width(w, t) == 4;
    assert "W/"[..1] == "W" && "W"[..0] == "" && t[0..1] == "a" && t[1..3] == "W/";
    assert Segments(w, t, 1, 3, Scan(3, 0, NoBreak)) == [];
    assert Segments(w, t, 1, 2, Scan(1, 2, NoBreak)) == ["W/"];
    assert Segments(w, t, 1, 1, Scan(0, 1, NoBreak)) == ["a"] + ["W/"];
  }

  method WrapLine(w: WidthTable, line: string, width: nat, indent: string) returns (output: string)
    ensures output == Unlines(LineRows(w, line, width, indent))
  {
    var trimmed := TrimEnd(line);
    TrimEndIdempotent(line);
    if trimmed == [] {
      assert LineRows(w, line, width, indent) == [[]];
      return "\n";
    }
    var available := Available(width, indent);
    if available == 0 || Width(w, trimmed) <= available {
      assert LineRows(w, line, width, indent) == [indent + trimmed];
      assert Unlines([indent + trimmed]) == [] + (indent + trimmed) + "\n" == indent + trimmed + "\n";
      return indent + trimmed + "\n";
    }
    output := ScanLine(w, trimmed, available, indent);
  }

  /** The scan: emits each segment as soon as it overflows. */
  method ScanLine(w: WidthTable, trimmed: string, available: nat, indent: string) returns (output: string)
    ensures output == Unlines(Rows(indent, Segments(w, trimmed, available, 0, Scan(0, 0, NoBreak))))
  {
    output := [];
    var st := Scan(0, 0, NoBreak);
    ghost var done: seq<string> := [];
    ghost var all := Segments(w, trimmed, available, 0, st);
    for i := 0 to |trimmed|
      invariant IsScan(trimmed, i, st)
      invariant done + Segments(w, trimmed, available, i, st) == all
      invariant output == Unlines(Rows(indent, done))
    {
      var end, st' := TakeGlyph(w, trimmed, available, i, st);
      if end.Some? {
        var segment := trimmed[st.start..end.value];
        output := PushSegment(output, indent, done, segment);
        done := done + [segment];
      }
      st := st';
    }
    if st.start < |trimmed| {
      output := PushSegment(output, indent, done, trimmed[st.start..]);
    } else {
      assert done + [] == done;
    }
  }

  /** One iteration's bookkeeping: the end of the segment to emit, if any, and the new state. */
  method TakeGlyph(w: WidthTable, s: string, available: nat, i: nat, st: Scan) returns (end: Option<nat>, st': Scan)
    requires i < |s| && IsScan(s, i, st)
    ensures end == Cut(w, s, available, i, st) && st' == Advance(w, s, available, i, st)
  {
    var segmentWidth, last := st.width + w(s[i]), st.last;
    if IsSeparator(s[i]) {
      last := At(i + 1, segmentWidth);
    }
    if segmentWidth <= available {
      return None, Scan(st.start, segmentWidth, last);
    }
    if last.At? {
      return Some(last.pos), Scan(last.pos, segmentWidth - last.width, NoBreak);
    }
    if i > st.start {
      return Some(i), Scan(i, w(s[i]), NoBreak);
    }
    return Some(i + 1), Scan(i + 1, 0, NoBreak);
  }

  /** Appends one row: blank if nothing is left after trimming, else indented. */
  method PushSegment(output: string, indent: string, ghost done: seq<string>, segment: string) returns (r: string)
    requires output == Unlines(Rows(indent, done))
    ensures r == Unlines(Rows(indent, done + [segment]))
  {
    var text := TrimEnd(segment);
    UnlinesPush(indent, done, segment);
    if text == [] {
      assert output + [] == output;
      r := output + "\n";
    } else {
      r := output + (indent + text) + "\n";
    }
  }

  lemma UnlinesPush(indent: string, done: seq<string>, segment: string)
    ensures Unlines(Rows(indent, done + [segment])) == Unlines(Rows(indent, done)) + Row(indent, segment) + "\n"
  {
    assert Rows(indent, done + [segment]) == Rows(indent, done) + [Row(indent, segment)];
    assert (Rows(indent, done) + [Row(indent, segment)])[..|done|] == Rows(indent, done);
  }
}
