/** Text wrapping and framed boxes (src/cli/text_utils.rs). */
module BoxDrawing {
  import opened Utf8
  import opened TextWrap

  // ---- lines of a text

  function FirstNewline(s: string): (r: Option<nat>)
    ensures r.Some? ==> r.value < |s| && s[r.value] == '\n' && forall i | 0 <= i < r.value :: s[i] != '\n'
    ensures r.None? ==> forall i | 0 <= i < |s| :: s[i] != '\n'
  {
    if s == [] then None
    else if s[0] == '\n' then Some(0)
    else match FirstNewline(s[1..]) case Some(i) => Some(i + 1) case None => None
  }

  function StripCr(s: string): string { if s != [] && s[|s| - 1] == '\r' then s[..|s| - 1] else s }

  /** `str::lines`: a terminator is "\n" or "\r\n", and the last line needs none. */
  function Lines(s: string): seq<string> {
    if s == [] then []
    else match FirstNewline(s)
         case None => [s]
         case Some(i) => [StripCr(s[..i])] + Lines(s[i + 1..])
  }

  function DropNewline(s: string): string { if s != [] && s[|s| - 1] == '\n' then s[..|s| - 1] else s }

  ghost predicate IsOneLine(row: string) { forall c | c in row :: c != '\n' }

  ghost predicate IsClean(row: string) { IsOneLine(row) && StripCr(row) == row }

  lemma LinesCons(row: string, t: string)
    requires IsOneLine(row)
    ensures Lines(row + "\n" + t) == [StripCr(row)] + Lines(t)
  {
    var s := row + "\n" + t;
    assert s[|row|] == '\n' && forall i | 0 <= i < |row| :: s[i] == row[i] && row[i] in row;
    assert FirstNewline(s) == Some(|row|);
    assert s[..|row|] == row && s[|row| + 1..] == t;
  }

  lemma UnlinesCons(row: string, rows: seq<string>)
    ensures Unlines([row] + rows) == row + "\n" + Unlines(rows)
  {
    UnlinesConcat([row], rows);
    assert Unlines([row]) == [] + row + "\n" == row + "\n" by { assert [row][..0] == []; }
  }

  /** What `lines` makes of joined rows: a carriage return before a newline goes with it, and a blank
      last row is not a line. */
  function Relined(rows: seq<string>): seq<string> {
    if rows == [] then []
    else if |rows| == 1 then (if rows[0] == [] then [] else rows)
    else [StripCr(rows[0])] + Relined(rows[1..])
  }

  lemma {:induction false} LinesOfRows(rows: seq<string>)
    requires forall r | r in rows :: IsOneLine(r)
    ensures Lines(DropNewline(Unlines(rows))) == Relined(rows)
  {
    if rows != [] {
      var row, rest := rows[0], rows[1..];
      assert rows == [row] + rest && row in rows && IsOneLine(row);
      UnlinesCons(row, rest);
      if rest == [] {
        assert row + "\n" + Unlines(rest) == row + "\n";
        LinesOfOne(row);
      } else {
        DropNewlineTail(row + "\n", Unlines(rest));
        LinesCons(row, DropNewline(Unlines(rest)));
        LinesOfRows(rest);
      }
    }
  }

  lemma LinesOfOne(row: string)
    requires IsOneLine(row)
    ensures Lines(DropNewline(row + "\n")) == if row == [] then [] else [row]
  {
    assert DropNewline(row + "\n") == row;
    NoNewline(row);
  }

  lemma NoNewline(row: string)
    requires IsOneLine(row)
    ensures FirstNewline(row).None?
  {
    forall i | 0 <= i < |row| ensures row[i] != '\n' { assert row[i] in row; }
  }

  lemma DropNewlineTail(a: string, u: string)
    requires u != []
    ensures DropNewline(a + u) == a + DropNewline(u)
  {
  }

  // ---- wrap_text

  predicate IsFence(line: string) { "```" <= TrimStart(TrimEnd(line)) }

  /** Fences toggle code; fences and code are kept as they are, prose is wrapped. */
  function TextRows(w: WidthTable, lines: seq<string>, inCode: bool, width: nat, indent: string): seq<string> {
    if lines == [] then []
    else if IsFence(lines[0]) then [indent + lines[0]] + TextRows(w, lines[1..], !inCode, width, indent)
    else if inCode then [indent + lines[0]] + TextRows(w, lines[1..], inCode, width, indent)
    else LineRows(w, lines[0], width, indent) + TextRows(w, lines[1..], inCode, width, indent)
  }

  function Wrapped(w: WidthTable, text: string, width: nat, indent: string): string {
    if width == 0 then text else DropNewline(Unlines(TextRows(w, Lines(text), false, width, indent)))
  }

  /** The rows of one line, and whether code follows. */
  function OneLine(w: WidthTable, line: string, inCode: bool, width: nat, indent: string): (seq<string>, bool) {
    (if IsFence(line) || inCode then [indent + line] else LineRows(w, line, width, indent),
     if IsFence(line) then !inCode else inCode)
  }

  lemma Reassociate(a: seq<string>, b: seq<string>, c: seq<string>)
    ensures a + (b + c) == a + b + c
  {
  }

  method EmitLine(w: WidthTable, line: string, inCode: bool, width: nat, indent: string) returns (text: string, inCode': bool)
    ensures (text, inCode') == (Unlines(OneLine(w, line, inCode, width, indent).0), OneLine(w, line, inCode, width, indent).1)
  {
    inCode' := inCode;
    if IsFence(line) {
      inCode' := !inCode;
      text := indent + line + "\n";
      UnlinesOne(indent + line);
    } else if inCode {
      text := indent + line + "\n";
      UnlinesOne(indent + line);
    } else {
      text := WrapLine(w, line, width, indent);
    }
  }

  lemma UnlinesOne(row: string)
    ensures Unlines([row]) == row + "\n"
  {
    assert [row][..0] == [] && [] + row == row;
  }

  method WrapText(w: WidthTable, text: string, width: nat, indent: string) returns (result: string)
    ensures result == Wrapped(w, text, width, indent)
  {
    if width == 0 {
      return text;
    }
    result := [];
    var inCode, lines := false, Lines(text);
    ghost var done: seq<string> := [];
    assert lines[0..] == lines;
    for i := 0 to |lines|
      invariant done + TextRows(w, lines[i..], inCode, width, indent) == TextRows(w, lines, false, width, indent)
      invariant result == Unlines(done)
    {
      assert lines[i..][1..] == lines[i + 1..];
      ghost var (rows, next') := OneLine(w, lines[i], inCode, width, indent);
      Reassociate(done, rows, TextRows(w, lines[i + 1..], next', width, indent));
      var t, next := EmitLine(w, lines[i], inCode, width, indent);
      UnlinesConcat(done, rows);
      result, inCode, done := result + t, next, done + rows;
    }
    assert done + [] == done;
    result := DropNewline(result);
  }

  // ---- which texts fit

  /** A code line or fence is shown as it is; only the last line keeps a carriage return. */
  predicate KeptTooWide(w: WidthTable, line: string, isLast: bool, width: nat) {
    Width(w, if isLast then line else StripCr(line)) > width
  }

  predicate FirstOverflows(w: WidthTable, line: string, inCode: bool, isLast: bool, width: nat) {
    if inCode || IsFence(line) then KeptTooWide(w, line, isLast, width) else LineOverflows(w, line, width)
  }

  /** Some line does not fit: a code line or fence by its own width, prose as its scan overflows. */
  predicate TextOverflows(w: WidthTable, lines: seq<string>, inCode: bool, width: nat) {
    lines != [] &&
    (|| FirstOverflows(w, lines[0], inCode, |lines| == 1, width)
     || TextOverflows(w, lines[1..], if IsFence(lines[0]) then !inCode else inCode, width))
  }

  /** Any text, code and fences included, wraps to lines that all fit if and only if none of its
      lines overflows. */
  lemma TextFitsIff(w: WidthTable, text: string, width: nat)
    requires GlyphsUpTo(w, 2) && width > 0
    ensures AllWithin(w, Lines(Wrapped(w, text, width, "")), width) <==> !TextOverflows(w, Lines(text), false, width)
  {
    var rows := TextRows(w, Lines(text), false, width, "");
    LinesAreParts(text);
    RowsAreOneLine(w, Lines(text), false, width);
    LinesOfRows(rows);
    RelinedFitsIff(w, rows, width);
    RowsFitIff(w, Lines(text), false, width);
  }

  /** The rows fit as they will be shown. */
  predicate ShownWithin(w: WidthTable, rows: seq<string>, width: nat) {
    rows == [] ||
    (Width(w, if |rows| == 1 then rows[0] else StripCr(rows[0])) <= width && ShownWithin(w, rows[1..], width))
  }

  lemma ShownCons(w: WidthTable, row: string, rows: seq<string>, width: nat)
    ensures ShownWithin(w, [row] + rows, width) <==>
            Width(w, if rows == [] then row else StripCr(row)) <= width && ShownWithin(w, rows, width)
  {
    assert ([row] + rows)[1..] == rows;
  }

  lemma {:induction false} RelinedFitsIff(w: WidthTable, rows: seq<string>, width: nat)
    ensures AllWithin(w, Relined(rows), width) <==> ShownWithin(w, rows, width)
  {
    if |rows| == 1 {
      OneWithin(w, rows[0], width);
      assert rows == [rows[0]] && rows[1..] == [];
    } else if |rows| > 1 {
      var row, rest := rows[0], rows[1..];
      RelinedFitsIff(w, rest, width);
      OneWithin(w, StripCr(row), width);
      AllWithinConcat(w, [StripCr(row)], Relined(rest), width);
    }
  }

  /** Clean rows are shown as they are. */
  lemma {:induction false} ShownConcat(w: WidthTable, a: seq<string>, b: seq<string>, width: nat)
    requires forall r | r in a :: IsClean(r)
    ensures ShownWithin(w, a + b, width) <==> AllWithin(w, a, width) && ShownWithin(w, b, width)
  {
    if a == [] {
      assert a + b == b;
    } else {
      var row, rest := a[0], a[1..] + b;
      assert a + b == [row] + rest && a == [row] + a[1..] && row in a;
      ShownConcat(w, a[1..], b, width);
      AllWithinConcat(w, [row], a[1..], width);
      OneWithin(w, row, width);
      ShownCons(w, row, rest, width);
    }
  }

  lemma {:induction false} LinesAreParts(s: string)
    ensures forall l, c | l in Lines(s) && c in l :: c in s && c != '\n'
    decreases |s|
  {
    if s != [] {
      match FirstNewline(s)
      case None => assert forall c | c in s :: c != '\n';
      case Some(i) =>
        LinesAreParts(s[i + 1..]);
        assert forall c | c in StripCr(s[..i]) :: c in s[..i];
        assert forall c | c in s[..i] :: c in s && c != '\n';
    }
  }

  ghost predicate AllWithin(w: WidthTable, rows: seq<string>, width: nat) {
    forall r | r in rows :: Width(w, r) <= width
  }

  lemma {:induction false} RowsOfSegments(w: WidthTable, segments: seq<string>, width: nat)
    ensures AllWithin(w, Rows("", segments), width) <==> RowsWithin(w, segments, width)
  {
    if segments != [] {
      var g, rest := segments[0], segments[1..];
      RowsOfSegments(w, rest, width);
      RowOfSegment(w, g);
      AllWithinConcat(w, [Row("", g)], Rows("", rest), width);
      OneWithin(w, Row("", g), width);
      ConsWithin(w, g, rest, width);
      assert segments == [g] + rest;
    }
  }

  lemma OneWithin(w: WidthTable, row: string, width: nat)
    ensures AllWithin(w, [row], width) <==> Width(w, row) <= width
  {
    assert row in [row];
  }

  lemma RowsOfSegmentsClean(w: WidthTable, segments: seq<string>)
    requires forall g, c | g in segments && c in g :: c != '\n'
    ensures forall r | r in Rows("", segments) :: IsClean(r)
  {
    forall i | 0 <= i < |segments| ensures IsClean(Rows("", segments)[i]) {
      assert segments[i] in segments;
      RowOfSegment(w, segments[i]);
    }
  }

  lemma RowOfSegment(w: WidthTable, g: string)
    ensures Width(w, Row("", g)) == Width(w, TrimEnd(g))
    ensures (forall c | c in g :: c != '\n') ==> IsClean(Row("", g))
  {
    assert "" + TrimEnd(g) == TrimEnd(g);
    assert forall c | c in TrimEnd(g) :: c in g;
    assert IsWhitespace('\r');
  }

  lemma LineRowsClean(w: WidthTable, line: string, width: nat)
    requires width > 0 && IsOneLine(line)
    ensures LineRows(w, line, width, "") != [] && forall r | r in LineRows(w, line, width, "") :: IsClean(r)
  {
    var segments := LineSegments(w, TrimEnd(line), Available(width, ""));
    assert TrimEnd(line)[0..] == TrimEnd(line) && Flatten([TrimEnd(line)]) == TrimEnd(line) + [] == TrimEnd(line);
    if segments != [TrimEnd(line)] { SegmentsAreLossless(w, TrimEnd(line), Available(width, ""), 0, Scan(0, 0, NoBreak)); }
    SegmentCharacters(segments);
    assert forall c | c in TrimEnd(line) :: c in line;
    RowsOfSegmentsClean(w, segments);
  }

  lemma RowsOfOneLine(w: WidthTable, line: string, inCode: bool, width: nat)
    requires width > 0 && IsOneLine(line)
    ensures var rows := OneLine(w, line, inCode, width, "").0; rows != [] && forall r | r in rows :: IsOneLine(r)
  {
    assert "" + line == line;
    LineRowsClean(w, line, width);
  }

  lemma {:induction false} RowsAreOneLine(w: WidthTable, lines: seq<string>, inCode: bool, width: nat)
    requires width > 0 && forall l | l in lines :: IsOneLine(l)
    ensures forall r | r in TextRows(w, lines, inCode, width, "") :: IsOneLine(r)
    ensures TextRows(w, lines, inCode, width, "") == [] <==> lines == []
  {
    if lines != [] {
      assert lines[0] in lines;
      RowsOfOneLine(w, lines[0], inCode, width);
      RowsAreOneLine(w, lines[1..], OneLine(w, lines[0], inCode, width, "").1, width);
    }
  }

  lemma ProseRowsFitIff(w: WidthTable, line: string, width: nat)
    requires GlyphsUpTo(w, 2) && width > 0
    ensures AllWithin(w, LineRows(w, line, width, ""), width) <==> !LineOverflows(w, line, width)
  {
    assert ByteLen("") == 0 && Available(width, "") == width;
    LineFitsIff(w, line, width);
    RowsOfSegments(w, LineSegments(w, TrimEnd(line), width), width);
  }

  /** One line's rows, and what is shown below it. */
  lemma FirstFitsIff(w: WidthTable, line: string, inCode: bool, below: seq<string>, width: nat)
    requires GlyphsUpTo(w, 2) && width > 0 && IsOneLine(line)
    ensures ShownWithin(w, OneLine(w, line, inCode, width, "").0 + below, width) <==>
            !FirstOverflows(w, line, inCode, below == [], width) && ShownWithin(w, below, width)
  {
    if inCode || IsFence(line) { KeptFitsIff(w, line, below, width); } else { ProseFitsIff(w, line, below, width); }
    assert "" + line == line;
  }

  lemma KeptFitsIff(w: WidthTable, line: string, below: seq<string>, width: nat)
    ensures ShownWithin(w, [line] + below, width) <==> !KeptTooWide(w, line, below == [], width) && ShownWithin(w, below, width)
  {
    ShownCons(w, line, below, width);
  }

  lemma ProseFitsIff(w: WidthTable, line: string, below: seq<string>, width: nat)
    requires GlyphsUpTo(w, 2) && width > 0 && IsOneLine(line)
    ensures ShownWithin(w, LineRows(w, line, width, "") + below, width) <==> !LineOverflows(w, line, width) && ShownWithin(w, below, width)
  {
    LineRowsClean(w, line, width);
    ProseRowsFitIff(w, line, width);
    ShownConcat(w, LineRows(w, line, width, ""), below, width);
  }

  lemma {:induction false} RowsFitIff(w: WidthTable, lines: seq<string>, inCode: bool, width: nat)
    requires GlyphsUpTo(w, 2) && width > 0
    requires forall l | l in lines :: IsOneLine(l)
    ensures ShownWithin(w, TextRows(w, lines, inCode, width, ""), width) <==> !TextOverflows(w, lines, inCode, width)
  {
    if lines != [] {
      var next := OneLine(w, lines[0], inCode, width, "").1;
      assert lines[0] in lines;
      RowsFitIff(w, lines[1..], next, width);
      RowsAreOneLine(w, lines[1..], next, width);
      FirstFitsIff(w, lines[0], inCode, TextRows(w, lines[1..], next, width, ""), width);
    }
  }

  lemma AllWithinConcat(w: WidthTable, a: seq<string>, b: seq<string>, width: nat)
    ensures AllWithin(w, a + b, width) <==> AllWithin(w, a, width) && AllWithin(w, b, width)
  {
    if AllWithin(w, a + b, width) {
      assert forall r | r in a :: r in a + b;
      assert forall r | r in b :: r in a + b;
    }
  }

  // ---- draw_box

  const TOP_LEFT := '\U{256D}'
  const TOP_RIGHT := '\U{256E}'
  const BOTTOM_LEFT := '\U{2570}'
  const BOTTOM_RIGHT := '\U{256F}'
  const HORIZONTAL := '\U{2500}'
  const VERTICAL := '\U{2502}'

  ghost predicate FrameIsNarrow(w: WidthTable) {
    w(TOP_LEFT) == 1 && w(TOP_RIGHT) == 1 && w(BOTTOM_LEFT) == 1 && w(BOTTOM_RIGHT) == 1 && w(HORIZONTAL) == 1 && w(VERTICAL) == 1
  }

  lemma {:induction false} WidthRepeat(w: WidthTable, c: char, n: nat)
    requires w(c) == 1
    ensures Width(w, Repeat(c, n)) == n
  {
    if n > 0 {
      assert Repeat(c, n)[..n - 1] == Repeat(c, n - 1);
      WidthRepeat(w, c, n - 1);
    }
  }

  /** The longest prefix that is at most `max` columns wide. */
  function Truncate(w: WidthTable, text: string, max: nat): (r: string)
    ensures r <= text && Width(w, r) <= max
  {
    if Width(w, text) <= max then text else Truncate(w, text[..|text| - 1], max)
  }

  lemma {:induction false} TruncateIs(w: WidthTable, text: string, max: nat, n: nat)
    requires n <= |text| && Width(w, text[..n]) <= max
    requires n < |text| ==> Width(w, text[..n + 1]) > max
    ensures Truncate(w, text, max) == text[..n]
    decreases |text|
  {
    if n == |text| {
      assert text[..n] == text;
    } else {
      WidthSplit(w, text, 0, n + 1, |text|);
      assert text[0..|text|] == text && text[0..n + 1] == text[..n + 1];
      var t := text[..|text| - 1];
      assert t[..n] == text[..n] && (n < |t| ==> t[..n + 1] == text[..n + 1]);
      TruncateIs(w, t, max, n);
    }
  }

  method TruncateToWidth(w: WidthTable, text: string, max: nat) returns (out: string)
    ensures out == Truncate(w, text, max)
  {
    var used, n := 0, 0;
    while n < |text|
      invariant 0 <= n <= |text| && used == Width(w, text[..n]) <= max
    {
      assert text[..n + 1][..n] == text[..n];
      if used + w(text[n]) > max {
        TruncateIs(w, text, max, n);
        return text[..n];
      }
      used := used + w(text[n]);
      n := n + 1;
    }
    TruncateIs(w, text, max, n);
    assert text[..n] == text;
    out := text;
  }

  function TopRow(w: WidthTable, title: string, width: nat): string
    requires width >= 10
  {
    var t := Truncate(w, title, width - 7);
    [' ', ' ', TOP_LEFT, HORIZONTAL, ' '] + t + [' '] + Repeat(HORIZONTAL, width - Width(w, t) - 7) + [TOP_RIGHT]
  }

  function ContentRow(w: WidthTable, line: string, width: nat): string
    requires width >= 10
  {
    [' ', ' ', VERTICAL, ' '] + line + Repeat(' ', SaturatingSub(width - 5, Width(w, line))) + [VERTICAL]
  }

  function BottomRow(width: nat): string
    requires width >= 10
  {
    [' ', ' ', BOTTOM_LEFT] + Repeat(HORIZONTAL, width - 4) + [BOTTOM_RIGHT]
  }

  function ContentRows(w: WidthTable, lines: seq<string>, width: nat): (rows: seq<string>)
    requires width >= 10
    ensures |rows| == |lines| && forall i | 0 <= i < |lines| :: rows[i] == ContentRow(w, lines[i], width)
  {
    seq(|lines|, i requires 0 <= i < |lines| => ContentRow(w, lines[i], width))
  }

  function BoxRows(w: WidthTable, title: string, content: string, width: nat): seq<string>
    requires width >= 10
  {
    Framed(w, title, Lines(Wrapped(w, content, width - 5, "")), width)
  }

  function Framed(w: WidthTable, title: string, lines: seq<string>, width: nat): seq<string>
    requires width >= 10
  {
    [TopRow(w, title, width)] + ContentRows(w, lines, width) + [BottomRow(width)]
  }

  method DrawBox(w: WidthTable, title: string, content: string, width: nat, symbol: string) returns (result: string)
    ensures result == if width < 10 then symbol + " " + title + "\n" + content + "\n" else Unlines(BoxRows(w, title, content, width))
  {
    if width < 10 {
      return symbol + " " + title + "\n" + content + "\n";
    }
    var text := WrapText(w, content, width - 5, "");
    var title' := TruncateToWidth(w, title, width - 7);
    result := [' ', ' ', TOP_LEFT, HORIZONTAL, ' '] + title' + [' '] + Repeat(HORIZONTAL, width - Width(w, title') - 7) + [TOP_RIGHT] + "\n";
    UnlinesOne(TopRow(w, title, width));
    result := DrawContent(w, Lines(text), width, result, [TopRow(w, title, width)]);
    result := PushRow(result, [TopRow(w, title, width)] + ContentRows(w, Lines(text), width),
                      [' ', ' ', BOTTOM_LEFT] + Repeat(HORIZONTAL, width - 4) + [BOTTOM_RIGHT]);
  }

  method DrawContent(w: WidthTable, lines: seq<string>, width: nat, top: string, ghost done: seq<string>) returns (result: string)
    requires width >= 10 && top == Unlines(done)
    ensures result == Unlines(done + ContentRows(w, lines, width))
  {
    result := top;
    assert done + ContentRows(w, lines[..0], width) == done;
    for i := 0 to |lines|
      invariant result == Unlines(done + ContentRows(w, lines[..i], width))
    {
      var padding := SaturatingSub(width - 5, Width(w, lines[i]));
      result := PushRow(result, done + ContentRows(w, lines[..i], width),
                        [' ', ' ', VERTICAL, ' '] + lines[i] + Repeat(' ', padding) + [VERTICAL]);
      ContentRowsPush(w, lines, i, width, done);
    }
    assert lines[..|lines|] == lines;
  }

  lemma ContentRowsPush(w: WidthTable, lines: seq<string>, i: nat, width: nat, done: seq<string>)
    requires width >= 10 && i < |lines|
    ensures done + ContentRows(w, lines[..i], width) + [ContentRow(w, lines[i], width)] == done + ContentRows(w, lines[..i + 1], width)
  {
  }

  method PushRow(output: string, ghost done: seq<string>, row: string) returns (r: string)
    requires output == Unlines(done)
    ensures r == Unlines(done + [row])
  {
    assert (done + [row])[..|done|] == done;
    r := output + row + "\n";
  }

  lemma WidthOfFour(w: WidthTable, a: char, b: char, c: char, d: char)
    requires w(a) == 1 && w(b) == 1 && w(c) == 1 && w(d) == 1
    ensures Width(w, [a]) == 1 && Width(w, [a, b, c]) == 3 && Width(w, [a, b, c, d]) == 4
  {
    assert [a][..0] == [];
    assert Width(w, [a]) == 1;
    assert [a, b][..1] == [a];
    assert Width(w, [a, b]) == 2;
    assert [a, b, c][..2] == [a, b];
    assert Width(w, [a, b, c]) == 3;
    assert [a, b, c, d][..3] == [a, b, c];
  }

  lemma TopRowWidth(w: WidthTable, title: string, width: nat)
    requires width >= 10 && FrameIsNarrow(w) && w(' ') == 1
    ensures Width(w, TopRow(w, title, width)) == width
  {
    var t := Truncate(w, title, width - 7);
    var dashes := Repeat(HORIZONTAL, width - Width(w, t) - 7);
    WidthRepeat(w, HORIZONTAL, width - Width(w, t) - 7);
    WidthOfFour(w, ' ', ' ', TOP_LEFT, HORIZONTAL);
    WidthOfFour(w, TOP_RIGHT, ' ', ' ', ' ');
    var head := [' ', ' ', TOP_LEFT, HORIZONTAL, ' '];
    assert head[..4] == [' ', ' ', TOP_LEFT, HORIZONTAL];
    WidthConcat(w, head, t);
    assert (head + t + [' '])[..|head + t|] == head + t;
    WidthConcat(w, head + t + [' '], dashes);
    WidthConcat(w, head + t + [' '] + dashes, [TOP_RIGHT]);
  }

  lemma ContentRowWidth(w: WidthTable, line: string, width: nat)
    requires width >= 10 && FrameIsNarrow(w) && w(' ') == 1
    ensures Width(w, ContentRow(w, line, width)) == width + SaturatingSub(Width(w, line), width - 5)
  {
    var pad := Repeat(' ', SaturatingSub(width - 5, Width(w, line)));
    WidthRepeat(w, ' ', SaturatingSub(width - 5, Width(w, line)));
    WidthOfFour(w, ' ', ' ', VERTICAL, ' ');
    WidthOfFour(w, VERTICAL, ' ', ' ', ' ');
    var head := [' ', ' ', VERTICAL, ' '];
    WidthConcat(w, head, line);
    WidthConcat(w, head + line, pad);
    WidthConcat(w, head + line + pad, [VERTICAL]);
  }

  lemma BottomRowWidth(w: WidthTable, width: nat)
    requires width >= 10 && FrameIsNarrow(w) && w(' ') == 1
    ensures Width(w, BottomRow(width)) == width
  {
    WidthRepeat(w, HORIZONTAL, width - 4);
    WidthOfFour(w, ' ', ' ', BOTTOM_LEFT, ' ');
    WidthOfFour(w, BOTTOM_RIGHT, ' ', ' ', ' ');
    WidthConcat(w, [' ', ' ', BOTTOM_LEFT], Repeat(HORIZONTAL, width - 4));
    WidthConcat(w, [' ', ' ', BOTTOM_LEFT] + Repeat(HORIZONTAL, width - 4), [BOTTOM_RIGHT]);
  }

  /** Both borders are exactly `width` columns for every title, and a content row is exactly `width`
      if and only if its wrapped line fits: it is wider by what the line exceeds its room. */
  lemma BoxWidths(w: WidthTable, title: string, content: string, width: nat)
    requires width >= 10 && FrameIsNarrow(w) && w(' ') == 1
    ensures var rows := BoxRows(w, title, content, width);
            var lines := Lines(Wrapped(w, content, width - 5, ""));
            && |rows| == |lines| + 2
            && Width(w, rows[0]) == width && Width(w, rows[|rows| - 1]) == width
            && forall i | 1 <= i <= |lines| :: Width(w, rows[i]) == width + SaturatingSub(Width(w, lines[i - 1]), width - 5)
  {
    FramedWidths(w, title, Lines(Wrapped(w, content, width - 5, "")), width);
  }

  lemma FramedWidths(w: WidthTable, title: string, lines: seq<string>, width: nat)
    requires width >= 10 && FrameIsNarrow(w) && w(' ') == 1
    ensures var rows := Framed(w, title, lines, width);
            && |rows| == |lines| + 2
            && Width(w, rows[0]) == width && Width(w, rows[|rows| - 1]) == width
            && forall i | 1 <= i <= |lines| :: Width(w, rows[i]) == width + SaturatingSub(Width(w, lines[i - 1]), width - 5)
  {
    TopRowWidth(w, title, width);
    BottomRowWidth(w, width);
    var rows := Framed(w, title, lines, width);
    forall i | 1 <= i <= |lines| ensures Width(w, rows[i]) == width + SaturatingSub(Width(w, lines[i - 1]), width - 5) {
      ContentRowWidth(w, lines[i - 1], width);
      assert rows[i] == ContentRow(w, lines[i - 1], width);
    }
  }

  predicate AllExactly(w: WidthTable, rows: seq<string>, width: nat) {
    rows == [] || (Width(w, rows[0]) == width && AllExactly(w, rows[1..], width))
  }

  lemma {:induction false} AllExactlyIff(w: WidthTable, rows: seq<string>, width: nat)
    ensures AllExactly(w, rows, width) <==> forall i | 0 <= i < |rows| :: Width(w, rows[i]) == width
  {
    if rows != [] {
      AllExactlyIff(w, rows[1..], width);
      assert forall i | 0 < i < |rows| :: rows[i] == rows[1..][i - 1];
    }
  }

  /** Every row of the box is exactly `width` columns, as promised, if and only if no line of the
      text overflows its room. */
  lemma BoxIsExactIff(w: WidthTable, title: string, content: string, width: nat)
    requires width >= 10 && FrameIsNarrow(w) && GlyphsUpTo(w, 2)
    ensures AllExactly(w, BoxRows(w, title, content, width), width) <==> !TextOverflows(w, Lines(content), false, width - 5)
  {
    assert w(' ') == 1 by { assert IsSeparator(' '); }
    BoxFollowsText(w, title, content, width);
    TextFitsIff(w, content, width - 5);
  }

  lemma BoxFollowsText(w: WidthTable, title: string, content: string, width: nat)
    requires width >= 10 && FrameIsNarrow(w) && w(' ') == 1
    ensures AllExactly(w, BoxRows(w, title, content, width), width) <==> AllWithin(w, Lines(Wrapped(w, content, width - 5, "")), width - 5)
  {
    FramedIsExactIff(w, title, Lines(Wrapped(w, content, width - 5, "")), width);
  }

  lemma FramedIsExactIff(w: WidthTable, title: string, lines: seq<string>, width: nat)
    requires width >= 10 && FrameIsNarrow(w) && w(' ') == 1
    ensures AllExactly(w, Framed(w, title, lines, width), width) <==> AllWithin(w, lines, width - 5)
  {
    FramedWidths(w, title, lines, width);
    RowsBetween(w, Framed(w, title, lines, width), lines, width);
  }

  lemma RowsBetween(w: WidthTable, rows: seq<string>, lines: seq<string>, width: nat)
    requires width >= 10 && |rows| == |lines| + 2
    requires Width(w, rows[0]) == width && Width(w, rows[|rows| - 1]) == width
    requires forall i | 1 <= i <= |lines| :: Width(w, rows[i]) == width + SaturatingSub(Width(w, lines[i - 1]), width - 5)
    ensures AllExactly(w, rows, width) <==> AllWithin(w, lines, width - 5)
  {
    AllExactlyIff(w, rows, width);
    if AllExactly(w, rows, width) {
      forall l | l in lines ensures Width(w, l) <= width - 5 {
        var i :| 0 <= i < |lines| && lines[i] == l;
        assert Width(w, rows[i + 1]) == width + SaturatingSub(Width(w, lines[i + 1 - 1]), width - 5);
      }
    }
    if AllWithin(w, lines, width - 5) {
      forall i | 0 <= i < |lines| ensures Width(w, lines[i]) <= width - 5 { assert lines[i] in lines; }
    }
  }

  // ---- each way of overflowing happens, in a box of any width

  /** Narrow glyphs without a meaning for wrapping or fences. */
  ghost predicate IsPlain(w: WidthTable, s: string) {
    forall i | 0 <= i < |s| :: w(s[i]) == 1 && !IsSeparator(s[i]) && !IsWhitespace(s[i]) && s[i] != '`'
  }

  lemma {:induction false} PlainWidth(w: WidthTable, s: string)
    requires IsPlain(w, s)
    ensures Width(w, s) == |s|
  {
    if s != [] { PlainWidth(w, s[..|s| - 1]); }
  }

  lemma OneLineText(s: string)
    requires s != [] && IsOneLine(s)
    ensures Lines(s) == [s]
  {
    NoNewline(s);
  }

  lemma {:induction false} FullRowMeetsSlash(w: WidthTable, s: string, room: nat, i: nat)
    requires i <= room < |s| && IsPlain(w, s[..room]) && IsHardSeparator(s[room]) && w(s[room]) == 1
    ensures ScanOverflows(w, s, room, i, Scan(0, i, NoBreak))
    decreases room - i
  {
    if i < room {
      assert s[..room][i] == s[i];
      FullRowMeetsSlash(w, s, room, i + 1);
    }
  }

  lemma SlashedIsProse(w: WidthTable, plain: string)
    requires IsPlain(w, plain) && plain != []
    ensures var s := plain + ['/']; IsOneLine(s) && !IsFence(s)
  {
    var s := plain + ['/'];
    assert s[|plain|] == '/' && TrimEnd(s) == s && s[0] == plain[0];
    forall i | 0 <= i < |s| ensures s[i] != '\n' { assert i < |plain| ==> s[i] == plain[i] && IsWhitespace('\n'); }
  }

  lemma SlashedWidth(w: WidthTable, plain: string)
    requires IsPlain(w, plain) && w('/') == 1
    ensures Width(w, plain + ['/']) == |plain| + 1
  {
    PlainWidth(w, plain);
    WidthConcat(w, plain, ['/']);
    WidthOne(w, '/');
  }

  /** A slash after a full row. */
  lemma SlashOverflows(w: WidthTable, plain: string)
    requires GlyphsUpTo(w, 2) && IsPlain(w, plain) && |plain| >= 5
    ensures LineOverflows(w, plain + ['/'], |plain|)
  {
    var s := plain + ['/'];
    assert w('/') == 1 by { assert IsSeparator('/'); }
    SlashedWidth(w, plain);
    assert s[..|plain|] == plain;
    FullRowMeetsSlash(w, s, |plain|, 0);
  }

  lemma {:induction false} CutLeavesWide(w: WidthTable, s: string, room: nat, i: nat)
    requires 1 <= i <= room && |s| == room + 1 && s[0] == ' ' && IsPlain(w, s[1..room])
    requires w(s[room]) == 2 && !IsSeparator(s[room]) && !IsWhitespace(s[room])
    ensures ScanOverflows(w, s, room, i, Scan(0, i, At(1, 1)))
    decreases room - i
  {
    if i < room {
      assert s[1..room][i - 1] == s[i];
      CutLeavesWide(w, s, room, i + 1);
    } else {
      assert IsOverfull(s, room, room + 1, Scan(1, room + 1, NoBreak));
    }
  }

  /** A space, plain glyphs, and a last one that is not trimmed: one line of prose. */
  lemma IndentedIsProse(w: WidthTable, plain: string, last: char)
    requires IsPlain(w, plain) && plain != [] && !IsWhitespace(last)
    ensures var s := [' '] + plain + [last]; IsOneLine(s) && !IsFence(s) && TrimEnd(s) == s
  {
    var s := [' '] + plain + [last];
    assert IsWhitespace(' ') && IsWhitespace('\n');
    assert s[1..][0] == plain[0] && TrimStart(s) == s[1..];
    forall c | c in s ensures c != '\n' { assert c == ' ' || c == last || c in plain; }
  }

  lemma IndentedWidth(w: WidthTable, plain: string, last: char)
    requires IsPlain(w, plain) && w(' ') == 1
    ensures Width(w, [' '] + plain + [last]) == 1 + |plain| + w(last)
  {
    PlainWidth(w, plain);
    WidthConcat(w, [' '], plain);
    WidthConcat(w, [' '] + plain, [last]);
    WidthOne(w, ' ');
    WidthOne(w, last);
  }

  lemma WidthOne(w: WidthTable, c: char)
    ensures Width(w, [c]) == w(c)
  {
    assert [c][..0] == [];
  }

  /** A wide glyph that the cut at the space leaves over the limit; no other separator occurs. */
  lemma WideGlyphOverflows(w: WidthTable, plain: string, wide: char)
    requires GlyphsUpTo(w, 2) && IsPlain(w, plain) && |plain| >= 4 && w(wide) == 2 && !IsWhitespace(wide)
    ensures LineOverflows(w, [' '] + plain + [wide], |plain| + 1)
  {
    IndentedIsProse(w, plain, wide);
    IndentedScan(w, plain, wide);
    assert w(' ') == 1 by { assert IsSeparator(' '); }
    IndentedWidth(w, plain, wide);
  }

  lemma IndentedScan(w: WidthTable, plain: string, wide: char)
    requires GlyphsUpTo(w, 2) && IsPlain(w, plain) && w(wide) == 2 && !IsWhitespace(wide)
    ensures ScanOverflows(w, [' '] + plain + [wide], |plain| + 1, 0, Scan(0, 0, NoBreak))
  {
    var s := [' '] + plain + [wide];
    var room := |plain| + 1;
    assert s[1..room] == plain && s[room] == wide && IsSeparator(' ');
    assert !IsSeparator(wide);
    CutLeavesWide(w, s, room, 1);
    assert Advance(w, s, room, 0, Scan(0, 0, NoBreak)) == Scan(0, 1, At(1, 1));
  }

  /** A line of code is not wrapped. */
  lemma CodeOverflows(w: WidthTable, fence: string, line: string, room: nat)
    requires IsFence(fence) && Width(w, line) > room
    ensures TextOverflows(w, [fence] + [line], false, room)
  {
    var lines := [fence] + [line];
    assert lines[0] == fence && lines[1..] == [line];
    assert TextOverflows(w, [line], true, room) by { assert [line][0] == line; }
  }

  lemma CrIsTrimmed(line: string)
    ensures IsFence(StripCr(line)) <==> IsFence(line)
  {
    assert IsWhitespace('\r');
    assert TrimEnd(StripCr(line)) == TrimEnd(line);
  }

  lemma OverflowShows(w: WidthTable, title: string, content: string, lines: seq<string>, width: nat)
    requires width >= 10 && FrameIsNarrow(w) && GlyphsUpTo(w, 2) && Lines(content) == lines
    ensures TextOverflows(w, lines, false, width - 5) ==> !AllExactly(w, BoxRows(w, title, content, width), width)
  {
    BoxIsExactIff(w, title, content, width);
  }

  lemma ProseOverflowShows(w: WidthTable, title: string, s: string, width: nat)
    requires width >= 10 && FrameIsNarrow(w) && GlyphsUpTo(w, 2)
    requires s != [] && IsOneLine(s) && !IsFence(s)
    ensures LineOverflows(w, s, width - 5) ==> !AllExactly(w, BoxRows(w, title, s, width), width)
  {
    OneLineText(s);
    OverflowShows(w, title, s, [s], width);
  }

  /** So in a box of every width there are texts that are not drawn as promised. */
  lemma SlashBoxOverflows(w: WidthTable, title: string, width: nat, plain: string, content: string)
    requires width >= 10 && FrameIsNarrow(w) && GlyphsUpTo(w, 2) && IsPlain(w, plain) && |plain| == width - 5
    requires content == plain + ['/']
    ensures !AllExactly(w, BoxRows(w, title, content, width), width)
  {
    assert IsOneLine(content) && !IsFence(content) && LineOverflows(w, content, width - 5) by {
      SlashedIsProse(w, plain);
      SlashOverflows(w, plain);
    }
    ProseOverflowShows(w, title, content, width);
  }

  lemma WideGlyphBoxOverflows(w: WidthTable, title: string, width: nat, plain: string, wide: char, content: string)
    requires width >= 10 && FrameIsNarrow(w) && GlyphsUpTo(w, 2) && IsPlain(w, plain) && |plain| == width - 6
    requires w(wide) == 2 && !IsWhitespace(wide) && content == [' '] + plain + [wide]
    ensures !AllExactly(w, BoxRows(w, title, content, width), width)
  {
    assert IsOneLine(content) && !IsFence(content) && LineOverflows(w, content, width - 5) by {
      IndentedIsProse(w, plain, wide);
      WideGlyphOverflows(w, plain, wide);
    }
    ProseOverflowShows(w, title, content, width);
  }

  lemma CodeBoxOverflows(w: WidthTable, title: string, width: nat, fence: string, line: string, content: string)
    requires width >= 10 && FrameIsNarrow(w) && GlyphsUpTo(w, 2)
    requires IsFence(fence) && IsOneLine(fence) && IsOneLine(line) && line != [] && Width(w, line) > width - 5
    requires content == fence + ['\n'] + line
    ensures !AllExactly(w, BoxRows(w, title, content, width), width)
  {
    var lines := [StripCr(fence)] + [line];
    assert Lines(content) == lines && TextOverflows(w, lines, false, width - 5) by {
      FenceAndLine(fence, line, content);
      CodeOverflows(w, StripCr(fence), line, width - 5);
    }
    OverflowShows(w, title, content, lines, width);
  }

  lemma FenceAndLine(fence: string, line: string, content: string)
    requires IsFence(fence) && IsOneLine(fence) && IsOneLine(line) && line != []
    requires content == fence + ['\n'] + line
    ensures Lines(content) == [StripCr(fence)] + [line] && IsFence(StripCr(fence))
  {
    assert content == fence + "\n" + line;
    LinesCons(fence, line);
    OneLineText(line);
    CrIsTrimmed(fence);
  }
}
