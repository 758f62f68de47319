/** What wrapped texts and framed boxes show (src/cli/text_utils.rs, lines 46-148), said by the text
    that goes in. */
module BoxContents {
  import opened Utf8
  import opened TextWrap
  import opened WrapBreaks
  import opened BoxDrawing

  // ---- wrap_text

  predicate HasFenceAt(line: string, n: nat) {
    n + 3 <= |line| && line[n..n + 3] == "```" && forall i: nat | i < n :: IsWhitespace(line[i])
  }

  /** Apart from whitespace the line starts with three backticks. */
  ghost predicate LooksLikeFence(line: string) { exists n: nat :: HasFenceAt(line, n) }

  lemma FenceIff(line: string)
    ensures IsFence(line) <==> LooksLikeFence(line)
  {
    var t := TrimEnd(line);
    var n := TrimStartDrops(t);
    if IsFence(line) {
      assert t[n..][..3] == line[n..n + 3];
      assert HasFenceAt(line, n);
    }
    if LooksLikeFence(line) {
      var m: nat :| HasFenceAt(line, m);
      FenceAt(line, m, n);
    }
  }

  lemma FenceAt(line: string, m: nat, n: nat)
    requires HasFenceAt(line, m)
    requires n <= |TrimEnd(line)| && TrimStart(TrimEnd(line)) == TrimEnd(line)[n..]
    requires n < |TrimEnd(line)| ==> !IsWhitespace(TrimEnd(line)[n])
    requires forall i | 0 <= i < n :: IsWhitespace(TrimEnd(line)[i])
    ensures IsFence(line)
  {
    var t := TrimEnd(line);
    FenceStays(line, m);
    assert t[m] == t[m..m + 3][0];
    assert n == m;
    assert t[n..][..3] == t[n..n + 3];
  }

  lemma FenceStays(line: string, m: nat)
    requires HasFenceAt(line, m)
    ensures var t := TrimEnd(line); |t| >= m + 3 && t[m..m + 3] == "```"
  {
    assert line[m + 2] == line[m..m + 3][2];
    assert line[m..m + 3] == line[..|TrimEnd(line)|][m..m + 3];
  }

  ghost function Fences(lines: seq<string>): nat {
    if lines == [] then 0 else Fences(lines[..|lines| - 1]) + if LooksLikeFence(lines[|lines| - 1]) then 1 else 0
  }

  /** A line is kept as it is if it is a fence or an odd number of fences stands before it. */
  ghost predicate IsKept(lines: seq<string>, i: nat)
    requires i < |lines|
  {
    LooksLikeFence(lines[i]) || Fences(lines[..i]) % 2 == 1
  }

  ghost function Block(w: WidthTable, lines: seq<string>, n: nat, width: nat, indent: string): seq<string>
    requires n < |lines|
  {
    if IsKept(lines, n) then [indent + lines[n]] else LineRows(w, lines[n], width, indent)
  }

  /** The first `n` lines, each kept with its indent or wrapped. */
  ghost function Blocks(w: WidthTable, lines: seq<string>, n: nat, width: nat, indent: string): seq<string>
    requires n <= |lines|
  {
    if n == 0 then [] else
    Blocks(w, lines, n - 1, width, indent) + Block(w, lines, n - 1, width, indent)
  }

  lemma FencesPush(lines: seq<string>, n: nat)
    requires n < |lines|
    ensures Fences(lines[..n + 1]) == Fences(lines[..n]) + if LooksLikeFence(lines[n]) then 1 else 0
  {
    assert lines[..n + 1][..n] == lines[..n];
  }

  /** What is left of the text when `n` lines are done. */
  ghost function Rest(w: WidthTable, lines: seq<string>, n: nat, width: nat, indent: string): seq<string>
    requires n <= |lines|
  {
    TextRows(w, lines[n..], Fences(lines[..n]) % 2 == 1, width, indent)
  }

  lemma {:induction false} RowsFrom(w: WidthTable, lines: seq<string>, n: nat, width: nat, indent: string)
    requires n <= |lines|
    ensures Blocks(w, lines, n, width, indent) + Rest(w, lines, n, width, indent) == Blocks(w, lines, |lines|, width, indent)
    decreases |lines| - n
  {
    var done := Blocks(w, lines, n, width, indent);
    if n == |lines| {
      NothingLeft(w, lines, width, indent);
    } else {
      var here, rest := Block(w, lines, n, width, indent), Rest(w, lines, n + 1, width, indent);
      FirstRows(w, lines, n, width, indent);
      RowsFrom(w, lines, n + 1, width, indent);
      BlocksPush(w, lines, n, width, indent);
      Reassociate(done, here, rest);
    }
  }

  lemma NothingLeft(w: WidthTable, lines: seq<string>, width: nat, indent: string)
    ensures var all := Blocks(w, lines, |lines|, width, indent); all + Rest(w, lines, |lines|, width, indent) == all
  {
    assert lines[|lines|..] == [] && Rest(w, lines, |lines|, width, indent) == [];
  }

  lemma BlocksPush(w: WidthTable, lines: seq<string>, n: nat, width: nat, indent: string)
    requires n < |lines|
    ensures Blocks(w, lines, n + 1, width, indent) == Blocks(w, lines, n, width, indent) + Block(w, lines, n, width, indent)
  {
  }

  lemma FirstRows(w: WidthTable, lines: seq<string>, n: nat, width: nat, indent: string)
    requires n < |lines|
    ensures Rest(w, lines, n, width, indent) == Block(w, lines, n, width, indent) + Rest(w, lines, n + 1, width, indent)
  {
    var inCode := Fences(lines[..n]) % 2 == 1;
    NextInCode(lines, n);
    TextRowsCons(w, lines[n..], inCode, width, indent);
    assert lines[n..][0] == lines[n] && lines[n..][1..] == lines[n + 1..];
  }

  lemma NextInCode(lines: seq<string>, n: nat)
    requires n < |lines|
    ensures var inCode := Fences(lines[..n]) % 2 == 1;
            && (Fences(lines[..n + 1]) % 2 == 1) == (if IsFence(lines[n]) then !inCode else inCode)
            && IsKept(lines, n) == (IsFence(lines[n]) || inCode)
  {
    FencesPush(lines, n);
    FenceIff(lines[n]);
  }

  lemma TextRowsCons(w: WidthTable, lines: seq<string>, inCode: bool, width: nat, indent: string)
    requires lines != []
    ensures TextRows(w, lines, inCode, width, indent) ==
            (if IsFence(lines[0]) || inCode then [indent + lines[0]] else LineRows(w, lines[0], width, indent)) +
            TextRows(w, lines[1..], if IsFence(lines[0]) then !inCode else inCode, width, indent)
  {
  }

  /** The rows of a text: fences and what stands between an odd one and the next are kept, everything
      else is wrapped, in order. */
  lemma TextIsBlocks(w: WidthTable, lines: seq<string>, width: nat, indent: string)
    ensures TextRows(w, lines, false, width, indent) == Blocks(w, lines, |lines|, width, indent)
  {
    RowsFrom(w, lines, 0, width, indent);
    assert lines[0..] == lines && lines[..0] == [];
    var rows := TextRows(w, lines, false, width, indent);
    assert [] + rows == rows;
  }

  /** What the wrapped text is, line by line: those rows, but for a blank last one and carriage
      returns before a newline. */
  lemma WrappedShows(w: WidthTable, text: string, width: nat)
    requires width > 0
    ensures var lines := Lines(text); Lines(Wrapped(w, text, width, "")) == Relined(Blocks(w, lines, |lines|, width, ""))
  {
    TextIsBlocks(w, Lines(text), width, "");
    LinesAreParts(text);
    RowsAreOneLine(w, Lines(text), false, width);
    LinesOfRows(TextRows(w, Lines(text), false, width, ""));
  }

  // ---- draw_box

  /** `c` over and over. */
  ghost predicate IsRun(c: char, s: string) { forall i | 0 <= i < |s| :: s[i] == c }

  /** The longest prefix of the title that leaves room for the frame. */
  ghost predicate IsTruncated(w: WidthTable, title: string, t: string, room: nat) {
    t <= title && Width(w, t) <= room && (|t| < |title| ==> Width(w, title[..|t| + 1]) > room)
  }

  lemma {:induction false} TruncateIsLongest(w: WidthTable, text: string, room: nat)
    ensures IsTruncated(w, text, Truncate(w, text, room), room)
  {
    if Width(w, text) > room {
      var t := text[..|text| - 1];
      TruncateIsLongest(w, t, room);
      var r := Truncate(w, text, room);
      if |r| < |t| {
        assert t[..|r| + 1] == text[..|r| + 1];
      } else {
        assert r == t && text[..|r| + 1] == text;
      }
    }
  }

  ghost predicate IsTop(w: WidthTable, row: string, title: string, width: nat) {
    exists t: string, dashes: string ::
      IsTruncated(w, title, t, SaturatingSub(width, 7)) && IsRun('\U{2500}', dashes) && row == "  \U{256D}\U{2500} " + t + " " + dashes + "\U{256E}"
  }

  ghost predicate IsContent(row: string, line: string) {
    exists blanks: string :: IsRun(' ', blanks) && row == "  \U{2502} " + line + blanks + "\U{2502}"
  }

  ghost predicate IsBottom(row: string) {
    exists dashes: string :: IsRun('\U{2500}', dashes) && row == "  \U{2570}" + dashes + "\U{256F}"
  }

  lemma TopShows(w: WidthTable, title: string, width: nat)
    requires width >= 10
    ensures IsTop(w, TopRow(w, title, width), title, width)
  {
    var t := Truncate(w, title, width - 7);
    TruncateIsLongest(w, title, width - 7);
    var dashes := Repeat(HORIZONTAL, width - Width(w, t) - 7);
    assert IsRun('\U{2500}', dashes);
    assert TopRow(w, title, width) == "  \U{256D}\U{2500} " + t + " " + dashes + "\U{256E}";
  }

  lemma ContentShows(w: WidthTable, line: string, width: nat)
    requires width >= 10
    ensures IsContent(ContentRow(w, line, width), line)
  {
    var blanks := Repeat(' ', SaturatingSub(width - 5, Width(w, line)));
    assert IsRun(' ', blanks);
    assert ContentRow(w, line, width) == "  \U{2502} " + line + blanks + "\U{2502}";
  }

  lemma BottomShows(width: nat)
    requires width >= 10
    ensures IsBottom(BottomRow(width))
  {
    var dashes := Repeat(HORIZONTAL, width - 4);
    assert IsRun('\U{2500}', dashes);
    assert BottomRow(width) == "  \U{2570}" + dashes + "\U{256F}";
  }

  /** A box shows its title, cut to its room, in the top border, then one framed row for each line of
      the wrapped text, holding that line, and the bottom border. */
  lemma BoxShows(w: WidthTable, title: string, content: string, width: nat) returns (lines: seq<string>)
    requires width >= 10
    ensures lines == Relined(Blocks(w, Lines(content), |Lines(content)|, width - 5, ""))
    ensures var rows := BoxRows(w, title, content, width);
            && |rows| == |lines| + 2
            && IsTop(w, rows[0], title, width) && IsBottom(rows[|rows| - 1])
            && forall i | 0 <= i < |lines| :: IsContent(rows[i + 1], lines[i])
  {
    WrappedShows(w, content, width - 5);
    lines := Lines(Wrapped(w, content, width - 5, ""));
    FramedShows(w, title, lines, width);
  }

  lemma FramedShows(w: WidthTable, title: string, lines: seq<string>, width: nat)
    requires width >= 10
    ensures var rows := Framed(w, title, lines, width);
            && |rows| == |lines| + 2
            && IsTop(w, rows[0], title, width) && IsBottom(rows[|rows| - 1])
            && forall i | 0 <= i < |lines| :: IsContent(rows[i + 1], lines[i])
  {
    TopShows(w, title, width);
    BottomShows(width);
    forall i | 0 <= i < |lines| ensures IsContent(Framed(w, title, lines, width)[i + 1], lines[i]) {
      ContentShows(w, lines[i], width);
    }
  }
}
