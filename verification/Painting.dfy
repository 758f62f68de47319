/** What the two highlighters of src/cli/syntax_highlight.rs look like on a terminal: which glyph is
    drawn in which style. */
module Painting {
  import opened Utf8
  import opened Highlight
  import opened LexicalHighlight

  datatype Glyph<T> = Glyph(glyph: T, style: Option<TokenStyle>)

  /** The style that the codes printed so far have left in force. */
  function StyleAfter<T>(pieces: seq<Piece<T>>): Option<TokenStyle> {
    if pieces == [] then None else
    match pieces[|pieces| - 1]
    case Begin(style) => Some(style)
    case Reset => None
    case Source(_) => StyleAfter(pieces[..|pieces| - 1])
  }

  function Paint<T>(text: seq<T>, style: Option<TokenStyle>): (r: seq<Glyph<T>>)
    ensures |r| == |text| && forall i | 0 <= i < |r| :: r[i] == Glyph(text[i], style)
  {
    seq(|text|, i requires 0 <= i < |text| => Glyph(text[i], style))
  }

  /** Every glyph that is drawn, in the style in force at that point. */
  function Painted<T>(pieces: seq<Piece<T>>): seq<Glyph<T>> {
    if pieces == [] then [] else
    var init, last := pieces[..|pieces| - 1], pieces[|pieces| - 1];
    Painted(init) + if last.Source? then Paint(last.text, StyleAfter(init)) else []
  }

  lemma {:induction false} PaintedConcat<T>(a: seq<Piece<T>>, b: seq<Piece<T>>)
    requires StyleAfter(a) == None
    ensures Painted(a + b) == Painted(a) + Painted(b) && StyleAfter(a + b) == StyleAfter(b)
  {
    if b == [] {
      assert a + b == a && Painted(a) + [] == Painted(a);
    } else {
      var init, last := b[..|b| - 1], b[|b| - 1];
      assert (a + b)[..|a + b| - 1] == a + init;
      PaintedConcat(a, init);
      var drawn := if last.Source? then Paint(last.text, StyleAfter(init)) else [];
      assert Painted(a) + (Painted(init) + drawn) == Painted(a) + Painted(init) + drawn;
    }
  }

  lemma PaintedSource<T>(text: seq<T>)
    ensures Painted([Source(text)]) == Paint(text, None) && StyleAfter([Source(text)]) == None
  {
    assert [Source(text)][..0] == [];
    assert Painted([Source(text)]) == [] + Paint(text, None);
  }

  lemma PaintedStyled<T>(text: seq<T>, style: TokenStyle)
    ensures Painted(Styled(text, style)) == Paint(text, Some(style)) && StyleAfter(Styled(text, style)) == None
  {
    var p := Styled(text, style);
    var one: seq<Piece<T>> := [Begin(style)];
    assert p[..2] == one + [Source(text)] && p[..2][..1] == one && one[..0] == [];
    assert Painted(one) == [];
    assert Painted(p[..2]) == [] + Paint(text, Some(style)) == Paint(text, Some(style));
    assert Painted(p) == Painted(p[..2]) + [];
  }

  // ---- render_highlights

  predicate Covers(s: Span, i: nat) { s.start <= i < s.end }

  /** An octet in an emitted span is drawn in the style of that span, any other one in none. */
  ghost predicate IsStyled(chosen: seq<Span>, i: nat, style: Option<TokenStyle>) {
    && (forall s | s in chosen && Covers(s, i) :: style == Some(s.style))
    && (CoversNothing(chosen, i) ==> style == None)
  }

  ghost predicate CoversNothing(chosen: seq<Span>, i: nat) { forall s | s in chosen :: !Covers(s, i) }

  ghost predicate IsDrawn(code: Bytes, chosen: seq<Span>, glyphs: seq<Glyph<byte>>) {
    |glyphs| <= |code| && forall i: nat | i < |glyphs| :: glyphs[i].glyph == code[i] && IsStyled(chosen, i, glyphs[i].style)
  }

  lemma PaintedGap(code: Bytes, before: seq<Piece<byte>>, cursor: nat, s: Span)
    requires cursor <= s.start <= s.end <= |code| && StyleAfter(before) == None
    ensures var after := before + [Source(code[cursor..s.start])] + Styled(code[s.start..s.end], s.style);
            && Painted(after) == Painted(before) + Paint(code[cursor..s.start], None) + Paint(code[s.start..s.end], Some(s.style))
            && StyleAfter(after) == None
  {
    var gap, body := code[cursor..s.start], code[s.start..s.end];
    PaintedSource(gap);
    PaintedConcat(before, [Source(gap)]);
    PaintedStyled(body, s.style);
    PaintedConcat(before + [Source(gap)], Styled(body, s.style));
  }

  lemma DrawnPush(code: Bytes, init: seq<Span>, s: Span, chosen: seq<Span>, glyphs: seq<Glyph<byte>>)
    requires WellPlaced(code, init) && IsDrawn(code, init, glyphs) && |glyphs| == CursorAfter(init)
    requires CursorAfter(init) <= s.start < s.end <= |code| && Adds(chosen, init, s)
    ensures var all := glyphs + Paint(code[|glyphs|..s.start], None) + Paint(code[s.start..s.end], Some(s.style));
            |all| == s.end && IsDrawn(code, chosen, all)
  {
    DrawnBefore(code, init, s, chosen, glyphs);
    StyledAfter(code, init, s, chosen);
    DrawOn(code, chosen, glyphs, s.start, None);
    DrawOn(code, chosen, glyphs + Paint(code[|glyphs|..s.start], None), s.end, Some(s.style));
  }

  ghost predicate AllStyled(chosen: seq<Span>, start: nat, end: nat, style: Option<TokenStyle>) {
    forall i: nat | start <= i < end :: IsStyled(chosen, i, style)
  }

  ghost predicate Adds(chosen: seq<Span>, init: seq<Span>, s: Span) { forall t :: t in chosen <==> t in init || t == s }

  lemma DrawnBefore(code: Bytes, init: seq<Span>, s: Span, chosen: seq<Span>, glyphs: seq<Glyph<byte>>)
    requires IsDrawn(code, init, glyphs) && |glyphs| <= s.start && Adds(chosen, init, s)
    ensures IsDrawn(code, chosen, glyphs)
  {
  }

  lemma DrawOn(code: Bytes, chosen: seq<Span>, glyphs: seq<Glyph<byte>>, end: nat, style: Option<TokenStyle>)
    requires IsDrawn(code, chosen, glyphs) && |glyphs| <= end <= |code|
    requires AllStyled(chosen, |glyphs|, end, style)
    ensures var all := glyphs + Paint(code[|glyphs|..end], style); |all| == end && IsDrawn(code, chosen, all)
  {
    var all := glyphs + Paint(code[|glyphs|..end], style);
    forall i: nat | i < |all| ensures all[i].glyph == code[i] && IsStyled(chosen, i, all[i].style) {
      if i < |glyphs| { assert all[i] == glyphs[i]; }
    }
  }

  lemma StyledAfter(code: Bytes, init: seq<Span>, s: Span, chosen: seq<Span>)
    requires WellPlaced(code, init) && Adds(chosen, init, s)
    ensures AllStyled(chosen, CursorAfter(init), s.start, None)
    ensures CursorAfter(init) <= s.start ==> AllStyled(chosen, s.start, s.end, Some(s.style))
  {
    assert s in chosen;
    forall i: nat | i >= CursorAfter(init) ensures CoversNothing(init, i) { PastAll(code, init, i); }
  }

  lemma AddsLast(init: seq<Span>, s: Span)
    ensures Adds(init + [s], init, s)
  {
    assert (init + [s])[|init|] == s;
  }

  lemma PastAll(code: Bytes, chosen: seq<Span>, i: nat)
    requires WellPlaced(code, chosen) && i >= CursorAfter(chosen)
    ensures CoversNothing(chosen, i)
  {
    forall t | t in chosen ensures t.end <= i {
      var j :| 0 <= j < |chosen| && chosen[j] == t;
      assert j == |chosen| - 1 || chosen[j].end <= chosen[|chosen| - 1].start;
    }
  }

  lemma {:induction false} RenderedIsDrawn(code: Bytes, chosen: seq<Span>)
    requires WellPlaced(code, chosen)
    ensures var glyphs := Painted(Rendered(code, chosen));
            |glyphs| == CursorAfter(chosen) <= |code| && IsDrawn(code, chosen, glyphs)
    ensures StyleAfter(Rendered(code, chosen)) == None
  {
    if chosen != [] {
      var init, last := chosen[..|chosen| - 1], chosen[|chosen| - 1];
      assert chosen == init + [last];
      RenderedIsDrawn(code, init);
      assert CursorAfter(init) <= last.start;
      PaintedGap(code, Rendered(code, init), CursorAfter(init), last);
      AddsLast(init, last);
      DrawnPush(code, init, last, chosen, Painted(Rendered(code, init)));
    }
  }

  /** The whole code is drawn once, each octet of an emitted span in that span's style and everything
      else in none, and no style is left in force. */
  lemma HighlightsAreDrawn(code: Bytes, chosen: seq<Span>)
    requires WellPlaced(code, chosen)
    ensures CursorAfter(chosen) <= |code|
    ensures var pieces := Rendered(code, chosen) + [Source(code[CursorAfter(chosen)..])];
            |Painted(pieces)| == |code| && IsDrawn(code, chosen, Painted(pieces)) && StyleAfter(pieces) == None
  {
    RenderedIsDrawn(code, chosen);
    var glyphs, rest := Painted(Rendered(code, chosen)), code[CursorAfter(chosen)..];
    PaintedSource(rest);
    PaintedConcat(Rendered(code, chosen), [Source(rest)]);
    PlainEnd(code, chosen, glyphs);
  }

  lemma PlainEnd(code: Bytes, chosen: seq<Span>, glyphs: seq<Glyph<byte>>)
    requires WellPlaced(code, chosen) && IsDrawn(code, chosen, glyphs) && |glyphs| == CursorAfter(chosen)
    ensures IsDrawn(code, chosen, glyphs + Paint(code[|glyphs|..], None))
  {
    forall i: nat | i >= |glyphs| ensures IsStyled(chosen, i, None) { PastAll(code, chosen, i); }
    assert AllStyled(chosen, |glyphs|, |code|, None);
    assert code[|glyphs|..] == code[|glyphs|..|code|];
    DrawOn(code, chosen, glyphs, |code|, None);
  }

  // ---- the lexical highlighter: what its tokens are

  /** In the string that starts at `start`, the character at `j` follows a backslash that is not
      itself escaped. */
  predicate IsEscaped(code: string, start: nat, j: nat)
    requires j <= |code|
  {
    j > start + 1 && code[j - 1] == '\\' && !IsEscaped(code, start, j - 1)
  }

  predicate Closes(code: string, start: nat, j: nat)
    requires start < |code|
  {
    start < j < |code| && code[j] == code[start] && !IsEscaped(code, start, j)
  }

  /** The string ends with the first quote like its own that is not escaped, or with the code. */
  predicate IsString(code: string, start: nat, end: nat) {
    && start < end <= |code| && (code[start] == '"' || code[start] == '\'' || code[start] == '`')
    && (forall j: nat | j < end - 1 :: !Closes(code, start, j))
    && (Closes(code, start, end - 1) || end == |code|)
  }

  /** A comment runs from a hash or two slashes up to the newline, or to the end of the code. */
  predicate IsComment(code: string, start: nat, end: nat) {
    && start < end <= |code| && (code[start] == '#' || (start + 1 < |code| && code[start] == '/' && code[start + 1] == '/'))
    && (forall j | start <= j < end :: code[j] != '\n') && (end < |code| ==> code[end] == '\n')
  }

  predicate IsNumber(code: string, start: nat, end: nat) {
    && start < end <= |code| && '0' <= code[start] <= '9'
    && (forall j | start <= j < end :: '0' <= code[j] <= '9' || code[j] in {'.', '_'})
    && (end < |code| ==> !('0' <= code[end] <= '9' || code[end] in {'.', '_'}))
  }

  predicate IsLetter(c: char) { 'a' <= c <= 'z' || 'A' <= c <= 'Z' || c == '_' }

  predicate IsWord(code: string, start: nat, end: nat) {
    && start < end <= |code| && IsLetter(code[start])
    && (forall j | start <= j < end :: IsLetter(code[j]) || '0' <= code[j] <= '9')
    && (end < |code| ==> !(IsLetter(code[end]) || '0' <= code[end] <= '9'))
  }

  /** Apart from whitespace, an opening parenthesis follows. */
  ghost predicate IsCalled(code: string, end: nat) {
    exists j: nat :: end <= j < |code| && code[j] == '(' && forall k: nat | end <= k < j :: IsWhitespace(code[k])
  }

  /** A keyword, else a word that is called, else one with a capital or the name of a basic type. */
  ghost predicate IsWordStyle(code: string, start: nat, end: nat, style: Option<TokenStyle>)
    requires start < end <= |code|
  {
    var word := code[start..end];
    match style
    case Some(Keyword) => word in KEYWORDS
    case Some(Function) => word !in KEYWORDS && IsCalled(code, end)
    case Some(Type) => word !in KEYWORDS && !IsCalled(code, end) && ('A' <= code[start] <= 'Z' || word in TYPE_WORDS)
    case None => word !in KEYWORDS && !IsCalled(code, end) && !('A' <= code[start] <= 'Z') && word !in TYPE_WORDS
    case _ => false
  }

  /** The token at `start` ends before `end` and is drawn in this style. */
  ghost predicate IsToken(code: string, start: nat, end: nat, style: Option<TokenStyle>) {
    && start < end <= |code|
    && match style
       case Some(String) => IsString(code, start, end)
       case Some(Comment) => IsComment(code, start, end)
       case Some(Number) => IsNumber(code, start, end)
       case _ =>
         || (IsWord(code, start, end) && IsWordStyle(code, start, end, style))
         || (style == None && end == start + 1 && IsOther(code, start))
  }

  /** No string, comment, number or word starts here. */
  predicate IsOther(code: string, i: nat) {
    && i < |code| && code[i] !in {'"', '\'', '`', '#'} && !('0' <= code[i] <= '9') && !IsLetter(code[i])
    && !(code[i] == '/' && i + 1 < |code| && code[i + 1] == '/')
  }

  /** The glyphs are the tokens from `pos` on, one after the other, each in its style; only after a
      comment of more than one character that runs into the end of the code, drawing goes on with its
      second character. */
  ghost predicate DrawsTokens(code: string, pos: nat, glyphs: seq<Glyph<char>>)
    requires pos <= |code|
    decreases |code| - pos
  {
    if pos == |code| then glyphs == []
    else exists end: nat, style: Option<TokenStyle>, rest: seq<Glyph<char>> :: DrawsToken(code, pos, end, style, rest, glyphs)
  }

  ghost predicate DrawsToken(code: string, pos: nat, end: nat, style: Option<TokenStyle>, rest: seq<Glyph<char>>, glyphs: seq<Glyph<char>>)
    requires pos < |code|
    decreases |code| - pos, 0
  {
    && IsToken(code, pos, end, style) && glyphs == Paint(code[pos..end], style) + rest
    && DrawsTokens(code, if style == Some(Comment) && end == |code| then pos + 1 else end, rest)
  }

  lemma {:induction false} StringEndIs(code: string, start: nat, j: nat)
    requires start < j <= |code| && (code[start] == '"' || code[start] == '\'' || code[start] == '`')
    ensures var e := StringEnd(code, j, code[start], IsEscaped(code, start, j));
            && (forall i: nat | j <= i < e - 1 :: !Closes(code, start, i))
            && ((e > j && Closes(code, start, e - 1)) || e == |code|)
    decreases |code| - j
  {
    if j < |code| && !(code[j] == code[start] && !IsEscaped(code, start, j)) {
      StringEndIs(code, start, j + 1);
      assert !Closes(code, start, j);
    }
  }

  lemma StringIs(code: string, start: nat)
    requires start < |code| && IsQuote(code[start])
    ensures IsString(code, start, StringEnd(code, start + 1, code[start], false))
  {
    assert !IsEscaped(code, start, start + 1);
    StringEndIs(code, start, start + 1);
  }

  lemma WordStyleIs(code: string, start: nat, end: nat)
    requires start < end <= |code|
    ensures IsWordStyle(code, start, end, WordStyle(code, start, end))
  {
    CalledIff(code, end);
    assert code[start..end][0] == code[start];
  }

  lemma CalledIff(code: string, end: nat)
    requires end <= |code|
    ensures StartsCall(code, end) <==> IsCalled(code, end)
  {
    var e := RunEnd(code, end, IsWhitespace);
    assert !IsWhitespace('(');
  }

  /** What is drawn between tokens: the newline after a comment. */
  function NewlineAfter(code: string, end: nat, style: Option<TokenStyle>): seq<Glyph<char>> {
    if style == Some(Comment) && end < |code| then Paint("\n", None) else []
  }

  /** What one turn of the highlighter draws. */
  lemma TokenDraws(code: string, pos: nat) returns (end: nat, style: Option<TokenStyle>)
    requires pos < |code|
    ensures IsToken(code, pos, end, style) && StyleAfter(Token(code, pos).0) == None
    ensures Painted(Token(code, pos).0) == Paint(code[pos..end], style) + NewlineAfter(code, end, style)
    ensures Token(code, pos).1 ==
            if style == Some(Comment) then (if end < |code| then end + 1 else pos + 1) else end
  {
    var c := code[pos];
    if !IsQuote(c) && StartsComment(code, pos) {
      end, style := LineEnd(code, pos), Some(Comment);
      CommentDraws(code, pos, end);
    } else {
      end := Token(code, pos).1;
      style := PlainDraws(code, pos);
      assert Paint(code[pos..end], style) + [] == Paint(code[pos..end], style);
    }
  }

  lemma CommentDraws(code: string, pos: nat, end: nat)
    requires pos < |code| && !IsQuote(code[pos]) && StartsComment(code, pos) && end == LineEnd(code, pos)
    ensures IsToken(code, pos, end, Some(Comment)) && StyleAfter(Token(code, pos).0) == None
    ensures Painted(Token(code, pos).0) == Paint(code[pos..end], Some(Comment)) + NewlineAfter(code, end, Some(Comment))
  {
    var text := code[pos..end];
    PaintedStyled(text, Comment);
    if end < |code| {
      PaintedSource("\n");
      PaintedConcat(Styled(text, Comment), [Source("\n")]);
    } else {
      assert Paint(text, Some(Comment)) + [] == Paint(text, Some(Comment));
    }
  }

  lemma PlainDraws(code: string, pos: nat) returns (style: Option<TokenStyle>)
    requires pos < |code| && (IsQuote(code[pos]) || !StartsComment(code, pos))
    ensures IsToken(code, pos, Token(code, pos).1, style) && style != Some(Comment) && StyleAfter(Token(code, pos).0) == None
    ensures Painted(Token(code, pos).0) == Paint(code[pos..Token(code, pos).1], style)
  {
    var c, end := code[pos], Token(code, pos).1;
    if IsQuote(c) {
      style := Some(String);
      StringIs(code, pos);
      PaintedStyled(code[pos..end], String);
    } else if IsDigit(c) {
      style := Some(Number);
      PaintedStyled(code[pos..end], Number);
    } else if IsWordStart(c) {
      style := WordDraws(code, pos);
    } else {
      style := None;
      assert code[pos..pos + 1] == [c];
      PaintedSource([c]);
    }
  }

  lemma WordIsToken(code: string, pos: nat, end: nat)
    requires pos < |code| && IsWordStart(code[pos]) && end == RunEnd(code, pos + 1, IsWordChar)
    ensures IsToken(code, pos, end, WordStyle(code, pos, end)) && WordStyle(code, pos, end) != Some(Comment)
  {
    WordStyleIs(code, pos, end);
    assert IsWord(code, pos, end);
  }

  lemma WordDraws(code: string, pos: nat) returns (style: Option<TokenStyle>)
    requires pos < |code| && IsWordStart(code[pos])
    ensures IsToken(code, pos, Token(code, pos).1, style) && style != Some(Comment) && StyleAfter(Token(code, pos).0) == None
    ensures Painted(Token(code, pos).0) == Paint(code[pos..Token(code, pos).1], style)
  {
    var end := RunEnd(code, pos + 1, IsWordChar);
    style := WordStyle(code, pos, end);
    WordIsToken(code, pos, end);
    if style.Some? { PaintedStyled(code[pos..end], style.value); } else { PaintedSource(code[pos..end]); }
  }

  /** The output draws the tokens of the code in their styles, and leaves no style in force. */
  lemma {:induction false} HighlightedDraws(code: string, pos: nat)
    requires pos <= |code|
    ensures DrawsTokens(code, pos, Painted(Highlighted(code, pos))) && StyleAfter(Highlighted(code, pos)) == None
    decreases |code| - pos
  {
    if pos < |code| {
      var (pieces, next) := Token(code, pos);
      var rest := Highlighted(code, next);
      var end, style := TokenDraws(code, pos);
      HighlightedDraws(code, next);
      PaintedConcat(pieces, rest);
      DrawFirst(code, pos, end, style, Painted(rest));
    }
  }

  lemma DrawFirst(code: string, pos: nat, end: nat, style: Option<TokenStyle>, rest: seq<Glyph<char>>)
    requires pos < |code| && IsToken(code, pos, end, style)
    requires DrawsTokens(code, if style == Some(Comment) then (if end < |code| then end + 1 else pos + 1) else end, rest)
    ensures DrawsTokens(code, pos, Paint(code[pos..end], style) + NewlineAfter(code, end, style) + rest)
  {
    var glyphs := Paint(code[pos..end], style) + NewlineAfter(code, end, style) + rest;
    if style == Some(Comment) && end < |code| {
      var below := Paint("\n", None) + rest;
      assert code[end..end + 1] == "\n";
      assert DrawsToken(code, end, end + 1, None, rest, below);
      assert glyphs == Paint(code[pos..end], style) + below;
      assert DrawsToken(code, pos, end, style, below, glyphs);
    } else {
      assert glyphs == Paint(code[pos..end], style) + rest;
      assert DrawsToken(code, pos, end, style, rest, glyphs);
    }
  }

  /** There is one way to read a token. */
  lemma TokenUnique(code: string, start: nat, end: nat, style: Option<TokenStyle>, end': nat, style': Option<TokenStyle>)
    requires IsToken(code, start, end, style) && IsToken(code, start, end', style')
    ensures end == end' && style == style'
  {
  }

  /** So what is drawn is determined by the code. */
  lemma {:induction false} DrawsUnique(code: string, pos: nat, a: seq<Glyph<char>>, b: seq<Glyph<char>>)
    requires pos <= |code| && DrawsTokens(code, pos, a) && DrawsTokens(code, pos, b)
    ensures a == b
    decreases |code| - pos
  {
    if pos < |code| {
      var end, style, rest :| DrawsToken(code, pos, end, style, rest, a);
      var end', style', rest' :| DrawsToken(code, pos, end', style', rest', b);
      TokenUnique(code, pos, end, style, end', style');
      DrawsUnique(code, if style == Some(Comment) && end == |code| then pos + 1 else end, rest, rest');
    }
  }
}
