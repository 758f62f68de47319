/** The lexical fallback highlighter (src/cli/syntax_highlight.rs), which works on characters. */
module LexicalHighlight {
  import opened Utf8
  import opened Highlight

  const KEYWORDS: set<string> := {
    "as", "async", "await", "break", "case", "class", "const", "continue", "defer", "def", "default", "else",
    "enum", "export", "extends", "false", "fn", "for", "from", "func", "function", "go", "if", "impl", "import",
    "in", "interface", "let", "match", "mod", "mut", "package", "pub", "range", "return", "self", "struct",
    "switch", "trait", "true", "type", "use", "var", "where", "while", "yield" }

  const TYPE_WORDS: set<string> := {"str", "string", "int", "bool", "usize", "i32", "u64"}

  predicate IsQuote(c: char) { c == '"' || c == '\'' || c == '`' }
  predicate IsDigit(c: char) { '0' <= c <= '9' }
  predicate IsUpper(c: char) { 'A' <= c <= 'Z' }
  predicate IsWordStart(c: char) { c == '_' || 'a' <= c <= 'z' || IsUpper(c) }
  predicate IsWordChar(c: char) { IsWordStart(c) || IsDigit(c) }
  predicate IsNumberChar(c: char) { IsDigit(c) || c == '.' || c == '_' }

  // ---- where tokens end

  /** After the closing quote, or at the end of the code. */
  function StringEnd(code: string, pos: nat, quote: char, escaped: bool): (e: nat)
    requires pos <= |code|
    ensures pos <= e <= |code|
    decreases |code| - pos
  {
    if pos == |code| then pos
    else if escaped then StringEnd(code, pos + 1, quote, false)
    else if code[pos] == '\\' then StringEnd(code, pos + 1, quote, true)
    else if code[pos] == quote then pos + 1
    else StringEnd(code, pos + 1, quote, false)
  }

  /** The first position from `pos` on whose character the run does not take. */
  function RunEnd(code: string, pos: nat, takes: char -> bool): (e: nat)
    requires pos <= |code|
    ensures pos <= e <= |code|
    ensures forall i | pos <= i < e :: takes(code[i])
    ensures e < |code| ==> !takes(code[e])
    decreases |code| - pos
  {
    if pos == |code| || !takes(code[pos]) then pos else RunEnd(code, pos + 1, takes)
  }

  /** The next newline, or the end of the code. */
  function LineEnd(code: string, pos: nat): (e: nat)
    requires pos <= |code|
    ensures pos <= e <= |code|
    ensures (forall i | pos <= i < e :: code[i] != '\n') && (e < |code| ==> code[e] == '\n')
  {
    RunEnd(code, pos, c => c != '\n')
  }

  predicate StartsComment(code: string, pos: nat)
    requires pos < |code|
  {
    code[pos] == '#' || (code[pos] == '/' && pos + 1 < |code| && code[pos + 1] == '/')
  }

  predicate StartsCall(code: string, pos: nat)
    requires pos <= |code|
  {
    var e := RunEnd(code, pos, IsWhitespace);
    e < |code| && code[e] == '('
  }

  function WordStyle(code: string, start: nat, end: nat): Option<TokenStyle>
    requires start < end <= |code|
  {
    var word := code[start..end];
    if word in KEYWORDS then Some(Keyword)
    else if StartsCall(code, end) then Some(Function)
    else if IsUpper(word[0]) || word in TYPE_WORDS then Some(Type)
    else None
  }

  /** One token: its pieces and where the scan goes on. A comment that no newline ends leaves the
      iterator where it was, right after the comment's first character. */
  function Token(code: string, pos: nat): (t: (seq<Piece<char>>, nat))
    requires pos < |code|
    ensures pos < t.1 <= |code|
  {
    var c := code[pos];
    if IsQuote(c) then
      var e := StringEnd(code, pos + 1, c, false);
      (Styled(code[pos..e], String), e)
    else if StartsComment(code, pos) then
      var e := LineEnd(code, pos);
      if e < |code| then (Styled(code[pos..e], Comment) + [Source(['\n'])], e + 1)
      else (Styled(code[pos..e], Comment), pos + 1)
    else if IsDigit(c) then
      var e := RunEnd(code, pos + 1, IsNumberChar);
      (Styled(code[pos..e], Number), e)
    else if IsWordStart(c) then
      var e := RunEnd(code, pos + 1, IsWordChar);
      (match WordStyle(code, pos, e)
       case Some(style) => Styled(code[pos..e], style)
       case None => [Source(code[pos..e])], e)
    else ([Source([c])], pos + 1)
  }

  /** What is printed from `pos` on. */
  function Highlighted(code: string, pos: nat): seq<Piece<char>>
    requires pos <= |code|
    decreases |code| - pos
  {
    if pos == |code| then [] else
    var (pieces, next) := Token(code, pos);
    pieces + Highlighted(code, next)
  }

  /** A comment starts at `pos`, is not its last character, and runs to the end of the code. */
  predicate IsOpenComment(code: string, pos: nat)
    requires pos < |code|
  {
    !IsQuote(code[pos]) && StartsComment(code, pos) && LineEnd(code, pos) == |code| && pos + 1 < |code|
  }

  /** No token from `pos` on is an open comment. */
  predicate CommentsAreClosed(code: string, pos: nat)
    requires pos <= |code|
    decreases |code| - pos
  {
    pos == |code| || (!IsOpenComment(code, pos) && CommentsAreClosed(code, Token(code, pos).1))
  }

  lemma TokenStrips(code: string, pos: nat)
    requires pos < |code| && !IsOpenComment(code, pos)
    ensures Strip(Token(code, pos).0) == code[pos..Token(code, pos).1]
  {
    var (pieces, next) := Token(code, pos);
    if !IsQuote(code[pos]) && StartsComment(code, pos) {
      var e := LineEnd(code, pos);
      StripStyled(code[pos..e], Comment);
      if e < |code| {
        StripConcat(Styled(code[pos..e], Comment), [Source(['\n'])]);
        StripSource(['\n']);
        assert code[pos..e] + ['\n'] == code[pos..e + 1];
      }
    } else {
      PlainTokenStrips(code, pos);
    }
  }

  lemma PlainTokenStrips(code: string, pos: nat)
    requires pos < |code| && (IsQuote(code[pos]) || !StartsComment(code, pos))
    ensures Strip(Token(code, pos).0) == code[pos..Token(code, pos).1]
  {
    var c, next := code[pos], Token(code, pos).1;
    if IsQuote(c) {
      StripStyled(code[pos..next], String);
    } else if IsDigit(c) {
      StripStyled(code[pos..next], Number);
    } else if IsWordStart(c) {
      WordStrips(code, pos);
    } else {
      assert code[pos..pos + 1] == [c];
      StripSource([c]);
    }
  }

  lemma WordStrips(code: string, pos: nat)
    requires pos < |code| && IsWordStart(code[pos])
    ensures Strip(Token(code, pos).0) == code[pos..Token(code, pos).1]
  {
    var e := RunEnd(code, pos + 1, IsWordChar);
    var style := WordStyle(code, pos, e);
    if style.Some? { StripStyled(code[pos..e], style.value); } else { StripSource(code[pos..e]); }
  }

  lemma OpenCommentRepeats(code: string, pos: nat)
    requires pos < |code| && IsOpenComment(code, pos)
    ensures Strip(Token(code, pos).0) == code[pos..] && Token(code, pos).1 == pos + 1 < |code|
  {
    assert code[pos..|code|] == code[pos..];
    StripStyled(code[pos..|code|], Comment);
  }

  lemma {:induction false} NeverShorter(code: string, pos: nat)
    requires pos <= |code|
    ensures |Strip(Highlighted(code, pos))| >= |code| - pos
    decreases |code| - pos
  {
    if pos < |code| {
      var (pieces, next) := Token(code, pos);
      NeverShorter(code, next);
      StripConcat(pieces, Highlighted(code, next));
      if IsOpenComment(code, pos) { OpenCommentRepeats(code, pos); } else { TokenStrips(code, pos); }
    }
  }

  /** Removing the style codes gives the source back if and only if no comment of more than one
      character runs into the end of the code; such a comment is printed again from its second
      character on. */
  lemma {:induction false} LexicalStripIff(code: string, pos: nat)
    requires pos <= |code|
    ensures Strip(Highlighted(code, pos)) == code[pos..] <==> CommentsAreClosed(code, pos)
    decreases |code| - pos
  {
    if pos < |code| {
      if IsOpenComment(code, pos) {
        OpenCommentIsLonger(code, pos);
      } else {
        TokenStripsFirst(code, pos);
        LexicalStripIff(code, Token(code, pos).1);
      }
    }
  }

  lemma OpenCommentIsLonger(code: string, pos: nat)
    requires pos < |code| && IsOpenComment(code, pos)
    ensures |Strip(Highlighted(code, pos))| > |code| - pos
  {
    var (pieces, next) := Token(code, pos);
    StripConcat(pieces, Highlighted(code, next));
    OpenCommentRepeats(code, pos);
    NeverShorter(code, next);
  }

  lemma TokenStripsFirst(code: string, pos: nat)
    requires pos < |code| && !IsOpenComment(code, pos)
    ensures var next := Token(code, pos).1;
            Strip(Highlighted(code, pos)) == code[pos..] <==> Strip(Highlighted(code, next)) == code[next..]
  {
    var (pieces, next) := Token(code, pos);
    var rest := Highlighted(code, next);
    StripConcat(pieces, rest);
    TokenStrips(code, pos);
    RestIs(code, pos, next);
    PrefixCancels(code[pos..next], Strip(rest), code[next..]);
  }

  lemma RestIs(code: string, pos: nat, next: nat)
    requires pos <= next <= |code|
    ensures code[pos..] == code[pos..next] + code[next..]
  {
  }

  lemma PrefixCancels(a: string, b: string, c: string)
    ensures a + b == a + c <==> b == c
  {
    if a + b == a + c {
      assert b == (a + b)[|a|..] && c == (a + c)[|a|..];
    }
  }

  /** Code that ends in a newline, as source files do, has no open comment. */
  lemma {:induction false} NewlineTerminatedIsClosed(code: string, pos: nat)
    requires pos <= |code| && code != [] && code[|code| - 1] == '\n'
    ensures CommentsAreClosed(code, pos)
    decreases |code| - pos
  {
    if pos < |code| { NewlineTerminatedIsClosed(code, Token(code, pos).1); }
  }

  /** The smallest failure: "//" is printed as "///". */
  lemma OpenCommentIsDoubled()
    ensures Strip(Highlighted("//", 0)) == "///"
  {
    var code := "//";
    assert IsOpenComment(code, 0);
    OpenCommentRepeats(code, 0);
    assert code[0..] == code;
    StripConcat(Token(code, 0).0, Highlighted(code, 1));
    assert Highlighted(code, 2) == [];
    assert Highlighted(code, 1) == [Source(['/'])] + Highlighted(code, 2) == [Source("/")];
    StripSource("/");
    assert "//" + "/" == "///";
  }

  method RenderLexicalHighlights(code: string) returns (out: seq<Piece<char>>)
    ensures out == Highlighted(code, 0)
  {
    out := [];
    var pos := 0;
    while pos < |code|
      invariant pos <= |code|
      invariant out + Highlighted(code, pos) == Highlighted(code, 0)
    {
      var pieces, next := NextToken(code, pos);
      assert out + (pieces + Highlighted(code, next)) == out + pieces + Highlighted(code, next);
      out, pos := out + pieces, next;
    }
    assert out + [] == out;
  }

  /** One iteration of the outer loop, with the inner loops of the source. */
  method NextToken(code: string, pos: nat) returns (pieces: seq<Piece<char>>, next: nat)
    requires pos < |code|
    ensures (pieces, next) == Token(code, pos)
  {
    var c := code[pos];
    if IsQuote(c) {
      var end, escaped := pos + 1, false;
      while end < |code|
        invariant pos + 1 <= end <= |code|
        invariant StringEnd(code, end, c, escaped) == StringEnd(code, pos + 1, c, false)
      {
        end := end + 1;
        if escaped {
          escaped := false;
        } else if code[end - 1] == '\\' {
          escaped := true;
        } else if code[end - 1] == c {
          break;
        }
      }
      assert end == StringEnd(code, pos + 1, c, false);
      return Styled(code[pos..end], String), end;
    }
    if c == '#' || (c == '/' && pos + 1 < |code| && code[pos + 1] == '/') {
      var end := TakeRun(code, pos, c => c != '\n');
      pieces := Styled(code[pos..end], Comment);
      if end < |code| {
        return pieces + [Source(['\n'])], end + 1;
      }
      return pieces, pos + 1;
    }
    if IsDigit(c) {
      var end := TakeRun(code, pos + 1, IsNumberChar);
      return Styled(code[pos..end], Number), end;
    }
    if IsWordStart(c) {
      var end := TakeRun(code, pos + 1, IsWordChar);
      var style := WordStyle(code, pos, end);
      return if style.Some? then Styled(code[pos..end], style.value) else [Source(code[pos..end])], end;
    }
    return [Source([c])], pos + 1;
  }

  method TakeRun(code: string, pos: nat, takes: char -> bool) returns (end: nat)
    requires pos <= |code|
    ensures end == RunEnd(code, pos, takes)
  {
    end := pos;
    while end < |code| && takes(code[end])
      invariant pos <= end <= |code|
      invariant RunEnd(code, end, takes) == RunEnd(code, pos, takes)
    {
      end := end + 1;
    }
  }
}
