/** The two highlighters of src/cli/syntax_highlight.rs. Their output is a list of pieces, so that
    source text and inserted style codes stay distinguishable. */
module Highlight {
  import opened Utf8

  datatype TokenStyle = Keyword | String | Number | Comment | Type | Function

  datatype Piece<T> = Source(text: seq<T>) | Begin(style: TokenStyle) | Reset

  /** The output without the inserted style codes. */
  function Strip<T>(pieces: seq<Piece<T>>): seq<T> {
    if pieces == [] then []
    else Strip(pieces[..|pieces| - 1]) + if pieces[|pieces| - 1].Source? then pieces[|pieces| - 1].text else []
  }

  lemma {:induction false} StripConcat<T>(a: seq<Piece<T>>, b: seq<Piece<T>>)
    ensures Strip(a + b) == Strip(a) + Strip(b)
  {
    if b == [] {
      assert a + b == a && Strip(a) + [] == Strip(a);
    } else {
      assert (a + b)[..|a + b| - 1] == a + b[..|b| - 1];
      StripConcat(a, b[..|b| - 1]);
      var last: seq<T> := if b[|b| - 1].Source? then b[|b| - 1].text else [];
      assert Strip(a) + (Strip(b[..|b| - 1]) + last) == Strip(a) + Strip(b[..|b| - 1]) + last;
    }
  }

  function Styled<T>(text: seq<T>, style: TokenStyle): seq<Piece<T>> { [Begin(style), Source(text), Reset] }

  lemma StripStyled<T>(text: seq<T>, style: TokenStyle)
    ensures Strip(Styled(text, style)) == text
  {
    var p := Styled(text, style);
    var one: seq<Piece<T>> := [Begin(style)];
    assert p[..2] == one + [Source(text)] && one[..0] == [];
    StripConcat(one, [Source(text)]);
    StripSource(text);
    assert Strip(one) == [];
    assert p == p[..2] + [Reset];
  }

  lemma StripSource<T>(text: seq<T>)
    ensures Strip([Source(text)]) == text
  {
    assert [Source(text)][..0] == [];
    assert Strip([Source(text)]) == [] + text;
  }

  // ---- render_highlights: spans from a parser

  datatype Span = Span(start: nat, end: nat, style: TokenStyle)

  predicate IsCharBoundary(code: Bytes, i: nat) {
    i == 0 || i == |code| || (i < |code| && !(0x80 <= code[i] < 0xC0))
  }

  predicate InRange(code: Bytes, s: Span) { s.start < s.end <= |code| }

  predicate IsAligned(code: Bytes, s: Span) { IsCharBoundary(code, s.start) && IsCharBoundary(code, s.end) }

  predicate KeyLeq(s: Span, t: Span) { s.start < t.start || (s.start == t.start && s.end <= t.end) }

  ghost predicate SortedByKey(s: seq<Span>) {
    forall i, j | 0 <= i < j < |s| :: KeyLeq(s[i], s[j])
  }

  function InsertSpan(x: Span, s: seq<Span>): (r: seq<Span>)
    ensures multiset(r) == multiset(s) + multiset{x}
  {
    if s == [] then [x]
    else if KeyLeq(s[|s| - 1], x) then s + [x]
    else
      assert s == s[..|s| - 1] + [s[|s| - 1]];
      InsertSpan(x, s[..|s| - 1]) + [s[|s| - 1]]
  }

  lemma {:induction false} InsertSorted(x: Span, s: seq<Span>)
    requires SortedByKey(s)
    ensures SortedByKey(InsertSpan(x, s))
  {
    if s != [] && !KeyLeq(s[|s| - 1], x) {
      var n := |s| - 1;
      InsertSorted(x, s[..n]);
      var r := InsertSpan(x, s[..n]);
      forall i | 0 <= i < |r| ensures KeyLeq(r[i], s[n]) {
        assert r[i] in multiset(s[..n]) + multiset{x};
      }
    }
  }

  /** The contract of `sort_by_key`: a permutation in key order. */
  function SortSpans(s: seq<Span>): (r: seq<Span>)
    ensures multiset(r) == multiset(s)
  {
    if s == [] then [] else
    var n := |s| - 1;
    assert s == s[..n] + [s[n]];
    InsertSpan(s[n], SortSpans(s[..n]))
  }

  lemma {:induction false} SortSorted(s: seq<Span>)
    ensures SortedByKey(SortSpans(s))
  {
    if s != [] {
      SortSorted(s[..|s| - 1]);
      InsertSorted(s[|s| - 1], SortSpans(s[..|s| - 1]));
    }
  }

  function Filtered(code: Bytes, spans: seq<Span>): (r: seq<Span>)
    ensures forall s :: s in r <==> s in spans && InRange(code, s)
  {
    if spans == [] then [] else
    var init := Filtered(code, spans[..|spans| - 1]);
    var last := spans[|spans| - 1];
    assert spans == spans[..|spans| - 1] + [last];
    if InRange(code, last) then init + [last] else init
  }

  function CursorAfter(chosen: seq<Span>): nat { if chosen == [] then 0 else chosen[|chosen| - 1].end }

  /** The emitted spans are in range, aligned, in order and disjoint. */
  ghost predicate WellPlaced(code: Bytes, chosen: seq<Span>) {
    && (forall i | 0 <= i < |chosen| :: InRange(code, chosen[i]) && IsAligned(code, chosen[i]))
    && (forall i, j | 0 <= i < j < |chosen| :: chosen[i].end <= chosen[j].start)
  }

  /** First come, first served: a span is emitted unless it starts inside what was emitted. */
  function Chosen(code: Bytes, sorted: seq<Span>): (c: seq<Span>)
    requires forall s | s in sorted :: InRange(code, s)
    ensures WellPlaced(code, c)
    ensures forall s | s in c :: s in sorted
  {
    if sorted == [] then [] else
    var last := sorted[|sorted| - 1];
    var c := Chosen(code, sorted[..|sorted| - 1]);
    assert forall s | s in sorted[..|sorted| - 1] :: s in sorted;
    if last.start >= CursorAfter(c) && IsAligned(code, last) then
      (assert forall i | 0 <= i < |c| :: i == |c| - 1 || c[i].end <= c[|c| - 1].start < c[|c| - 1].end; c + [last])
    else c
  }

  function Rendered(code: Bytes, chosen: seq<Span>): seq<Piece<byte>>
    requires WellPlaced(code, chosen)
  {
    if chosen == [] then [] else
    var init, last := chosen[..|chosen| - 1], chosen[|chosen| - 1];
    Rendered(code, init) + [Source(code[CursorAfter(init)..last.start])] + Styled(code[last.start..last.end], last.style)
  }

  lemma {:induction false} StripRendered(code: Bytes, chosen: seq<Span>)
    requires WellPlaced(code, chosen)
    ensures CursorAfter(chosen) <= |code| && Strip(Rendered(code, chosen)) == code[..CursorAfter(chosen)]
  {
    if chosen != [] {
      var init, last := chosen[..|chosen| - 1], chosen[|chosen| - 1];
      StripRendered(code, init);
      StripOneMore(code, Rendered(code, init), CursorAfter(init), last);
    }
  }

  lemma StripOneMore(code: Bytes, before: seq<Piece<byte>>, cursor: nat, s: Span)
    requires cursor <= s.start <= s.end <= |code| && Strip(before) == code[..cursor]
    ensures Strip(before + [Source(code[cursor..s.start])] + Styled(code[s.start..s.end], s.style)) == code[..s.end]
  {
    var gap, body := code[cursor..s.start], code[s.start..s.end];
    StripConcat(before, [Source(gap)]);
    StripConcat(before + [Source(gap)], Styled(body, s.style));
    StripSource(gap);
    StripStyled(body, s.style);
    assert code[..cursor] + gap == code[..s.start];
    assert code[..s.start] + body == code[..s.end];
  }

  /** The span was emitted, or starts inside one that was. */
  ghost predicate IsCovered(chosen: seq<Span>, s: Span) {
    s in chosen || exists e :: e in chosen && e.start <= s.start < e.end
  }

  lemma LastIsCovered(code: Bytes, sorted: seq<Span>)
    requires sorted != [] && (forall t | t in sorted :: InRange(code, t)) && SortedByKey(sorted)
    requires IsAligned(code, sorted[|sorted| - 1])
    ensures IsCovered(Chosen(code, sorted), sorted[|sorted| - 1])
  {
    var n := |sorted| - 1;
    var init := sorted[..n];
    assert forall t | t in init :: t in sorted;
    var c := Chosen(code, init);
    if sorted[n].start < CursorAfter(c) {
      var e := c[|c| - 1];
      assert e in c && e in init;
      var i :| 0 <= i < |init| && init[i] == e;
      assert KeyLeq(sorted[i], sorted[n]);
    }
  }

  /** A span that is in range and aligned is emitted or starts inside an emitted one. */
  lemma {:induction false} SkippedStartsInside(code: Bytes, sorted: seq<Span>, s: Span)
    requires (forall t | t in sorted :: InRange(code, t)) && SortedByKey(sorted)
    requires s in sorted && IsAligned(code, s)
    ensures IsCovered(Chosen(code, sorted), s)
  {
    var n := |sorted| - 1;
    var init := sorted[..n];
    assert sorted == init + [sorted[n]];
    if s in init {
      assert forall t | t in init :: t in sorted;
      SkippedStartsInside(code, init, s);
    } else {
      LastIsCovered(code, sorted);
    }
  }

  method RenderHighlights(code: Bytes, spans: seq<Span>) returns (r: Option<seq<Piece<byte>>>, ghost chosen: seq<Span>)
    ensures WellPlaced(code, chosen) && (forall s | s in chosen :: s in spans)
    ensures r.Some? ==> Strip(r.value) == code
    ensures r.Some? ==> r.value == Rendered(code, chosen) + [Source(code[CursorAfter(chosen)..])]
    ensures r.None? <==> forall s | s in spans && InRange(code, s) :: !IsAligned(code, s)
    ensures forall s | s in spans && InRange(code, s) && IsAligned(code, s) ::
              IsCovered(chosen, s)
  {
    var sorted := SortSpans(Filtered(code, spans));
    SortedMembers(code, spans);
    var rendered, cursor, emitted;
    rendered, cursor, emitted := EmitSpans(code, sorted);
    chosen := Chosen(code, sorted);
    SkippedAll(code, spans, sorted);
    StripAll(code, chosen);
    rendered := rendered + [Source(code[cursor..])];
    r := if emitted then Some(rendered) else None;
    assert emitted ==> chosen[0] in chosen;
  }

  lemma ChosenPush(code: Bytes, sorted: seq<Span>, i: nat)
    requires i < |sorted| && forall s | s in sorted :: InRange(code, s)
    ensures forall s | s in sorted[..i + 1] :: s in sorted
    ensures var c, s := Chosen(code, sorted[..i]), sorted[i];
            if s.start >= CursorAfter(c) && IsAligned(code, s) then
              && Chosen(code, sorted[..i + 1]) == c + [s] && InRange(code, s)
              && Rendered(code, c + [s]) == Rendered(code, c) + [Source(code[CursorAfter(c)..s.start])] + Styled(code[s.start..s.end], s.style)
            else Chosen(code, sorted[..i + 1]) == c
  {
    var c, s := Chosen(code, sorted[..i]), sorted[i];
    assert sorted[..i + 1][..i] == sorted[..i] && s in sorted;
    assert (c + [s])[..|c|] == c;
  }

  /** The emission loop. */
  method EmitSpans(code: Bytes, sorted: seq<Span>)
    returns (rendered: seq<Piece<byte>>, cursor: nat, emitted: bool)
    requires forall s | s in sorted :: InRange(code, s)
    ensures rendered == Rendered(code, Chosen(code, sorted)) && cursor == CursorAfter(Chosen(code, sorted))
    ensures emitted <==> Chosen(code, sorted) != []
  {
    rendered, cursor, emitted := [], 0, false;
    ghost var chosen: seq<Span> := [];
    for i := 0 to |sorted|
      invariant forall s | s in sorted[..i] :: s in sorted
      invariant chosen == Chosen(code, sorted[..i])
      invariant rendered == Rendered(code, chosen) && cursor == CursorAfter(chosen)
      invariant emitted <==> chosen != []
    {
      ChosenPush(code, sorted, i);
      if sorted[i].start >= cursor && IsAligned(code, sorted[i]) { chosen := chosen + [sorted[i]]; }
      rendered, cursor, emitted := EmitSpan(code, sorted[i], rendered, cursor, emitted);
    }
    assert sorted[..|sorted|] == sorted;
  }

  /** One turn of the loop: a span that starts inside what was emitted is skipped. */
  method EmitSpan(code: Bytes, span: Span, rendered: seq<Piece<byte>>, cursor: nat, emitted: bool)
    returns (rendered': seq<Piece<byte>>, cursor': nat, emitted': bool)
    requires InRange(code, span) && cursor <= |code|
    ensures if span.start >= cursor && IsAligned(code, span) then
              && rendered' == rendered + [Source(code[cursor..span.start])] + Styled(code[span.start..span.end], span.style)
              && cursor' == span.end && emitted'
            else (rendered', cursor', emitted') == (rendered, cursor, emitted)
  {
    rendered', cursor', emitted' := rendered, cursor, emitted;
    if span.start >= cursor && IsAligned(code, span) {
      rendered' := rendered + [Source(code[cursor..span.start])] + Styled(code[span.start..span.end], span.style);
      cursor' := span.end;
      emitted' := true;
    }
  }

  lemma SkippedAll(code: Bytes, spans: seq<Span>, sorted: seq<Span>)
    requires sorted == SortSpans(Filtered(code, spans))
    requires forall s :: s in sorted <==> s in spans && InRange(code, s)
    ensures forall s | s in spans && InRange(code, s) && IsAligned(code, s) ::
              IsCovered(Chosen(code, sorted), s)
  {
    SortSorted(Filtered(code, spans));
    forall s | s in spans && InRange(code, s) && IsAligned(code, s)
      ensures IsCovered(Chosen(code, sorted), s)
    {
      SkippedStartsInside(code, sorted, s);
    }
  }

  lemma SortedMembers(code: Bytes, spans: seq<Span>)
    ensures forall s :: s in SortSpans(Filtered(code, spans)) <==> s in spans && InRange(code, s)
  {
    var f := Filtered(code, spans);
    forall s ensures s in SortSpans(f) <==> s in f {
      assert s in SortSpans(f) <==> s in multiset(SortSpans(f));
      assert s in f <==> s in multiset(f);
    }
  }

  /** Removing the style codes gives the source back, for every list of emitted spans. */
  lemma StripAll(code: Bytes, chosen: seq<Span>)
    requires WellPlaced(code, chosen)
    ensures CursorAfter(chosen) <= |code|
    ensures Strip(Rendered(code, chosen) + [Source(code[CursorAfter(chosen)..])]) == code
  {
    StripRendered(code, chosen);
    var rest := code[CursorAfter(chosen)..];
    StripConcat(Rendered(code, chosen), [Source(rest)]);
    StripSource(rest);
    assert code[..CursorAfter(chosen)] + rest == code;
  }
}
