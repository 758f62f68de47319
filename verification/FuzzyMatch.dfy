/** The greedy fuzzy matcher of src/core/file_search.rs, which works on bytes. */
module FuzzyMatch {
  import opened Utf8

  function ToAsciiLowercase(b: byte): byte { if 65 <= b <= 90 then b + 32 else b }

  predicate IsBoundaryByte(b: byte) { b == 0x2F || b == 0x5F || b == 0x20 }   // '/', '_', ' '

  /** `e` lists, in increasing order, target positions that spell the query. */
  ghost predicate Embeds(e: seq<nat>, query: Bytes, target: Bytes) {
    && |e| == |query|
    && (forall i | 0 <= i < |e| :: e[i] < |target| && ToAsciiLowercase(target[e[i]]) == query[i])
    && (forall i, j | 0 <= i < j < |e| :: e[i] < e[j])
  }

  /** The query is a subsequence of the ASCII-lowercased target. */
  ghost predicate IsSubsequence(query: Bytes, target: Bytes) {
    exists e :: Embeds(e, query, target)
  }

  /** What the scan has matched after the first `n` target bytes. */
  function Matched(query: Bytes, target: Bytes, n: nat): (e: seq<nat>)
    requires n <= |target|
    ensures |e| <= |query| && |e| <= n
  {
    if n == 0 then [] else
    var e := Matched(query, target, n - 1);
    if |e| < |query| && ToAsciiLowercase(target[n - 1]) == query[|e|] then e + [n - 1] else e
  }

  ghost predicate Increasing(e: seq<nat>, n: nat) {
    (forall i | 0 <= i < |e| :: e[i] < n) && (forall i, j | 0 <= i < j < |e| :: e[i] < e[j])
  }

  lemma {:induction false} MatchedShape(query: Bytes, target: Bytes, n: nat)
    requires n <= |target|
    ensures var e := Matched(query, target, n);
            Increasing(e, n) && forall i | 0 <= i < |e| :: ToAsciiLowercase(target[e[i]]) == query[i]
  {
    if n > 0 { MatchedShape(query, target, n - 1); }
  }

  /** The points of one match, given the position of the match before it (-1 for none). */
  function Points(target: Bytes, p: nat, previous: int): nat
    requires p < |target|
  {
    if p == previous + 1 then 5
    else if p == 0 || IsBoundaryByte(target[p - 1]) then 4
    else 1
  }

  function Sum(target: Bytes, e: seq<nat>): nat
    requires forall i | 0 <= i < |e| :: e[i] < |target|
  {
    if e == [] then 0
    else Sum(target, e[..|e| - 1]) + Points(target, e[|e| - 1], if |e| == 1 then -1 else e[|e| - 2])
  }

  function RawScore(target: Bytes, e: seq<nat>): nat
    requires forall i | 0 <= i < |e| :: e[i] < |target|
  {
    Sum(target, e) + if e != [] && e[0] == 0 then 10 else 0
  }

  /** What `fuzzy_score_normalized` returns. A full match is no longer than the target, so the
      length difference is never negative. */
  function FuzzyScore(query: Bytes, target: Bytes): Option<nat> {
    if query == [] then Some(0) else
    var e := Matched(query, target, |target|);
    MatchedShape(query, target, |target|);
    if |e| == |query| then Some(Normalise(RawScore(target, e), |target| - |query|)) else None
  }

  /** Shorter targets rank higher for the same query. */
  function Normalise(raw: nat, excess: nat): nat { raw * 100 / (excess + 100) }

  /** Greedy matching is never behind: at any point of the scan, an embedding has matched no more
      of the query than the scan, and the scan's matches lie at or before the embedding's. */
  lemma {:induction false} GreedyStaysAhead(f: seq<nat>, query: Bytes, target: Bytes, n: nat)
    requires Embeds(f, query, target) && n <= |target|
    ensures var e := Matched(query, target, n);
            && (forall i | 0 <= i < |e| :: e[i] <= f[i])
            && (|e| < |query| ==> f[|e|] >= n)
  {
    if n > 0 {
      GreedyStaysAhead(f, query, target, n - 1);
      var e := Matched(query, target, n - 1);
      if |e| < |query| && ToAsciiLowercase(target[n - 1]) == query[|e|] {
        if |e| + 1 < |query| { assert f[|e|] < f[|e| + 1]; }
      }
    }
  }

  /** The matcher succeeds if and only if the query is a subsequence of the lowercased target, and
      then it has found the leftmost embedding. */
  lemma GreedyIsComplete(query: Bytes, target: Bytes)
    ensures FuzzyScore(query, target).Some? <==> IsSubsequence(query, target)
    ensures IsSubsequence(query, target) ==>
              var e := Matched(query, target, |target|);
              Embeds(e, query, target) && forall f | Embeds(f, query, target) :: forall i | 0 <= i < |e| :: e[i] <= f[i]
  {
    var e := Matched(query, target, |target|);
    MatchedShape(query, target, |target|);
    if |e| == |query| { assert Embeds(e, query, target); }
    forall f | Embeds(f, query, target)
      ensures |e| == |query| && forall i | 0 <= i < |e| :: e[i] <= f[i]
    {
      GreedyStaysAhead(f, query, target, |target|);
    }
    if query == [] { assert Embeds([], query, target); }
  }

  /** Positions 0, 1, 2, ... */
  ghost predicate IsPrefix(e: seq<nat>) {
    forall i | 0 <= i < |e| :: e[i] == i
  }

  lemma {:induction false} SumBounds(target: Bytes, e: seq<nat>)
    requires Increasing(e, |target|)
    ensures |e| <= Sum(target, e) <= 5 * |e|
    ensures Sum(target, e) == 5 * |e| <==> IsPrefix(e)
    decreases |e|
  {
    if e != [] {
      var n := |e| - 1;
      var e' := e[..n];
      SumBounds(target, e');
      assert forall i | 0 <= i < n :: e[i] == e'[i];
      if n > 0 { assert e[n - 1] == e'[n - 1]; }
      assert IsPrefix(e) <==> IsPrefix(e') && e[n] == n;
    }
  }

  /** The target, lowercased, starts with the query. */
  predicate FoldedPrefix(query: Bytes, target: Bytes) {
    |query| <= |target| && forall i | 0 <= i < |query| :: ToAsciiLowercase(target[i]) == query[i]
  }

  lemma {:induction false} MatchedPrefix(query: Bytes, target: Bytes, n: nat)
    requires FoldedPrefix(query, target) && n <= |target|
    ensures var e := Matched(query, target, n);
            IsPrefix(e) && |e| == if n < |query| then n else |query|
  {
    if n > 0 {
      MatchedPrefix(query, target, n - 1);
      if n - 1 < |query| { assert ToAsciiLowercase(target[n - 1]) == query[n - 1]; }
    }
  }

  ghost function Raw(query: Bytes, target: Bytes): nat {
    MatchedShape(query, target, |target|);
    RawScore(target, Matched(query, target, |target|))
  }

  /** The raw score of a match of a non-empty query is between its length and five times its length
      plus the prefix bonus; it reaches that maximum exactly when the folded target starts with it. */
  lemma RawScoreBounds(query: Bytes, target: Bytes)
    requires query != [] && FuzzyScore(query, target).Some?
    ensures FuzzyScore(query, target) == Some(Normalise(Raw(query, target), |target| - |query|))
    ensures |query| <= Raw(query, target) <= 5 * |query| + 10
    ensures Raw(query, target) == 5 * |query| + 10 <==> FoldedPrefix(query, target)
  {
    var e := Matched(query, target, |target|);
    MatchedShape(query, target, |target|);
    SumBounds(target, e);
    if FoldedPrefix(query, target) { MatchedPrefix(query, target, |target|); }
    if IsPrefix(e) {
      assert FoldedPrefix(query, target) by {
        assert forall i | 0 <= i < |query| :: e[i] == i && ToAsciiLowercase(target[e[i]]) == query[i];
      }
    }
  }

  // ---- what a match is worth

  /** The match directly follows the one before, or starts the target. */
  predicate IsConsecutive(e: seq<nat>, i: nat)
    requires i < |e|
  {
    e[i] == if i == 0 then 0 else e[i - 1] + 1
  }

  ghost function Consecutive(e: seq<nat>): set<nat> {
    set i: nat | i < |e| && IsConsecutive(e, i)
  }

  /** The other matches right after a slash, an underscore or a space. */
  ghost function AtBoundaries(target: Bytes, e: seq<nat>): set<nat>
    requires Increasing(e, |target|)
  {
    set i: nat | i < |e| && i !in Consecutive(e) && e[i] > 0 &&
                 (target[e[i] - 1] == '/' as int || target[e[i] - 1] == '_' as int || target[e[i] - 1] == ' ' as int)
  }

  lemma ConsecutiveGrows(e: seq<nat>, n: nat)
    requires |e| == n + 1
    ensures Consecutive(e) == Consecutive(e[..n]) + if IsConsecutive(e, n) then {n} else {}
  {
    assert forall i: nat | i < n :: IsConsecutive(e[..n], i) == IsConsecutive(e, i);
  }

  lemma BoundariesGrow(target: Bytes, e: seq<nat>, n: nat)
    requires |e| == n + 1 && Increasing(e, |target|)
    ensures Increasing(e[..n], |target|)
    ensures AtBoundaries(target, e) ==
            AtBoundaries(target, e[..n]) +
            if n !in Consecutive(e) && e[n] > 0 && IsBoundaryByte(target[e[n] - 1]) then {n} else {}
  {
    ConsecutiveGrows(e, n);
  }

  /** Five points for each consecutive match, four for each other one at a boundary, one for each
      scattered one. */
  lemma {:induction false} SumIs(target: Bytes, e: seq<nat>)
    requires Increasing(e, |target|)
    ensures Sum(target, e) == 5 * |Consecutive(e)| + 4 * |AtBoundaries(target, e)| +
                              (|e| - |Consecutive(e)| - |AtBoundaries(target, e)|)
    decreases |e|
  {
    if e != [] {
      var n := |e| - 1;
      ConsecutiveGrows(e, n);
      BoundariesGrow(target, e, n);
      SumIs(target, e[..n]);
      assert n !in Consecutive(e[..n]) && n !in AtBoundaries(target, e[..n]);
    }
  }

  /** The points of a match, with ten more for one that starts the target. */
  lemma PointsAre(query: Bytes, target: Bytes)
    requires query != [] && FuzzyScore(query, target).Some?
    ensures var e := Matched(query, target, |target|);
            && |e| == |query| && Increasing(e, |target|)
            && Raw(query, target) == 4 * |Consecutive(e)| + 3 * |AtBoundaries(target, e)| + |query| + if e[0] == 0 then 10 else 0
  {
    MatchedShape(query, target, |target|);
    SumIs(target, Matched(query, target, |target|));
  }

  /** The score is those points, normalised by how much longer the target is than the query and
      rounded down. */
  lemma ScoreIs(query: Bytes, target: Bytes)
    requires query != [] && FuzzyScore(query, target).Some?
    ensures var score, longer := FuzzyScore(query, target).value, |target| - |query|;
            longer >= 0 && score * (100 + longer) <= Raw(query, target) * 100 < (score + 1) * (100 + longer)
  {
    RawScoreBounds(query, target);
    NormaliseRounds(Raw(query, target), |target| - |query|);
  }

  lemma NormaliseRounds(raw: nat, excess: nat)
    ensures Normalise(raw, excess) * (100 + excess) <= raw * 100 < (Normalise(raw, excess) + 1) * (100 + excess)
  {
    var n, d := raw * 100, 100 + excess;
    assert n == n / d * d + n % d;
  }

  /** A target that is no longer, and whose match is worth no less, never scores lower. */
  lemma BetterScoresNoLower(query: Bytes, s: Bytes, t: Bytes)
    requires query != [] && FuzzyScore(query, s).Some? && FuzzyScore(query, t).Some?
    requires Raw(query, s) >= Raw(query, t) && |s| <= |t|
    ensures FuzzyScore(query, s).value >= FuzzyScore(query, t).value
  {
    ScoreIs(query, s);
    ScoreIs(query, t);
    var a, b := FuzzyScore(query, s).value, FuzzyScore(query, t).value;
    if a < b { LowerScore(a, b, |s| - |query|, |t| - |query|); }
  }

  lemma LowerScore(score: nat, score': nat, longer: nat, longer': nat)
    requires score + 1 <= score' && longer <= longer'
    ensures (score + 1) * (100 + longer) <= score' * (100 + longer')
  {
    assert (score + 1) * (100 + longer) <= score' * (100 + longer);
    assert score' * (100 + longer) <= score' * (100 + longer');
  }

  /** Matches at boundaries beat scattered ones: with as many consecutive matches and as good a start,
      the match with more of them is worth more, and scores no lower in a target that is no longer. */
  lemma BoundaryBeatsScattered(query: Bytes, s: Bytes, t: Bytes)
    requires query != [] && FuzzyScore(query, s).Some? && FuzzyScore(query, t).Some?
    requires var e, f := Matched(query, s, |s|), Matched(query, t, |t|);
             && Increasing(e, |s|) && Increasing(f, |t|) && |e| == |f| == |query|
             && |Consecutive(e)| == |Consecutive(f)| && (f[0] == 0 ==> e[0] == 0) && |AtBoundaries(s, e)| > |AtBoundaries(t, f)|
    ensures Raw(query, s) > Raw(query, t)
    ensures |s| <= |t| ==> FuzzyScore(query, s).value >= FuzzyScore(query, t).value
  {
    PointsAre(query, s);
    PointsAre(query, t);
    if |s| <= |t| { BetterScoresNoLower(query, s, t); }
  }

  /** The scan as the source runs it. */
  method FuzzyScoreNormalized(query: Bytes, target: Bytes) returns (r: Option<nat>)
    ensures r == FuzzyScore(query, target)
  {
    if query == [] {
      return Some(0);
    }
    var qi, lastMatch, score := 0, -1, 0;
    var firstMatch: Option<nat> := None;
    for ti := 0 to |target|
      invariant ScanState(query, target, ti, qi, score, lastMatch, firstMatch)
    {
      ScanStep(query, target, ti, qi, score, lastMatch, firstMatch);
      if qi < |query| && ToAsciiLowercase(target[ti]) == query[qi] {
        if qi == 0 {
          firstMatch := Some(ti);
        }
        score := AddPoints(target, ti, lastMatch, score);
        lastMatch := ti;
        qi := qi + 1;
      }
    }
    if qi == |query| {
      r := Finish(query, target, score, firstMatch);
    } else {
      r := None;
    }
  }

  /** The bonus for a match at the start, and the normalisation. */
  method Finish(query: Bytes, target: Bytes, score: nat, firstMatch: Option<nat>) returns (r: Option<nat>)
    requires query != [] && exists last :: ScanState(query, target, |target|, |query|, score, last, firstMatch)
    ensures r == FuzzyScore(query, target)
  {
    var total := score;
    if firstMatch == Some(0) {
      total := total + 10;
    }
    r := Some(total);
    if |target| > 0 {
      r := Some(Normalise(total, |target| - |query|));
    }
  }

  /** Consecutive matches are worth more than those at a word boundary, and those more than others. */
  method AddPoints(target: Bytes, ti: nat, lastMatch: int, score: nat) returns (r: nat)
    requires ti < |target|
    ensures r == score + Points(target, ti, lastMatch)
  {
    if ti == lastMatch + 1 {
      r := score + 5;
    } else if ti == 0 || (ti > 0 && IsBoundaryByte(target[ti - 1])) {
      r := score + 4;
    } else {
      r := score + 1;
    }
  }

  lemma MatchedNext(query: Bytes, target: Bytes, n: nat)
    requires n < |target|
    ensures var e := Matched(query, target, n);
            Matched(query, target, n + 1) ==
            if |e| < |query| && ToAsciiLowercase(target[n]) == query[|e|] then e + [n] else e
  {
  }

  /** What the scan's variables say after `n` octets. */
  ghost predicate ScanState(query: Bytes, target: Bytes, n: nat, qi: nat, score: nat, lastMatch: int, firstMatch: Option<nat>)
    requires n <= |target|
  {
    var e := Matched(query, target, n);
    && qi == |e| && Increasing(e, n)
    && score == Sum(target, e)
    && lastMatch == (if e == [] then -1 else e[|e| - 1])
    && firstMatch == (if e == [] then None else Some(e[0]))
  }

  lemma ScanStep(query: Bytes, target: Bytes, n: nat, qi: nat, score: nat, lastMatch: int, firstMatch: Option<nat>)
    requires n < |target| && ScanState(query, target, n, qi, score, lastMatch, firstMatch)
    ensures if qi < |query| && ToAsciiLowercase(target[n]) == query[qi]
            then ScanState(query, target, n + 1, qi + 1, score + Points(target, n, lastMatch), n, if qi == 0 then Some(n) else firstMatch)
            else ScanState(query, target, n + 1, qi, score, lastMatch, firstMatch)
  {
    var e := Matched(query, target, n);
    MatchedNext(query, target, n);
    if |e| < |query| && ToAsciiLowercase(target[n]) == query[|e|] {
      IncreasingPush(e, n);
      SumPush(target, e, n, e + [n]);
    }
  }

  lemma IncreasingPush(e: seq<nat>, n: nat)
    requires Increasing(e, n)
    ensures Increasing(e + [n], n + 1)
  {
  }

  lemma SumPush(target: Bytes, e: seq<nat>, n: nat, f: seq<nat>)
    requires n < |target| && f == e + [n] && forall i | 0 <= i < |e| :: e[i] < n
    ensures forall i | 0 <= i < |f| :: f[i] < |target|
    ensures Sum(target, f) == Sum(target, e) + Points(target, n, if e == [] then -1 else e[|e| - 1])
  {
    assert |f| == |e| + 1 && f[|e|] == n;
    assert f[..|f| - 1] == e;
    assert e != [] ==> f[|f| - 2] == e[|e| - 1];
  }
}
