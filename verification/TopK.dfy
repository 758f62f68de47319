/** The bounded-heap ranking of search_workspace_files_with_status (src/core/file_search.rs). */
module TopK {
  import opened Utf8
  import opened FuzzyMatch

  datatype Candidate = Candidate(score: nat, path: Bytes, index: nat)

  /** `str` order: bytes, lexicographically. */
  predicate PathLess(a: Bytes, b: Bytes) {
    if b == [] then false
    else if a == [] then true
    else a[0] < b[0] || (a[0] == b[0] && PathLess(a[1..], b[1..]))
  }

  /** `c.cmp(&d).is_lt()`: the better candidate is the smaller one. */
  predicate Better(c: Candidate, d: Candidate) {
    || c.score > d.score
    || (c.score == d.score && (PathLess(c.path, d.path) || (c.path == d.path && c.index < d.index)))
  }

  lemma {:induction false} PathLessTransitive(a: Bytes, b: Bytes, c: Bytes)
    requires PathLess(a, b) && PathLess(b, c)
    ensures PathLess(a, c)
  {
    if a != [] && a[0] == b[0] == c[0] { PathLessTransitive(a[1..], b[1..], c[1..]); }
  }

  lemma {:induction false} PathLessTotal(a: Bytes, b: Bytes)
    ensures PathLess(a, b) || PathLess(b, a) || a == b
    ensures !(PathLess(a, b) && PathLess(b, a)) && !PathLess(a, a)
  {
    if a != [] && b != [] && a[0] == b[0] {
      PathLessTotal(a[1..], b[1..]);
      if a[1..] == b[1..] { assert a == [a[0]] + a[1..] && b == [b[0]] + b[1..]; }
    }
    if a != [] { PathLessTotal(a[1..], a[1..]); }
  }

  lemma BetterTransitive(c: Candidate, d: Candidate, e: Candidate)
    requires Better(c, d) && Better(d, e)
    ensures Better(c, e)
  {
    if PathLess(c.path, d.path) && PathLess(d.path, e.path) { PathLessTransitive(c.path, d.path, e.path); }
  }

  lemma BetterTotal(c: Candidate, d: Candidate)
    ensures Better(c, d) || Better(d, c) || c == d
    ensures !(Better(c, d) && Better(d, c)) && !Better(c, c)
  {
    PathLessTotal(c.path, d.path);
    PathLessTotal(c.path, c.path);
  }

  ghost predicate Ranked(s: seq<Candidate>) {
    forall i, j | 0 <= i < j < |s| :: !Better(s[j], s[i])
  }

  function Insert(c: Candidate, s: seq<Candidate>): (r: seq<Candidate>)
    ensures |r| == |s| + 1 && multiset(r) == multiset(s) + multiset{c}
  {
    if s == [] then [c]
    else if Better(c, s[0]) then [c] + s
    else
      assert s == [s[0]] + s[1..];
      [s[0]] + Insert(c, s[1..])
  }

  /** The reference ranking: sort everything, best first. */
  function Sort(s: seq<Candidate>): (r: seq<Candidate>)
    ensures |r| == |s| && multiset(r) == multiset(s)
  {
    if s == [] then [] else
    var n := |s| - 1;
    assert s == s[..n] + [s[n]];
    Insert(s[n], Sort(s[..n]))
  }

  lemma {:induction false} InsertRanked(c: Candidate, s: seq<Candidate>)
    requires Ranked(s)
    ensures Ranked(Insert(c, s))
  {
    if s == [] {
    } else if Better(c, s[0]) {
      forall j | 0 <= j < |s| ensures !Better(s[j], c) {
        BetterTotal(s[0], s[0]);
        assert !Better(s[j], s[0]);
        if Better(s[j], c) { BetterTransitive(s[j], c, s[0]); }
      }
    } else {
      InsertRanked(c, s[1..]);
      var r := Insert(c, s[1..]);
      forall j | 0 <= j < |r| ensures !Better(r[j], s[0]) {
        assert r[j] in multiset(s[1..]) + multiset{c};
        if r[j] != c { var k :| 0 <= k < |s[1..]| && s[1..][k] == r[j]; assert s[k + 1] == r[j]; }
      }
    }
  }

  lemma {:induction false} SortRanked(s: seq<Candidate>)
    ensures Ranked(Sort(s))
  {
    if s != [] {
      SortRanked(s[..|s| - 1]);
      InsertRanked(s[|s| - 1], Sort(s[..|s| - 1]));
    }
  }

  lemma RankedHeads(a: seq<Candidate>, b: seq<Candidate>)
    requires Ranked(a) && Ranked(b) && multiset(a) == multiset(b) && a != [] && b != []
    ensures a[0] == b[0]
  {
    assert a[0] in multiset(b) && b[0] in multiset(a);
    var i :| 0 <= i < |b| && b[i] == a[0];
    var j :| 0 <= j < |a| && a[j] == b[0];
    assert a[0] == b[i] && b[0] == a[j];
    assert i == 0 || !Better(b[i], b[0]);
    assert j == 0 || !Better(a[j], a[0]);
    BetterTotal(a[0], b[0]);
  }

  lemma TailMultiset(a: seq<Candidate>)
    requires a != []
    ensures multiset(a[1..]) == multiset(a) - multiset{a[0]}
  {
    assert a == [a[0]] + a[1..];
  }

  /** There is only one ranking of a multiset, so every correct sort agrees with `Sort`. */
  lemma {:induction false} RankedUnique(a: seq<Candidate>, b: seq<Candidate>)
    requires Ranked(a) && Ranked(b) && multiset(a) == multiset(b)
    ensures a == b
  {
    assert |a| == |multiset(a)| == |multiset(b)| == |b|;
    if a != [] {
      RankedHeads(a, b);
      TailMultiset(a);
      TailMultiset(b);
      assert a == [a[0]] + a[1..] && b == [b[0]] + b[1..];
      RankedUnique(a[1..], b[1..]);
    }
  }

  function Take(s: seq<Candidate>, k: nat): seq<Candidate> { if |s| <= k then s else s[..k] }

  /** Inserting into the kept prefix, and dropping what no longer fits, is inserting into the whole. */
  lemma {:induction false} TakeInsert(c: Candidate, s: seq<Candidate>, k: nat)
    ensures Take(Insert(c, s), k) == Take(Insert(c, Take(s, k)), k)
  {
    if s != [] && k > 0 && |s| > k {
      var t := Take(s, k);
      assert t[0] == s[0] && t == [s[0]] + Take(s[1..], k - 1);
      if Better(c, s[0]) {
        assert ([c] + s)[..k] == [c] + s[..k - 1] == ([c] + t)[..k];
      } else {
        TakeInsert(c, s[1..], k - 1);
        assert t[1..] == Take(s[1..], k - 1);
        assert Take([s[0]] + Insert(c, s[1..]), k) == [s[0]] + Take(Insert(c, s[1..]), k - 1);
        assert Take([s[0]] + Insert(c, t[1..]), k) == [s[0]] + Take(Insert(c, t[1..]), k - 1);
      }
    }
  }

  /** The matching entries among the first `n`, as candidates in index order. */
  function Matches(query: Bytes, paths: seq<Bytes>, n: nat): (m: seq<Candidate>)
    requires n <= |paths|
    ensures forall c | c in m :: c.index < n
  {
    if n == 0 then [] else
    var m := Matches(query, paths, n - 1);
    match FuzzyScore(query, paths[n - 1])
    case Some(score) => m + [Candidate(score, paths[n - 1], n - 1)]
    case None => m
  }

  /** A heap of the source only promises which element is the worst. */
  ghost predicate IsWorst(heap: seq<Candidate>, w: nat) {
    w < |heap| && forall i | 0 <= i < |heap| :: !Better(heap[w], heap[i])
  }

  /** `BinaryHeap::peek`: the position of the greatest element. */
  method PeekWorst(heap: seq<Candidate>) returns (w: nat)
    requires heap != []
    ensures IsWorst(heap, w)
  {
    w := 0;
    BetterTotal(heap[0], heap[0]);
    for i := 1 to |heap|
      invariant w < i && forall j | 0 <= j < i :: !Better(heap[w], heap[j])
    {
      BetterTotal(heap[w], heap[i]);
      BetterTotal(heap[i], heap[i]);
      if Better(heap[w], heap[i]) {
        forall j | 0 <= j < i ensures !Better(heap[i], heap[j]) {
          if Better(heap[i], heap[j]) { BetterTransitive(heap[w], heap[i], heap[j]); }
        }
        w := i;
      }
    }
  }

  lemma WorstIsLast(heap: seq<Candidate>, w: nat)
    requires IsWorst(heap, w)
    ensures Sort(heap)[|heap| - 1] == heap[w]
  {
    SortRanked(heap);
    WorstEndsRanking(heap, w, Sort(heap));
  }

  lemma WorstEndsRanking(heap: seq<Candidate>, w: nat, s: seq<Candidate>)
    requires IsWorst(heap, w) && Ranked(s) && multiset(s) == multiset(heap) && |s| == |heap|
    ensures s[|heap| - 1] == heap[w]
  {
    var n := |heap| - 1;
    var i := PlaceOf(heap, s, w);
    var j := PlaceOf(s, heap, n);
    assert !Better(heap[w], heap[j]);
    BetterTotal(s[n], s[i]);
    assert i == n || !Better(s[n], s[i]);
  }

  lemma PlaceOf(a: seq<Candidate>, b: seq<Candidate>, i: nat) returns (j: nat)
    requires i < |a| && multiset(a) == multiset(b)
    ensures j < |b| && b[j] == a[i]
  {
    assert a[i] in multiset(a);
    assert a[i] in multiset(b);
    j :| 0 <= j < |b| && b[j] == a[i];
  }

  lemma InsertIsSort(heap: seq<Candidate>, c: Candidate)
    ensures Insert(c, Sort(heap)) == Sort(heap + [c])
  {
    assert (heap + [c])[..|heap|] == heap;
  }

  lemma InsertWorst(c: Candidate, s: seq<Candidate>)
    requires s != [] && Ranked(s) && !Better(c, s[|s| - 1])
    ensures Take(Insert(c, s), |s|) == s
  {
    forall i | 0 <= i < |s| ensures !Better(c, s[i]) { WorstBound(c, s, i); }
    InsertAppends(c, s);
  }

  lemma WorstBound(c: Candidate, s: seq<Candidate>, i: nat)
    requires Ranked(s) && i < |s| && !Better(c, s[|s| - 1])
    ensures !Better(c, s[i])
  {
    var last := s[|s| - 1];
    BetterTotal(s[i], last);
    if Better(c, s[i]) && Better(s[i], last) { BetterTransitive(c, s[i], last); }
  }

  lemma {:induction false} InsertAppends(c: Candidate, s: seq<Candidate>)
    requires forall i | 0 <= i < |s| :: !Better(c, s[i])
    ensures Insert(c, s) == s + [c]
  {
    if s != [] {
      InsertAppends(c, s[1..]);
      assert s == [s[0]] + s[1..];
    }
  }

  lemma InitMultiset(r: seq<Candidate>, n: nat)
    requires |r| == n + 1
    ensures multiset(r[..n]) == multiset(r) - multiset{r[n]}
  {
    assert r == r[..n] + [r[n]];
  }

  lemma InitRanked(r: seq<Candidate>, n: nat)
    requires Ranked(r) && n <= |r|
    ensures Ranked(r[..n])
  {
  }

  lemma ReplaceMultiset(heap: seq<Candidate>, w: nat, c: Candidate)
    requires w < |heap|
    ensures multiset(heap[w := c]) == multiset(heap) + multiset{c} - multiset{heap[w]}
  {
  }

  /** Overwriting the worst element by a better one keeps the best of both. */
  lemma ReplaceWorst(heap: seq<Candidate>, w: nat, c: Candidate)
    requires IsWorst(heap, w) && Better(c, heap[w])
    ensures Sort(heap[w := c]) == Take(Insert(c, Sort(heap)), |heap|)
  {
    var r := Insert(c, Sort(heap));
    WorstIsLast(heap, w);
    SortRanked(heap);
    SortRanked(heap[w := c]);
    InsertRanked(c, Sort(heap));
    LastIsWorst(c, Sort(heap));
    InitRanked(r, |heap|);
    InitMultiset(r, |heap|);
    ReplaceMultiset(heap, w, c);
    RankedUnique(Sort(heap[w := c]), r[..|heap|]);
  }

  lemma {:induction false} LastIsWorst(c: Candidate, s: seq<Candidate>)
    requires s != [] && Better(c, s[|s| - 1])
    ensures Insert(c, s)[|s|] == s[|s| - 1]
  {
    if !Better(c, s[0]) { LastIsWorst(c, s[1..]); }
  }

  // ---- what the best matches are

  /** The first difference of the paths, an octet or the end of the first one, is at `k`. */
  predicate ComesFirstAt(a: Bytes, b: Bytes, k: nat) {
    k <= |a| && k < |b| && a[..k] == b[..k] && (k == |a| || a[k] < b[k])
  }

  ghost predicate ComesFirst(a: Bytes, b: Bytes) {
    exists k: nat :: ComesFirstAt(a, b, k)
  }

  lemma {:induction false} PathLessIff(a: Bytes, b: Bytes)
    ensures PathLess(a, b) <==> ComesFirst(a, b)
  {
    if a == [] || b == [] {
      if b != [] { assert ComesFirstAt(a, b, 0); }
    } else {
      PathLessIff(a[1..], b[1..]);
      if a[0] < b[0] { assert ComesFirstAt(a, b, 0); }
      if a[0] == b[0] { TailsComeFirstIff(a, b); }
    }
  }

  lemma TailsComeFirstIff(a: Bytes, b: Bytes)
    requires a != [] && b != [] && a[0] == b[0]
    ensures ComesFirst(a[1..], b[1..]) <==> ComesFirst(a, b)
  {
    if ComesFirst(a[1..], b[1..]) {
      var k: nat :| ComesFirstAt(a[1..], b[1..], k);
      assert a[..k + 1] == [a[0]] + a[1..][..k] && b[..k + 1] == [b[0]] + b[1..][..k];
      assert ComesFirstAt(a, b, k + 1);
    }
    if ComesFirst(a, b) {
      var k: nat :| ComesFirstAt(a, b, k);
      assert k > 0;
      assert a[1..][..k - 1] == a[..k][1..] && b[1..][..k - 1] == b[..k][1..];
      assert ComesFirstAt(a[1..], b[1..], k - 1);
    }
  }

  ghost predicate IsMatch(query: Bytes, paths: seq<Bytes>, i: nat) {
    i < |paths| && FuzzyScore(query, paths[i]).Some?
  }

  ghost function Score(query: Bytes, paths: seq<Bytes>, i: nat): nat
    requires IsMatch(query, paths, i)
  {
    FuzzyScore(query, paths[i]).value
  }

  /** A higher score goes ahead, then the path that comes first, then the earlier entry. */
  ghost predicate GoesAhead(query: Bytes, paths: seq<Bytes>, i: nat, j: nat)
    requires IsMatch(query, paths, i) && IsMatch(query, paths, j)
  {
    && Score(query, paths, i) >= Score(query, paths, j)
    && (Score(query, paths, i) == Score(query, paths, j) ==>
          if paths[i] == paths[j] then i < j else ComesFirst(paths[i], paths[j]))
  }

  ghost function MatchSet(query: Bytes, paths: seq<Bytes>, n: nat): set<nat>
    requires n <= |paths|
  {
    set i: nat | i < n && FuzzyScore(query, paths[i]).Some?
  }

  /** These are the best matches, best first: each one goes ahead of the later ones and of every
      match left out, and a match is left out only for the limit. */
  ghost predicate AreTop(query: Bytes, paths: seq<Bytes>, limit: nat, top: seq<nat>) {
    && (forall a | 0 <= a < |top| :: IsMatch(query, paths, top[a]))
    && (forall a, b | 0 <= a < b < |top| :: top[a] != top[b] && GoesAhead(query, paths, top[a], top[b]))
    && (forall a, m: nat | 0 <= a < |top| && IsMatch(query, paths, m) && m !in top :: GoesAhead(query, paths, top[a], m))
    && |top| == var n := |MatchSet(query, paths, |paths|)|; if n < limit then n else limit
  }

  lemma {:induction false} MatchesCount(query: Bytes, paths: seq<Bytes>, n: nat)
    requires n <= |paths|
    ensures |Matches(query, paths, n)| == |MatchSet(query, paths, n)|
  {
    if n > 0 {
      MatchesCount(query, paths, n - 1);
      MatchSetNext(query, paths, n - 1);
      MatchesNext(query, paths, n - 1);
    }
  }

  lemma MatchesNext(query: Bytes, paths: seq<Bytes>, n: nat)
    requires n < |paths|
    ensures |Matches(query, paths, n + 1)| == |Matches(query, paths, n)| + if FuzzyScore(query, paths[n]).Some? then 1 else 0
  {
  }

  lemma {:induction false} MatchesOnce(query: Bytes, paths: seq<Bytes>, n: nat, c: Candidate)
    requires n <= |paths|
    ensures multiset(Matches(query, paths, n))[c] <= 1
    ensures c.index >= n ==> c !in multiset(Matches(query, paths, n))
  {
    if n > 0 { MatchesOnce(query, paths, n - 1, c); }
  }

  lemma MatchSetNext(query: Bytes, paths: seq<Bytes>, n: nat)
    requires n < |paths|
    ensures |MatchSet(query, paths, n + 1)| == |MatchSet(query, paths, n)| + if FuzzyScore(query, paths[n]).Some? then 1 else 0
  {
    if FuzzyScore(query, paths[n]).Some? {
      assert MatchSet(query, paths, n + 1) == MatchSet(query, paths, n) + {n};
    } else {
      assert MatchSet(query, paths, n + 1) == MatchSet(query, paths, n);
    }
  }

  lemma NoneTwice(s: seq<Candidate>, i: nat, j: nat)
    requires i < j < |s| && multiset(s)[s[i]] <= 1
    ensures s[i] != s[j]
  {
    assert s == s[..j] + s[j..];
    assert s[i] in s[..j] && s[j] in s[j..];
    assert multiset(s)[s[i]] == multiset(s[..j])[s[i]] + multiset(s[j..])[s[i]];
  }

  /** The candidate of a match. */
  ghost function AsCandidate(query: Bytes, paths: seq<Bytes>, i: nat): Candidate
    requires IsMatch(query, paths, i)
  {
    Candidate(Score(query, paths, i), paths[i], i)
  }

  lemma BetterIff(query: Bytes, paths: seq<Bytes>, i: nat, j: nat)
    requires IsMatch(query, paths, i) && IsMatch(query, paths, j) && i != j
    ensures Better(AsCandidate(query, paths, i), AsCandidate(query, paths, j)) <==> GoesAhead(query, paths, i, j)
  {
    PathLessIff(paths[i], paths[j]);
    PathLessTotal(paths[i], paths[j]);
    PathLessTotal(paths[i], paths[i]);
  }

  lemma SortedCandidates(query: Bytes, paths: seq<Bytes>)
    ensures var all := Sort(Matches(query, paths, |paths|));
            && (forall c | c in all :: IsMatch(query, paths, c.index) && c == AsCandidate(query, paths, c.index))
            && (forall m: nat | IsMatch(query, paths, m) :: AsCandidate(query, paths, m) in all)
            && (forall i, j | 0 <= i < j < |all| :: all[i].index != all[j].index && Better(all[i], all[j]))
  {
    var m := Matches(query, paths, |paths|);
    var all := Sort(m);
    MatchesPaths(query, paths, |paths|);
    SortedMembers(m);
    forall i, j | 0 <= i < j < |all| ensures all[i].index != all[j].index && Better(all[i], all[j]) {
      SortedApart(query, paths, i, j);
      assert all[i] in m && all[j] in m;
    }
  }

  lemma SortedMembers(m: seq<Candidate>)
    ensures forall c :: c in Sort(m) <==> c in m
  {
    var all := Sort(m);
    SortRanked(m);
    forall c ensures c in all <==> c in m { assert c in multiset(all) <==> c in multiset(m); }
  }

  lemma SortedApart(query: Bytes, paths: seq<Bytes>, i: nat, j: nat)
    requires i < j < |Sort(Matches(query, paths, |paths|))|
    ensures var all := Sort(Matches(query, paths, |paths|)); all[i] != all[j] && Better(all[i], all[j])
  {
    var all := Sort(Matches(query, paths, |paths|));
    SortRanked(Matches(query, paths, |paths|));
    MatchesOnce(query, paths, |paths|, all[i]);
    NoneTwice(all, i, j);
    BetterTotal(all[i], all[j]);
  }

  ghost predicate ArePrefix(top: seq<nat>, all: seq<Candidate>) {
    |top| <= |all| && forall i | 0 <= i < |top| :: top[i] == all[i].index
  }

  lemma LeftOut(all: seq<Candidate>, top: seq<nat>, j: nat)
    requires ArePrefix(top, all)
    requires j < |all| && all[j].index !in top
    ensures j >= |top|
  {
  }

  lemma RankingCount(query: Bytes, paths: seq<Bytes>)
    ensures |Sort(Matches(query, paths, |paths|))| == |MatchSet(query, paths, |paths|)|
  {
    MatchesCount(query, paths, |paths|);
    SortRanked(Matches(query, paths, |paths|));
  }

  /** The kept prefix of the ranking holds the best matches. */
  lemma RankingIsTop(query: Bytes, paths: seq<Bytes>, limit: nat, top: seq<nat>)
    requires var ranking := Take(Sort(Matches(query, paths, |paths|)), limit);
             |top| == |ranking| && forall i | 0 <= i < |top| :: top[i] == ranking[i].index
    ensures AreTop(query, paths, limit, top)
  {
    RankingCount(query, paths);
    assert ArePrefix(top, Sort(Matches(query, paths, |paths|)));
    forall a | 0 <= a < |top| ensures IsMatch(query, paths, top[a]) { TopMatches(query, paths, top, a); }
    forall a, b | 0 <= a < b < |top| ensures top[a] != top[b] && GoesAhead(query, paths, top[a], top[b]) {
      AheadOfLater(query, paths, top, a, b);
    }
    forall a, m: nat | 0 <= a < |top| && IsMatch(query, paths, m) && m !in top ensures GoesAhead(query, paths, top[a], m) {
      AheadOfRest(query, paths, top, a, m);
    }
  }

  lemma TopMatches(query: Bytes, paths: seq<Bytes>, top: seq<nat>, a: nat)
    requires ArePrefix(top, Sort(Matches(query, paths, |paths|)))
    requires a < |top|
    ensures IsMatch(query, paths, top[a])
  {
    SortedCandidates(query, paths);
    var all := Sort(Matches(query, paths, |paths|));
    assert all[a] in all;
  }

  lemma AheadOfLater(query: Bytes, paths: seq<Bytes>, top: seq<nat>, a: nat, b: nat)
    requires ArePrefix(top, Sort(Matches(query, paths, |paths|)))
    requires a < b < |top|
    ensures IsMatch(query, paths, top[a]) && IsMatch(query, paths, top[b])
    ensures top[a] != top[b] && GoesAhead(query, paths, top[a], top[b])
  {
    SortedCandidates(query, paths);
    var all := Sort(Matches(query, paths, |paths|));
    assert all[a] in all && all[b] in all;
    BetterIff(query, paths, top[a], top[b]);
  }

  lemma AheadOfRest(query: Bytes, paths: seq<Bytes>, top: seq<nat>, a: nat, m: nat)
    requires ArePrefix(top, Sort(Matches(query, paths, |paths|)))
    requires a < |top| && IsMatch(query, paths, m) && m !in top
    ensures IsMatch(query, paths, top[a]) && GoesAhead(query, paths, top[a], m)
  {
    SortedCandidates(query, paths);
    var all := Sort(Matches(query, paths, |paths|));
    var j :| 0 <= j < |all| && all[j] == AsCandidate(query, paths, m);
    LeftOut(all, top, j);
    assert all[a] in all;
    BetterIff(query, paths, top[a], m);
  }

  /** One pass with a heap of at most `limit` candidates yields the first `limit` of the complete
      ranking: every query, index list and limit, zero included. */
  method RankTop(query: Bytes, paths: seq<Bytes>, limit: nat) returns (top: seq<nat>)
    ensures var ranking := Take(Sort(Matches(query, paths, |paths|)), limit);
            |top| == |ranking| && forall i | 0 <= i < |top| :: top[i] == ranking[i].index
    ensures AreTop(query, paths, limit, top)
  {
    var heap: seq<Candidate> := [];
    for index := 0 to |paths|
      invariant |heap| <= limit
      invariant Sort(heap) == Take(Sort(Matches(query, paths, index)), limit)
    {
      var score := FuzzyScoreNormalized(query, paths[index]);
      if score.Some? {
        OfferIsNext(query, paths, index, limit, score.value);
        heap := Offer(heap, Candidate(score.value, paths[index], index), limit);
      }
    }
    top := Indices(Sort(heap));
    RankingIsTop(query, paths, limit, top);
  }

  /** `into_sorted_vec().map(|c| c.index)` */
  function Indices(sorted: seq<Candidate>): (r: seq<nat>)
    ensures |r| == |sorted| && forall i | 0 <= i < |r| :: r[i] == sorted[i].index
  {
    seq(|sorted|, i requires 0 <= i < |sorted| => sorted[i].index)
  }

  lemma OfferIsNext(query: Bytes, paths: seq<Bytes>, index: nat, limit: nat, score: nat)
    requires index < |paths| && FuzzyScore(query, paths[index]) == Some(score)
    ensures Take(Insert(Candidate(score, paths[index], index), Take(Sort(Matches(query, paths, index)), limit)), limit) ==
            Take(Sort(Matches(query, paths, index + 1)), limit)
  {
    var c := Candidate(score, paths[index], index);
    InsertIsSort(Matches(query, paths, index), c);
    TakeInsert(c, Sort(Matches(query, paths, index)), limit);
  }

  /** Push while there is room, else replace the worst if the newcomer is better. */
  method Offer(heap: seq<Candidate>, c: Candidate, limit: nat) returns (heap': seq<Candidate>)
    requires |heap| <= limit
    ensures |heap'| <= limit
    ensures Sort(heap') == Take(Insert(c, Sort(heap)), limit)
  {
    if |heap| < limit {
      InsertIsSort(heap, c);
      heap' := heap + [c];
    } else if heap != [] {
      var worst := PeekWorst(heap);
      WorstIsLast(heap, worst);
      SortRanked(heap);
      if Better(c, heap[worst]) {
        ReplaceWorst(heap, worst, c);
        heap' := heap[worst := c];
      } else {
        InsertWorst(c, Sort(heap));
        heap' := heap;
      }
    } else {
      heap' := heap;
    }
  }

  /** `trim_start_matches('/')` */
  function WithoutSlashes(query: string): (r: string)
    ensures r == [] || r[0] != '/'
    ensures |r| <= |query| && r == query[|query| - |r|..] && forall i | 0 <= i < |query| - |r| :: query[i] == '/'
  {
    if query != [] && query[0] == '/' then WithoutSlashes(query[1..]) else query
  }

  /** A blank query lists the first entries of the index; any other query is ranked, lower-cased and
      without the slashes in front. `lower` is the Unicode lower-casing of the query, as octets. */
  method SearchWorkspaceFiles(query: string, lower: string -> Bytes, paths: seq<Bytes>, limit: nat) returns (results: seq<Bytes>)
    ensures TrimEnd(TrimStart(query)) == [] ==> results == if |paths| <= limit then paths else paths[..limit]
    ensures TrimEnd(TrimStart(query)) != [] ==>
              ListsTop(lower(WithoutSlashes(query)), paths, limit, results)
  {
    if TrimEnd(TrimStart(query)) == [] {
      return if |paths| <= limit then paths else paths[..limit];
    }
    results := RankedPaths(lower(WithoutSlashes(query)), paths, limit);
  }

  method RankedPaths(query: Bytes, paths: seq<Bytes>, limit: nat) returns (results: seq<Bytes>)
    ensures ListsTop(query, paths, limit, results)
  {
    var top := RankTop(query, paths, limit);
    results := PathsAt(paths, top);
  }

  /** These are the paths of the best matches, best first. */
  ghost predicate ListsTop(query: Bytes, paths: seq<Bytes>, limit: nat, results: seq<Bytes>) {
    exists top: seq<nat> ::
      && AreTop(query, paths, limit, top) && |top| == |results|
      && forall i | 0 <= i < |top| :: top[i] < |paths| && results[i] == paths[top[i]]
  }

  /** `filter_map(|index| files.get(index))` for indices in range. */
  function PathsAt(paths: seq<Bytes>, top: seq<nat>): (r: seq<Bytes>)
    requires forall i | 0 <= i < |top| :: top[i] < |paths|
    ensures |r| == |top| && forall i | 0 <= i < |top| :: r[i] == paths[top[i]]
  {
    seq(|top|, i requires 0 <= i < |top| => paths[top[i]])
  }

  lemma {:induction false} MatchesPaths(query: Bytes, paths: seq<Bytes>, n: nat)
    requires n <= |paths|
    ensures forall c | c in Matches(query, paths, n) :: c.index < |paths| && c.path == paths[c.index] && FuzzyScore(query, c.path) == Some(c.score)
    ensures forall i | 0 <= i < n && FuzzyScore(query, paths[i]).Some? ::
              Candidate(FuzzyScore(query, paths[i]).value, paths[i], i) in Matches(query, paths, n)
  {
    if n > 0 { MatchesPaths(query, paths, n - 1); }
  }
}
