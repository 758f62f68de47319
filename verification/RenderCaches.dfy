/** The render caches of src/cli/markdown.rs and src/cli/syntax_highlight.rs: their fields and
    counters, updated in place, proved against LruModel.dfy. */
module RenderCaches {
  import opened Utf8
  import opened LruModel

  const MARKDOWN_CACHE_ENTRIES: nat := 16
  const MARKDOWN_CACHE_BYTES: nat := 8 * 1024 * 1024
  const HIGHLIGHT_CACHE_ENTRIES: nat := 64
  const HIGHLIGHT_CACHE_SOURCE_BYTES: nat := 1024 * 1024
  const HIGHLIGHT_CACHE_RESIDENT_BYTES: nat := 4 * 1024 * 1024

  // ---- markdown

  datatype MarkdownKey = MarkdownKey(text: string, interactiveMode: bool, codeLineLimit: Option<nat>, noColor: bool)

  type RenderedLines = seq<seq<string>>   // lines of spans

  function LineBytes(spans: seq<string>): nat {
    if spans == [] then 0 else LineBytes(spans[..|spans| - 1]) + ByteLen(spans[|spans| - 1])
  }

  function RenderedBytes(lines: RenderedLines): nat {
    if lines == [] then 0 else RenderedBytes(lines[..|lines| - 1]) + LineBytes(lines[|lines| - 1])
  }

  type MarkdownItem = Item<MarkdownKey, RenderedLines>

  /** A markdown entry has no source budget, so it is charged 0 against a budget of 0. */
  function MarkdownEntry(key: MarkdownKey, rendered: RenderedLines): MarkdownItem {
    Item(key, rendered, 0, ByteLen(key.text) + RenderedBytes(rendered))
  }

  const MARKDOWN_CAPS := Caps(MARKDOWN_CACHE_ENTRIES, 0, MARKDOWN_CACHE_BYTES)

  lemma {:induction false} NoSource<K, V>(items: seq<Item<K, V>>)
    requires forall x | x in items :: x.source == 0
    ensures Source(items) == 0
  {
    if items != [] {
      assert items[|items| - 1] in items;
      NoSource(items[..|items| - 1]);
    }
  }

  class MarkdownCache {
    var entries: seq<MarkdownItem>
    var residentBytes: nat
    ghost var leaked: nat   // bytes of entries that `put` evicted

    ghost function View(): Cache<MarkdownKey, RenderedLines>
      reads this
    {
      Cache(entries, 0, leaked)
    }

    /** The counter is the live bytes plus the leaked ones; every entry is what `render` gives. */
    ghost predicate Valid(render: MarkdownKey -> RenderedLines)
      reads this
    {
      && Inv(MARKDOWN_CAPS, View())
      && residentBytes == View().ResidentCounter()
      && forall x | x in entries :: x == MarkdownEntry(x.key, render(x.key))
    }

    constructor (ghost render: MarkdownKey -> RenderedLines)
      ensures Valid(render) && entries == []
    {
      entries, residentBytes, leaked := [], 0, 0;
      new;
      ZeroIsValid(render);
    }

    lemma ZeroIsValid(render: MarkdownKey -> RenderedLines)
      requires |entries| == 0 && residentBytes == leaked == 0
      ensures Valid(render)
    {
    }

    method Get(key: MarkdownKey, ghost render: MarkdownKey -> RenderedLines) returns (r: Option<RenderedLines>)
      requires Valid(render)
      modifies this`entries
      ensures Valid(render) && entries == Touch(old(entries), key)
      ensures r.Some? <==> exists x :: x in old(entries) && x.key == key
      ensures r.Some? ==> r.value == render(key)
    {
      TouchKeeps(entries, key);
      var i := Find(entries, key);
      match i {
        case None => r := None;
        case Some(i) =>
          assert entries[i] in entries;
          r := Some(entries[i].value);
          entries := [entries[i]] + Remove(entries, i);
      }
    }

    method Insert(key: MarkdownKey, rendered: RenderedLines, ghost render: MarkdownKey -> RenderedLines)
      requires Valid(render) && rendered == render(key)
      modifies this
      ensures Valid(render)
      ensures View() == LruModel.Insert(MARKDOWN_CAPS, old(View()), MarkdownEntry(key, rendered))
    {
      var bytes := ByteLen(key.text) + RenderedBytes(rendered);
      if bytes > MARKDOWN_CACHE_BYTES {
        return;
      }
      InsertAccepted(Item(key, rendered, 0, bytes), render);
    }

    method InsertAccepted(item: MarkdownItem, ghost render: MarkdownKey -> RenderedLines)
      requires Valid(render) && Accepts(MARKDOWN_CAPS, item) && item == MarkdownEntry(item.key, render(item.key))
      modifies this
      ensures Valid(render) && View() == LruModel.Insert(MARKDOWN_CAPS, old(View()), item)
    {
      InsertKeepsInv(MARKDOWN_CAPS, View(), item);
      PutMarkdown(item);
      EvictMarkdown(View());
    }

    /** The put and the counter. */
    method PutMarkdown(item: MarkdownItem)
      requires Inv(MARKDOWN_CAPS, View()) && residentBytes == View().ResidentCounter() && item.source == 0
      requires forall x | x in entries :: x.source == 0
      modifies this
      ensures View() == AfterPut(MARKDOWN_CAPS, old(View()), item) && residentBytes == View().ResidentCounter()
      ensures forall x | x in entries :: x.source == 0
    {
      PutSums(entries, MARKDOWN_CACHE_ENTRIES, item);
      PutDistinct(entries, MARKDOWN_CACHE_ENTRIES, item);
      NoSource(entries);
      var p := Put(entries, MARKDOWN_CACHE_ENTRIES, item);
      entries := p.items;
      if p.replaced.Some? {
        residentBytes := residentBytes - p.replaced.value.resident;
      }
      residentBytes := residentBytes + item.resident;
      leaked := leaked + Charge(p.evicted, true);
      NoSource(entries);
    }

    /** The eviction loop. */
    method EvictMarkdown(ghost after: Cache<MarkdownKey, RenderedLines>)
      requires after == View() && residentBytes == after.ResidentCounter() && after.leakedSource == 0
      requires forall x | x in entries :: x.source == 0
      modifies this`entries, this`residentBytes
      ensures View() == Trim(MARKDOWN_CAPS, after) && residentBytes == View().ResidentCounter()
    {
      assert entries[..|entries|] == entries;
      while residentBytes > MARKDOWN_CACHE_BYTES && entries != []
        invariant |entries| <= |after.items| && entries == after.items[..|entries|]
        invariant residentBytes == View().ResidentCounter()
        invariant Trim(MARKDOWN_CAPS, View()) == Trim(MARKDOWN_CAPS, after)
        decreases |entries|
      {
        var n := |entries| - 1;
        TrimStep(MARKDOWN_CAPS, View(), Cache(entries[..n], 0, leaked));
        residentBytes := residentBytes - entries[n].resident;
        assert after.items[..n + 1][..n] == after.items[..n];
        entries := entries[..n];
      }
      NoSource(entries);
    }
  }

  /** Renders through the cache: whatever was cached or evicted before, the result is the renderer's. */
  method RenderStreamedMarkdownCached(cache: MarkdownCache, key: MarkdownKey, render: MarkdownKey -> RenderedLines)
    returns (r: RenderedLines)
    requires cache.Valid(render)
    modifies cache
    ensures cache.Valid(render) && r == render(key)
  {
    var cached := cache.Get(key, render);
    match cached {
      case Some(lines) => r := lines;
      case None =>
        r := render(key);
        cache.Insert(key, r, render);
    }
  }

  // ---- an entry that the markdown cache accepts and forgets

  type MarkdownRenderer = MarkdownKey -> RenderedLines

  function TextKey(n: nat): MarkdownKey { MarkdownKey(Repeat('a', n), true, None, false) }

  /** A word of letters renders as itself. */
  ghost predicate RendersWords(render: MarkdownRenderer) {
    forall n: nat :: render(TextKey(n)) == [[Repeat('a', n)]]
  }

  const LARGE: nat := 4194184   // half of the 8 MiB that words of 1, 2, ..., 15 letters leave

  function WordEntry(render: MarkdownRenderer, n: nat): MarkdownItem { MarkdownEntry(TextKey(n), render(TextKey(n))) }

  /** How many letters the word inserted as number `i` has: first a large one, then `i`. */
  function Letters(i: nat): nat { if i == 0 then LARGE else i }

  lemma WordBytes(render: MarkdownRenderer, n: nat)
    requires RendersWords(render)
    ensures WordEntry(render, n).resident == 2 * n && WordEntry(render, n).source == 0
  {
    RepeatBytes('a', n);
    OneSpanBytes(Repeat('a', n));
  }

  lemma OneSpanBytes(text: string)
    ensures RenderedBytes([[text]]) == ByteLen(text)
  {
    assert [text][..0] == [];
    assert LineBytes([text]) == ByteLen(text);
    assert [[text]][..0] == [];
  }

  function Words(render: MarkdownRenderer, n: nat): (xs: seq<MarkdownItem>)
    ensures |xs| == n && forall i | 0 <= i < n :: xs[i] == WordEntry(render, Letters(i))
  {
    if n == 0 then [] else Words(render, n - 1) + [WordEntry(render, Letters(n - 1))]
  }

  function SumBelow(n: nat): nat { if n == 0 then 0 else SumBelow(n - 1) + (n - 1) }

  lemma {:induction false} WordSums(render: MarkdownRenderer, n: nat)
    requires RendersWords(render) && n >= 1
    ensures Resident(Words(render, n)) == 2 * (LARGE + SumBelow(n)) && Source(Words(render, n)) == 0
  {
    OneMoreWord(render, n);
    if n > 1 { WordSums(render, n - 1); }
  }

  lemma OneMoreWord(render: MarkdownRenderer, n: nat)
    requires RendersWords(render) && n >= 1
    ensures Resident(Words(render, n)) == Resident(Words(render, n - 1)) + 2 * Letters(n - 1)
    ensures Source(Words(render, n)) == Source(Words(render, n - 1))
  {
    assert Words(render, n)[..n - 1] == Words(render, n - 1);
    WordBytes(render, Letters(n - 1));
  }

  lemma KeysDiffer(i: nat, j: nat)
    requires i != j
    ensures TextKey(i) != TextKey(j)
  {
    assert |Repeat('a', i)| == i && |Repeat('a', j)| == j;
  }

  /** A large word, fifteen small ones, then a word of, say, 121 letters, each rendered as itself: the
      new entry is within the budget of 8 MiB and is gone right after its insert, with everything
      else; the counter stays at the bytes of the large entry, which nothing will ever give back. */
  lemma MarkdownForgets(render: MarkdownRenderer, n: nat, m: nat)
    requires RendersWords(render) && n == MARKDOWN_CACHE_ENTRIES
    requires 120 < m <= MARKDOWN_CACHE_BYTES / 2 && m != LARGE
    ensures Accepts(MARKDOWN_CAPS, WordEntry(render, m))
    ensures forall x | x in Words(render, n) + [WordEntry(render, m)] :: x.value == render(x.key)
    ensures var c := RunOps(MARKDOWN_CAPS, Cache([], 0, 0), Insertions(Words(render, n) + [WordEntry(render, m)]));
            c.items == [] && c.ResidentCounter() == 2 * LARGE
  {
    WordBytes(render, m);
    WordsRendered(render, n);
    WordsPrecede(render, n, m);
    WordsForgotten(Words(render, n), WordEntry(render, m));
  }

  lemma WordsRendered(render: MarkdownRenderer, n: nat)
    ensures forall x | x in Words(render, n) :: x.value == render(x.key)
  {
  }

  lemma WordsPrecede(render: MarkdownRenderer, n: nat, m: nat)
    requires RendersWords(render) && n == MARKDOWN_CACHE_ENTRIES && n <= m && m != LARGE
    ensures FitsTogether(MARKDOWN_CAPS, Words(render, n)) && Words(render, n)[0].resident == 2 * LARGE
    ensures forall y | y in Words(render, n) :: y.key != WordEntry(render, m).key
  {
    WordBytes(render, Letters(0));
    WordsFit(render, n);
    KeyIsNew(render, n, m);
  }

  lemma WordsForgotten(xs: seq<MarkdownItem>, x: MarkdownItem)
    requires |xs| == MARKDOWN_CACHE_ENTRIES && FitsTogether(MARKDOWN_CAPS, xs) && Accepts(MARKDOWN_CAPS, x)
    requires (forall y | y in xs :: y.key != x.key) && xs[0].resident == 2 * LARGE && x.resident > 240
    ensures var c := RunOps(MARKDOWN_CAPS, Cache([], 0, 0), Insertions(xs + [x]));
            c.items == [] && c.ResidentCounter() == 2 * LARGE
  {
    AcceptedButNotRetained(MARKDOWN_CAPS, xs, x);
  }

  lemma KeyIsNew(render: MarkdownRenderer, n: nat, m: nat)
    requires n <= m && m != LARGE
    ensures forall y | y in Words(render, n) :: y.key != WordEntry(render, m).key
  {
    forall y | y in Words(render, n) ensures y.key != WordEntry(render, m).key {
      var i :| 0 <= i < n && Words(render, n)[i] == y;
      KeysDiffer(Letters(i), m);
    }
  }

  lemma WordsFit(render: MarkdownRenderer, n: nat)
    requires RendersWords(render) && n == MARKDOWN_CACHE_ENTRIES
    ensures FitsTogether(MARKDOWN_CAPS, Words(render, n))
  {
    WordSums(render, n);
    SumBelowSixteen();
    WordsDistinct(render, n);
  }

  lemma WordsDistinct(render: MarkdownRenderer, n: nat)
    requires n <= LARGE
    ensures Distinct(Words(render, n))
  {
    var xs := Words(render, n);
    forall i, j | 0 <= i < j < |xs| ensures xs[i].key != xs[j].key { KeysDiffer(Letters(i), Letters(j)); }
  }

  lemma SumBelowSixteen()
    ensures SumBelow(16) == 120
  {
    assert SumBelow(4) == 6;
    assert SumBelow(8) == 28;
    assert SumBelow(12) == 66;
  }

  // ---- syntax highlighting

  datatype HighlightKey = HighlightKey(code: string, language: string, noColor: bool)

  type HighlightItem = Item<HighlightKey, string>

  function HighlightEntry(key: HighlightKey, rendered: string): HighlightItem {
    Item(key, rendered, ByteLen(key.code), ByteLen(key.code) + ByteLen(key.language) + ByteLen(rendered))
  }

  const HIGHLIGHT_CAPS := Caps(HIGHLIGHT_CACHE_ENTRIES, HIGHLIGHT_CACHE_SOURCE_BYTES, HIGHLIGHT_CACHE_RESIDENT_BYTES)

  class HighlightCache {
    var entries: seq<HighlightItem>
    var sourceBytes: nat
    var residentBytes: nat
    ghost var leakedSource: nat
    ghost var leakedResident: nat

    ghost function View(): Cache<HighlightKey, string>
      reads this
    {
      Cache(entries, leakedSource, leakedResident)
    }

    ghost predicate CountersMatch()
      reads this
    {
      sourceBytes == View().SourceCounter() && residentBytes == View().ResidentCounter()
    }

    ghost predicate Valid()
      reads this
    {
      Inv(HIGHLIGHT_CAPS, View()) && CountersMatch()
    }

    constructor ()
      ensures Valid() && entries == []
    {
      entries, sourceBytes, residentBytes, leakedSource, leakedResident := [], 0, 0, 0, 0;
      new;
      ZeroIsValid();
    }

    lemma ZeroIsValid()
      requires |entries| == 0 && sourceBytes == residentBytes == leakedSource == leakedResident == 0
      ensures Valid()
    {
    }

    method Insert(key: HighlightKey, rendered: string)
      requires Valid()
      modifies this
      ensures Valid()
      ensures View() == LruModel.Insert(HIGHLIGHT_CAPS, old(View()), HighlightEntry(key, rendered))
    {
      var source := ByteLen(key.code);
      var resident := source + ByteLen(key.language) + ByteLen(rendered);
      if source > HIGHLIGHT_CACHE_SOURCE_BYTES || resident > HIGHLIGHT_CACHE_RESIDENT_BYTES {
        return;
      }
      InsertAccepted(Item(key, rendered, source, resident));
    }

    method InsertAccepted(item: HighlightItem)
      requires Valid() && Accepts(HIGHLIGHT_CAPS, item)
      modifies this
      ensures Valid() && View() == LruModel.Insert(HIGHLIGHT_CAPS, old(View()), item)
    {
      InsertKeepsInv(HIGHLIGHT_CAPS, View(), item);
      PutHighlight(item);
      EvictHighlight(View());
    }

    /** The put and the counters. */
    method PutHighlight(item: HighlightItem)
      requires Valid()
      modifies this
      ensures CountersMatch() && View() == AfterPut(HIGHLIGHT_CAPS, old(View()), item)
    {
      PutSums(entries, HIGHLIGHT_CACHE_ENTRIES, item);
      var p := Put(entries, HIGHLIGHT_CACHE_ENTRIES, item);
      entries := p.items;
      if p.replaced.Some? {
        sourceBytes := sourceBytes - p.replaced.value.source;
        residentBytes := residentBytes - p.replaced.value.resident;
      }
      sourceBytes := sourceBytes + item.source;
      residentBytes := residentBytes + item.resident;
      leakedSource := leakedSource + Charge(p.evicted, false);
      leakedResident := leakedResident + Charge(p.evicted, true);
    }

    /** The eviction loop. */
    method EvictHighlight(ghost after: Cache<HighlightKey, string>)
      requires after == View() && CountersMatch()
      modifies this`entries, this`sourceBytes, this`residentBytes
      ensures View() == Trim(HIGHLIGHT_CAPS, after) && CountersMatch()
    {
      assert entries[..|entries|] == entries;
      while (sourceBytes > HIGHLIGHT_CACHE_SOURCE_BYTES || residentBytes > HIGHLIGHT_CACHE_RESIDENT_BYTES) && entries != []
        invariant |entries| <= |after.items| && entries == after.items[..|entries|]
        invariant CountersMatch()
        invariant Trim(HIGHLIGHT_CAPS, View()) == Trim(HIGHLIGHT_CAPS, after)
        decreases |entries|
      {
        var n := |entries| - 1;
        TrimStep(HIGHLIGHT_CAPS, View(), Cache(entries[..n], leakedSource, leakedResident));
        sourceBytes := sourceBytes - entries[n].source;
        residentBytes := residentBytes - entries[n].resident;
        assert after.items[..n + 1][..n] == after.items[..n];
        entries := entries[..n];
      }
    }
  }
}
