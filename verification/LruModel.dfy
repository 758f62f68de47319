/** LRU caches with byte budgets. An LRU list is a sequence, most recently used first; `Put` is the
    contract of `LruCache::put`, which returns the old value on a key hit only and otherwise evicts
    silently at capacity. */
module LruModel {
  import opened Utf8

  /** An entry and the bytes it is charged for. */
  datatype Item<K, V> = Item(key: K, value: V, source: nat, resident: nat)

  function Source<K, V>(items: seq<Item<K, V>>): nat {
    if items == [] then 0 else Source(items[..|items| - 1]) + items[|items| - 1].source
  }

  function Resident<K, V>(items: seq<Item<K, V>>): nat {
    if items == [] then 0 else Resident(items[..|items| - 1]) + items[|items| - 1].resident
  }

  predicate Distinct<K(==), V>(items: seq<Item<K, V>>) {
    forall i, j | 0 <= i < j < |items| :: items[i].key != items[j].key
  }

  function Find<K(==), V>(items: seq<Item<K, V>>, key: K): (r: Option<nat>)
    ensures r.Some? ==> r.value < |items| && items[r.value].key == key
    ensures r.None? ==> forall i | 0 <= i < |items| :: items[i].key != key
  {
    if items == [] then None
    else if items[|items| - 1].key == key then Some(|items| - 1)
    else Find(items[..|items| - 1], key)
  }

  function Remove<T>(s: seq<T>, i: nat): seq<T>
    requires i < |s|
  {
    s[..i] + s[i + 1..]
  }

  /** Everything but the entry for `key`. */
  function Without<K(==), V>(items: seq<Item<K, V>>, key: K): seq<Item<K, V>> {
    match Find(items, key)
    case Some(i) => Remove(items, i)
    case None => items
  }

  /** A use moves the entry to the front. */
  function Touch<K(==), V>(items: seq<Item<K, V>>, key: K): seq<Item<K, V>> {
    match Find(items, key)
    case Some(i) => [items[i]] + Remove(items, i)
    case None => items
  }

  /** The list after a put, the entry it replaced, and the entry it evicted without a word. */
  datatype PutResult<K, V> = PutResult(items: seq<Item<K, V>>, replaced: Option<Item<K, V>>, evicted: Option<Item<K, V>>)

  function Put<K(==), V>(items: seq<Item<K, V>>, capacity: nat, item: Item<K, V>): PutResult<K, V>
    requires 1 <= capacity
  {
    match Find(items, item.key)
    case Some(i) => PutResult([item] + Remove(items, i), Some(items[i]), None)
    case None =>
      if |items| < capacity then PutResult([item] + items, None, None)
      else if items == [] then PutResult([item], None, None)
      else PutResult([item] + items[..|items| - 1], None, Some(items[|items| - 1]))
  }

  lemma {:induction false} SumConcat<K, V>(a: seq<Item<K, V>>, b: seq<Item<K, V>>)
    ensures Source(a + b) == Source(a) + Source(b) && Resident(a + b) == Resident(a) + Resident(b)
  {
    if b == [] {
      assert a + b == a;
    } else {
      assert (a + b)[..|a + b| - 1] == a + b[..|b| - 1];
      SumConcat(a, b[..|b| - 1]);
    }
  }

  lemma SumOne<K, V>(x: Item<K, V>)
    ensures Source([x]) == x.source && Resident([x]) == x.resident
  {
    assert [x][..0] == [];
  }

  lemma {:induction false} SumRemove<K, V>(items: seq<Item<K, V>>, i: nat)
    requires i < |items|
    ensures Source(Remove(items, i)) == Source(items) - items[i].source
    ensures Resident(Remove(items, i)) == Resident(items) - items[i].resident
  {
    var n := |items| - 1;
    if i == n {
      assert Remove(items, i) == items[..n];
    } else {
      SumRemove(items[..n], i);
      RemoveInit(items, i, n);
    }
  }

  lemma RemoveInit<T>(s: seq<T>, i: nat, n: nat)
    requires i < n && |s| == n + 1
    ensures Remove(s, i)[..n - 1] == Remove(s[..n], i) && Remove(s, i)[n - 1] == s[n]
  {
    forall j | 0 <= j < n - 1 ensures Remove(s, i)[j] == Remove(s[..n], i)[j] {
      assert Remove(s, i)[j] == if j < i then s[j] else s[j + 1];
    }
  }

  function Charge<K, V>(x: Option<Item<K, V>>, resident: bool): nat {
    if x.None? then 0 else if resident then x.value.resident else x.value.source
  }

  /** A put adds the new entry's bytes and takes those of the replaced or evicted one out. */
  lemma PutSums<K, V>(items: seq<Item<K, V>>, capacity: nat, item: Item<K, V>)
    requires 1 <= capacity && |items| <= capacity
    ensures var p := Put(items, capacity, item);
            && Source(p.items) == Source(items) + item.source - Charge(p.replaced, false) - Charge(p.evicted, false)
            && Resident(p.items) == Resident(items) + item.resident - Charge(p.replaced, true) - Charge(p.evicted, true)
            && Charge(p.replaced, false) + Charge(p.evicted, false) <= Source(items)
            && Charge(p.replaced, true) + Charge(p.evicted, true) <= Resident(items)
            && 1 <= |p.items| <= capacity && p.items[0] == item
  {
    SumOne(item);
    match Find(items, item.key)
    case Some(i) =>
      SumRemove(items, i);
      SumConcat([item], Remove(items, i));
    case None =>
      SumConcat([item], items);
      if items != [] { SumConcat([item], items[..|items| - 1]); }
  }

  lemma PutDistinct<K, V>(items: seq<Item<K, V>>, capacity: nat, item: Item<K, V>)
    requires 1 <= capacity && Distinct(items)
    ensures Distinct(Put(items, capacity, item).items)
    ensures forall x | x in Put(items, capacity, item).items :: x == item || x in items
  {
  }

  // ---- a cache with counters

  datatype Caps = Caps(entries: nat, source: nat, resident: nat)

  /** The entries, and the bytes of silently evicted entries that the counters still carry. */
  datatype Cache<K, V> = Cache(items: seq<Item<K, V>>, leakedSource: nat, leakedResident: nat) {
    function SourceCounter(): nat { Source(items) + leakedSource }
    function ResidentCounter(): nat { Resident(items) + leakedResident }
  }

  predicate WithinBudget<K, V>(caps: Caps, c: Cache<K, V>) {
    c.SourceCounter() <= caps.source && c.ResidentCounter() <= caps.resident
  }

  /** Drops the least recently used entries until the counters are within budget. */
  function Trim<K, V>(caps: Caps, c: Cache<K, V>): (t: Cache<K, V>)
    ensures |t.items| <= |c.items| && t == c.(items := c.items[..|t.items|])
    ensures WithinBudget(caps, t) || t.items == []
    ensures forall n | |t.items| < n <= |c.items| :: !WithinBudget(caps, c.(items := c.items[..n]))
    decreases |c.items|
  {
    if WithinBudget(caps, c) || c.items == [] then
      assert c.items[..|c.items|] == c.items;
      c
    else
      var c' := c.(items := c.items[..|c.items| - 1]);
      var t := Trim(caps, c');
      assert forall n | 0 <= n <= |c'.items| :: c'.items[..n] == c.items[..n];
      assert c.items[..|c.items|] == c.items;
      t
  }

  lemma TrimStep<K, V>(caps: Caps, c: Cache<K, V>, c': Cache<K, V>)
    requires !WithinBudget(caps, c) && c.items != [] && c' == c.(items := c.items[..|c.items| - 1])
    ensures Trim(caps, c) == Trim(caps, c')
    ensures c.SourceCounter() == c'.SourceCounter() + c.items[|c.items| - 1].source
    ensures c.ResidentCounter() == c'.ResidentCounter() + c.items[|c.items| - 1].resident
  {
  }

  predicate Accepts<K, V>(caps: Caps, item: Item<K, V>) { item.source <= caps.source && item.resident <= caps.resident }

  /** The cache after the put, before trimming. */
  function AfterPut<K(==), V>(caps: Caps, c: Cache<K, V>, item: Item<K, V>): Cache<K, V>
    requires caps.entries >= 1
  {
    var p := Put(c.items, caps.entries, item);
    Cache(p.items, c.leakedSource + Charge(p.evicted, false), c.leakedResident + Charge(p.evicted, true))
  }

  function Insert<K(==), V>(caps: Caps, c: Cache<K, V>, item: Item<K, V>): Cache<K, V>
    requires caps.entries >= 1
  {
    if Accepts(caps, item) then Trim(caps, AfterPut(caps, c, item)) else c
  }

  datatype Op<K, V> = Get(key: K) | Insertion(item: Item<K, V>)

  function Apply<K(==), V>(caps: Caps, c: Cache<K, V>, op: Op<K, V>): Cache<K, V>
    requires caps.entries >= 1
  {
    match op
    case Get(key) => c.(items := Touch(c.items, key))
    case Insertion(item) => Insert(caps, c, item)
  }

  function RunOps<K(==), V>(caps: Caps, c: Cache<K, V>, ops: seq<Op<K, V>>): Cache<K, V>
    requires caps.entries >= 1
    decreases ops
  {
    if ops == [] then c else RunOps(caps, Apply(caps, c, ops[0]), ops[1..])
  }

  ghost predicate Inv<K, V>(caps: Caps, c: Cache<K, V>) {
    caps.entries >= 1 && |c.items| <= caps.entries && Distinct(c.items) && WithinBudget(caps, c)
  }

  lemma TrimSums<K, V>(c: Cache<K, V>, n: nat)
    requires n <= |c.items|
    ensures Source(c.items[..n]) <= Source(c.items) && Resident(c.items[..n]) <= Resident(c.items)
  {
    assert c.items == c.items[..n] + c.items[n..];
    SumConcat(c.items[..n], c.items[n..]);
  }

  /** The counters never exceed the budgets after an insert, so the loop never runs out of entries
      to evict while they do. */
  lemma InsertKeepsInv<K, V>(caps: Caps, c: Cache<K, V>, item: Item<K, V>)
    requires Inv(caps, c)
    ensures Inv(caps, Insert(caps, c, item))
    ensures forall x | x in Insert(caps, c, item).items :: x == item || x in c.items
  {
    if Accepts(caps, item) {
      var p := AfterPut(caps, c, item);
      PutSums(c.items, caps.entries, item);
      PutDistinct(c.items, caps.entries, item);
      var t := Trim(caps, p);
      assert t.items == [] ==> Source(t.items) == 0 && Resident(t.items) == 0;
      assert forall x | x in t.items :: x in p.items;
    }
  }

  lemma TouchKeeps<K, V>(items: seq<Item<K, V>>, key: K)
    requires Distinct(items)
    ensures var t := Touch(items, key);
            |t| == |items| && Distinct(t) && Source(t) == Source(items) && Resident(t) == Resident(items)
    ensures forall x | x in Touch(items, key) :: x in items
  {
    match Find(items, key)
    case None =>
    case Some(i) =>
      SumRemove(items, i);
      SumConcat([items[i]], Remove(items, i));
      SumOne(items[i]);
  }

  /** Over every run of gets and inserts the counters and the number of entries stay within their
      budgets, and what has leaked never shrinks. */
  lemma {:induction false} RunKeepsInv<K, V>(caps: Caps, c: Cache<K, V>, ops: seq<Op<K, V>>)
    requires Inv(caps, c)
    ensures Inv(caps, RunOps(caps, c, ops))
    ensures RunOps(caps, c, ops).leakedSource >= c.leakedSource && RunOps(caps, c, ops).leakedResident >= c.leakedResident
    decreases ops
  {
    if ops != [] {
      match ops[0] {
        case Get(key) => TouchKeeps(c.items, key);
        case Insertion(item) => InsertKeepsInv(caps, c, item);
      }
      RunKeepsInv(caps, Apply(caps, c, ops[0]), ops[1..]);
    }
  }

  /** Every entry is one the renderer would produce, if every inserted one is. */
  lemma {:induction false} RunKeepsRendered<K, V>(caps: Caps, c: Cache<K, V>, ops: seq<Op<K, V>>, render: K -> V)
    requires Inv(caps, c)
    requires forall x | x in c.items :: x.value == render(x.key)
    requires forall op | op in ops && op.Insertion? :: op.item.value == render(op.item.key)
    ensures forall x | x in RunOps(caps, c, ops).items :: x.value == render(x.key)
    decreases ops
  {
    if ops != [] {
      var op := ops[0];
      assert op in ops;
      match op {
        case Get(key) => TouchKeeps(c.items, key);
        case Insertion(item) => InsertKeepsInv(caps, c, item);
      }
      RunKeepsInv(caps, c, [op]);
      assert RunOps(caps, c, [op]) == Apply(caps, c, op);
      RunKeepsRendered(caps, Apply(caps, c, op), ops[1..], render);
    }
  }

  lemma {:induction false} RunPrefix<K, V>(caps: Caps, c: Cache<K, V>, ops: seq<Op<K, V>>, n: nat)
    requires caps.entries >= 1 && n < |ops|
    ensures RunOps(caps, c, ops[..n + 1]) == Apply(caps, RunOps(caps, c, ops[..n]), ops[n])
    decreases n
  {
    if n == 0 {
      assert ops[..1] == [ops[0]] && [ops[0]][1..] == [];
    } else {
      assert ops[..n + 1][1..] == ops[1..][..n] && ops[..n][1..] == ops[1..][..n - 1];
      RunPrefix(caps, Apply(caps, c, ops[0]), ops[1..], n - 1);
    }
  }

  /** Whoever else reads or fills the cache before, between or after: each lookup that hits gives
      what the renderer gives, and finds its entry in front afterwards. */
  lemma EveryHitIsRendered<K, V>(caps: Caps, ops: seq<Op<K, V>>, n: nat, render: K -> V)
    requires caps.entries >= 1 && n < |ops| && ops[n].Get?
    requires forall op | op in ops && op.Insertion? :: op.item.value == render(op.item.key)
    ensures var before := RunOps(caps, Cache([], 0, 0), ops[..n]).items;
            var after := RunOps(caps, Cache([], 0, 0), ops[..n + 1]).items;
            match Find(before, ops[n].key)
            case Some(i) => before[i].value == render(ops[n].key) && after == [before[i]] + Remove(before, i)
            case None => after == before
  {
    var empty: Cache<K, V> := Cache([], 0, 0);
    assert forall op | op in ops[..n] :: op in ops;
    RunKeepsRendered(caps, empty, ops[..n], render);
    RunPrefix(caps, empty, ops, n);
    var before := RunOps(caps, empty, ops[..n]).items;
    if Find(before, ops[n].key).Some? { assert before[Find(before, ops[n].key).value] in before; }
  }

  /** An accepted entry is there after its insert if and only if its own bytes and the leaked ones
      fit the budgets: what was silently evicted takes room away for good. */
  lemma RetainedIff<K, V>(caps: Caps, c: Cache<K, V>, item: Item<K, V>)
    requires Inv(caps, c) && Accepts(caps, item)
    ensures var p := AfterPut(caps, c, item);
            item in Insert(caps, c, item).items <==>
            item.source + p.leakedSource <= caps.source && item.resident + p.leakedResident <= caps.resident
  {
    var p := AfterPut(caps, c, item);
    var t := Trim(caps, p);
    PutSums(c.items, caps.entries, item);
    PutDistinct(c.items, caps.entries, item);
    SumOne(item);
    assert p.items[..1] == [item];
    if t.items == [] {
      assert !WithinBudget(caps, p.(items := p.items[..1]));
    } else {
      assert t.items[0] == item && t.items[..1] == [item];
      TrimSums(t, 1);
    }
  }

  /** A full cache charges every new key for the entry it pushes out. */
  lemma FullCacheLeaks<K, V>(caps: Caps, c: Cache<K, V>, item: Item<K, V>)
    requires Inv(caps, c) && Accepts(caps, item) && |c.items| == caps.entries && Find(c.items, item.key).None?
    ensures Insert(caps, c, item).leakedResident == c.leakedResident + c.items[caps.entries - 1].resident
    ensures Insert(caps, c, item).leakedSource == c.leakedSource + c.items[caps.entries - 1].source
  {
  }

  lemma {:induction false} MemberIsCounted<K, V>(items: seq<Item<K, V>>, x: Item<K, V>)
    requires x in items
    ensures x.source <= Source(items) && x.resident <= Resident(items)
  {
    if x != items[|items| - 1] { MemberIsCounted(items[..|items| - 1], x); }
  }

  /** What has leaked is gone for good: in every state of every run from here on, each entry is
      smaller than any `r` that the leaked bytes leave no room for. */
  lemma LeakedRoomIsGone<K, V>(caps: Caps, c: Cache<K, V>, ops: seq<Op<K, V>>, r: nat)
    requires Inv(caps, c)
    ensures c.leakedResident + r > caps.resident ==> forall x | x in RunOps(caps, c, ops).items :: x.resident < r
    ensures c.leakedSource + r > caps.source ==> forall x | x in RunOps(caps, c, ops).items :: x.source < r
  {
    RunKeepsInv(caps, c, ops);
    var items := RunOps(caps, c, ops).items;
    forall x | x in items ensures x.source <= Source(items) && x.resident <= Resident(items) {
      MemberIsCounted(items, x);
    }
  }

  // ---- what an insert leaves

  /** The other entries, in their order. */
  function Others<K(==), V>(items: seq<Item<K, V>>, key: K): seq<Item<K, V>> {
    if items == [] then []
    else Others(items[..|items| - 1], key) + if items[|items| - 1].key == key then [] else [items[|items| - 1]]
  }

  lemma {:induction false} NoOthersDropped<K, V>(items: seq<Item<K, V>>, key: K)
    requires forall i | 0 <= i < |items| :: items[i].key != key
    ensures Others(items, key) == items
  {
    if items != [] {
      NoOthersDropped(items[..|items| - 1], key);
      assert items == items[..|items| - 1] + [items[|items| - 1]];
    }
  }

  lemma {:induction false} OthersAre<K, V>(items: seq<Item<K, V>>, i: nat)
    requires Distinct(items) && i < |items|
    ensures Others(items, items[i].key) == Remove(items, i)
    decreases |items|
  {
    var n := |items| - 1;
    if i == n {
      NoOthersDropped(items[..n], items[n].key);
      assert Remove(items, i) == items[..n];
    } else {
      OthersAre(items[..n], i);
      RemoveInit(items, i, n);
      assert Remove(items, i) == Remove(items, i)[..n - 1] + [items[n]];
    }
  }

  lemma FirstOthers<T>(x: T, others: seq<T>, n: nat)
    requires n == |others| >= 1
    ensures ([x] + others)[..n] == [x] + others[..n - 1]
  {
  }

  /** A put leaves the new entry in front of the others, in their order, and as many of these as the
      capacity allows. A lookup that hits leaves the entry in front of the others. */
  lemma PutIs<K, V>(items: seq<Item<K, V>>, capacity: nat, item: Item<K, V>)
    requires 1 <= capacity && |items| <= capacity && Distinct(items)
    ensures var all := [item] + Others(items, item.key);
            Put(items, capacity, item).items == if |all| <= capacity then all else all[..capacity]
    ensures match Find(items, item.key)
            case Some(i) => Touch(items, item.key) == [items[i]] + Others(items, item.key)
            case None => Touch(items, item.key) == items
  {
    match Find(items, item.key)
    case Some(i) => OthersAre(items, i);
    case None =>
      NoOthersDropped(items, item.key);
      if |items| == capacity { FirstOthers(item, items, capacity); }
  }

  /** After an accepted insert the cache is the longest prefix of that list which, together with what
      has leaked, fits the budgets; a refused one changes nothing. */
  lemma InsertIs<K, V>(caps: Caps, c: Cache<K, V>, item: Item<K, V>)
    requires Inv(caps, c)
    ensures var all, c' := [item] + Others(c.items, item.key), Insert(caps, c, item);
            if item.source > caps.source || item.resident > caps.resident then c' == c
            else
              && c'.items <= all && |c'.items| <= caps.entries
              && Source(c'.items) + c'.leakedSource <= caps.source && Resident(c'.items) + c'.leakedResident <= caps.resident
              && forall n | |c'.items| < n <= |all| && n <= caps.entries ::
                   Source(all[..n]) + c'.leakedSource > caps.source || Resident(all[..n]) + c'.leakedResident > caps.resident
  {
    if Accepts(caps, item) {
      PutIs(c.items, caps.entries, item);
      InsertKeepsInv(caps, c, item);
      var p := AfterPut(caps, c, item);
      TrimIs(caps, p, [item] + Others(c.items, item.key));
    }
  }

  lemma TrimIs<K, V>(caps: Caps, p: Cache<K, V>, all: seq<Item<K, V>>)
    requires p.items == if |all| <= caps.entries then all else all[..caps.entries]
    ensures var t := Trim(caps, p);
            && t.items <= all && t.leakedSource == p.leakedSource && t.leakedResident == p.leakedResident
            && forall n | |t.items| < n <= |all| && n <= caps.entries ::
                 Source(all[..n]) + t.leakedSource > caps.source || Resident(all[..n]) + t.leakedResident > caps.resident
  {
    var t := Trim(caps, p);
    forall n | |t.items| < n <= |all| && n <= caps.entries
      ensures Source(all[..n]) + t.leakedSource > caps.source || Resident(all[..n]) + t.leakedResident > caps.resident
    {
      assert all[..n] == p.items[..n];
      assert !WithinBudget(caps, p.(items := p.items[..n]));
    }
  }

  // ---- the counters as the caches keep them

  /** The fields of a cache. Nothing in them says what has leaked. */
  datatype Counted<K, V> = Counted(items: seq<Item<K, V>>, source: nat, resident: nat)

  function PopUntilFits<K, V>(caps: Caps, m: Counted<K, V>): Counted<K, V>
    decreases |m.items|
  {
    if (m.source <= caps.source && m.resident <= caps.resident) || m.items == [] then m
    else
      var n := |m.items| - 1;
      PopUntilFits(caps, Counted(m.items[..n], SaturatingSub(m.source, m.items[n].source), SaturatingSub(m.resident, m.items[n].resident)))
  }

  function CountedApply<K(==), V>(caps: Caps, m: Counted<K, V>, op: Op<K, V>): Counted<K, V>
    requires caps.entries >= 1
  {
    match op
    case Get(key) => m.(items := Touch(m.items, key))
    case Insertion(item) =>
      if Accepts(caps, item) then PopUntilFits(caps, CountedPut(caps, m, item)) else m
  }

  function CountedPut<K(==), V>(caps: Caps, m: Counted<K, V>, item: Item<K, V>): Counted<K, V>
    requires caps.entries >= 1
  {
    var p := Put(m.items, caps.entries, item);
    Counted(p.items, SaturatingSub(m.source, Charge(p.replaced, false)) + item.source,
            SaturatingSub(m.resident, Charge(p.replaced, true)) + item.resident)
  }

  function CountedRun<K(==), V>(caps: Caps, m: Counted<K, V>, ops: seq<Op<K, V>>): Counted<K, V>
    requires caps.entries >= 1
    decreases ops
  {
    if ops == [] then m else CountedRun(caps, CountedApply(caps, m, ops[0]), ops[1..])
  }

  /** The counters are the live bytes and the leaked ones. */
  function WithCounters<K, V>(c: Cache<K, V>): Counted<K, V> { Counted(c.items, c.SourceCounter(), c.ResidentCounter()) }

  lemma {:induction false} PopIsTrim<K, V>(caps: Caps, c: Cache<K, V>)
    ensures PopUntilFits(caps, WithCounters(c)) == WithCounters(Trim(caps, c))
    decreases |c.items|
  {
    if !WithinBudget(caps, c) && c.items != [] {
      var c' := c.(items := c.items[..|c.items| - 1]);
      TrimStep(caps, c, c');
      PopIsTrim(caps, c');
    }
  }

  lemma ApplyCounts<K, V>(caps: Caps, c: Cache<K, V>, op: Op<K, V>)
    requires Inv(caps, c)
    ensures CountedApply(caps, WithCounters(c), op) == WithCounters(Apply(caps, c, op))
  {
    match op
    case Get(key) => TouchKeeps(c.items, key);
    case Insertion(item) =>
      InsertCounts(caps, c, item);
  }

  lemma InsertCounts<K, V>(caps: Caps, c: Cache<K, V>, item: Item<K, V>)
    requires Inv(caps, c)
    ensures CountedApply(caps, WithCounters(c), Insertion(item)) == WithCounters(Insert(caps, c, item))
  {
    if Accepts(caps, item) {
      PutCounts(caps, c, item);
      PopIsTrim(caps, AfterPut(caps, c, item));
    }
  }

  lemma PutCounts<K, V>(caps: Caps, c: Cache<K, V>, item: Item<K, V>)
    requires Inv(caps, c)
    ensures CountedPut(caps, WithCounters(c), item) == WithCounters(AfterPut(caps, c, item))
  {
    PutSums(c.items, caps.entries, item);
  }

  /** In every run the counters are exactly the live bytes plus those of the entries that `put`
      evicted: no subtraction saturates, nothing is under-counted, and only those are over-counted. */
  lemma {:induction false} CountersAreLivePlusLeaked<K, V>(caps: Caps, c: Cache<K, V>, ops: seq<Op<K, V>>)
    requires Inv(caps, c)
    ensures CountedRun(caps, WithCounters(c), ops) == WithCounters(RunOps(caps, c, ops))
    decreases ops
  {
    if ops != [] {
      ApplyCounts(caps, c, ops[0]);
      ApplyKeepsInv(caps, c, ops[0]);
      CountersAreLivePlusLeaked(caps, Apply(caps, c, ops[0]), ops[1..]);
    }
  }

  lemma ApplyKeepsInv<K, V>(caps: Caps, c: Cache<K, V>, op: Op<K, V>)
    requires Inv(caps, c)
    ensures Inv(caps, Apply(caps, c, op))
  {
    match op
    case Get(key) => TouchKeeps(c.items, key);
    case Insertion(item) => InsertKeepsInv(caps, c, item);
  }

  // ---- an accepted entry that is not retained

  function Insertions<K, V>(xs: seq<Item<K, V>>): seq<Op<K, V>> {
    if xs == [] then [] else [Insertion(xs[0])] + Insertions(xs[1..])
  }

  /** Fits into an empty cache all at once. */
  ghost predicate FitsTogether<K, V>(caps: Caps, xs: seq<Item<K, V>>) {
    Distinct(xs) && |xs| <= caps.entries && Source(xs) <= caps.source && Resident(xs) <= caps.resident
  }

  lemma InsertFitting<K, V>(caps: Caps, c: Cache<K, V>, x: Item<K, V>)
    requires caps.entries >= 1 && c.leakedSource == c.leakedResident == 0
    requires FitsTogether(caps, [x] + c.items)
    ensures Insert(caps, c, x) == Cache([x] + c.items, 0, 0)
  {
    var all := [x] + c.items;
    forall j | 0 <= j < |c.items| ensures c.items[j].key != x.key { assert all[0] == x && all[j + 1] == c.items[j]; }
    SumConcat([x], c.items);
    SumOne(x);
    assert AfterPut(caps, c, x) == Cache(all, 0, 0);
  }

  /** A cache filled with entries that fit: nothing leaks, and the first is the next to go. */
  lemma {:induction false} Filled<K, V>(caps: Caps, acc: seq<Item<K, V>>, xs: seq<Item<K, V>>) returns (items: seq<Item<K, V>>)
    requires caps.entries >= 1 && FitsTogether(caps, xs + acc)
    ensures RunOps(caps, Cache(acc, 0, 0), Insertions(xs)) == Cache(items, 0, 0)
    ensures FitsTogether(caps, items) && |items| == |xs| + |acc|
    ensures forall y | y in items :: y in xs || y in acc
    ensures xs != [] || acc != [] ==> items[|items| - 1] == if acc != [] then acc[|acc| - 1] else xs[0]
    decreases xs
  {
    if xs == [] {
      assert xs + acc == acc;
      items := acc;
    } else {
      var x, rest := xs[0], xs[1..];
      var acc' := [x] + acc;
      assert xs == [x] + rest;
      MoveFirst(caps, x, rest, acc);
      InsertFitting(caps, Cache(acc, 0, 0), x);
      items := Filled(caps, acc', rest);
      assert Insertions(xs)[0] == Insertion(x) && Insertions(xs)[1..] == Insertions(rest);
    }
  }

  lemma MoveFirst<K, V>(caps: Caps, x: Item<K, V>, rest: seq<Item<K, V>>, acc: seq<Item<K, V>>)
    requires FitsTogether(caps, [x] + rest + acc)
    ensures FitsTogether(caps, rest + ([x] + acc)) && FitsTogether(caps, [x] + acc)
  {
    var s, t := [x] + rest + acc, rest + ([x] + acc);
    SumConcat([x] + rest, acc);
    SumConcat([x], rest);
    SumConcat(rest, [x] + acc);
    SumConcat([x], acc);
    forall i, j | 0 <= i < j < |t| ensures t[i].key != t[j].key {
      var i' := if i < |rest| then i + 1 else if i == |rest| then 0 else i;
      var j' := if j < |rest| then j + 1 else if j == |rest| then 0 else j;
      assert t[i] == s[i'] && t[j] == s[j'] && i' != j';
    }
    assert t[|rest|..] == [x] + acc;
  }

  lemma {:induction false} RunThen<K, V>(caps: Caps, c: Cache<K, V>, xs: seq<Item<K, V>>, x: Item<K, V>)
    requires caps.entries >= 1
    ensures RunOps(caps, c, Insertions(xs + [x])) == Insert(caps, RunOps(caps, c, Insertions(xs)), x)
    decreases xs
  {
    if xs == [] {
      assert xs + [x] == [x] && [x][1..] == [];
      assert Insertions([x])[1..] == [];
    } else {
      assert (xs + [x])[1..] == xs[1..] + [x];
      assert Insertions(xs)[1..] == Insertions(xs[1..]) && Insertions(xs + [x])[1..] == Insertions(xs[1..] + [x]);
      RunThen(caps, Insert(caps, c, xs[0]), xs[1..], x);
    }
  }

  /** So an entry within the budget can be gone right after its insert, and everything else with
      it: fill the cache with entries that fit, the first of them large, and insert a new key that
      does not fit beside the large one, although that one is pushed out first. */
  lemma AcceptedButNotRetained<K, V>(caps: Caps, xs: seq<Item<K, V>>, x: Item<K, V>)
    requires caps.entries == |xs| >= 1 && FitsTogether(caps, xs) && Accepts(caps, x)
    requires (forall y | y in xs :: y.key != x.key) && xs[0].resident + x.resident > caps.resident
    ensures var c := RunOps(caps, Cache([], 0, 0), Insertions(xs + [x]));
            c.items == [] && c.ResidentCounter() == xs[0].resident
  {
    assert xs + [] == xs;
    var items := Filled(caps, [], xs);
    RunThen(caps, Cache([], 0, 0), xs, x);
    NotRetained(caps, items, x);
  }

  lemma NotRetained<K, V>(caps: Caps, items: seq<Item<K, V>>, x: Item<K, V>)
    requires caps.entries == |items| >= 1 && FitsTogether(caps, items) && Accepts(caps, x)
    requires (forall y | y in items :: y.key != x.key) && items[|items| - 1].resident + x.resident > caps.resident
    ensures Insert(caps, Cache(items, 0, 0), x) == Cache([], items[|items| - 1].source, items[|items| - 1].resident)
  {
    var c := Cache(items, 0, 0);
    forall i | 0 <= i < |items| ensures items[i].key != x.key { assert items[i] in items; }
    FullCacheLeaks(caps, c, x);
    RetainedIff(caps, c, x);
    TrimKeepsFirst(caps, AfterPut(caps, c, x));
  }

  lemma TrimKeepsFirst<K, V>(caps: Caps, c: Cache<K, V>)
    ensures Trim(caps, c).items != [] ==> Trim(caps, c).items[0] == c.items[0]
  {
  }
}
