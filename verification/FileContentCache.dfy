/** The file content cache of TaskState (src/core/agent_types.rs). */
module FileContentCache {
  import opened Utf8
  import opened LruModel

  const MAX_FILE_CONTENT_CACHE_SIZE: nat := 10 * 1024 * 1024
  const MAX_FILE_CONTENT_CACHE_ENTRIES: nat := 50

  type FileItem = Item<string, string>

  function FileEntry(path: string, content: string): FileItem { Item(path, content, 0, ByteLen(content)) }

  predicate FitsBeside(items: seq<FileItem>, bytes: nat) {
    |items| <= MAX_FILE_CONTENT_CACHE_ENTRIES - 1 && Resident(items) + bytes <= MAX_FILE_CONTENT_CACHE_SIZE
  }

  /** The longest most-recent-first prefix that fits beside a new entry of that size. */
  function KeepBeside(items: seq<FileItem>, bytes: nat): (kept: seq<FileItem>)
    requires bytes <= MAX_FILE_CONTENT_CACHE_SIZE
    ensures kept <= items && FitsBeside(kept, bytes)
    ensures forall n | |kept| < n <= |items| :: !FitsBeside(items[..n], bytes)
  {
    if FitsBeside(items, bytes) then items
    else if items == [] then []
    else
      var init := items[..|items| - 1];
      var kept := KeepBeside(init, bytes);
      assert forall n | 0 <= n <= |init| :: init[..n] == items[..n];
      assert items[..|items|] == items;
      kept
  }

  lemma {:induction false} PrefixSum(items: seq<FileItem>, n: nat)
    requires n <= |items|
    ensures Resident(items[..n]) <= Resident(items)
    decreases |items|
  {
    if n < |items| {
      assert items[..|items| - 1][..n] == items[..n];
      PrefixSum(items[..|items| - 1], n);
    } else {
      assert items[..n] == items;
    }
  }

  /** Dropping the last entry when there are too many, after dropping for bytes, is the longest prefix. */
  lemma {:induction false} KeepIs(items: seq<FileItem>, bytes: nat, n: nat)
    requires n <= |items| && bytes <= MAX_FILE_CONTENT_CACHE_SIZE
    requires FitsBeside(items[..n], bytes)
    requires n < |items| ==> !FitsBeside(items[..n + 1], bytes)
    ensures KeepBeside(items, bytes) == items[..n]
  {
    var kept := KeepBeside(items, bytes);
    assert kept == items[..|kept|];
    forall m | n < m <= |items| ensures !FitsBeside(items[..m], bytes) {
      PrefixSum(items[..m], n + 1);
      assert items[..m][..n + 1] == items[..n + 1];
    }
  }

  lemma WithoutKeepsDistinct(items: seq<FileItem>, path: string)
    requires Distinct(items)
    ensures Distinct(Without(items, path)) && |Without(items, path)| <= |items|
    ensures forall x | x in Without(items, path) :: x.key != path
    ensures forall x :: x in items && x.key != path <==> x in Without(items, path)
  {
    match Find(items, path)
    case None =>
    case Some(i) =>
      var w := Without(items, path);
      assert forall j | 0 <= j < |w| :: w[j] == if j < i then items[j] else items[j + 1];
      forall x | x in items && x.key != path ensures x in w {
        var j :| 0 <= j < |items| && items[j] == x;
        assert w[if j < i then j else j - 1] == x;
      }
  }

  class TaskState {
    var fileContentCache: seq<FileItem>

    ghost predicate Valid()
      reads this
    {
      && Distinct(fileContentCache)
      && |fileContentCache| <= MAX_FILE_CONTENT_CACHE_ENTRIES
      && Resident(fileContentCache) <= MAX_FILE_CONTENT_CACHE_SIZE
      && forall x | x in fileContentCache :: x == FileEntry(x.key, x.value)
    }

    method InsertFileContent(path: string, content: string)
      requires Valid()
      modifies this
      ensures Valid()
      ensures ByteLen(content) > MAX_FILE_CONTENT_CACHE_SIZE ==> fileContentCache == old(fileContentCache)
      ensures ByteLen(content) <= MAX_FILE_CONTENT_CACHE_SIZE ==>
                fileContentCache == [FileEntry(path, content)] + KeepBeside(Without(old(fileContentCache), path), ByteLen(content))
    {
      var size := ByteLen(content);
      if size > MAX_FILE_CONTENT_CACHE_SIZE {
        return;
      }
      WithoutKeepsDistinct(fileContentCache, path);
      fileContentCache := Without(fileContentCache, path);
      EvictFor(size);
      ghost var others := Without(old(fileContentCache), path);
      PutFront(FileEntry(path, content), others);
    }

    /** The eviction loop of `insert_file_content`. */
    method EvictFor(size: nat)
      requires size <= MAX_FILE_CONTENT_CACHE_SIZE
      modifies this
      ensures fileContentCache <= old(fileContentCache)
      ensures Resident(fileContentCache) + size <= MAX_FILE_CONTENT_CACHE_SIZE
      ensures |fileContentCache| < |old(fileContentCache)| ==>
                Resident(old(fileContentCache)[..|fileContentCache| + 1]) + size > MAX_FILE_CONTENT_CACHE_SIZE
    {
      ghost var all := fileContentCache;
      var total := Resident(fileContentCache);
      while total + size > MAX_FILE_CONTENT_CACHE_SIZE && fileContentCache != []
        invariant total == Resident(fileContentCache)
        invariant |fileContentCache| <= |all| && fileContentCache == all[..|fileContentCache|]
        invariant |fileContentCache| < |all| ==> Resident(all[..|fileContentCache| + 1]) + size > MAX_FILE_CONTENT_CACHE_SIZE
        decreases |fileContentCache|
      {
        var n := |fileContentCache| - 1;
        total := total - fileContentCache[n].resident;
        assert all[..n + 1][..n] == all[..n];
        fileContentCache := fileContentCache[..n];
      }
    }

    method PutFront(item: FileItem, ghost others: seq<FileItem>)
      requires item == FileEntry(item.key, item.value) && item.resident <= MAX_FILE_CONTENT_CACHE_SIZE
      requires Distinct(others) && |others| <= MAX_FILE_CONTENT_CACHE_ENTRIES
      requires forall x | x in others :: x.key != item.key && x == FileEntry(x.key, x.value)
      requires fileContentCache <= others && Resident(fileContentCache) + item.resident <= MAX_FILE_CONTENT_CACHE_SIZE
      requires |fileContentCache| < |others| ==>
                 Resident(others[..|fileContentCache| + 1]) + item.resident > MAX_FILE_CONTENT_CACHE_SIZE
      modifies this
      ensures Valid()
      ensures fileContentCache == [item] + KeepBeside(others, item.resident)
    {
      ghost var kept := fileContentCache;
      assert forall x | x in kept :: x in others;
      assert Find(kept, item.key).None?;
      var p := Put(fileContentCache, MAX_FILE_CONTENT_CACHE_ENTRIES, item);
      PutIsKeep(kept, item, others);
      ConsIsValid(item, KeepBeside(others, item.resident), others);
      fileContentCache := p.items;
    }
  }

  lemma PutIsKeep(kept: seq<FileItem>, item: FileItem, others: seq<FileItem>)
    requires Find(kept, item.key).None? && item.resident <= MAX_FILE_CONTENT_CACHE_SIZE
    requires |others| <= MAX_FILE_CONTENT_CACHE_ENTRIES
    requires kept <= others && Resident(kept) + item.resident <= MAX_FILE_CONTENT_CACHE_SIZE
    requires |kept| < |others| ==> Resident(others[..|kept| + 1]) + item.resident > MAX_FILE_CONTENT_CACHE_SIZE
    ensures Put(kept, MAX_FILE_CONTENT_CACHE_ENTRIES, item).items == [item] + KeepBeside(others, item.resident)
  {
    if |kept| < MAX_FILE_CONTENT_CACHE_ENTRIES {
      assert kept == others[..|kept|];
      KeepIs(others, item.resident, |kept|);
    } else {
      var n := |kept| - 1;
      assert kept == others && kept[..n] == others[..n];
      PrefixSum(kept, n);
      KeepIs(others, item.resident, n);
    }
  }

  lemma ConsIsValid(item: FileItem, kept: seq<FileItem>, others: seq<FileItem>)
    requires Distinct(others) && kept <= others && FitsBeside(kept, item.resident)
    requires forall x | x in others :: x.key != item.key && x == FileEntry(x.key, x.value)
    ensures Distinct([item] + kept) && |[item] + kept| <= MAX_FILE_CONTENT_CACHE_ENTRIES
    ensures Resident([item] + kept) == item.resident + Resident(kept)
    ensures forall x | x in kept :: x == FileEntry(x.key, x.value)
  {
    SumConcat([item], kept);
    SumOne(item);
    forall i | 0 <= i < |kept| ensures kept[i].key != item.key && kept[i] == others[i] { assert others[i] in others; }
  }
}
