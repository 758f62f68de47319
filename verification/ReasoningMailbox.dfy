/** The coalescing mailbox for streamed reasoning text (src/cli/output.rs). */
module ReasoningMailbox {
  import opened Utf8

  const MAX_REASONING_SNAPSHOT_BYTES: nat := 64 * 1024

  datatype Mail = Mail(text: string, sequence: nat)

  /** `t` is the longest suffix of `s` that starts on a character and has at most `max` octets. */
  ghost predicate LongestSuffix(t: string, s: string, max: nat) {
    && |t| <= |s|
    && t == s[|s| - |t|..]
    && ByteLen(t) <= max
    && (|t| < |s| ==> ByteLen(s[|s| - |t| - 1..]) > max)
  }

  function Tail(s: string, max: nat): (t: string)
    ensures LongestSuffix(t, s, max)
  {
    if ByteLen(s) <= max then s else Tail(s[1..], max)
  }

  lemma {:induction false} SuffixBytes(s: string, i: nat, j: nat)
    requires i < j <= |s|
    ensures ByteLen(s[j..]) < ByteLen(s[i..])
  {
    ByteLenSplit(s[i..], j - i);
    assert s[i..][j - i..] == s[j..];
  }

  lemma LongestSuffixUnique(t: string, u: string, s: string, max: nat)
    requires LongestSuffix(t, s, max) && LongestSuffix(u, s, max)
    ensures t == u
  {
    if |t| < |u| {
      if |s| - |u| < |s| - |t| - 1 { SuffixBytes(s, |s| - |u|, |s| - |t| - 1); }
    } else if |u| < |t| {
      if |s| - |t| < |s| - |u| - 1 { SuffixBytes(s, |s| - |t|, |s| - |u| - 1); }
    }
  }

  /** A truncated snapshot still uses all but at most three octets of its budget. */
  lemma TruncatedTailIsNearlyFull(s: string, max: nat)
    requires ByteLen(s) > max
    ensures max < ByteLen(Tail(s, max)) + 4
  {
    var t := Tail(s, max);
    var k := |s| - |t|;
    assert s[k - 1..][1..] == t;
  }

  /** Trimming early does not change what a later trim keeps. */
  lemma {:induction false} TailOfTail(a: string, b: string, max: nat)
    requires ByteLen(b) <= max
    ensures Tail(Tail(a, max) + b, max) == Tail(a + b, max)
    decreases |a|
  {
    if ByteLen(a) > max {
      ByteLenConcat(a, b);
      assert (a + b)[1..] == a[1..] + b;
      TailOfTail(a[1..], b, max);
    }
  }

  /** A chunk over the budget decides the snapshot by itself. */
  lemma {:induction false} TailOfLongChunk(a: string, b: string, max: nat)
    requires ByteLen(b) > max
    ensures Tail(a + b, max) == Tail(b, max)
    decreases |a|
  {
    ByteLenConcat(a, b);
    if a == [] {
      assert a + b == b;
    } else {
      assert (a + b)[1..] == a[1..] + b;
      TailOfLongChunk(a[1..], b, max);
    }
  }

  /** One append, on values. `None` means that nothing is pending. */
  function AppendChunk(pending: Option<Mail>, chunk: string, sequence: nat): Option<Mail> {
    if chunk == [] then pending else
    var chunk' := Tail(chunk, MAX_REASONING_SNAPSHOT_BYTES);
    match pending
    case None => Some(Mail(chunk', sequence))
    case Some(mail) =>
      Some(Mail(Tail(mail.text + chunk', MAX_REASONING_SNAPSHOT_BYTES),
                if sequence != 0 then sequence else mail.sequence))
  }

  function Text(pending: Option<Mail>): string {
    if pending.Some? then pending.value.text else []
  }

  /** The mailbox shows the end of `history`, the reasoning text appended since the last take. */
  ghost predicate Shows(pending: Option<Mail>, history: string) {
    && Text(pending) == Tail(history, MAX_REASONING_SNAPSHOT_BYTES)
    && (pending.None? <==> history == [])
  }

  /** The text kept before the append leaves its last character in the room that an oversized
      chunk's own trimming left over, so the snapshot has a gap in it. */
  predicate LeavesGap(kept: string, chunk: string) {
    && ByteLen(chunk) > MAX_REASONING_SNAPSHOT_BYTES
    && kept != []
    && CharLen(kept[|kept| - 1]) + ByteLen(Tail(chunk, MAX_REASONING_SNAPSHOT_BYTES)) <= MAX_REASONING_SNAPSHOT_BYTES
  }

  lemma LongChunkKeepsMore(kept: string, chunk: string)
    requires ByteLen(chunk) > MAX_REASONING_SNAPSHOT_BYTES
    ensures var t := Tail(chunk, MAX_REASONING_SNAPSHOT_BYTES);
            Tail(kept + t, MAX_REASONING_SNAPSHOT_BYTES) == t <==> !LeavesGap(kept, chunk)
  {
    var t := Tail(chunk, MAX_REASONING_SNAPSHOT_BYTES);
    if kept == [] {
      assert kept + t == t;
    } else {
      var last := kept[|kept| - 1..];
      assert (kept + t)[|kept| - 1..] == last + t;
      ByteLenConcat(last, t);
      assert ByteLen(last) == CharLen(kept[|kept| - 1]) by { assert last[1..] == []; }
      var r := Tail(kept + t, MAX_REASONING_SNAPSHOT_BYTES);
      if r == t {
        assert |kept + t| - |t| - 1 == |kept| - 1;
      } else {
        if !LeavesGap(kept, chunk) {
          assert (kept + t)[|kept|..] == t;
          assert LongestSuffix(t, kept + t, MAX_REASONING_SNAPSHOT_BYTES);
          LongestSuffixUnique(t, r, kept + t, MAX_REASONING_SNAPSHOT_BYTES);
        }
      }
    }
  }

  /** Whatever came before, an append leaves the mailbox showing exactly the end of the history
      if and only if it does not leave a gap. A chunk within the budget never leaves one. */
  lemma AppendShows(pending: Option<Mail>, history: string, chunk: string, sequence: nat)
    requires Shows(pending, history)
    ensures Shows(AppendChunk(pending, chunk, sequence), history + chunk) <==> !LeavesGap(Text(pending), chunk)
    ensures ByteLen(chunk) <= MAX_REASONING_SNAPSHOT_BYTES ==> !LeavesGap(Text(pending), chunk)
  {
    if chunk == [] {
      assert history + chunk == history;
    } else {
      var t := Tail(chunk, MAX_REASONING_SNAPSHOT_BYTES);
      if pending.None? { assert history + chunk == chunk; }
      assert [] + t == t;
      if ByteLen(chunk) <= MAX_REASONING_SNAPSHOT_BYTES {
        TailOfTail(history, chunk, MAX_REASONING_SNAPSHOT_BYTES);
      } else {
        TailOfLongChunk(history, chunk, MAX_REASONING_SNAPSHOT_BYTES);
        LongChunkKeepsMore(Text(pending), chunk);
      }
    }
  }

  /** It does happen: after a short text, a chunk of three-octet characters, just over the budget,
      is trimmed to one octet less than the budget, and the end of the text takes that octet. */
  lemma GapHappens(kept: string, c: char, n: nat)
    requires kept != [] && CharLen(kept[|kept| - 1]) == 1 && CharLen(c) == 3
    requires n * 3 == MAX_REASONING_SNAPSHOT_BYTES + 2
    ensures LeavesGap(kept, Repeat(c, n))
    ensures ByteLen(kept) <= MAX_REASONING_SNAPSHOT_BYTES ==> Shows(Some(Mail(kept, 1)), kept)
    ensures !Shows(AppendChunk(Some(Mail(kept, 1)), Repeat(c, n), 2), kept + Repeat(c, n))
  {
    var chunk := Repeat(c, n);
    RepeatedTail(c, n, MAX_REASONING_SNAPSHOT_BYTES);
    GapIsSeen(kept, chunk);
  }

  lemma RepeatedTail(c: char, n: nat, max: nat)
    requires CharLen(c) == 3 && n * 3 == max + 2
    ensures ByteLen(Repeat(c, n)) == max + 2 && ByteLen(Tail(Repeat(c, n), max)) == max - 1
  {
    RepeatBytes(c, n);
    RepeatBytes(c, n - 1);
    assert Repeat(c, n)[1..] == Repeat(c, n - 1);
  }

  lemma GapIsSeen(kept: string, chunk: string)
    requires LeavesGap(kept, chunk)
    ensures !Shows(AppendChunk(Some(Mail(kept, 1)), chunk, 2), kept + chunk)
  {
    TailOfLongChunk(kept, chunk, MAX_REASONING_SNAPSHOT_BYTES);
    LongChunkKeepsMore(kept, chunk);
  }

  class Mailbox {
    var pending: Option<Mail>
    var receivedChunks: nat

    constructor ()
      ensures pending == None && receivedChunks == 0
    {
      pending, receivedChunks := None, 0;
    }

    /** Drops whole characters from the front until the text fits. */
    static method RetainTail(value: string) returns (r: string)
      ensures r == Tail(value, MAX_REASONING_SNAPSHOT_BYTES)
    {
      var total := ByteLen(value);
      if total <= MAX_REASONING_SNAPSHOT_BYTES {
        return value;
      }
      var minimumStart := total - MAX_REASONING_SNAPSHOT_BYTES;
      var start, offset := 0, 0;
      while start < |value| && offset < minimumStart
        invariant start <= |value|
        invariant offset + ByteLen(value[start..]) == total
        invariant Tail(value, MAX_REASONING_SNAPSHOT_BYTES) == Tail(value[start..], MAX_REASONING_SNAPSHOT_BYTES)
      {
        assert value[start..][1..] == value[start + 1..];
        offset := offset + CharLen(value[start]);
        start := start + 1;
      }
      r := value[start..];
    }

    method AppendWithSequence(chunk: string, sequence: nat)
      modifies this
      ensures pending == AppendChunk(old(pending), chunk, sequence)
      ensures receivedChunks == old(receivedChunks) + 1
    {
      receivedChunks := receivedChunks + 1;
      if chunk == [] {
        return;
      }
      var kept := RetainTail(chunk);
      match pending {
        case None => pending := Some(Mail(kept, sequence));
        case Some(mail) =>
          var text := RetainTail(mail.text + kept);
          pending := Some(Mail(text, if sequence != 0 then sequence else mail.sequence));
      }
    }

    method TakeWithSequence() returns (r: Option<Mail>)
      modifies this`pending
      ensures r == old(pending) && pending == None
    {
      r := pending;
      pending := None;
    }
  }

  /** Appending a list of chunks, oldest first, with their sequence numbers. */
  function AppendAll(pending: Option<Mail>, chunks: seq<string>, sequences: seq<nat>): Option<Mail>
    requires |chunks| == |sequences|
    decreases chunks
  {
    if chunks == [] then pending
    else AppendAll(AppendChunk(pending, chunks[0], sequences[0]), chunks[1..], sequences[1..])
  }

  function Joined(chunks: seq<string>): string {
    if chunks == [] then [] else chunks[0] + Joined(chunks[1..])
  }

  lemma JoinedCons(history: string, chunks: seq<string>)
    requires chunks != []
    ensures history + Joined(chunks) == history + chunks[0] + Joined(chunks[1..])
  {
    var head, rest := chunks[0], Joined(chunks[1..]);
    assert history + (head + rest) == history + head + rest;
  }

  /** However the stream is cut into chunks of at most the budget, the mailbox holds the longest
      character-aligned end of all the text streamed since the last take. */
  lemma {:induction false} MailboxShowsWholeHistory(
      pending: Option<Mail>, history: string, chunks: seq<string>, sequences: seq<nat>)
    requires |chunks| == |sequences|
    requires Shows(pending, history)
    requires forall c | c in chunks :: ByteLen(c) <= MAX_REASONING_SNAPSHOT_BYTES
    ensures Shows(AppendAll(pending, chunks, sequences), history + Joined(chunks))
    decreases chunks
  {
    if chunks == [] {
      assert history + Joined(chunks) == history;
    } else {
      var next := AppendChunk(pending, chunks[0], sequences[0]);
      var history' := history + chunks[0];
      assert Shows(next, history') by {
        assert chunks[0] in chunks;
        AppendShows(pending, history, chunks[0], sequences[0]);
      }
      MailboxShowsWholeHistory(next, history', chunks[1..], sequences[1..]);
      JoinedCons(history, chunks);
    }
  }

  /** The mailbox carries the number of the last chunk with text in it. */
  lemma {:induction false} MailCarriesLatest(pending: Option<Mail>, chunks: seq<string>, sequences: seq<nat>, i: nat)
    requires |chunks| == |sequences| && i < |chunks| && forall n | n in sequences :: n != 0
    requires chunks[i] != [] && forall j | i < j < |chunks| :: chunks[j] == []
    ensures AppendAll(pending, chunks, sequences).Some? && AppendAll(pending, chunks, sequences).value.sequence == sequences[i]
    decreases chunks
  {
    var next := AppendChunk(pending, chunks[0], sequences[0]);
    assert sequences[0] in sequences && forall n | n in sequences[1..] :: n in sequences;
    if i == 0 {
      EmptyChunksChangeNothing(next, chunks[1..], sequences[1..]);
    } else {
      MailCarriesLatest(next, chunks[1..], sequences[1..], i - 1);
    }
  }

  lemma {:induction false} EmptyChunksChangeNothing(pending: Option<Mail>, chunks: seq<string>, sequences: seq<nat>)
    requires |chunks| == |sequences| && forall i | 0 <= i < |chunks| :: chunks[i] == []
    ensures AppendAll(pending, chunks, sequences) == pending
    decreases chunks
  {
    if chunks != [] { EmptyChunksChangeNothing(pending, chunks[1..], sequences[1..]); }
  }
}
