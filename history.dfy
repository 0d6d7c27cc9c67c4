/** The bounded log of past translations (src/history.rs): an ordered list
    of (query, command, timestamp) entries, oldest first, that keeps only
    the most recent MAX_HISTORY entries after each addition and can be
    searched and read newest first. */
module History {
  import opened Wrappers
  import opened Text

  const MAX_HISTORY: nat := 100

  /** `u64`, the type of the timestamp. */
  newtype u64 = x: int | 0 <= x < 0x1_0000_0000_0000_0000

  datatype HistoryEntry = HistoryEntry(query: string, command: string, timestamp: u64)

  // ---------------------------------------------------------------------
  // Retention
  // ---------------------------------------------------------------------

  /** The last `n` elements of `s`, or all of `s` when it is shorter; what
      `Vec::split_off(len - n)` keeps. */
  function KeepLast<T>(s: seq<T>, n: nat): (r: seq<T>)
    ensures |r| == if |s| <= n then |s| else n
    ensures r == s[|s| - |r|..]
  {
    if |s| > n then s[|s| - n..] else s
  }

  /** The entries after one `add` of entry `e`. */
  function AfterAdd(entries: seq<HistoryEntry>, e: HistoryEntry): (r: seq<HistoryEntry>)
    ensures |r| <= MAX_HISTORY && r != [] && r[|r| - 1] == e
  {
    KeepLast(entries + [e], MAX_HISTORY)
  }

  /** What one `add` does to the log: it never holds more than MAX_HISTORY
      entries afterwards, the new entry is the last one, a log below
      capacity grows by exactly that entry, and a full (or over-full, as a
      loaded file may be) log loses its oldest entries so that its newest
      MAX_HISTORY - 1 entries, in their order, come before the new one. */
  lemma AddShape(entries: seq<HistoryEntry>, e: HistoryEntry)
    ensures |AfterAdd(entries, e)| <= MAX_HISTORY
    ensures AfterAdd(entries, e)[|AfterAdd(entries, e)| - 1] == e
    ensures |entries| < MAX_HISTORY ==> AfterAdd(entries, e) == entries + [e]
    ensures |entries| >= MAX_HISTORY ==>
      AfterAdd(entries, e) == entries[|entries| - (MAX_HISTORY - 1)..] + [e]
  {
    var s := entries + [e];
    if |entries| >= MAX_HISTORY {
      assert s[|s| - MAX_HISTORY..] == entries[|entries| - (MAX_HISTORY - 1)..] + [e];
    }
  }

  /** The entries after adding each of `batch` in turn. */
  function AfterAdds(entries: seq<HistoryEntry>, batch: seq<HistoryEntry>): seq<HistoryEntry>
    decreases |batch|
  {
    if batch == [] then entries else AfterAdds(AfterAdd(entries, batch[0]), batch[1..])
  }

  /** The bounded-log invariant over any run of additions: after one or
      more `add` calls the log is exactly the MAX_HISTORY most recently
      added entries (of everything that was there and everything added),
      in order of addition. */
  lemma {:induction false} AddsRetainMostRecent(entries: seq<HistoryEntry>, batch: seq<HistoryEntry>)
    requires batch != []
    ensures AfterAdds(entries, batch) == KeepLast(entries + batch, MAX_HISTORY)
    ensures |AfterAdds(entries, batch)| <= MAX_HISTORY
    decreases |batch|
  {
    var once := AfterAdd(entries, batch[0]);
    if |batch| == 1 {
      assert batch == [batch[0]];
    } else {
      AddsRetainMostRecent(once, batch[1..]);
      assert AfterAdds(entries, batch) == KeepLast(once + batch[1..], MAX_HISTORY);
      KeepLastOfAppended(entries + [batch[0]], batch[1..]);
      assert entries + [batch[0]] + batch[1..] == entries + batch;
    }
  }

  /** Trimming before appending more and then trimming again is the same
      as trimming once at the end. */
  lemma {:induction false} KeepLastOfAppended<T>(s: seq<T>, rest: seq<T>)
    requires rest != []
    ensures KeepLast(KeepLast(s, MAX_HISTORY) + rest, MAX_HISTORY) == KeepLast(s + rest, MAX_HISTORY)
  {
    var kept := KeepLast(s, MAX_HISTORY);
    var a := kept + rest;
    var b := s + rest;
    assert a == b[|b| - |a|..];
    var ka := KeepLast(a, MAX_HISTORY);
    var kb := KeepLast(b, MAX_HISTORY);
    if |b| > MAX_HISTORY {
      assert |a| >= MAX_HISTORY || |a| == |b|;
    }
    assert |ka| == |kb|;
    assert ka == b[|b| - |ka|..];
  }

  // ---------------------------------------------------------------------
  // Search
  // ---------------------------------------------------------------------

  /** The filter of `search`: the lowercased query or the lowercased
      command contains the lowercased pattern. */
  predicate Matches(e: HistoryEntry, pattern: string) {
    var p := ToLower(pattern);
    Contains(ToLower(e.query), p) || Contains(ToLower(e.command), p)
  }

  /** The entries that match, in storage order. */
  function Matching(entries: seq<HistoryEntry>, pattern: string): (found: seq<HistoryEntry>)
    ensures |found| <= |entries|
    ensures forall e :: e in found <==> e in entries && Matches(e, pattern)
  {
    if entries == [] then []
    else (if Matches(entries[0], pattern) then [entries[0]] else []) + Matching(entries[1..], pattern)
  }

  /** Search keeps storage order: searching a log made of two parts finds
      the matches of the first part, then those of the second. */
  lemma {:induction false} MatchingConcat(a: seq<HistoryEntry>, b: seq<HistoryEntry>, pattern: string)
    ensures Matching(a + b, pattern) == Matching(a, pattern) + Matching(b, pattern)
    decreases |a|
  {
    if a == [] {
      assert a + b == b;
    } else {
      assert (a + b)[1..] == a[1..] + b;
      MatchingConcat(a[1..], b, pattern);
    }
  }

  /** Cutting the log anywhere, the search result is the matches before
      the cut followed by the matches after it: the result keeps storage
      order and lists each stored entry as often as it is stored. */
  lemma MatchingSplits(entries: seq<HistoryEntry>, pattern: string)
    ensures forall k :: 0 <= k <= |entries| ==>
      Matching(entries, pattern) == Matching(entries[..k], pattern) + Matching(entries[k..], pattern)
  {
    forall k | 0 <= k <= |entries|
      ensures Matching(entries, pattern) == Matching(entries[..k], pattern) + Matching(entries[k..], pattern)
    {
      assert entries == entries[..k] + entries[k..];
      MatchingConcat(entries[..k], entries[k..], pattern);
    }
  }

  /** A log whose entries all match is found whole. */
  lemma {:induction false} MatchingAll(entries: seq<HistoryEntry>, pattern: string)
    requires forall i :: 0 <= i < |entries| ==> Matches(entries[i], pattern)
    ensures Matching(entries, pattern) == entries
    decreases |entries|
  {
    if entries != [] {
      MatchingAll(entries[1..], pattern);
    }
  }

  /** `search("")` returns every entry, in order. */
  lemma SearchEmptyFindsAll(entries: seq<HistoryEntry>)
    ensures Matching(entries, []) == entries
  {
    forall i | 0 <= i < |entries| ensures Matches(entries[i], []) {
      ContainsEmpty(ToLower(entries[i].query));
    }
    MatchingAll(entries, []);
  }

  /** The case of the pattern does not matter. */
  lemma SearchCaseInsensitive(entries: seq<HistoryEntry>, p1: string, p2: string)
    requires ToLower(p1) == ToLower(p2)
    ensures Matching(entries, p1) == Matching(entries, p2)
  {
    assert forall e :: Matches(e, p1) == Matches(e, p2);
    MatchingSamePredicate(entries, p1, p2);
  }

  lemma {:induction false} MatchingSamePredicate(entries: seq<HistoryEntry>, p1: string, p2: string)
    requires forall e :: Matches(e, p1) == Matches(e, p2)
    ensures Matching(entries, p1) == Matching(entries, p2)
    decreases |entries|
  {
    if entries != [] {
      MatchingSamePredicate(entries[1..], p1, p2);
    }
  }

  /** After an `add` below capacity, a search finds what it found before,
      followed by the new entry exactly when that entry matches. */
  lemma SearchAfterAdd(entries: seq<HistoryEntry>, e: HistoryEntry, pattern: string)
    requires |entries| < MAX_HISTORY
    ensures Matching(AfterAdd(entries, e), pattern)
         == Matching(entries, pattern) + (if Matches(e, pattern) then [e] else [])
  {
    AddShape(entries, e);
    MatchingConcat(entries, [e], pattern);
    assert Matching([e], pattern) == (if Matches(e, pattern) then [e] else []) + Matching([], pattern);
  }

  // ---------------------------------------------------------------------
  // Recency
  // ---------------------------------------------------------------------

  /** `iter().rev()`. */
  function Reversed<T>(s: seq<T>): (r: seq<T>)
    ensures |r| == |s|
    ensures forall i :: 0 <= i < |s| ==> r[i] == s[|s| - 1 - i]
  {
    if s == [] then [] else Reversed(s[1..]) + [s[0]]
  }

  /** `take(count)`. */
  function Take<T>(s: seq<T>, count: nat): seq<T> {
    if count < |s| then s[..count] else s
  }

  /** The entries newest first, at most `count` of them. */
  function Newest(entries: seq<HistoryEntry>, count: nat): (r: seq<HistoryEntry>)
    ensures |r| == if count < |entries| then count else |entries|
    ensures forall i :: 0 <= i < |r| ==> r[i] == entries[|entries| - 1 - i]
  {
    Take(Reversed(entries), count)
  }

  /** After an `add`, the newest `n` entries (for `n` up to MAX_HISTORY) are
      the new entry followed by the newest `n - 1` from before. */
  lemma RecentAfterAdd(entries: seq<HistoryEntry>, e: HistoryEntry, n: nat)
    requires 1 <= n <= MAX_HISTORY
    ensures Newest(AfterAdd(entries, e), n) == [e] + Newest(entries, n - 1)
  {
    var s := entries + [e];
    var after := AfterAdd(entries, e);
    if |after| < |s| {
      NewestOfSuffix(s, after, n);
    } else {
      assert after == s;
    }
    NewestOfAppended(entries, e, n);
  }

  /** The newest `n` entries of a log only depend on its last `n` entries. */
  lemma NewestOfSuffix(s: seq<HistoryEntry>, t: seq<HistoryEntry>, n: nat)
    requires |t| <= |s| && t == s[|s| - |t|..] && n <= |t|
    ensures Newest(t, n) == Newest(s, n)
  {
    var a := Newest(t, n);
    var b := Newest(s, n);
    forall i | 0 <= i < n ensures a[i] == b[i] {
      assert t[|t| - 1 - i] == s[|s| - 1 - i];
    }
  }

  /** The newest entries of a log with one more entry at its end. */
  lemma NewestOfAppended(entries: seq<HistoryEntry>, e: HistoryEntry, n: nat)
    requires 1 <= n
    ensures Newest(entries + [e], n) == [e] + Newest(entries, n - 1)
  {
    var s := entries + [e];
    var lhs := Newest(s, n);
    var older := Newest(entries, n - 1);
    forall i | 0 <= i < |lhs| ensures lhs[i] == ([e] + older)[i] {
      if i > 0 {
        assert older[i - 1] == entries[|entries| - i];
      }
    }
  }

  /** Entries A, B, C, D added in that order: the three most recent are
      D, C, B. */
  lemma RecentExample(a: HistoryEntry, b: HistoryEntry, c: HistoryEntry, d: HistoryEntry)
    ensures Newest([a, b, c, d], 3) == [d, c, b]
  {
    var r := Newest([a, b, c, d], 3);
    assert r[0] == d && r[1] == c && r[2] == b;
  }

  // ---------------------------------------------------------------------
  // The log object
  // ---------------------------------------------------------------------

  class History {
    var entries: seq<HistoryEntry>

    /** `History::default()`: the empty log. */
    constructor ()
      ensures entries == []
    {
      entries := [];
    }

    /** `History::load`: the decoded file, or the empty log when the file
      is missing, unreadable or does not decode. A loaded log is not
      trimmed, so it may hold more than MAX_HISTORY entries. */
    constructor Load(file: StoredFile<seq<HistoryEntry>>)
      ensures (file.Read? && file.decoded.Some?) ==> entries == file.decoded.value
      ensures !(file.Read? && file.decoded.Some?) ==> entries == []
    {
      entries := LoadOr(file, []);
    }

    /** `History::add`. `sinceEpoch` is the clock reading in whole seconds,
        None when the clock is before the Unix epoch (the timestamp is then 0). */
    method Add(query: string, command: string, sinceEpoch: Option<u64>)
      modifies this
      ensures entries == AfterAdd(old(entries), HistoryEntry(query, command, sinceEpoch.GetOr(0)))
      ensures |entries| <= MAX_HISTORY
      ensures entries[|entries| - 1] == HistoryEntry(query, command, sinceEpoch.GetOr(0))
      ensures |old(entries)| < MAX_HISTORY ==> |entries| == |old(entries)| + 1 && entries[..|old(entries)|] == old(entries)
    {
      var timestamp := sinceEpoch.GetOr(0);
      entries := entries + [HistoryEntry(query, command, timestamp)];
      if |entries| > MAX_HISTORY {
        entries := entries[|entries| - MAX_HISTORY..];
      }
      AddShape(old(entries), HistoryEntry(query, command, timestamp));
    }

    /** `History::search`: exactly the entries that match, in storage order
        (cut the log anywhere and the result is the matches before the cut,
        then those after it); the log itself is only read. */
    function Search(pattern: string): (found: seq<HistoryEntry>)
      reads this
      ensures forall e :: e in found <==> e in entries && Matches(e, pattern)
      ensures |found| <= |entries|
      ensures forall k :: 0 <= k <= |entries| ==>
        found == Matching(entries[..k], pattern) + Matching(entries[k..], pattern)
    {
      MatchingSplits(entries, pattern);
      Matching(entries, pattern)
    }

    /** `History::recent`: the newest `count` entries (all of them when
        there are fewer), newest first; the log itself is only read. */
    function Recent(count: nat): (newest: seq<HistoryEntry>)
      reads this
      ensures |newest| == if count < |entries| then count else |entries|
      ensures forall i :: 0 <= i < |newest| ==> newest[i] == entries[|entries| - 1 - i]
    {
      Newest(entries, count)
    }
  }
}
