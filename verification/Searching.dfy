/** Patterns, and the two searchers of pexpect.

A pattern is a literal string or, for `read(n)`, "any n bytes". A search scans
a buffer for the leftmost match of any pattern of a list, ties going to the
pattern listed first; a match that starts at the very end of the buffer (an
empty one) does not count.
*/
module Searching {

  import opened Options

  datatype Pattern = Literal(text: string) | AnyRun(size: nat) {

    function Width(): nat {
      if Literal? then |text| else size
    }

    predicate MatchesAt(b: string, i: int) {
      0 <= i <= i + Width() <= |b| && (Literal? ==> b[i..i + |text|] == text)
    }
  }

  /** What callers put in a pattern list. */
  datatype Item = Find(pattern: Pattern) | EofItem | TimeoutItem

  /** A pattern together with its index in the caller's list. */
  datatype Entry = Entry(index: nat, pattern: Pattern)

  /** Which entry matched (as a position in the searcher's list), and where. */
  datatype Hit = Hit(rank: nat, start: nat)

  /** How far back a search may look: everywhere, or only in a window at the
      end. The two searchers read the window size differently. */
  datatype Mode = Everywhere | ExactWindow(size: int) | ReWindow(size: int) {

    function Start(n: nat): nat {
      match this
      case Everywhere => 0
      // str.find with the offset -size
      case ExactWindow(w) => if w > 0 then (if w >= n then 0 else n - w) else -w
      // max(0, len - size), which the re module cuts at the end of the buffer
      case ReWindow(w) => if w >= n then 0 else if w > 0 then n - w else n
    }
  }

  // ----- the specification: position by position -----

  /** The first entry of rank k or more that matches at i. */
  function RankAt(entries: seq<Entry>, b: string, i: nat, k: nat): Option<nat>
    decreases |entries| - k
  {
    if k >= |entries| then None
    else if entries[k].pattern.MatchesAt(b, i) then Some(k)
    else RankAt(entries, b, i, k + 1)
  }

  function First(entries: seq<Entry>, b: string, i: nat): Option<Hit>
    decreases |b| - i
  {
    if i >= |b| then None
    else match RankAt(entries, b, i, 0)
      case Some(k) => Some(Hit(k, i))
      case None => First(entries, b, i + 1)
  }

  ghost predicate Nothing(entries: seq<Entry>, b: string, i: nat) {
    forall j, k :: i <= j < |b| && 0 <= k < |entries| ==> !entries[k].pattern.MatchesAt(b, j)
  }

  ghost predicate IsFirst(entries: seq<Entry>, b: string, i: nat, h: Hit) {
    && h.rank < |entries|
    && i <= h.start < |b|
    && entries[h.rank].pattern.MatchesAt(b, h.start)
    && forall j, k :: i <= j < |b| && 0 <= k < |entries| && entries[k].pattern.MatchesAt(b, j)
                      ==> h.start < j || (h.start == j && h.rank <= k)
  }

  lemma RankAtIsLowest(entries: seq<Entry>, b: string, i: nat, k: nat)
    ensures match RankAt(entries, b, i, k)
      case Some(r) => k <= r < |entries| && entries[r].pattern.MatchesAt(b, i)
                      && forall q :: k <= q < r ==> !entries[q].pattern.MatchesAt(b, i)
      case None => forall q :: k <= q < |entries| ==> !entries[q].pattern.MatchesAt(b, i)
    decreases |entries| - k
  {
    if k < |entries| && !entries[k].pattern.MatchesAt(b, i) {
      RankAtIsLowest(entries, b, i, k + 1);
    }
  }

  /** First finds the leftmost match, lowest rank first, exactly when there is one. */
  lemma {:induction false} FirstIsFirst(entries: seq<Entry>, b: string, i: nat)
    ensures match First(entries, b, i)
      case Some(h) => IsFirst(entries, b, i, h)
      case None => Nothing(entries, b, i)
    decreases |b| - i
  {
    if i < |b| {
      RankAtIsLowest(entries, b, i, 0);
      FirstIsFirst(entries, b, i + 1);
    }
  }

  /** ... so whatever is leftmost and of lowest rank is what First returns. */
  lemma FirstIsUnique(entries: seq<Entry>, b: string, i: nat, h: Hit)
    requires IsFirst(entries, b, i, h)
    ensures First(entries, b, i) == Some(h)
  {
    FirstIsFirst(entries, b, i);
    var r := First(entries, b, i);
    assert entries[h.rank].pattern.MatchesAt(b, h.start);
    assert r.Some?;
    assert entries[r.value.rank].pattern.MatchesAt(b, r.value.start);
  }

  lemma FirstIsNone(entries: seq<Entry>, b: string, i: nat)
    requires Nothing(entries, b, i)
    ensures First(entries, b, i) == None
  {
    FirstIsFirst(entries, b, i);
  }

  /** A match lies in a part of the text exactly when it lies there in the text. */
  lemma Slide(p: Pattern, b: string, lo: nat, hi: nat, i: nat)
    requires lo <= i && i + p.Width() <= hi <= |b|
    ensures p.MatchesAt(b[lo..hi], i - lo) == p.MatchesAt(b, i)
  {
    var s, d := b[lo..hi], i - lo;
    var x, y := s[d..d + p.Width()], b[i..i + p.Width()];
    forall k | 0 <= k < p.Width() ensures x[k] == y[k] {
      assert s[d + k] == b[lo + (d + k)];
    }
    assert x == y;
  }

  // ----- str.find -----

  /** The least position from i on where p matches, or -1. */
  function FindFrom(p: Pattern, b: string, i: nat): (n: int)
    ensures n == -1 || i <= n <= |b|
    ensures n >= 0 ==> p.MatchesAt(b, n)
    ensures forall j :: i <= j && (n < 0 || j < n) ==> !p.MatchesAt(b, j)
    decreases |b| - i
  {
    if i > |b| then -1
    else if p.MatchesAt(b, i) then i
    else FindFrom(p, b, i + 1)
  }

  /** A find offset as Python reads it: a negative one counts from the end. */
  function FromEnd(n: nat, offset: int): nat {
    if offset >= 0 then offset else if n + offset >= 0 then n + offset else 0
  }

  // ----- the searchers -----

  function Entries(items: seq<Item>): seq<Entry> {
    if items == [] then []
    else
      var n := |items| - 1;
      Entries(items[..n]) + (if items[n].Find? then [Entry(n, items[n].pattern)] else [])
  }

  /** The last place of a marker (EOF or TIMEOUT) in the list, or -1. */
  function LastIndex(items: seq<Item>, marker: Item): int {
    if items == [] then -1
    else if items[|items| - 1] == marker then |items| - 1
    else LastIndex(items[..|items| - 1], marker)
  }

  ghost predicate BestSoFar(entries: seq<Entry>, b: string, i: nat, rank: int, firstMatch: nat) {
    if rank < 0 then firstMatch == |b| && Nothing(entries, b, i)
    else firstMatch < |b| && IsFirst(entries, b, i, Hit(rank, firstMatch))
  }

  /** An entry changes the best match only by a strictly earlier one. */
  lemma BestOfOneMore(entries: seq<Entry>, k: nat, b: string, i: nat, rank: int, firstMatch: nat, n: int)
    requires k < |entries| && BestSoFar(entries[..k], b, i, rank, firstMatch)
    requires n >= 0 ==> i <= n && entries[k].pattern.MatchesAt(b, n)
    requires forall j :: i <= j < |b| && (n < 0 || j < n) ==> !entries[k].pattern.MatchesAt(b, j)
    ensures if 0 <= n < firstMatch then BestSoFar(entries[..k + 1], b, i, k, n)
            else BestSoFar(entries[..k + 1], b, i, rank, firstMatch)
  {
  }

  class Searcher {
    const exact: bool  // searcher_string rather than searcher_re
    const entries: seq<Entry>
    const eofIndex: int
    const timeoutIndex: int
    var start: nat
    var end: nat

    constructor (items: seq<Item>, exact: bool)
      ensures this.exact == exact && entries == Entries(items)
      ensures eofIndex == LastIndex(items, EofItem) && timeoutIndex == LastIndex(items, TimeoutItem)
    {
      var found, eof, timeout := [], -1, -1;
      for n := 0 to |items|
        invariant found == Entries(items[..n])
        invariant eof == LastIndex(items[..n], EofItem) && timeout == LastIndex(items[..n], TimeoutItem)
      {
        assert items[..n + 1][..n] == items[..n];
        match items[n]
        case EofItem => eof := n;
        case TimeoutItem => timeout := n;
        case Find(p) => found := found + [Entry(n, p)];
      }
      assert items[..|items|] == items;
      this.exact, entries, eofIndex, timeoutIndex := exact, found, eof, timeout;
      start, end := 0, 0;
    }

    /** The window size as this searcher reads it. */
    function ModeOf(window: Option<int>): Mode {
      match window
      case None => Everywhere
      case Some(w) => if exact then ExactWindow(w) else ReWindow(w)
    }

    /** Where the search for one pattern begins. */
    function Offset(p: Pattern, n: nat, freshlen: nat, window: Option<int>): nat {
      if exact then FromEnd(n, if window.None? then -(freshlen + p.Width()) else -window.value)
      else if window.None? then 0
      else
        var from := if n - window.value > 0 then n - window.value else 0;
        if from < n then from else n
    }

    /** Without a window the string searcher looks only at the fresh bytes and a
        margin. Provided the caller's promise holds, that nothing matches wholly
        within the bytes already searched, it still finds the first match of the
        whole buffer. */
    method Search(buffer: string, freshlen: nat, window: Option<int>) returns (rank: int)
      requires freshlen <= |buffer|
      requires exact && window.None? ==> Nothing(entries, buffer[..|buffer| - freshlen], 0)
      modifies this
      ensures match First(entries, buffer, ModeOf(window).Start(|buffer|))
        case None => rank == -1
        case Some(h) => rank == h.rank < |entries| && start == h.start < |buffer|
                        && end == start + entries[rank].pattern.Width() <= |buffer|
    {
      ghost var from := ModeOf(window).Start(|buffer|);
      var firstMatch: nat := |buffer|;
      rank := -1;
      for k := 0 to |entries|
        invariant -1 <= rank < k
        invariant BestSoFar(entries[..k], buffer, from, rank, firstMatch)
      {
        var p := entries[k].pattern;
        var n := FindFrom(p, buffer, Offset(p, |buffer|, freshlen, window));
        OffsetSkipsNothing(p, buffer, freshlen, window, k);
        BestOfOneMore(entries, k, buffer, from, rank, firstMatch, n);
        if 0 <= n < firstMatch {
          firstMatch, rank := n, k;
        }
      }
      assert entries[..|entries|] == entries;
      if rank == -1 {
        FirstIsNone(entries, buffer, from);
      } else {
        FirstIsUnique(entries, buffer, from, Hit(rank, firstMatch));
        start, end := firstMatch, firstMatch + entries[rank].pattern.Width();
      }
    }

    /** The positions a search leaves out hold no match. */
    lemma OffsetSkipsNothing(p: Pattern, b: string, freshlen: nat, window: Option<int>, k: nat)
      requires k < |entries| && p == entries[k].pattern && freshlen <= |b|
      requires exact && window.None? ==> Nothing(entries, b[..|b| - freshlen], 0)
      ensures ModeOf(window).Start(|b|) <= Offset(p, |b|, freshlen, window)
      ensures forall i :: ModeOf(window).Start(|b|) <= i < Offset(p, |b|, freshlen, window) && i < |b|
                          ==> !p.MatchesAt(b, i)
    {
      if exact && window.None? {
        var seen := b[..|b| - freshlen];
        forall i | 0 <= i < Offset(p, |b|, freshlen, window) && i < |b| ensures !p.MatchesAt(b, i) {
          if p.MatchesAt(b, i) {
            assert i + p.Width() <= |seen|;
            assert seen[i..i + p.Width()] == b[i..i + p.Width()];
            assert p.MatchesAt(seen, i);
          }
        }
      }
    }
  }

  /** Both searchers read a positive window alike, and only a positive one: with
      0 the string searcher looks everywhere and the re searcher nowhere. */
  lemma WindowsAgree(w: int)
    ensures w > 0 <==> forall entries, b: string {:trigger First(entries, b, ExactWindow(w).Start(|b|))} ::
                         First(entries, b, ExactWindow(w).Start(|b|)) == First(entries, b, ReWindow(w).Start(|b|))
  {
    if w <= 0 {
      var entries := [Entry(0, AnyRun(1))];
      var b: string := seq(1 - w, _ => 'x');
      assert First(entries, b, ReWindow(w).Start(|b|)) == None;
      assert entries[0].pattern.MatchesAt(b, -w);
      FirstIsFirst(entries, b, ExactWindow(w).Start(|b|));
      assert First(entries, b, ExactWindow(w).Start(|b|)) != First(entries, b, ReWindow(w).Start(|b|));
    }
  }
}
