/** When a search window changes nothing. */
module Windows {
  import opened Options
  import opened Searching
  import opened Streams
  import opened Chunking

  function Windowed(exact: bool, w: int): Mode {
    if exact then ExactWindow(w) else ReWindow(w)
  }

  function Reach(p: Pattern): nat {
    if p.Width() > 0 then p.Width() - 1 else 0
  }

  /** The window covers fresh bytes and the margin every pattern needs. */
  predicate Covers(entries: seq<Entry>, w: int, news: nat) {
    forall k :: 0 <= k < |entries| ==> news + Reach(entries[k].pattern) <= w
  }

  ghost predicate WindowFits(entries: seq<Entry>, w: int, events: seq<Event>) {
    forall i :: 0 <= i < |events| && events[i].Chunk? ==> Covers(entries, w, |events[i].bytes|)
  }

  /** A search may start late where nothing starts early. */
  lemma {:induction false} LateStart(entries: seq<Entry>, b: string, i: nat, j: nat)
    requires i <= j && forall p, k :: i <= p < j && p < |b| && 0 <= k < |entries| ==> !entries[k].pattern.MatchesAt(b, p)
    ensures First(entries, b, i) == First(entries, b, j)
    decreases j - i
  {
    if i < j && i < |b| {
      RankAtIsLowest(entries, b, i, 0);
      LateStart(entries, b, i + 1, j);
    }
  }

  /** With a positive window of at least chunk + pattern - 1 bytes, for every chunk
      and pattern, and no more than the window in the buffer, the windowed loop
      does exactly what the unwindowed one does. */
  lemma WindowIsInvisible(entries: seq<Entry>, exact: bool, w: int, buffer: string, events: seq<Event>)
    requires 0 < w && |buffer| <= w && WindowFits(entries, w, events)
    ensures Expect(entries, Windowed(exact, w), buffer, events) == Expect(entries, Everywhere, buffer, events)
  {
    InvisibleFrom(entries, exact, w, buffer, 0, events);
  }

  lemma {:induction false} InvisibleFrom(entries: seq<Entry>, exact: bool, w: int, buffer: string, seen: nat,
                                         events: seq<Event>)
    requires 0 < w && seen <= |buffer| && Nothing(entries, buffer[..seen], 0)
    requires |buffer| <= w || Covers(entries, w, |buffer| - seen)
    requires WindowFits(entries, w, events)
    ensures Expect(entries, Windowed(exact, w), buffer, events) == Expect(entries, Everywhere, buffer, events)
    decreases |events|
  {
    var from := Windowed(exact, w).Start(|buffer|);
    forall p, k | 0 <= p < from && p < |buffer| && 0 <= k < |entries| ensures !entries[k].pattern.MatchesAt(buffer, p) {
      if entries[k].pattern.MatchesAt(buffer, p) {
        Slide(entries[k].pattern, buffer, 0, seen, p);
      }
    }
    LateStart(entries, buffer, 0, from);
    FirstIsFirst(entries, buffer, 0);
    if First(entries, buffer, 0) == None && events != [] && events[0].Chunk? {
      var c := events[0].bytes;
      assert (buffer + c)[..|buffer|] == buffer;
      assert WindowFits(entries, w, events[1..]);
      InvisibleFrom(entries, exact, w, buffer + c, |buffer|, events[1..]);
    }
  }

  ghost predicate AtMost(events: seq<Event>, c: nat) {
    forall i :: 0 <= i < |events| && events[i].Chunk? ==> |events[i].bytes| <= c
  }

  /** What a window has to hold for chunks of up to c bytes: the last chunk, and before
      it any part of a pattern's text that the chunk may complete and in which no search
      has hit yet. */
  ghost predicate Suffices(entries: seq<Entry>, w: int, c: nat) {
    forall k, s, n {:trigger Fits(entries[k].pattern, s), s[..n]} ::
      0 <= k < |entries| && Fits(entries[k].pattern, s) && 0 <= n <= |s|
      && (n < |s| || n == 0) && |s| - n <= c && First(entries, s[..n], 0) == None
      ==> n + c <= w
  }

  ghost predicate Invisible(entries: seq<Entry>, exact: bool, w: int, c: nat) {
    forall events :: AtMost(events, c) ==>
      Expect(entries, Windowed(exact, w), "", events) == Expect(entries, Everywhere, "", events)
  }

  /** The bound is exact for every list of patterns: with chunks of up to c bytes a
      positive window changes nothing if and only if it suffices. */
  lemma WindowBoundIsExact(entries: seq<Entry>, exact: bool, w: int, c: nat)
    requires 0 < w && 0 < c
    ensures Suffices(entries, w, c) <==> Invisible(entries, exact, w, c)
  {
    if Suffices(entries, w, c) {
      forall events | AtMost(events, c)
        ensures Expect(entries, Windowed(exact, w), "", events) == Expect(entries, Everywhere, "", events)
      {
        SufficesFrom(entries, exact, w, c, "", 0, events);
      }
    } else {
      assert forall s: string :: s[..|s|] == s;
      var k, s: string, n :| 0 <= k < |entries| && Fits(entries[k].pattern, s) && 0 <= n <= |s|
        && (n < |s| || n == 0) && |s| - n <= c && First(entries, s[..n], 0) == None && w < n + c;
      Slips(entries, exact, w, c, k, s, n);
    }
  }

  /** A match that starts before the window would need a larger one. */
  lemma NothingBefore(entries: seq<Entry>, w: int, c: nat, b: string, seen: nat, k: nat, p: nat)
    requires Suffices(entries, w, c) && seen <= |b| && |b| - seen <= c && Nothing(entries, b[..seen], 0)
    requires k < |entries| && p < |b| && entries[k].pattern.MatchesAt(b, p)
    ensures |b| - p <= w
  {
    var q := entries[k].pattern;
    var s, n := b[p..p + q.Width()], if p < seen then seen - p else 0;
    Slide(q, b, p, p + q.Width(), p);
    assert Fits(q, s);
    if p < seen && p + q.Width() <= seen {
      Slide(q, b, 0, seen, p);
      assert false;
    } else {
      assert s[..n] == b[p..p + n];
      NothingInPart(entries, b, seen, p, p + n);
    }
  }

  lemma NothingInPart(entries: seq<Entry>, b: string, seen: nat, lo: nat, hi: nat)
    requires seen <= |b| && lo <= hi <= |b| && Nothing(entries, b[..seen], 0) && (hi <= seen || lo == hi)
    ensures First(entries, b[lo..hi], 0) == None
  {
    forall j, k | 0 <= j < |b[lo..hi]| && 0 <= k < |entries| ensures !entries[k].pattern.MatchesAt(b[lo..hi], j) {
      if entries[k].pattern.MatchesAt(b[lo..hi], j) {
        Slide(entries[k].pattern, b, lo, hi, lo + j);
        Slide(entries[k].pattern, b, 0, seen, lo + j);
      }
    }
    FirstIsNone(entries, b[lo..hi], 0);
  }

  lemma {:induction false} SufficesFrom(entries: seq<Entry>, exact: bool, w: int, c: nat, buffer: string, seen: nat,
                                        events: seq<Event>)
    requires 0 < w && Suffices(entries, w, c) && AtMost(events, c)
    requires seen <= |buffer| && |buffer| - seen <= c && Nothing(entries, buffer[..seen], 0)
    ensures Expect(entries, Windowed(exact, w), buffer, events) == Expect(entries, Everywhere, buffer, events)
    decreases |events|
  {
    var from := Windowed(exact, w).Start(|buffer|);
    forall p, k | 0 <= p < from && p < |buffer| && 0 <= k < |entries| ensures !entries[k].pattern.MatchesAt(buffer, p) {
      if entries[k].pattern.MatchesAt(buffer, p) {
        NothingBefore(entries, w, c, buffer, seen, k, p);
      }
    }
    LateStart(entries, buffer, 0, from);
    FirstIsFirst(entries, buffer, 0);
    if First(entries, buffer, 0) == None && events != [] && events[0].Chunk? {
      assert (buffer + events[0].bytes)[..|buffer|] == buffer;
      SufficesFrom(entries, exact, w, c, buffer + events[0].bytes, |buffer|, events[1..]);
    }
  }

  /** The text in which nothing is found, byte by byte, and a last chunk. */
  function Drip(past: string, last: Bytes): seq<Event> {
    if past == "" then [Chunk(last)] else [Chunk([past[0]])] + Drip(past[1..], last)
  }

  lemma DripIsAtMost(past: string, last: Bytes, c: nat)
    requires 0 < |last| <= c
    ensures AtMost(Drip(past, last), c)
  {
  }

  lemma {:induction false} DripHitsNothing(entries: seq<Entry>, mode: Mode, buffer: string, past: string, last: Bytes)
    requires Nothing(entries, buffer + past, 0)
    ensures Expect(entries, mode, buffer, Drip(past, last)) == Expect(entries, mode, buffer + past, [Chunk(last)])
    decreases |past|
  {
    if past == "" {
      assert buffer + past == buffer;
    } else {
      assert buffer + [past[0]] + past[1..] == buffer + past;
      assert (buffer + past)[0..|buffer|] == buffer;
      forall j, k | 0 <= j < |buffer| && 0 <= k < |entries| ensures !entries[k].pattern.MatchesAt(buffer, j) {
        if entries[k].pattern.MatchesAt(buffer, j) {
          Slide(entries[k].pattern, buffer + past, 0, |buffer|, j);
        }
      }
      FirstIsNone(entries, buffer, mode.Start(|buffer|));
      assert Drip(past, last)[1..] == Drip(past[1..], last);
      DripHitsNothing(entries, mode, buffer + [past[0]], past[1..], last);
    }
  }

  /** The full search finds something at the front; a window too small has lost the front. */
  lemma FrontIsLost(entries: seq<Entry>, exact: bool, w: int, k: nat, all: string)
    requires k < |entries| && 0 < w < |all| && entries[k].pattern.MatchesAt(all, 0)
    ensures Expect(entries, Windowed(exact, w), all, []).outcome != Expect(entries, Everywhere, all, []).outcome
  {
    var from := Windowed(exact, w).Start(|all|);
    FirstIsFirst(entries, all, 0);
    FirstIsFirst(entries, all, from);
    assert Expect(entries, Everywhere, all, []).outcome.before == all[..0];
    if First(entries, all, from).Some? {
      var h := First(entries, all, from).value;
      assert Expect(entries, Windowed(exact, w), all, []).outcome.before == all[..h.start];
    }
  }

  lemma Slips(entries: seq<Entry>, exact: bool, w: int, c: nat, k: nat, s: string, n: nat)
    requires 0 < w < n + c && k < |entries| && Fits(entries[k].pattern, s) && n <= |s| && 0 < c
    requires (n < |s| || n == 0) && |s| - n <= c && First(entries, s[..n], 0) == None
    ensures !Invisible(entries, exact, w, c)
  {
    var filler: string := seq(n + c - |s|, _ => 'x');
    Recut(s, n, filler);
    FitsInFront(entries[k].pattern, s, filler);
    FirstIsFirst(entries, s[..n], 0);
    DripSlips(entries, exact, w, c, k, s[..n], s[n..] + filler, s + filler);
  }

  lemma Recut(s: string, n: nat, more: string)
    requires n <= |s|
    ensures s + more == s[..n] + (s[n..] + more)
  {
  }

  lemma FitsInFront(p: Pattern, s: string, more: string)
    requires Fits(p, s)
    ensures p.MatchesAt(s + more, 0)
  {
    assert (s + more)[0..|s|] == s;
    Slide(p, s + more, 0, |s|, 0);
  }

  lemma DripSlips(entries: seq<Entry>, exact: bool, w: int, c: nat, k: nat, past: string, last: string, all: string)
    requires all == past + last && 0 < |last| <= c && 0 < w < |all| && Nothing(entries, past, 0)
    requires k < |entries| && entries[k].pattern.MatchesAt(all, 0)
    ensures !Invisible(entries, exact, w, c)
  {
    DripIsAtMost(past, last, c);
    SameUntilLast(entries, Windowed(exact, w), past, last);
    SameUntilLast(entries, Everywhere, past, last);
    FrontIsLost(entries, exact, w, k, all);
  }

  lemma SameUntilLast(entries: seq<Entry>, mode: Mode, past: string, last: Bytes)
    requires Nothing(entries, past, 0)
    ensures Expect(entries, mode, "", Drip(past, last)) == Expect(entries, mode, past + last, [])
  {
    assert "" + past == past;
    DripHitsNothing(entries, mode, "", past, last);
    FirstIsNone(entries, past, mode.Start(|past|));
    assert [Chunk(last)][1..] == [];
  }

  /** For one non-empty string the window that suffices is chunk + string - 1. */
  lemma WindowBoundIsTight(s: string, exact: bool, w: int, c: nat)
    requires s != "" && 0 < w && 0 < c
    ensures c + |s| - 1 <= w <==> Invisible([Entry(0, Literal(s))], exact, w, c)
  {
    var entries := [Entry(0, Literal(s))];
    assert s[0..|s|] == s && Fits(entries[0].pattern, s);
    FirstIsNone(entries, s[..|s| - 1], 0);
    forall t: string | Fits(entries[0].pattern, t) ensures t == s {
      assert t[0..|s|] == t;
    }
    WindowBoundIsExact(entries, exact, w, c);
  }
}
