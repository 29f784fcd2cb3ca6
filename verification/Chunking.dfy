/** When the cutting of the output into chunks does not matter, and when a search
window does not. */
module Chunking {
  import opened Options
  import opened Strings
  import opened Searching
  import opened Streams

  predicate Fits(p: Pattern, t: string) {
    |t| == p.Width() && p.MatchesAt(t, 0)
  }

  /** No text of a pattern, arriving late, can be overtaken: once a search of a
      prefix of the text hits, the whole text gives the same hit. */
  ghost predicate ChunkSafe(entries: seq<Entry>) {
    forall k, t, n {:trigger Fits(entries[k].pattern, t), t[..n]} ::
      0 <= k < |entries| && Fits(entries[k].pattern, t) && 0 <= n <= |t| && First(entries, t[..n], 0).Some?
      ==> First(entries, t, 0) == First(entries, t[..n], 0)
  }

  /** The familiar sufficient condition: no search string is a substring of a
      different one in the list. */
  ghost predicate SubstringFree(entries: seq<Entry>) {
    && (forall k :: 0 <= k < |entries| ==> entries[k].pattern.Literal?)
    && forall j, k, i :: 0 <= j < |entries| && 0 <= k < |entries|
                         && entries[j].pattern.MatchesAt(entries[k].pattern.text, i)
                         ==> entries[j].pattern == entries[k].pattern
  }

  lemma SubstringFreeIsChunkSafe(entries: seq<Entry>)
    requires SubstringFree(entries)
    ensures ChunkSafe(entries)
  {
    forall k, t: string, n | 0 <= k < |entries| && Fits(entries[k].pattern, t) && 0 <= n <= |t|
                             && First(entries, t[..n], 0).Some?
      ensures First(entries, t, 0) == First(entries, t[..n], 0)
    {
      OnlyWholeTextsHit(entries, k, t, n);
      assert t[..n] == t;
    }
  }

  lemma OnlyWholeTextsHit(entries: seq<Entry>, k: nat, t: string, n: nat)
    requires SubstringFree(entries) && k < |entries| && Fits(entries[k].pattern, t)
    requires n <= |t| && First(entries, t[..n], 0).Some?
    ensures n == |t|
  {
    FirstIsFirst(entries, t[..n], 0);
    var h := First(entries, t[..n], 0).value;
    var p := entries[h.rank].pattern;
    Slide(p, t, 0, n, h.start);
    assert t[0..|t|] == t == entries[k].pattern.text;
    assert p.MatchesAt(entries[k].pattern.text, h.start);
  }

  /** More output never changes a hit of a chunk-safe list. */
  lemma HitIsStable(entries: seq<Entry>, b: string, more: string)
    requires ChunkSafe(entries) && First(entries, b, 0).Some?
    ensures First(entries, b + more, 0) == First(entries, b, 0)
  {
    var h, all := First(entries, b, 0).value, b + more;
    FirstIsFirst(entries, b, 0);
    assert all[0..|b|] == b;
    Slide(entries[h.rank].pattern, all, 0, |b|, h.start);
    forall j, k | 0 <= j < |all| && 0 <= k < |entries| && entries[k].pattern.MatchesAt(all, j)
      ensures h.start < j || (h.start == j && h.rank <= k)
    {
      var p := entries[k].pattern;
      if j + p.Width() <= |b| {
        Slide(p, all, 0, |b|, j);
      } else if j <= h.start {
        LateMatchLoses(entries, b, more, h, j, k);
      }
    }
    FirstIsUnique(entries, all, 0, h);
  }

  /** A match that only the later bytes complete does not start before the hit,
      nor with it at a lower rank. */
  lemma LateMatchLoses(entries: seq<Entry>, b: string, more: string, h: Hit, j: nat, k: nat)
    requires ChunkSafe(entries) && IsFirst(entries, b, 0, h)
    requires j <= h.start && k < |entries| && entries[k].pattern.MatchesAt(b + more, j)
    requires |b| < j + entries[k].pattern.Width()
    ensures h.start == j && h.rank <= k
  {
    var p, q, all := entries[k].pattern, entries[h.rank].pattern, b + more;
    var t, n := all[j..j + p.Width()], |b| - j;
    Slide(p, all, j, j + p.Width(), j);
    assert Fits(p, t);
    assert t[..n] == b[j..|b|];
    // the hit lies within the part of t already seen
    Slide(q, b, j, |b|, h.start);
    FirstIsFirst(entries, t[..n], 0);
    assert q.MatchesAt(t[..n], h.start - j);
    assert First(entries, t[..n], 0).Some?;
    var g := First(entries, t[..n], 0).value;
    assert First(entries, t, 0) == Some(g);
    // and t itself starts at its own front
    FirstIsFirst(entries, t, 0);
    assert g.start == 0 && g.rank <= k;
    Slide(entries[g.rank].pattern, b, j, |b|, j);
  }

  /** Without a timeout, a call on a chunk-safe list acts as one search of the
      whole stream, however it is cut. */
  function WholeStream(entries: seq<Entry>, total: string): (Outcome, string) {
    FirstIsFirst(entries, total, 0);
    match First(entries, total, 0)
    case Some(h) =>
      var r := Take(entries, h, total, []);
      (r.outcome, r.buffer)
    case None => (AtEof(total), "")
  }

  lemma {:induction false} CallIsWholeSearch(entries: seq<Entry>, buffer: string, events: seq<Event>)
    requires ChunkSafe(entries)
    ensures var r := Expect(entries, Everywhere, buffer, events);
            r.outcome.TimedOut? || (r.outcome, r.Remaining()) == WholeStream(entries, buffer + Data(events))
    decreases |events|
  {
    FirstIsFirst(entries, buffer, 0);
    match First(entries, buffer, 0) {
      case Some(h) =>
        HitIsStable(entries, buffer, Data(events));
        var end := h.start + entries[h.rank].pattern.Width();
        assert (buffer + Data(events))[end..] == buffer[end..] + Data(events);
        assert (buffer + Data(events))[h.start..end] == buffer[h.start..end];
        assert (buffer + Data(events))[..h.start] == buffer[..h.start];
      case None =>
        if events == [] {
          assert buffer + Data(events) == buffer;
          assert "" + Data([]) == "";
        } else if events[0].Chunk? {
          CallIsWholeSearch(entries, buffer + events[0].bytes, events[1..]);
          Assoc(buffer, events[0].bytes, Data(events[1..]));
        }
    }
  }

  ghost predicate NoTimeout(outcomes: seq<Outcome>) {
    forall i :: 0 <= i < |outcomes| ==> !outcomes[i].TimedOut?
  }

  lemma {:induction false} SessionExtends(script: Script, past: seq<Outcome>, n: nat, buffer: string, events: seq<Event>)
    ensures past <= Converse(script, past, n, buffer, events).outcomes
    decreases n
  {
    if n > 0 {
      var (entries, mode) := script(past);
      var r := Expect(entries, mode, buffer, events);
      SessionExtends(script, past + [r.outcome], n - 1, r.buffer, r.unread);
    }
  }

  /** Chunk independence of whole sessions: two runs of the same program over the
      same bytes, cut differently, see the same outcomes and leave the same
      remaining stream, as long as no call times out. */
  lemma {:induction false} SessionsIgnoreChunks(script: Script, past: seq<Outcome>, n: nat,
                                                b1: string, e1: seq<Event>, b2: string, e2: seq<Event>)
    requires forall os: seq<Outcome> :: ChunkSafe(script(os).0) && script(os).1 == Everywhere
    requires b1 + Data(e1) == b2 + Data(e2)
    requires NoTimeout(Converse(script, past, n, b1, e1).outcomes)
    requires NoTimeout(Converse(script, past, n, b2, e2).outcomes)
    ensures var s1, s2 := Converse(script, past, n, b1, e1), Converse(script, past, n, b2, e2);
            s1.outcomes == s2.outcomes && s1.Remaining() == s2.Remaining()
    decreases n
  {
    if n > 0 {
      var (entries, mode) := script(past);
      assert mode == script(past).1 && entries == script(past).0;
      var r1, r2 := Expect(entries, mode, b1, e1), Expect(entries, mode, b2, e2);
      NextIsNoTimeout(script, past, n, b1, e1);
      NextIsNoTimeout(script, past, n, b2, e2);
      CallIsWholeSearch(entries, b1, e1);
      CallIsWholeSearch(entries, b2, e2);
      SessionsIgnoreChunks(script, past + [r1.outcome], n - 1, r1.buffer, r1.unread, r2.buffer, r2.unread);
    }
  }

  lemma NextIsNoTimeout(script: Script, past: seq<Outcome>, n: nat, buffer: string, events: seq<Event>)
    requires n > 0 && NoTimeout(Converse(script, past, n, buffer, events).outcomes)
    ensures !Expect(script(past).0, script(past).1, buffer, events).outcome.TimedOut?
  {
    var r := Expect(script(past).0, script(past).1, buffer, events);
    SessionExtends(script, past + [r.outcome], n - 1, r.buffer, r.unread);
    assert Converse(script, past, n, buffer, events).outcomes[|past|] == r.outcome;
  }

  ghost predicate Agree(entries: seq<Entry>, e1: seq<Event>, e2: seq<Event>) {
    var r1, r2 := Expect(entries, Everywhere, "", e1), Expect(entries, Everywhere, "", e2);
    r1.outcome == r2.outcome && r1.Remaining() == r2.Remaining()
  }

  lemma {:induction false} UntimedCallDoesNotTimeOut(entries: seq<Entry>, mode: Mode, buffer: string, events: seq<Event>)
    requires Untimed(events)
    ensures !Expect(entries, mode, buffer, events).outcome.TimedOut?
    decreases |events|
  {
    FirstIsFirst(entries, buffer, mode.Start(|buffer|));
    if events != [] && events[0].Chunk? {
      UntimedCallDoesNotTimeOut(entries, mode, buffer + events[0].bytes, events[1..]);
    }
  }

  ghost predicate Ordered(entries: seq<Entry>) {
    forall i, j :: 0 <= i < j < |entries| ==> entries[i].index < entries[j].index
  }

  lemma {:induction false} EntriesAreOrdered(items: seq<Item>)
    ensures Ordered(Entries(items))
    ensures forall i :: 0 <= i < |Entries(items)| ==> Entries(items)[i].index < |items|
  {
    if items != [] {
      EntriesAreOrdered(items[..|items| - 1]);
    }
  }

  /** The condition is exact: a list gives the same answer for every cutting of
      every stream if and only if it is chunk-safe. */
  lemma ChunkSafetyIsExact(items: seq<Item>)
    ensures ChunkSafe(Entries(items)) <==>
            forall e1, e2 :: Untimed(e1) && Untimed(e2) && Data(e1) == Data(e2) ==> Agree(Entries(items), e1, e2)
  {
    var entries := Entries(items);
    EntriesAreOrdered(items);
    if ChunkSafe(entries) {
      forall e1, e2 | Untimed(e1) && Untimed(e2) && Data(e1) == Data(e2) ensures Agree(entries, e1, e2) {
        UntimedCallDoesNotTimeOut(entries, Everywhere, "", e1);
        UntimedCallDoesNotTimeOut(entries, Everywhere, "", e2);
        CallIsWholeSearch(entries, "", e1);
        CallIsWholeSearch(entries, "", e2);
      }
    } else {
      assert forall t: string :: t[..|t|] == t;
      var k, t: string, n :| 0 <= k < |entries| && Fits(entries[k].pattern, t) && 0 <= n <= |t|
        && First(entries, t[..n], 0).Some? && First(entries, t, 0) != First(entries, t[..n], 0);
      CutsDisagree(entries, k, t, n);
    }
  }

  /** An unsafe text read at once and read in two pieces gives two answers. */
  lemma CutsDisagree(entries: seq<Entry>, k: nat, t: string, n: nat)
    requires k < |entries| && Fits(entries[k].pattern, t) && n < |t| && First(entries, t[..n], 0).Some?
    requires First(entries, t, 0) != First(entries, t[..n], 0) && Ordered(entries)
    ensures exists e1, e2 :: Untimed(e1) && Untimed(e2) && Data(e1) == Data(e2) && !Agree(entries, e1, e2)
  {
    FirstIsFirst(entries, t[..n], 0);
    FirstIsFirst(entries, t, 0);
    assert entries[k].pattern.MatchesAt(t, 0);
    var e1: seq<Event>, e2: seq<Event> := [Chunk(t)], [Chunk(t[..n]), Chunk(t[n..])];
    assert e2[1..] == [Chunk(t[n..])];
    assert Data(e2[1..]) == t[n..];
    assert Data(e1) == t == t[..n] + t[n..] == Data(e2);
    HitsDiffer(entries, t, n);
    assert !Agree(entries, e1, e2);
  }

  lemma HitsDiffer(entries: seq<Entry>, t: string, n: nat)
    requires n < |t| && First(entries, t, 0).Some? && First(entries, t[..n], 0).Some? && Ordered(entries)
    requires First(entries, t, 0) != First(entries, t[..n], 0)
    ensures var e1: seq<Event>, e2: seq<Event> := [Chunk(t)], [Chunk(t[..n]), Chunk(t[n..])];
            Expect(entries, Everywhere, "", e1).outcome != Expect(entries, Everywhere, "", e2).outcome
  {
    var e1: seq<Event>, e2: seq<Event> := [Chunk(t)], [Chunk(t[..n]), Chunk(t[n..])];
    FirstIsFirst(entries, t, 0);
    FirstIsFirst(entries, t[..n], 0);
    FirstIsFirst(entries, "", 0);
    assert "" + t == t && "" + t[..n] == t[..n];
    var h1, h2 := First(entries, t, 0).value, First(entries, t[..n], 0).value;
    assert Expect(entries, Everywhere, "", e1) == Take(entries, h1, t, e1[1..]);
    assert Expect(entries, Everywhere, "", e2) == Take(entries, h2, t[..n], e2[1..]);
    assert h1.start == |t[..h1.start]| && h2.start == |t[..n][..h2.start]|;
  }

  /** The documentation's own example: 'foobar' before 'foo' is decided by the cut. */
  lemma FoobarDependsOnChunks()
    ensures !ChunkSafe(Entries([Find(Literal("foobar")), Find(Literal("foo"))]))
  {
    var items := [Find(Literal("foobar")), Find(Literal("foo"))];
    var entries := [Entry(0, Literal("foobar")), Entry(1, Literal("foo"))];
    assert items[..1] == [items[0]] && items[..1][..0] == [];
    assert Entries(items) == entries;
    var t := "foobar";
    assert t[..3] == "foo" && t[0..6] == t;
    assert Fits(entries[0].pattern, t);
    assert RankAt(entries, t, 0, 0) == Some(0);
    assert RankAt(entries, t[..3], 0, 0) == RankAt(entries, t[..3], 0, 1) == Some(1);
    assert First(entries, t[..3], 0) == Some(Hit(1, 0));
  }
}
