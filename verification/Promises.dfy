/** What an expect call promises its caller, said of the caller's own list: which entry
is reported, where it matched, and when the call ends.
*/
module Promises {
  import opened Options
  import opened Searching
  import opened Streams

  /** Where the search of n bytes begins, for either searcher. */
  function Begin(exact: bool, window: Option<int>, n: nat): nat {
    match window
    case None => 0
    case Some(w) => if w >= n && w > 0 then 0 else if w > 0 then n - w else if exact then -w else n
  }

  function ModeFor(exact: bool, window: Option<int>): Mode {
    match window
    case None => Everywhere
    case Some(w) => if exact then ExactWindow(w) else ReWindow(w)
  }

  /** No pattern of the list matches from there on. */
  ghost predicate NoMatch(items: seq<Item>, b: string, from: nat) {
    forall p, j :: from <= p < |b| && 0 <= j < |items| && items[j].Find? ==> !items[j].pattern.MatchesAt(b, p)
  }

  /** Entry i matches at p, no pattern matches before p, and none listed before i at p. */
  ghost predicate Leftmost(items: seq<Item>, i: nat, b: string, from: nat, p: nat) {
    && i < |items| && items[i].Find? && from <= p < |b| && items[i].pattern.MatchesAt(b, p)
    && (forall j :: 0 <= j < i && items[j].Find? ==> !items[j].pattern.MatchesAt(b, p))
    && forall q, j :: from <= q < p && 0 <= j < |items| && items[j].Find? ==> !items[j].pattern.MatchesAt(b, q)
  }

  /** The text that the pattern asks for. */
  predicate IsTextOf(item: Item, text: string) {
    item.Find? && if item.pattern.Literal? then text == item.pattern.text else |text| == item.pattern.size
  }

  /** The buffer after n chunks. */
  function SoFar(buffer: string, events: seq<Event>, n: nat): string
    requires n <= |events|
  {
    buffer + Data(events[..n])
  }

  /** The call reads chunks while nothing matches, n of them, and ends with the first
      match, at the end of the events, or at a timeout. */
  ghost predicate Ended(items: seq<Item>, exact: bool, window: Option<int>, buffer: string, events: seq<Event>, n: nat,
                        r: Result)
  {
    && n <= |events|
    && (forall k :: 0 <= k < n ==>
          events[k].Chunk? && var b := SoFar(buffer, events, k); NoMatch(items, b, Begin(exact, window, |b|)))
    && var b := SoFar(buffer, events, n);
       var from := Begin(exact, window, |b|);
       match r.outcome
       case Matched(i, before, text) =>
         && b == before + text + r.buffer && r.unread == events[n..]
         && Leftmost(items, i, b, from, |before|) && IsTextOf(items[i], text)
       case AtEof(before) =>
         n == |events| && before == b && r.buffer == "" && r.unread == [] && NoMatch(items, b, from)
       case TimedOut(before) =>
         && n < |events| && events[n].Timeout? && before == b && r.buffer == b && r.unread == events[n + 1..]
         && NoMatch(items, b, from)
  }

  // ----- the list and the searcher's entries -----

  ghost predicate IsEntryOf(e: Entry, items: seq<Item>) {
    e.index < |items| && items[e.index] == Find(e.pattern)
  }

  ghost predicate IsListed(j: nat, items: seq<Item>, entries: seq<Entry>) {
    exists k :: 0 <= k < |entries| && entries[k].index == j
  }

  /** The entries are the patterns of the list, in order and with their own indices. */
  ghost predicate AreTheList(es: seq<Entry>, items: seq<Item>) {
    && (forall k :: 0 <= k < |es| ==> IsEntryOf(es[k], items))
    && (forall j, k :: 0 <= j < k < |es| ==> es[j].index < es[k].index)
    && forall j :: 0 <= j < |items| && items[j].Find? ==> IsListed(j, items, es)
  }

  lemma OneMoreEntry(es: seq<Entry>, items: seq<Item>, p: Pattern)
    requires AreTheList(es, items)
    ensures AreTheList(es + [Entry(|items|, p)], items + [Find(p)])
  {
    var es', items' := es + [Entry(|items|, p)], items + [Find(p)];
    assert es'[|es|].index == |items|;
    forall k | 0 <= k < |es'| ensures IsEntryOf(es'[k], items') {
      if k < |es| {
        assert IsEntryOf(es[k], items);
      }
    }
    forall j | 0 <= j < |items'| && items'[j].Find? ensures IsListed(j, items', es') {
      if j < |items| {
        assert IsListed(j, items, es);
        var k :| 0 <= k < |es| && es[k].index == j;
        assert es'[k] == es[k];
      }
    }
  }

  lemma OneMoreMarker(es: seq<Entry>, items: seq<Item>, marker: Item)
    requires AreTheList(es, items) && !marker.Find?
    ensures AreTheList(es, items + [marker])
  {
    forall k | 0 <= k < |es| ensures IsEntryOf(es[k], items + [marker]) {
      assert IsEntryOf(es[k], items);
    }
    forall j | 0 <= j < |items| && items[j].Find? ensures IsListed(j, items + [marker], es) {
      assert IsListed(j, items, es);
    }
  }

  lemma {:induction false} EntriesAreTheList(items: seq<Item>)
    ensures AreTheList(Entries(items), items)
  {
    if items != [] {
      var n := |items| - 1;
      EntriesAreTheList(items[..n]);
      assert items == items[..n] + [items[n]];
      if items[n].Find? {
        OneMoreEntry(Entries(items[..n]), items[..n], items[n].pattern);
      } else {
        OneMoreMarker(Entries(items[..n]), items[..n], items[n]);
        assert Entries(items) == Entries(items[..n]);
      }
    }
  }

  lemma EntryOf(items: seq<Item>, k: nat)
    requires k < |Entries(items)|
    ensures IsEntryOf(Entries(items)[k], items)
  {
    EntriesAreTheList(items);
  }

  lemma NothingIsNoMatch(items: seq<Item>, b: string, from: nat)
    requires Nothing(Entries(items), b, from)
    ensures NoMatch(items, b, from)
  {
    EntriesAreTheList(items);
    var es := Entries(items);
    forall p, j | from <= p < |b| && 0 <= j < |items| && items[j].Find? ensures !items[j].pattern.MatchesAt(b, p) {
      assert IsListed(j, items, es);
      var k :| 0 <= k < |es| && es[k].index == j;
      assert IsEntryOf(es[k], items);
    }
  }

  lemma FirstIsLeftmost(items: seq<Item>, b: string, from: nat, h: Hit)
    requires IsFirst(Entries(items), b, from, h)
    ensures Leftmost(items, Entries(items)[h.rank].index, b, from, h.start)
  {
    var es := Entries(items);
    EntryOf(items, h.rank);
    EntriesAreTheList(items);
    var i := es[h.rank].index;
    forall q, j | from <= q <= h.start && 0 <= j < |items| && items[j].Find? && items[j].pattern.MatchesAt(b, q)
      ensures q == h.start && i <= j
    {
      assert IsListed(j, items, es);
      var k :| 0 <= k < |es| && es[k].index == j;
      assert IsEntryOf(es[k], items);
      assert h.rank < k ==> es[h.rank].index < es[k].index;
    }
  }

  lemma BeginIsStart(exact: bool, window: Option<int>, n: nat)
    ensures ModeFor(exact, window).Start(n) == Begin(exact, window, n)
  {
  }

  // ----- the call -----

  lemma TakeEnds(items: seq<Item>, exact: bool, window: Option<int>, buffer: string, events: seq<Event>, h: Hit)
    requires IsFirst(Entries(items), buffer, Begin(exact, window, |buffer|), h)
    ensures Ended(items, exact, window, buffer, events, 0, Take(Entries(items), h, buffer, events))
  {
    var e := Entries(items)[h.rank];
    var end := h.start + e.pattern.Width();
    FirstIsLeftmost(items, buffer, Begin(exact, window, |buffer|), h);
    EntryOf(items, h.rank);
    assert SoFar(buffer, events, 0) == buffer;
    assert buffer == buffer[..h.start] + buffer[h.start..end] + buffer[end..];
    assert events[0..] == events;
  }

  lemma EndedOneMore(items: seq<Item>, exact: bool, window: Option<int>, buffer: string, events: seq<Event>, n: nat, r: Result)
    requires events != [] && events[0].Chunk? && NoMatch(items, buffer, Begin(exact, window, |buffer|))
    requires Ended(items, exact, window, buffer + events[0].bytes, events[1..], n, r)
    ensures Ended(items, exact, window, buffer, events, n + 1, r)
  {
    forall k | 0 <= k <= n ensures SoFar(buffer, events, k + 1) == SoFar(buffer + events[0].bytes, events[1..], k) {
      assert events[..k + 1][1..] == events[1..][..k];
    }
    assert SoFar(buffer, events, 0) == buffer;
    forall k | 0 <= k < n + 1
      ensures events[k].Chunk? && var b := SoFar(buffer, events, k); NoMatch(items, b, Begin(exact, window, |b|))
    {
      if k > 0 {
        assert events[k] == events[1..][k - 1];
      }
    }
    assert events[1..][n..] == events[n + 1..];
    assert r.outcome.TimedOut? ==> events[1..][n + 1..] == events[n + 2..];
  }

  /** Every call keeps the promise. */
  lemma {:induction false} ExpectEnds(items: seq<Item>, exact: bool, window: Option<int>, buffer: string, events: seq<Event>)
    returns (n: nat)
    ensures Ended(items, exact, window, buffer, events, n, Expect(Entries(items), ModeFor(exact, window), buffer, events))
    decreases |events|
  {
    var from := Begin(exact, window, |buffer|);
    n := 0;
    BeginIsStart(exact, window, |buffer|);
    FirstIsFirst(Entries(items), buffer, from);
    match First(Entries(items), buffer, from) {
      case Some(h) => TakeEnds(items, exact, window, buffer, events, h);
      case None =>
        NothingIsNoMatch(items, buffer, from);
        if events != [] && events[0].Chunk? {
          var m := ExpectEnds(items, exact, window, buffer + events[0].bytes, events[1..]);
          n := m + 1;
          EndedOneMore(items, exact, window, buffer, events, m, Expect(Entries(items), ModeFor(exact, window), buffer, events));
        } else {
          assert SoFar(buffer, events, 0) == buffer;
        }
    }
  }

  /** The place of a marker that counts: the last one in the list, if any. */
  ghost predicate IsMarkerIndex(items: seq<Item>, marker: Item, i: int) {
    if i < 0 then i == -1 && marker !in items
    else i < |items| && items[i] == marker && forall j :: i < j < |items| ==> items[j] != marker
  }

  lemma {:induction false} LastIndexIsMarker(items: seq<Item>, marker: Item)
    ensures IsMarkerIndex(items, marker, LastIndex(items, marker))
  {
    if items != [] && items[|items| - 1] != marker {
      LastIndexIsMarker(items[..|items| - 1], marker);
      assert items == items[..|items| - 1] + [items[|items| - 1]];
    }
  }
}
