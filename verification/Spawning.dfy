/** The spawn object: the expect loop over a growing buffer, the file-like reads
built on it. */
module Spawning {
  import opened Options
  import opened Searching
  import opened Streams
  import opened Chunking
  import opened Promises
  import opened Lines
  import opened Strings

  datatype After = Nil | Bytes(text: string) | EofMark | TimeoutMark

  /** What an expect call gives its caller: an index, or an exception. */
  datatype Reply = Index(index: nat) | RaisedEof | RaisedTimeout

  datatype ReadReply = Got(text: string) | TimeoutRaised

  datatype LinesReply = GotLines(lines: seq<string>) | LinesTimeoutRaised

  function MarkerIndex(i: int): Option<nat> {
    if i >= 0 then Some(i) else None
  }

  function ReplyTo(o: Outcome, eofIndex: int, timeoutIndex: int): Reply {
    match o
    case Matched(i, _, _) => Index(i)
    case AtEof(_) => if eofIndex >= 0 then Index(eofIndex) else RaisedEof
    case TimedOut(_) => if timeoutIndex >= 0 then Index(timeoutIndex) else RaisedTimeout
  }

  class Spawn {
    var buffer: string
    var before: string
    var after: After
    var matchIndex: Option<nat>
    var searchWindow: Option<int>
    var flagEof: bool
    var sent: seq<string>
    var unread: seq<Event>  // what the child's reads will meet

    constructor (events: seq<Event>, searchWindow: Option<int>)
      ensures buffer == "" && unread == events && this.searchWindow == searchWindow && sent == [] && !flagEof
    {
      buffer, before, after, matchIndex := "", "", Nil, None;
      flagEof, sent, unread := false, [], events;
      this.searchWindow := searchWindow;
    }

    function Remaining(): string
      reads this
    {
      buffer + Data(unread)
    }

    /** The fields tell the outcome, as callers are promised. */
    predicate Shows(o: Outcome, eofIndex: int, timeoutIndex: int)
      reads this
    {
      && before == o.before
      && match o
         case Matched(i, _, a) => after == Bytes(a) && matchIndex == Some(i)
         case AtEof(_) => after == EofMark && matchIndex == MarkerIndex(eofIndex)
         case TimedOut(_) => after == TimeoutMark && matchIndex == MarkerIndex(timeoutIndex)
    }

    /** The promise of a call made with these on that buffer and those events. */
    ghost predicate Keeps(items: seq<Item>, exact: bool, window: Option<int>, buffer0: string, events: seq<Event>, n: nat,
                          reply: Reply)
      reads this
    {
      match after
      case Bytes(text) =>
        exists i: nat :: && Ended(items, exact, window, buffer0, events, n, Result(Matched(i, before, text), buffer, unread))
                    && reply == Index(i) && matchIndex == Some(i)
      case EofMark =>
        && Ended(items, exact, window, buffer0, events, n, Result(AtEof(before), buffer, unread))
        && TellsMarker(items, EofItem, reply, RaisedEof)
      case TimeoutMark =>
        && Ended(items, exact, window, buffer0, events, n, Result(TimedOut(before), buffer, unread))
        && TellsMarker(items, TimeoutItem, reply, RaisedTimeout)
      case Nil => false
    }

    /** The last place of the marker in the list, or the exception if it has none. */
    ghost predicate TellsMarker(items: seq<Item>, marker: Item, reply: Reply, raised: Reply)
      reads this
    {
      if marker in items then reply.Index? && matchIndex == Some(reply.index) && IsMarkerIndex(items, marker, reply.index)
      else reply == raised && matchIndex == None
    }

    lemma ShowsKeeps(items: seq<Item>, exact: bool, window: Option<int>, buffer0: string, events: seq<Event>, reply: Reply)
      requires var r := Expect(Entries(items), ModeFor(exact, window), buffer0, events);
               && buffer == r.buffer && unread == r.unread
               && Shows(r.outcome, LastIndex(items, EofItem), LastIndex(items, TimeoutItem))
               && reply == ReplyTo(r.outcome, LastIndex(items, EofItem), LastIndex(items, TimeoutItem))
      ensures exists n :: Keeps(items, exact, window, buffer0, events, n, reply)
    {
      var n := ExpectEnds(items, exact, window, buffer0, events);
      LastIndexIsMarker(items, EofItem);
      LastIndexIsMarker(items, TimeoutItem);
      assert Keeps(items, exact, window, buffer0, events, n, reply);
    }

    /** One read of the child: a chunk, a timeout, or (None) EOF. */
    method ReadNonblocking() returns (e: Option<Event>)
      modifies this`unread, this`flagEof
      ensures if old(unread) == [] then e == None && unread == [] && flagEof
              else e == Some(old(unread)[0]) && unread == old(unread)[1..] && flagEof == old(flagEof)
    {
      if unread == [] {
        flagEof, e := true, None;
      } else {
        e, unread := Some(unread[0]), unread[1..];
      }
    }

    /** The loop refines Expect: though each search looks only at the fresh bytes
        and a margin, the call ends as if it searched the whole buffer every time. */
    method ExpectLoop(searcher: Searcher, window: Option<int>) returns (reply: Reply)
      requires this as object != searcher
      modifies this`buffer, this`before, this`after, this`matchIndex, this`unread, this`flagEof, searcher
      ensures var mode := searcher.ModeOf(if window == Some(-1) then searchWindow else window);
              var r := Expect(searcher.entries, mode, old(buffer), old(unread));
              && buffer == r.buffer && unread == r.unread
              && Shows(r.outcome, searcher.eofIndex, searcher.timeoutIndex)
              && reply == ReplyTo(r.outcome, searcher.eofIndex, searcher.timeoutIndex)
      ensures flagEof <==> old(flagEof) || after == EofMark
    {
      var size := if window == Some(-1) then searchWindow else window;
      ghost var entries, mode := searcher.entries, searcher.ModeOf(size);
      ghost var goal := Expect(entries, mode, buffer, unread);
      var incoming := buffer;
      var freshlen: nat := |incoming|;
      assert incoming[..0] == "";
      while true
        invariant freshlen <= |incoming| && size == if window == Some(-1) then searchWindow else window
        invariant mode == Everywhere ==> Nothing(entries, incoming[..|incoming| - freshlen], 0)
        invariant goal == Expect(entries, mode, incoming, unread) && flagEof == old(flagEof)
        decreases |unread|
      {
        var rank := searcher.Search(incoming, freshlen, size);
        ExpectStep(entries, mode, incoming, unread);
        if rank >= 0 {
          var start, end, index := searcher.start, searcher.end, searcher.entries[rank].index;
          buffer, before, after := incoming[end..], incoming[..start], Bytes(incoming[start..end]);
          matchIndex := Some(index);
          assert goal == Result(Matched(index, before, incoming[start..end]), buffer, unread);
          return Index(index);
        }
        var e := ReadNonblocking();
        match e
        case None =>
          assert goal == Result(AtEof(incoming), "", []);
          buffer, before, after, matchIndex := "", incoming, EofMark, MarkerIndex(searcher.eofIndex);
          return if searcher.eofIndex >= 0 then Index(searcher.eofIndex) else RaisedEof;
        case Some(Timeout) =>
          assert goal == Result(TimedOut(incoming), incoming, unread);
          buffer, before, after, matchIndex := incoming, incoming, TimeoutMark, MarkerIndex(searcher.timeoutIndex);
          return if searcher.timeoutIndex >= 0 then Index(searcher.timeoutIndex) else RaisedTimeout;
        case Some(Chunk(c)) =>
          freshlen := |c|;
          assert (incoming + c)[..|incoming|] == incoming;
          incoming := incoming + c;
      }
    }

    method ExpectExact(items: seq<Item>, window: Option<int> := Some(-1)) returns (reply: Reply)
      modifies this`buffer, this`before, this`after, this`matchIndex, this`unread, this`flagEof
      ensures var size := if window == Some(-1) then searchWindow else window;
              var mode := if size.None? then Everywhere else ExactWindow(size.value);
              var r := Expect(Entries(items), mode, old(buffer), old(unread));
              && buffer == r.buffer && unread == r.unread
              && Shows(r.outcome, LastIndex(items, EofItem), LastIndex(items, TimeoutItem))
              && reply == ReplyTo(r.outcome, LastIndex(items, EofItem), LastIndex(items, TimeoutItem))
      ensures var size := if window == Some(-1) then searchWindow else window;
              exists n :: Keeps(items, true, size, old(buffer), old(unread), n, reply)
      ensures flagEof <==> old(flagEof) || after == EofMark
    {
      var searcher := new Searcher(items, true);
      reply := ExpectLoop(searcher, window);
      ShowsKeeps(items, true, if window == Some(-1) then searchWindow else window, old(buffer), old(unread), reply);
    }

    /** Unlike ExpectExact, the window defaults to none, whatever the object's own is. */
    method ExpectRe(items: seq<Item>, window: Option<int> := None) returns (reply: Reply)
      modifies this`buffer, this`before, this`after, this`matchIndex, this`unread, this`flagEof
      ensures var size := if window == Some(-1) then searchWindow else window;
              var mode := if size.None? then Everywhere else ReWindow(size.value);
              var r := Expect(Entries(items), mode, old(buffer), old(unread));
              && buffer == r.buffer && unread == r.unread
              && Shows(r.outcome, LastIndex(items, EofItem), LastIndex(items, TimeoutItem))
              && reply == ReplyTo(r.outcome, LastIndex(items, EofItem), LastIndex(items, TimeoutItem))
      ensures var size := if window == Some(-1) then searchWindow else window;
              exists n :: Keeps(items, false, size, old(buffer), old(unread), n, reply)
      ensures flagEof <==> old(flagEof) || after == EofMark
    {
      reply := ExpectList(items, window);
      ShowsKeeps(items, false, if window == Some(-1) then searchWindow else window, old(buffer), old(unread), reply);
    }

    method ExpectList(items: seq<Item>, window: Option<int> := Some(-1)) returns (reply: Reply)
      modifies this`buffer, this`before, this`after, this`matchIndex, this`unread, this`flagEof
      ensures var size := if window == Some(-1) then searchWindow else window;
              var mode := if size.None? then Everywhere else ReWindow(size.value);
              var r := Expect(Entries(items), mode, old(buffer), old(unread));
              && buffer == r.buffer && unread == r.unread
              && Shows(r.outcome, LastIndex(items, EofItem), LastIndex(items, TimeoutItem))
              && reply == ReplyTo(r.outcome, LastIndex(items, EofItem), LastIndex(items, TimeoutItem))
      ensures flagEof <==> old(flagEof) || after == EofMark
    {
      var searcher := new Searcher(items, false);
      reply := ExpectLoop(searcher, window);
    }

    // ----- file-like reads -----

    /** With a size, the first bytes of what remains, as many as there are up to
        the size; without, all of it. A timeout takes nothing. */
    method Read(size: int) returns (r: ReadReply)
      modifies this`buffer, this`before, this`after, this`matchIndex, this`unread, this`flagEof
      ensures Untimed(old(unread)) ==> r.Got? && Untimed(unread)
      ensures match r
        case Got(t) =>
          var total := old(Remaining());
          && t == (if 0 <= size <= |total| then total[..size] else total)
          && Remaining() == total[|t|..]
          && (0 < size <= |total| ==> before == "")
        case TimeoutRaised => Remaining() == old(Remaining()) && before == buffer
    {
      if size == 0 {
        return Got("");
      }
      ghost var total := Remaining();
      var items := if size < 0 then [EofItem] else [Find(AnyRun(size)), EofItem];
      var p := if size < 0 then None else Some(AnyRun(size));
      OneEntry(p);
      ReadsOne(p, buffer, unread);
      var reply := ExpectList(items, None);
      if reply.RaisedTimeout? {
        return TimeoutRaised;
      }
      SizedHit(p, total);
      if size > 0 && reply == Index(0) {
        return Got(after.text);
      }
      return Got(before);
    }

    /** The next line of what remains. */
    method Readline(size: int := -1) returns (r: ReadReply)
      modifies this`buffer, this`before, this`after, this`matchIndex, this`unread, this`flagEof
      ensures Untimed(old(unread)) ==> r.Got? && Untimed(unread)
      ensures match r
        case Got(t) =>
          var total := old(Remaining());
          t == (if size == 0 then "" else FirstLine(total)) && Remaining() == total[|t|..]
        case TimeoutRaised => Remaining() == old(Remaining()) && before == buffer
    {
      if size == 0 {
        return Got("");
      }
      ghost var total := Remaining();
      OneEntry(Some(CRLF));
      ReadsOne(Some(CRLF), buffer, unread);
      var reply := ExpectList([Find(CRLF), EofItem], None);
      if reply.RaisedTimeout? {
        return TimeoutRaised;
      }
      LineHit(total);
      if reply == Index(0) {
        return Got(before + "\r\n");
      }
      return Got(before);
    }

    /** All remaining lines. After a timeout those read so far are lost, and the later
        ones remain. */
    method Readlines() returns (r: LinesReply)
      modifies this`buffer, this`before, this`after, this`matchIndex, this`unread, this`flagEof
      ensures Untimed(old(unread)) ==> r.GotLines?
      ensures match r
        case GotLines(lines) => lines == LinesOf(old(Remaining())) && Remaining() == ""
        case LinesTimeoutRaised =>
          before == buffer && exists k :: IsLaterLines(old(Remaining()), k, Remaining())
    {
      ghost var total := Remaining();
      var lines := [];
      while true
        invariant lines + LinesOf(Remaining()) == LinesOf(total)
        invariant Untimed(old(unread)) ==> Untimed(unread)
        decreases |Remaining()|
      {
        ghost var rest := Remaining();
        var line := Readline();
        match line
        case TimeoutRaised =>
          LaterLines(total, lines, rest);
          assert IsLaterLines(total, |lines|, Remaining());
          return LinesTimeoutRaised;
        case Got(t) =>
          if t == "" {
            return GotLines(lines);
          }
          Assoc(lines, [t], LinesOf(Remaining()));
          lines := lines + [t];
      }
    }

    method Send(s: string)
      modifies this`sent
      ensures sent == old(sent) + [s]
    {
      sent := sent + [s];
    }
  }

  /** One turn of the loop, as Expect has it. */
  lemma ExpectStep(entries: seq<Entry>, mode: Mode, b: string, events: seq<Event>)
    ensures match First(entries, b, mode.Start(|b|))
            case Some(h) =>
              && h.rank < |entries| && h.start + entries[h.rank].pattern.Width() <= |b|
              && Expect(entries, mode, b, events) == Take(entries, h, b, events)
            case None =>
              && (mode == Everywhere ==> Nothing(entries, b, 0))
              && Expect(entries, mode, b, events)
                 == if events == [] then Result(AtEof(b), "", [])
                    else if events[0].Timeout? then Result(TimedOut(b), b, events[1..])
                    else Expect(entries, mode, b + events[0].bytes, events[1..])
  {
    FirstIsFirst(entries, b, mode.Start(|b|));
  }

  // ----- one pattern or EOF -----

  function Single(p: Option<Pattern>): seq<Entry> {
    if p.None? then [] else [Entry(0, p.value)]
  }

  lemma OneEntry(p: Option<Pattern>)
    ensures var items := if p.None? then [EofItem] else [Find(p.value), EofItem];
            Entries(items) == Single(p) && LastIndex(items, EofItem) == |items| - 1
            && LastIndex(items, TimeoutItem) == -1
  {
    var items := if p.None? then [EofItem] else [Find(p.value), EofItem];
    if p.Some? {
      var front := [Find(p.value)];
      assert items[..1] == front && front[..0] == [];
      assert Entries(front) == [] + [Entry(0, p.value)];
      assert LastIndex(front, TimeoutItem) == LastIndex([], TimeoutItem);
    } else {
      assert items[..0] == [];
    }
  }

  lemma SingleIsChunkSafe(p: Option<Pattern>)
    ensures ChunkSafe(Single(p))
  {
    var entries := Single(p);
    forall k, t: string, n | 0 <= k < |entries| && Fits(entries[k].pattern, t) && 0 <= n <= |t|
                             && First(entries, t[..n], 0).Some?
      ensures First(entries, t, 0) == First(entries, t[..n], 0)
    {
      FirstIsFirst(entries, t[..n], 0);
      assert t[..n] == t;
    }
  }

  /** The file-like reads depend on the stream, not on its chunks. */
  lemma ReadsOne(p: Option<Pattern>, buffer: string, events: seq<Event>)
    ensures var r := Expect(Single(p), Everywhere, buffer, events);
            && (r.outcome.TimedOut? ==> r.Remaining() == buffer + Data(events) && r.buffer == r.outcome.before)
            && (!r.outcome.TimedOut? ==> (r.outcome, r.Remaining()) == WholeStream(Single(p), buffer + Data(events)))
            && (Untimed(events) ==> !r.outcome.TimedOut? && Untimed(r.unread))
  {
    SingleIsChunkSafe(p);
    CallIsWholeSearch(Single(p), buffer, events);
    CallKeepsTotal(Single(p), Everywhere, buffer, events);
    CallConserves(Single(p), Everywhere, buffer, events);
    if Untimed(events) {
      UntimedCallDoesNotTimeOut(Single(p), Everywhere, buffer, events);
    }
    var r := Expect(Single(p), Everywhere, buffer, events);
    if r.outcome.TimedOut? {
      assert "" + r.Remaining() == r.Remaining();
    }
  }

  lemma LineHit(t: string)
    ensures var (o, rest) := WholeStream(Single(Some(CRLF)), t);
            && rest == t[|FirstLine(t)|..]
            && match o
               case Matched(i, b, _) => i == 0 && b + "\r\n" == FirstLine(t)
               case AtEof(b) => b == FirstLine(t)
               case TimedOut(_) => false
  {
    var entries := [Entry(0, CRLF)];
    assert Single(Some(CRLF)) == entries;
    FirstIsFirst(entries, t, 0);
    match First(entries, t, 0) {
      case Some(h) => assert t[..h.start] + "\r\n" == t[..h.start + 2];
      case None =>
    }
  }

  /** n bytes or EOF; without n, EOF. */
  lemma SizedHit(p: Option<Pattern>, t: string)
    requires p.Some? ==> p.value.AnyRun? && p.value.size > 0
    ensures WholeStream(Single(p), t) ==
            if p.Some? && p.value.size <= |t| then (Matched(0, "", t[..p.value.size]), t[p.value.size..])
            else (AtEof(t), "")
  {
    var entries := Single(p);
    FirstIsFirst(entries, t, 0);
    if p.Some? && p.value.size <= |t| {
      assert entries[0].pattern.MatchesAt(t, 0);
      assert t[0..p.value.size] == t[..p.value.size] && t[..0] == "";
    }
  }
}
