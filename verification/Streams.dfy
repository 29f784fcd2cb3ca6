/** What one expect call, and a whole session of them, makes of a child's output.

The child is the list of events its reads will meet: chunks of output, cut
anywhere, and timeouts. When the list is empty every read meets EOF.
*/
module Streams {
  import opened Options
  import opened Strings
  import opened Searching

  type Bytes = s: string | s != "" witness "x"

  datatype Event = Chunk(bytes: Bytes) | Timeout

  function Data(events: seq<Event>): string {
    if events == [] then ""
    else (if events[0].Chunk? then events[0].bytes else "") + Data(events[1..])
  }

  predicate Untimed(events: seq<Event>) {
    Timeout !in events
  }

  datatype Outcome =
    | Matched(index: nat, before: string, after: string)
    | AtEof(before: string)
    | TimedOut(before: string)
  {
    /** The part of the stream that the call takes away for good. */
    function Consumed(): string {
      match this
      case Matched(_, b, a) => b + a
      case AtEof(b) => b
      case TimedOut(_) => ""
    }
  }

  datatype Result = Result(outcome: Outcome, buffer: string, unread: seq<Event>) {
    function Remaining(): string {
      buffer + Data(unread)
    }
  }

  /** The result when the search of the buffer hits. */
  function Take(entries: seq<Entry>, h: Hit, buffer: string, unread: seq<Event>): Result
    requires h.rank < |entries| && h.start + entries[h.rank].pattern.Width() <= |buffer|
  {
    var end := h.start + entries[h.rank].pattern.Width();
    Result(Matched(entries[h.rank].index, buffer[..h.start], buffer[h.start..end]), buffer[end..], unread)
  }

  /** One expect call: search the whole permitted part of the buffer before each read. */
  function Expect(entries: seq<Entry>, mode: Mode, buffer: string, events: seq<Event>): Result
    decreases |events|
  {
    FirstIsFirst(entries, buffer, mode.Start(|buffer|));
    match First(entries, buffer, mode.Start(|buffer|))
    case Some(h) => Take(entries, h, buffer, events)
    case None =>
      if events == [] then Result(AtEof(buffer), "", [])
      else if events[0].Timeout? then Result(TimedOut(buffer), buffer, events[1..])
      else Expect(entries, mode, buffer + events[0].bytes, events[1..])
  }

  // ----- conservation -----

  /** `after` is what is left of `before` once its first events are read. */
  predicate Suffix(after: seq<Event>, before: seq<Event>) {
    |after| <= |before| && before[|before| - |after|..] == after
  }

  function Read(before: seq<Event>, after: seq<Event>): seq<Event>
    requires Suffix(after, before)
  {
    before[..|before| - |after|]
  }

  lemma {:induction false} DataOfConcat(e: seq<Event>, f: seq<Event>)
    ensures Data(e + f) == Data(e) + Data(f)
  {
    if e == [] {
      assert e + f == f;
    } else {
      DataOfConcat(e[1..], f);
      assert (e + f)[1..] == e[1..] + f;
    }
  }

  lemma DataOfRead(before: seq<Event>, after: seq<Event>)
    requires Suffix(after, before)
    ensures Data(before) == Data(Read(before, after)) + Data(after)
  {
    assert before == Read(before, after) + after;
    DataOfConcat(Read(before, after), after);
  }

  /** Reading in two stages. */
  lemma ReadsJoin(a: seq<Event>, b: seq<Event>, c: seq<Event>)
    requires Suffix(b, a) && Suffix(c, b)
    ensures Suffix(c, a) && Read(a, c) == Read(a, b) + Read(b, c)
    ensures Data(Read(a, c)) == Data(Read(a, b)) + Data(Read(b, c))
  {
    assert a == Read(a, b) + b && b == Read(b, c) + c;
    DataOfConcat(Read(a, b), Read(b, c));
  }

  ghost predicate Conserved(buffer: string, events: seq<Event>, r: Result) {
    && Suffix(r.unread, events)
    && r.outcome.Consumed() + r.buffer == buffer + Data(Read(events, r.unread))
    && (r.outcome.TimedOut? ==> r.buffer == r.outcome.before)
    && (r.outcome.AtEof? ==> r.buffer == "" && r.unread == [])
  }

  /** A call takes events from the front only; what it consumed, followed by what
      it left in the buffer, is the old buffer and every byte it read. A timeout
      consumes nothing, EOF leaves nothing. */
  lemma {:induction false} CallConserves(entries: seq<Entry>, mode: Mode, buffer: string, events: seq<Event>)
    ensures Conserved(buffer, events, Expect(entries, mode, buffer, events))
    decreases |events|
  {
    var r := Expect(entries, mode, buffer, events);
    FirstIsFirst(entries, buffer, mode.Start(|buffer|));
    match First(entries, buffer, mode.Start(|buffer|)) {
      case Some(h) =>
        TakeConserves(entries, h, buffer, events);
      case None =>
        if events == [] {
        } else if events[0].Timeout? {
          assert Read(events, r.unread) == [events[0]];
        } else {
          CallConserves(entries, mode, buffer + events[0].bytes, events[1..]);
          ConservedOfCons(buffer, events, r);
        }
    }
  }

  lemma ConservedOfCons(buffer: string, events: seq<Event>, r: Result)
    requires events != [] && events[0].Chunk? && Conserved(buffer + events[0].bytes, events[1..], r)
    ensures Conserved(buffer, events, r)
  {
    var c := events[0].bytes;
    assert Suffix(events[1..], events);
    ReadsJoin(events, events[1..], r.unread);
    assert Read(events, events[1..]) == [events[0]];
    assert Data([events[0]]) == c;
    Assoc(buffer, c, Data(Read(events[1..], r.unread)));
  }

  lemma TakeConserves(entries: seq<Entry>, h: Hit, buffer: string, events: seq<Event>)
    requires h.rank < |entries| && h.start + entries[h.rank].pattern.Width() <= |buffer|
    ensures Conserved(buffer, events, Take(entries, h, buffer, events))
  {
    assert Read(events, events) == [];
    assert Data([]) == "";
  }

  /** The same, counting the unread data too. */
  lemma CallKeepsTotal(entries: seq<Entry>, mode: Mode, buffer: string, events: seq<Event>)
    ensures var r := Expect(entries, mode, buffer, events);
            r.outcome.Consumed() + r.Remaining() == buffer + Data(events)
  {
    CallConserves(entries, mode, buffer, events);
    var r := Expect(entries, mode, buffer, events);
    DataOfRead(events, r.unread);
    Assoc(r.outcome.Consumed(), r.buffer, Data(r.unread));
    Assoc(buffer, Data(Read(events, r.unread)), Data(r.unread));
  }

  /** A program over a child: what to expect next, given all outcomes so far. */
  type Script = seq<Outcome> -> (seq<Entry>, Mode)

  datatype Session = Session(outcomes: seq<Outcome>, buffer: string, unread: seq<Event>) {
    function Remaining(): string {
      buffer + Data(unread)
    }
  }

  /** The session of n more calls. */
  function Converse(script: Script, past: seq<Outcome>, n: nat, buffer: string, events: seq<Event>): Session
    decreases n
  {
    if n == 0 then Session(past, buffer, events)
    else
      var (entries, mode) := script(past);
      var r := Expect(entries, mode, buffer, events);
      Converse(script, past + [r.outcome], n - 1, r.buffer, r.unread)
  }

  function Text(outcomes: seq<Outcome>): string {
    if outcomes == [] then ""
    else Text(outcomes[..|outcomes| - 1]) + outcomes[|outcomes| - 1].Consumed()
  }

  /** Every byte read shows up exactly once and in order: in the outcomes of some
      call, or still in the buffer. */
  lemma {:induction false} SessionConserves(script: Script, past: seq<Outcome>, n: nat,
                                            buffer: string, events: seq<Event>)
    ensures var s := Converse(script, past, n, buffer, events);
            && Suffix(s.unread, events)
            && Text(s.outcomes) + s.buffer == Text(past) + (buffer + Data(Read(events, s.unread)))
    decreases n
  {
    var s := Converse(script, past, n, buffer, events);
    if n == 0 {
      assert Read(events, s.unread) == [];
    } else {
      var (entries, mode) := script(past);
      var r := Expect(entries, mode, buffer, events);
      CallConserves(entries, mode, buffer, events);
      assert (past + [r.outcome])[..|past|] == past;
      SessionConserves(script, past + [r.outcome], n - 1, r.buffer, r.unread);
      ReadsJoin(events, r.unread, s.unread);
      var d1, d2 := Data(Read(events, r.unread)), Data(Read(r.unread, s.unread));
      Assoc(Text(past), r.outcome.Consumed(), r.buffer + d2);
      Assoc(r.outcome.Consumed(), r.buffer, d2);
      Assoc(buffer, d1, d2);
    }
  }
}
