/** `run`: answer patterns with strings until EOF or a timeout ends the loop. */
module Running {
  import opened Options
  import opened Strings
  import opened Searching
  import opened Streams
  import opened Promises
  import opened Spawning

  ghost predicate Positive(entries: seq<Entry>) {
    forall k :: 0 <= k < |entries| ==> entries[k].pattern.Width() > 0
  }

  function Items(patterns: seq<Pattern>): seq<Item> {
    seq(|patterns|, i requires 0 <= i < |patterns| => Find(patterns[i]))
  }

  lemma {:induction false} ItemsAreEntries(patterns: seq<Pattern>)
    ensures Entries(Items(patterns)) == EntriesOf(patterns)
    ensures LastIndex(Items(patterns), EofItem) == -1 && LastIndex(Items(patterns), TimeoutItem) == -1
  {
    if patterns != [] {
      var n := |patterns| - 1;
      assert Items(patterns)[..n] == Items(patterns[..n]);
      ItemsAreEntries(patterns[..n]);
    }
  }

  lemma {:induction false} MatchTakes(entries: seq<Entry>, buffer: string, events: seq<Event>)
    requires Positive(entries)
    ensures var r := Expect(entries, Everywhere, buffer, events);
            r.outcome.Matched? ==> |r.Remaining()| < |buffer + Data(events)|
                                   && exists k :: 0 <= k < |entries| && r.outcome.index == entries[k].index
    decreases |events|
  {
    FirstIsFirst(entries, buffer, 0);
    match First(entries, buffer, 0) {
      case Some(h) =>
      case None =>
        if events != [] && events[0].Chunk? {
          MatchTakes(entries, buffer + events[0].bytes, events[1..]);
        }
    }
  }

  /** The expect calls of a run, the first that does not match ending it. */
  ghost function Calls(entries: seq<Entry>, buffer: string, events: seq<Event>): (cs: seq<Result>)
    requires Positive(entries)
    ensures cs != []
    decreases |buffer + Data(events)|
  {
    var r := Expect(entries, Everywhere, buffer, events);
    MatchTakes(entries, buffer, events);
    if r.outcome.Matched? then [r] + Calls(entries, r.buffer, r.unread) else [r]
  }

  function Piece(o: Outcome): string {
    if o.Matched? then o.before + o.after else o.before
  }

  function Gathered(cs: seq<Result>): string {
    if cs == [] then "" else Piece(cs[0].outcome) + Gathered(cs[1..])
  }

  function Answers(cs: seq<Result>, responses: seq<string>): seq<string> {
    if cs == [] then []
    else
      (if cs[0].outcome.Matched? && cs[0].outcome.index < |responses| then [responses[cs[0].outcome.index]] else [])
      + Answers(cs[1..], responses)
  }

  ghost predicate GathersRead(cs: seq<Result>, buffer: string, events: seq<Event>)
    requires cs != []
  {
    && Suffix(Last(cs).unread, events)
    && Gathered(cs) == buffer + Data(Read(events, Last(cs).unread))
  }

  /** What a run gathers is exactly what it read, each byte once; after EOF that
      is all there was. */
  lemma {:induction false} RunGathersAll(entries: seq<Entry>, buffer: string, events: seq<Event>)
    requires Positive(entries)
    ensures var cs := Calls(entries, buffer, events);
            && GathersRead(cs, buffer, events)
            && (Last(cs).outcome.AtEof? ==> Gathered(cs) == buffer + Data(events))
            && (Last(cs).outcome.TimedOut? || Last(cs).outcome.AtEof?)
            && forall i :: 0 <= i < |cs| - 1 ==> cs[i].outcome.Matched?
    decreases |buffer + Data(events)|
  {
    var r := Expect(entries, Everywhere, buffer, events);
    CallConserves(entries, Everywhere, buffer, events);
    MatchTakes(entries, buffer, events);
    if r.outcome.Matched? {
      RunGathersAll(entries, r.buffer, r.unread);
      StepGathers(r, Calls(entries, r.buffer, r.unread), buffer, events);
      CallKeepsTotal(entries, Everywhere, buffer, events);
      Assoc(Piece(r.outcome), r.buffer, Data(r.unread));
    } else {
      LastGathers(r, buffer, events);
    }
  }

  lemma LastGathers(r: Result, buffer: string, events: seq<Event>)
    requires !r.outcome.Matched? && Conserved(buffer, events, r)
    ensures GathersRead([r], buffer, events)
    ensures r.outcome.AtEof? ==> Gathered([r]) == buffer + Data(events)
  {
    assert [r][1..] == [];
    LastPiece(r, buffer, events);
    if r.outcome.AtEof? {
      assert Read(events, []) == events;
    }
  }

  lemma StepGathers(r: Result, cs: seq<Result>, buffer: string, events: seq<Event>)
    requires r.outcome.Matched? && Conserved(buffer, events, r)
    requires cs != [] && GathersRead(cs, r.buffer, r.unread)
    ensures GathersRead([r] + cs, buffer, events)
    ensures Gathered([r] + cs) == Piece(r.outcome) + Gathered(cs)
  {
    var unread := Last(cs).unread;
    assert ([r] + cs)[1..] == cs;
    ReadsJoin(events, r.unread, unread);
    Assoc(Piece(r.outcome), r.buffer, Data(Read(r.unread, unread)));
    Assoc(buffer, Data(Read(events, r.unread)), Data(Read(r.unread, unread)));
  }

  lemma LastPiece(r: Result, buffer: string, events: seq<Event>)
    requires !r.outcome.Matched? && Conserved(buffer, events, r)
    ensures Piece(r.outcome) + "" == buffer + Data(Read(events, r.unread))
  {
    if r.outcome.AtEof? {
      assert r.outcome.Consumed() + "" == r.outcome.before;
    } else {
      assert "" + r.buffer == r.buffer;
    }
  }

  /** What the calls from here on come to, after the first of them. */
  lemma RestOf(entries: seq<Entry>, buffer: string, events: seq<Event>, responses: seq<string>)
    requires Positive(entries)
    ensures var r, cs := Expect(entries, Everywhere, buffer, events), Calls(entries, buffer, events);
            if r.outcome.Matched? then
              MatchTakes(entries, buffer, events);
              var later := Calls(entries, r.buffer, r.unread);
              && Gathered(cs) == Piece(r.outcome) + Gathered(later) && Last(cs) == Last(later)
              && Answers(cs, responses)
                 == (if r.outcome.index < |responses| then [responses[r.outcome.index]] else []) + Answers(later, responses)
            else Gathered(cs) == Piece(r.outcome) && Answers(cs, responses) == [] && Last(cs) == r
  {
    var r := Expect(entries, Everywhere, buffer, events);
    MatchTakes(entries, buffer, events);
    if r.outcome.Matched? {
      OfCons(r, Calls(entries, r.buffer, r.unread), responses);
    } else {
      OfCons(r, [], responses);
      assert [r] + [] == [r] && Piece(r.outcome) + "" == Piece(r.outcome);
    }
  }

  lemma OfCons(r: Result, cs: seq<Result>, responses: seq<string>)
    ensures Gathered([r] + cs) == Piece(r.outcome) + Gathered(cs)
    ensures Answers([r] + cs, responses)
            == (if r.outcome.Matched? && r.outcome.index < |responses| then [responses[r.outcome.index]] else [])
               + Answers(cs, responses)
  {
    assert ([r] + cs)[1..] == cs;
  }

  function EntriesOf(patterns: seq<Pattern>): seq<Entry> {
    seq(|patterns|, i requires 0 <= i < |patterns| => Entry(i, patterns[i]))
  }

  /** A call for the list on that buffer and those events, as its caller sees it. */
  ghost predicate IsCall(items: seq<Item>, buffer: string, events: seq<Event>, r: Result) {
    exists n :: Ended(items, false, None, buffer, events, n, r)
  }

  /** Each call after the first starts where the one before stopped. */
  ghost predicate AreCalls(items: seq<Item>, buffer: string, events: seq<Event>, cs: seq<Result>) {
    forall k :: 0 <= k < |cs| ==> IsNextCall(items, buffer, events, cs, k)
  }

  ghost predicate IsNextCall(items: seq<Item>, buffer: string, events: seq<Event>, cs: seq<Result>, k: nat)
    requires k < |cs|
  {
    if k == 0 then IsCall(items, buffer, events, cs[0])
    else IsCall(items, cs[k - 1].buffer, cs[k - 1].unread, cs[k])
  }

  /** All calls match but the last, and to the k-th match the answer is the response of
      the pattern it reports. */
  ghost predicate IsAnsweredRun(items: seq<Item>, buffer: string, events: seq<Event>, cs: seq<Result>,
                                answers: seq<string>, responses: seq<string>)
  {
    && cs != [] && AreCalls(items, buffer, events, cs) && !Last(cs).outcome.Matched?
    && |answers| == |cs| - 1
    && forall k :: 0 <= k < |cs| - 1 ==> IsAnswered(cs, answers, responses, k)
  }

  lemma RunAnswersMatches(patterns: seq<Pattern>, responses: seq<string>, buffer: string, events: seq<Event>)
    requires |patterns| == |responses| && Positive(EntriesOf(patterns))
    ensures var cs := Calls(EntriesOf(patterns), buffer, events);
            IsAnsweredRun(Items(patterns), buffer, events, cs, Answers(cs, responses), responses)
  {
    ItemsAreEntries(patterns);
    AnswersMatch(Items(patterns), EntriesOf(patterns), responses, buffer, events);
  }

  lemma {:induction false} AnswersMatch(items: seq<Item>, entries: seq<Entry>, responses: seq<string>,
                                        buffer: string, events: seq<Event>)
    requires entries == Entries(items) && Positive(entries) && forall k :: 0 <= k < |entries| ==> entries[k].index < |responses|
    ensures var cs := Calls(entries, buffer, events);
            IsAnsweredRun(items, buffer, events, cs, Answers(cs, responses), responses)
    decreases |buffer + Data(events)|
  {
    var r := Expect(entries, Everywhere, buffer, events);
    MatchTakes(entries, buffer, events);
    ExpectIsCall(items, buffer, events);
    if r.outcome.Matched? {
      AnswersMatch(items, entries, responses, r.buffer, r.unread);
      MoreRun(items, responses, buffer, events, r, Calls(entries, r.buffer, r.unread));
    } else {
      LastRun(items, responses, buffer, events, r);
    }
  }

  lemma LastRun(items: seq<Item>, responses: seq<string>, buffer: string, events: seq<Event>, r: Result)
    requires !r.outcome.Matched? && IsCall(items, buffer, events, r)
    ensures IsAnsweredRun(items, buffer, events, [r], Answers([r], responses), responses)
  {
    OfCons(r, [], responses);
    assert [r] + [] == [r];
  }

  lemma MoreRun(items: seq<Item>, responses: seq<string>, buffer: string, events: seq<Event>, r: Result, cs: seq<Result>)
    requires r.outcome.Matched? && r.outcome.index < |responses| && IsCall(items, buffer, events, r)
    requires IsAnsweredRun(items, r.buffer, r.unread, cs, Answers(cs, responses), responses)
    ensures IsAnsweredRun(items, buffer, events, [r] + cs, Answers([r] + cs, responses), responses)
  {
    MoreCalls(items, buffer, events, r, cs);
    MoreAnswers(responses, r, cs);
  }

  lemma ExpectIsCall(items: seq<Item>, buffer: string, events: seq<Event>)
    ensures IsCall(items, buffer, events, Expect(Entries(items), Everywhere, buffer, events))
  {
    var n := ExpectEnds(items, false, None, buffer, events);
  }

  lemma MoreCalls(items: seq<Item>, buffer: string, events: seq<Event>, r: Result, cs: seq<Result>)
    requires IsCall(items, buffer, events, r) && AreCalls(items, r.buffer, r.unread, cs)
    ensures AreCalls(items, buffer, events, [r] + cs)
  {
    var all := [r] + cs;
    forall k | 0 <= k < |all| ensures IsNextCall(items, buffer, events, all, k) {
      if k > 0 {
        assert IsNextCall(items, r.buffer, r.unread, cs, k - 1);
        assert all[k] == cs[k - 1] && all[k - 1] == if k == 1 then r else cs[k - 2];
      }
    }
  }

  /** The k-th call matches and is answered by the response of its pattern. */
  ghost predicate IsAnswered(cs: seq<Result>, answers: seq<string>, responses: seq<string>, k: nat)
    requires k < |cs| && k < |answers|
  {
    && cs[k].outcome.Matched? && cs[k].outcome.index < |responses|
    && answers[k] == responses[cs[k].outcome.index]
  }

  lemma MoreAnswers(responses: seq<string>, r: Result, cs: seq<Result>)
    requires r.outcome.Matched? && r.outcome.index < |responses| && cs != [] && |Answers(cs, responses)| == |cs| - 1
    requires forall k :: 0 <= k < |cs| - 1 ==> IsAnswered(cs, Answers(cs, responses), responses, k)
    ensures var all, answers := [r] + cs, Answers([r] + cs, responses);
            |answers| == |all| - 1 && forall k :: 0 <= k < |all| - 1 ==> IsAnswered(all, answers, responses, k)
  {
    var all, answers := [r] + cs, Answers([r] + cs, responses);
    OfCons(r, cs, responses);
    forall k | 0 <= k < |all| - 1 ensures IsAnswered(all, answers, responses, k) {
      if k > 0 {
        assert IsAnswered(cs, Answers(cs, responses), responses, k - 1);
      }
    }
  }

  /** Pattern i is answered by response i. A pattern that can match nothing would
      be matched again forever. */
  method Run(child: Spawn, patterns: seq<Pattern>, responses: seq<string>) returns (output: string)
    requires |patterns| == |responses| && forall p :: p in patterns ==> p.Width() > 0
    modifies child
    ensures var cs := Calls(EntriesOf(patterns), old(child.buffer), old(child.unread));
            && output == Gathered(cs)
            && child.sent == old(child.sent) + Answers(cs, responses)
            && child.unread == cs[|cs| - 1].unread && child.buffer == cs[|cs| - 1].buffer
  {
    ItemsAreEntries(patterns);
    output := RunLoop(child, Items(patterns), responses, EntriesOf(patterns));
  }

  method RunLoop(child: Spawn, items: seq<Item>, responses: seq<string>, ghost entries: seq<Entry>) returns (output: string)
    requires entries == Entries(items) && Positive(entries) && forall k :: 0 <= k < |entries| ==> entries[k].index < |responses|
    requires LastIndex(items, EofItem) == -1 && LastIndex(items, TimeoutItem) == -1
    modifies child
    ensures var cs := Calls(entries, old(child.buffer), old(child.unread));
            && output == Gathered(cs)
            && child.sent == old(child.sent) + Answers(cs, responses)
            && child.unread == Last(cs).unread && child.buffer == Last(cs).buffer
  {
    ghost var cs := Calls(entries, child.buffer, child.unread);
    output := "";
    while true
      invariant output + Gathered(Calls(entries, child.buffer, child.unread)) == Gathered(cs)
      invariant child.sent + Answers(Calls(entries, child.buffer, child.unread), responses)
                == old(child.sent) + Answers(cs, responses)
      invariant Last(Calls(entries, child.buffer, child.unread)) == Last(cs)
      decreases |child.Remaining()|
    {
      MatchTakes(entries, child.buffer, child.unread);
      RestOf(entries, child.buffer, child.unread, responses);
      var reply := child.ExpectList(items, None);
      match reply
      case RaisedEof =>
        output := output + child.before;
        return;
      case RaisedTimeout =>
        output := output + child.before;
        return;
      case Index(i) =>
        ghost var later := Calls(entries, child.buffer, child.unread);
        Assoc(output, child.before + child.after.text, Gathered(later));
        output := output + (child.before + child.after.text);
        Assoc(child.sent, [responses[i]], Answers(later, responses));
        child.Send(responses[i]);
    }
  }

  ghost function Last(cs: seq<Result>): Result
    requires cs != []
  {
    cs[|cs| - 1]
  }
}
